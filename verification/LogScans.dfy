/** Which files the startup scan takes up, said of their names, and that without a bound nothing is removed. */
module LogScans {
  import opened Text
  import opened LogNames
  import opened LogRetention
  import opened LogRestarts

  /** The part first stands at this place. */
  predicate FirstAt(s: string, part: string, i: int) {
    0 <= i <= |s| && HasPrefix(s[i..], part) && forall j :: 0 <= j < i ==> !HasPrefix(s[j..], part)
  }

  lemma FirstIff(s: string, part: string, i: nat)
    ensures Index(s, part) == i <==> FirstAt(s, part, i)
  {
    if Index(s, part) == i {
      forall j | 0 <= j < i ensures !HasPrefix(s[j..], part) {
        if HasPrefix(s[j..], part) {
          IndexFirst(s, part, j);
        }
      }
    }
    if FirstAt(s, part, i) {
      IndexIs(s, part, i);
    }
  }

  lemma ContainsIff(s: string, part: string)
    ensures Index(s, part) >= 0 <==> exists i :: 0 <= i <= |s| && HasPrefix(s[i..], part)
  {
    if i: nat :| i <= |s| && HasPrefix(s[i..], part) {
      IndexFirst(s, part, i);
    }
  }

  /** The name holds the process's name, and its first dash and first suffix stand behind its start. */
  ghost predicate LooksRolled(cfg: Config, name: string, dash: int, end: int) {
    && (exists i :: 0 <= i <= |name| && HasPrefix(name[i..], cfg.fileName))
    && FirstAt(name, "-", dash) && FirstAt(name, cfg.suffix, end) && 0 < dash && 0 < end
  }

  lemma NamedIff(cfg: Config, name: string, dash: nat, end: nat)
    ensures Named(cfg, name) && Index(name, "-") == dash && Index(name, cfg.suffix) == end <==> LooksRolled(cfg, name, dash, end)
  {
    ContainsIff(name, cfg.fileName);
    FirstIff(name, "-", dash);
    FirstIff(name, cfg.suffix, end);
  }

  /** The scan takes a file for a rolled one when what stands between its first dash and its first suffix is a time. */
  lemma AcceptedIff(cfg: Config, name: string)
    ensures Accepted(cfg, name)
            <==> exists dash, end :: LooksRolled(cfg, name, dash, end) && dash < end && cfg.parse(name[dash + 1..end]).Some?
  {
    if Accepted(cfg, name) {
      NamedIff(cfg, name, Index(name, "-"), Index(name, cfg.suffix));
    }
    if dash: nat, end: nat :| LooksRolled(cfg, name, dash, end) && dash < end && cfg.parse(name[dash + 1..end]).Some? {
      NamedIff(cfg, name, dash, end);
    }
  }

  /** The scan ends the process when a file looks rolled but has its first suffix no later than its first dash. */
  lemma {:induction false} ScanFaultsIff(cfg: Config, names: seq<string>)
    ensures Scan(cfg, names).Failure?
            <==> exists k, dash, end :: 0 <= k < |names| && LooksRolled(cfg, names[k], dash, end) && end <= dash
  {
    if names != [] {
      var n := |names| - 1;
      ScanFaultsIff(cfg, names[..n]);
      assert forall k :: 0 <= k < n ==> names[..n][k] == names[k];
      MisfitIff(cfg, names[n]);
    }
  }

  lemma MisfitIff(cfg: Config, name: string)
    ensures Named(cfg, name) && !SliceFits(cfg, name) <==> exists dash, end :: LooksRolled(cfg, name, dash, end) && end <= dash
  {
    if Named(cfg, name) && !SliceFits(cfg, name) {
      NamedIff(cfg, name, Index(name, "-"), Index(name, cfg.suffix));
    }
    if dash: nat, end: nat :| LooksRolled(cfg, name, dash, end) && end <= dash {
      NamedIff(cfg, name, dash, end);
    }
  }

  /** Otherwise it takes up exactly the files that it takes for rolled ones. */
  lemma {:induction false} ScanTakes(cfg: Config, names: seq<string>, name: string)
    requires Scan(cfg, names).Success?
    ensures multiset(Scan(cfg, names).value)[name] == if Accepted(cfg, name) then multiset(names)[name] else 0
  {
    if names != [] {
      var rest, last := names[..|names| - 1], names[|names| - 1];
      ScanTakes(cfg, rest, name);
      SplitLast(names);
      assert multiset(rest + [last]) == multiset(rest) + multiset{last};
      assert multiset(Scan(cfg, rest).value + [last]) == multiset(Scan(cfg, rest).value) + multiset{last};
    }
  }

  /** Without a bound no run removes a file: every file that was there and every rolled one stays. */
  lemma {:induction false} UnboundedKeepsAll(cfg: Config, directory: set<string>, events: seq<Event>)
    requires cfg.maxRemain == 0
    ensures After(cfg, directory, events).Success?
    ensures forall file :: file in After(cfg, directory, events).value.directory
              <==> file in directory || exists k :: 0 <= k < |events| && events[k].Roll? && events[k].size > 0
                                                    && file == cfg.fileName + "-" + events[k].tag + cfg.suffix
  {
    if events != [] {
      var n := |events| - 1;
      UnboundedKeepsAll(cfg, directory, events[..n]);
      assert forall k :: 0 <= k < n ==> events[..n][k] == events[k];
    }
  }
}
