/** Log retention over the life of a directory: rolls and restarts in any order. */
module LogRestarts {
  import opened LogNames
  import opened LogRetention
  import opened StableSort
  import opened Text

  datatype Event = Restart(listing: seq<string>) | Roll(size: nat, tag: string)

  function Step(cfg: Config, l: Log, e: Event): (r: Result<Log, Fault>)
    requires |l.queue| <= cfg.maxRemain
    ensures r.Success? ==> |r.value.queue| <= cfg.maxRemain
  {
    match e
    case Restart(listing) => Restarted(cfg, l, listing)
    case Roll(size, tag) => Success(Rolled(cfg, l, size, tag))
  }

  /** The state after a run, until the first fault. */
  function After(cfg: Config, directory: set<string>, events: seq<Event>): (r: Result<Log, Fault>)
    ensures r.Success? ==> |r.value.queue| <= cfg.maxRemain
  {
    if events == [] then Success(Log(directory, []))
    else match After(cfg, directory, events[..|events| - 1])
         case Failure(e) => Failure(e)
         case Success(l) => Step(cfg, l, events[|events| - 1])
  }

  lemma {:induction false} AfterFails(cfg: Config, directory: set<string>, events: seq<Event>, i: nat)
    requires i <= |events| && After(cfg, directory, events[..i]).Failure?
    ensures After(cfg, directory, events) == After(cfg, directory, events[..i])
  {
    if i == |events| {
      assert events[..i] == events;
    } else {
      assert events[..|events| - 1][..i] == events[..i];
      AfterFails(cfg, directory, events[..|events| - 1], i);
    }
  }

  lemma AfterNext(cfg: Config, directory: set<string>, events: seq<Event>, e: Event)
    ensures After(cfg, directory, events + [e])
            == match After(cfg, directory, events) case Failure(f) => Failure(f) case Success(l) => Step(cfg, l, e)
  {
    AppendOne(events, e);
  }

  /** The writer performs the run. */
  method Perform(w: Writer, events: seq<Event>) returns (fault: Option<Fault>)
    requires w.queue == []
    modifies w
    ensures match After(w.cfg, old(w.directory), events)
            case Failure(e) => fault == Some(e)
            case Success(l) => fault == None && w.State() == l
  {
    ghost var directory := w.directory;
    for k := 0 to |events|
      invariant After(w.cfg, directory, events[..k]) == Success(w.State())
    {
      TakeMore(events, k);
      AfterNext(w.cfg, directory, events[..k], events[k]);
      match events[k]
      case Restart(listing) =>
        fault := w.Start(listing);
        if fault.Some? {
          AfterFails(w.cfg, directory, events, k + 1);
          return;
        }
      case Roll(size, tag) =>
        w.Reopen(size, tag);
    }
    assert events[..|events|] == events;
    return None;
  }

  // ---- The runs the system makes

  /** The tags of the rolls that found a current file with something in it. */
  function Tags(events: seq<Event>): seq<string> {
    if events == [] then []
    else Tags(events[..|events| - 1]) + TagOf(events[|events| - 1])
  }

  function TagOf(e: Event): seq<string> {
    if e.Roll? && e.size > 0 then [e.tag] else []
  }

  function Names(cfg: Config, tags: seq<string>): seq<string> {
    if tags == [] then [] else Names(cfg, tags[..|tags| - 1]) + [RollName(cfg, tags[|tags| - 1])]
  }

  /** The tags are times, each later than those before it. */
  ghost predicate Increasing(cfg: Config, tags: seq<string>) {
    && (forall i :: 0 <= i < |tags| ==> cfg.parse(tags[i]).Some?)
    && forall i, j :: 0 <= i < j < |tags| ==> cfg.parse(tags[i]).value < cfg.parse(tags[j]).value
  }

  /** A restart lists the directory as it is, in any order, and every roll bears a later time than those before. */
  ghost predicate Legal(cfg: Config, directory: set<string>, events: seq<Event>) {
    Increasing(cfg, Tags(events)) && ListsTruly(cfg, directory, events)
  }

  ghost predicate ListsTruly(cfg: Config, directory: set<string>, events: seq<Event>) {
    events == []
    || (var init, last := events[..|events| - 1], events[|events| - 1];
        && ListsTruly(cfg, directory, init)
        && (last.Restart? && After(cfg, directory, init).Success?
            ==> multiset(last.listing) == multiset(After(cfg, directory, init).value.directory)))
  }

  /** A file that the scan passes over. */
  predicate Foreign(cfg: Config, name: string) {
    Named(cfg, name) ==> SliceFits(cfg, name) && !Accepted(cfg, name)
  }

  /** The other files of the directory, the current log file among them: none a roll can write, and none the scan takes. */
  ghost predicate Others(cfg: Config, others: set<string>) {
    && (forall x :: x in others ==> Foreign(cfg, x))
    && (forall tag :: cfg.parse(tag).Some? ==> RollName(cfg, tag) !in others)
  }

  /** The suffix lies behind every tag. */
  ghost predicate SuffixesLast(cfg: Config) {
    forall tag :: cfg.parse(tag).Some? ==> SuffixLast(cfg, tag)
  }

  // ---- Names and times

  lemma {:induction false} NamesAt(cfg: Config, tags: seq<string>, i: nat)
    requires i < |tags|
    ensures |Names(cfg, tags)| == |tags| && Names(cfg, tags)[i] == RollName(cfg, tags[i])
  {
    if i < |tags| - 1 {
      NamesAt(cfg, tags[..|tags| - 1], i);
    } else {
      NamesCount(cfg, tags);
      NamesCount(cfg, tags[..i]);
    }
  }

  lemma {:induction false} NamesCount(cfg: Config, tags: seq<string>)
    ensures |Names(cfg, tags)| == |tags|
  {
    if tags != [] {
      NamesCount(cfg, tags[..|tags| - 1]);
    }
  }

  /** Two tags give two names. */
  lemma RollNameInjective(cfg: Config, a: string, b: string)
    requires RollName(cfg, a) == RollName(cfg, b)
    ensures a == b
  {
    TagOfRoll(cfg, a);
    TagOfRoll(cfg, b);
    assert |RollName(cfg, a)| == |RollName(cfg, b)|;
  }

  predicate Distinct(s: seq<string>) {
    forall i, j :: 0 <= i < j < |s| ==> s[i] != s[j]
  }

  lemma NamesDistinct(cfg: Config, tags: seq<string>)
    requires Increasing(cfg, tags)
    ensures Distinct(Names(cfg, tags)) && |Names(cfg, tags)| == |tags|
  {
    NamesCount(cfg, tags);
    forall i, j | 0 <= i < j < |tags| ensures Names(cfg, tags)[i] != Names(cfg, tags)[j] {
      NamesAt(cfg, tags, i);
      NamesAt(cfg, tags, j);
      if RollName(cfg, tags[i]) == RollName(cfg, tags[j]) {
        RollNameInjective(cfg, tags[i], tags[j]);
      }
    }
  }

  /** The time the scan reads of a rolled file is the roll's. */
  lemma TimeOfRoll(cfg: Config, tag: string)
    requires cfg.fileName != "" && '-' !in cfg.fileName && cfg.parse(tag).Some? && SuffixLast(cfg, tag)
    ensures Accepted(cfg, RollName(cfg, tag)) && TimeOf(cfg, RollName(cfg, tag)) == cfg.parse(tag).value
    ensures Index(RollName(cfg, tag), "-") == |cfg.fileName|
    ensures Index(RollName(cfg, tag), cfg.suffix) == |cfg.fileName| + 1 + |tag|
  {
    ReadBackIfLast(cfg, tag);
    DashAt(cfg, tag);
  }

  // ---- A roll on a directory of files of its own and others

  /** The directory holds the base and the queued files; the queue the newest of a history. */
  ghost predicate Holds(n: nat, l: Log, base: set<string>, history: seq<string>) {
    l == Log(base + Elements(Newest(history, n)), Newest(history, n))
  }

  lemma PushElements(base: set<string>, q: seq<string>, file: string)
    requires q != [] && Distinct(q + [file]) && q[0] !in base
    ensures (base + Elements(q) + {file}) - {q[0]} == base + Elements(q[1..] + [file])
  {
    var r := q + [file];
    assert q[1..] + [file] == r[1..];
    assert r[0] == q[0] && r[|q|] == file && Elements(r) == Elements(q) + {file};
    assert Elements(r) == {r[0]} + Elements(r[1..]) by {
      assert r == [r[0]] + r[1..];
    }
    assert r[0] !in Elements(r[1..]);
  }

  lemma NewestDistinct(history: seq<string>, file: string, n: nat)
    requires Distinct(history + [file])
    ensures Distinct(Newest(history, n) + [file])
  {
    var r := history + [file];
    if |history| > n {
      assert Newest(history, n) + [file] == r[|history| - n..];
    }
  }

  lemma PushHolds(n: nat, l: Log, base: set<string>, history: seq<string>, file: string)
    requires n > 0 && Holds(n, l, base, history) && Distinct(history + [file])
    requires forall x :: x in history ==> x !in base
    ensures |l.queue| <= n && Holds(n, Pushed(n, Log(l.directory + {file}, l.queue), file), base, history + [file])
  {
    var q := Newest(history, n);
    NewestOneMore(history, file, n);
    if |q| == n {
      assert q[0] in history;
      NewestDistinct(history, file, n);
      PushElements(base, q, file);
    } else {
      assert base + Elements(q) + {file} == base + Elements(q + [file]);
    }
  }

  // ---- A restart

  /** No name on which the scan would slice out of range. */
  predicate Clear(cfg: Config, listing: seq<string>) {
    forall i :: 0 <= i < |listing| ==> Accepted(cfg, listing[i]) || Foreign(cfg, listing[i])
  }

  lemma CountOneMore(s: seq<string>, y: string, x: string)
    ensures multiset(s + [y])[x] == multiset(s)[x] + if x == y then 1 else 0
  {
  }

  function Taken(cfg: Config, name: string): seq<string> {
    if Accepted(cfg, name) then [name] else []
  }

  lemma ScanLast(cfg: Config, listing: seq<string>, before: seq<string>)
    requires listing != [] && Scan(cfg, listing[..|listing| - 1]) == Success(before)
    requires Accepted(cfg, listing[|listing| - 1]) || Foreign(cfg, listing[|listing| - 1])
    ensures Scan(cfg, listing) == Success(before + Taken(cfg, listing[|listing| - 1]))
  {
    assert before + [] == before;
  }

  /** The scan takes up every accepted name as often as it is listed, and no other. */
  lemma {:induction false} ScanCounts(cfg: Config, listing: seq<string>, x: string)
    requires Clear(cfg, listing)
    ensures Scan(cfg, listing).Success?
    ensures multiset(Scan(cfg, listing).value)[x] == if Accepted(cfg, x) then multiset(listing)[x] else 0
  {
    if listing != [] {
      var init, last := listing[..|listing| - 1], listing[|listing| - 1];
      SplitLast(listing);
      ScanCounts(cfg, init, x);
      CountOneMore(init, last, x);
      var before := Scan(cfg, init).value;
      CountOneMore(before, last, x);
      ScanLast(cfg, listing, before);
    }
  }

  lemma {:induction false} DistinctCounts(s: seq<string>, x: string)
    requires Distinct(s)
    ensures multiset(s)[x] == if x in s then 1 else 0
  {
    if s != [] {
      DistinctCounts(s[1..], x);
      assert s == [s[0]] + s[1..];
    }
  }

  /** The scan finds exactly the files that are not foreign. */
  lemma ScanFinds(cfg: Config, listing: seq<string>, base: set<string>, own: seq<string>)
    requires Distinct(own) && multiset(listing) == multiset(base + Elements(own))
    requires forall x :: x in base ==> Foreign(cfg, x)
    requires forall x :: x in own ==> Accepted(cfg, x)
    ensures Scan(cfg, listing).Success? && multiset(Scan(cfg, listing).value) == multiset(own)
  {
    forall i | 0 <= i < |listing| ensures Accepted(cfg, listing[i]) || Foreign(cfg, listing[i]) {
      assert listing[i] in multiset(listing);
    }
    assert Clear(cfg, listing);
    ScanCounts(cfg, listing, "");
    var files := Scan(cfg, listing).value;
    forall x ensures multiset(files)[x] == multiset(own)[x] {
      ScanCounts(cfg, listing, x);
      DistinctCounts(own, x);
    }
    assert multiset(files) == multiset(own);
  }

  /** Accepted files of one layout, each later than those before it. */
  ghost predicate InOrder(cfg: Config, width: nat, s: seq<string>) {
    && (forall i :: 0 <= i < |s| ==> OneLayout(cfg, width, s[i]))
    && forall i, j :: 0 <= i < j < |s| ==> TimeOf(cfg, s[i]) < TimeOf(cfg, s[j])
  }

  predicate OneLayout(cfg: Config, width: nat, name: string) {
    && Accepted(cfg, name)
    && Index(name, "-") == |cfg.fileName| && Index(name, cfg.suffix) == |cfg.fileName| + 1 + width
  }

  /** The sort puts any arrangement of such files back in order. */
  lemma SortsBack(cfg: Config, width: nat, files: seq<string>, own: seq<string>)
    requires InOrder(cfg, width, own) && multiset(files) == multiset(own)
    ensures SortNames(cfg, files) == Success(own)
  {
    forall i | 0 <= i < |files| ensures OneLayout(cfg, width, files[i]) {
      assert files[i] in multiset(files);
    }
    SortNamesByTime(cfg, files);
    SortedMembers(ByTime(cfg), files);
    ByTimeWeak(cfg);
    SortedAscending(ByTime(cfg), files);
    AscendingUnique(ByTime(cfg), own, Sorted(ByTime(cfg), files));
  }

  /** A restart reads back the queue it finds. */
  lemma RestartHolds(cfg: Config, width: nat, l: Log, base: set<string>, history: seq<string>, listing: seq<string>)
    requires cfg.maxRemain > 0 && Holds(cfg.maxRemain, l, base, history)
    requires multiset(listing) == multiset(l.directory) && InOrder(cfg, width, history)
    requires forall x :: x in base ==> Foreign(cfg, x)
    ensures Restarted(cfg, l, listing) == Success(l)
  {
    var own, n := Newest(history, cfg.maxRemain), cfg.maxRemain;
    assert InOrder(cfg, width, own);
    assert Distinct(own);
    ScanFinds(cfg, listing, base, own);
    SortsBack(cfg, width, Scan(cfg, listing).value, own);
    PushedAllKeepsNewest(n, l.directory, own);
    assert Elements([]) == {} && l.directory - {} == l.directory;
  }

  /** A restart that finds foreign files alone starts with an empty queue. */
  lemma RestartForgets(cfg: Config, l: Log, listing: seq<string>)
    requires cfg.maxRemain > 0 && multiset(listing) == multiset(l.directory)
    requires forall x :: x in l.directory ==> Foreign(cfg, x)
    ensures Restarted(cfg, l, listing) == Success(Log(l.directory, []))
  {
    assert l.directory + Elements([]) == l.directory;
    ScanFinds(cfg, listing, l.directory, []);
    var files := Scan(cfg, listing).value;
    assert |files| == |multiset(files)| == 0;
  }

  lemma NamesInOrder(cfg: Config, width: nat, tags: seq<string>)
    requires cfg.fileName != "" && '-' !in cfg.fileName && OneWidth(cfg, width) && SuffixesLast(cfg) && Increasing(cfg, tags)
    ensures InOrder(cfg, width, Names(cfg, tags))
  {
    NamesCount(cfg, tags);
    forall i | 0 <= i < |tags|
      ensures OneLayout(cfg, width, Names(cfg, tags)[i]) && TimeOf(cfg, Names(cfg, tags)[i]) == cfg.parse(tags[i]).value
    {
      NamesAt(cfg, tags, i);
      TimeOfRoll(cfg, tags[i]);
    }
  }

  // ---- Without a dash in the file name

  function History(cfg: Config, events: seq<Event>): seq<string> {
    Names(cfg, Tags(events))
  }

  lemma IncreasingParts(cfg: Config, a: seq<string>, b: seq<string>)
    requires Increasing(cfg, a + b)
    ensures Increasing(cfg, a) && Increasing(cfg, b)
  {
    assert forall i :: 0 <= i < |a| ==> a[i] == (a + b)[i];
    assert forall i :: 0 <= i < |b| ==> b[i] == (a + b)[|a| + i];
  }

  lemma LegalBefore(cfg: Config, directory: set<string>, events: seq<Event>)
    requires events != [] && Legal(cfg, directory, events)
    ensures Legal(cfg, directory, events[..|events| - 1])
    ensures Tags(events) == Tags(events[..|events| - 1]) + TagOf(events[|events| - 1])
  {
    IncreasingParts(cfg, Tags(events[..|events| - 1]), TagOf(events[|events| - 1]));
  }

  lemma OneMoreName(cfg: Config, tags: seq<string>, tag: string)
    ensures Names(cfg, tags + [tag]) == Names(cfg, tags) + [RollName(cfg, tag)]
  {
    AppendOne(tags, tag);
  }

  /** None of the names is that of another file. */
  lemma NamesAreOwn(cfg: Config, others: set<string>, tags: seq<string>, x: string)
    requires Others(cfg, others) && Increasing(cfg, tags) && x in Names(cfg, tags)
    ensures x !in others
  {
    NamesCount(cfg, tags);
    var i :| 0 <= i < |tags| && Names(cfg, tags)[i] == x;
    NamesAt(cfg, tags, i);
  }

  /** One roll of a run, on the files queued so far. */
  lemma RollHolds(cfg: Config, l: Log, base: set<string>, tags: seq<string>, size: nat, tag: string)
    requires cfg.maxRemain > 0 && size > 0 && Holds(cfg.maxRemain, l, base, Names(cfg, tags))
    requires Increasing(cfg, tags + [tag]) && forall x :: x in Names(cfg, tags) ==> x !in base
    ensures |l.queue| <= cfg.maxRemain
    ensures Holds(cfg.maxRemain, Rolled(cfg, l, size, tag), base, Names(cfg, tags + [tag]))
  {
    NamesDistinct(cfg, tags + [tag]);
    OneMoreName(cfg, tags, tag);
    PushHolds(cfg.maxRemain, l, base, Names(cfg, tags), RollName(cfg, tag));
  }

  /**
   * Over any run of rolls and restarts the directory holds, beside the other files, exactly the newest rolled
   * files up to the bound, and the queue holds these in order.
   */
  lemma {:induction false} RetentionOverRestarts(cfg: Config, width: nat, others: set<string>, events: seq<Event>)
    requires cfg.maxRemain > 0 && cfg.fileName != "" && '-' !in cfg.fileName && OneWidth(cfg, width) && SuffixesLast(cfg)
    requires Others(cfg, others) && Legal(cfg, others, events)
    ensures After(cfg, others, events).Success?
    ensures Holds(cfg.maxRemain, After(cfg, others, events).value, others, History(cfg, events))
  {
    if events == [] {
      assert others + Elements([]) == others;
    } else {
      var init, last := events[..|events| - 1], events[|events| - 1];
      LegalBefore(cfg, others, events);
      RetentionOverRestarts(cfg, width, others, init);
      var l := After(cfg, others, init).value;
      match last
      case Restart(listing) =>
        assert TagOf(last) == [] && Tags(init) + [] == Tags(init);
        NamesInOrder(cfg, width, Tags(init));
        RestartHolds(cfg, width, l, others, History(cfg, init), listing);
      case Roll(size, tag) =>
        if size == 0 {
          assert TagOf(last) == [] && Tags(init) + [] == Tags(init);
        } else {
          forall x | x in History(cfg, init) ensures x !in others {
            NamesAreOwn(cfg, others, Tags(init), x);
          }
          RollHolds(cfg, l, others, Tags(init), size, tag);
        }
    }
  }

  // ---- With a dash in the file name

  /** The tags rolled since the last restart. */
  function Current(events: seq<Event>): seq<string> {
    if events == [] || events[|events| - 1].Restart? then []
    else Current(events[..|events| - 1]) + TagOf(events[|events| - 1])
  }

  /** The files that the processes before the last restart left behind: the newest of each. */
  function Left(cfg: Config, events: seq<Event>): set<string> {
    if events == [] then {}
    else
      var init := events[..|events| - 1];
      if events[|events| - 1].Restart? then Left(cfg, init) + Elements(Newest(Names(cfg, Current(init)), cfg.maxRemain))
      else Left(cfg, init)
  }

  function Done(events: seq<Event>): seq<string> {
    if events == [] then []
    else
      var init := events[..|events| - 1];
      if events[|events| - 1].Restart? then Tags(init) else Done(init)
  }

  lemma {:induction false} TagsSplit(events: seq<Event>)
    ensures Tags(events) == Done(events) + Current(events)
  {
    if events != [] {
      var init, last := events[..|events| - 1], events[|events| - 1];
      if last.Restart? {
        assert Tags(init) + [] == Tags(init);
      } else {
        TagsSplit(init);
        assert (Done(init) + Current(init)) + TagOf(last) == Done(init) + (Current(init) + TagOf(last));
      }
    }
  }

  lemma {:induction false} NamesConcat(cfg: Config, a: seq<string>, b: seq<string>)
    ensures Names(cfg, a + b) == Names(cfg, a) + Names(cfg, b)
  {
    if b == [] {
      AppendNone(a);
      AppendNone(Names(cfg, a));
    } else {
      var init, last := b[..|b| - 1], b[|b| - 1];
      NamesConcat(cfg, a, init);
      SplitLast(b);
      ConcatAssociates(a, init, [last]);
      OneMoreName(cfg, a + init, last);
      ConcatAssociates(Names(cfg, a), Names(cfg, init), [RollName(cfg, last)]);
    }
  }

  lemma NewestWithin(all: seq<string>, n: nat)
    ensures Elements(Newest(all, n)) <= Elements(all)
  {
  }

  /** What earlier processes left behind, they rolled. */
  lemma {:induction false} LeftWasRolled(cfg: Config, events: seq<Event>)
    ensures Left(cfg, events) <= Elements(Names(cfg, Done(events)))
  {
    if events != [] {
      var init := events[..|events| - 1];
      LeftWasRolled(cfg, init);
      if events[|events| - 1].Restart? {
        TagsSplit(init);
        NamesConcat(cfg, Done(init), Current(init));
        NewestWithin(Names(cfg, Current(init)), cfg.maxRemain);
      }
    }
  }

  lemma DistinctParts(a: seq<string>, b: seq<string>, x: string)
    requires Distinct(a + b) && x in b
    ensures x !in a
  {
    var j :| 0 <= j < |b| && b[j] == x;
    assert (a + b)[|a| + j] == x;
    forall i | 0 <= i < |a| ensures a[i] != x {
      assert (a + b)[i] == a[i];
    }
  }

  /** No file of the running process is another file or was left behind. */
  lemma CurrentIsNew(cfg: Config, others: set<string>, events: seq<Event>, x: string)
    requires Others(cfg, others) && Increasing(cfg, Tags(events)) && x in Names(cfg, Current(events))
    ensures x !in others + Left(cfg, events)
  {
    TagsSplit(events);
    NamesConcat(cfg, Done(events), Current(events));
    NamesDistinct(cfg, Tags(events));
    DistinctParts(Names(cfg, Done(events)), Names(cfg, Current(events)), x);
    LeftWasRolled(cfg, events);
    NamesAreOwn(cfg, others, Tags(events), x);
  }

  lemma NamesAreForeign(cfg: Config, width: nat, tags: seq<string>, x: string)
    requires '-' in cfg.fileName && OneWidth(cfg, width) && SuffixesLast(cfg) && Increasing(cfg, tags) && x in Names(cfg, tags)
    ensures Foreign(cfg, x)
  {
    NamesCount(cfg, tags);
    var i :| 0 <= i < |tags| && Names(cfg, tags)[i] == x;
    NamesAt(cfg, tags, i);
    DashHides(cfg, width, tags[i]);
  }

  /** At a restart every file is foreign. */
  lemma AllAreForeign(cfg: Config, width: nat, others: set<string>, events: seq<Event>, x: string)
    requires '-' in cfg.fileName && OneWidth(cfg, width) && SuffixesLast(cfg)
    requires Others(cfg, others) && Increasing(cfg, Tags(events))
    requires x in others + Left(cfg, events) + Elements(Newest(Names(cfg, Current(events)), cfg.maxRemain))
    ensures Foreign(cfg, x)
  {
    if x !in others {
      TagsSplit(events);
      NamesConcat(cfg, Done(events), Current(events));
      LeftWasRolled(cfg, events);
      NewestWithin(Names(cfg, Current(events)), cfg.maxRemain);
      NamesAreForeign(cfg, width, Tags(events), x);
    }
  }

  lemma HiddenRestart(cfg: Config, width: nat, others: set<string>, events: seq<Event>, l: Log, listing: seq<string>)
    requires cfg.maxRemain > 0 && '-' in cfg.fileName && OneWidth(cfg, width) && SuffixesLast(cfg)
    requires Others(cfg, others) && Increasing(cfg, Tags(events)) && multiset(listing) == multiset(l.directory)
    requires Holds(cfg.maxRemain, l, others + Left(cfg, events), Names(cfg, Current(events)))
    ensures Restarted(cfg, l, listing) == Success(Log(l.directory, []))
  {
    forall x | x in l.directory ensures Foreign(cfg, x) {
      AllAreForeign(cfg, width, others, events, x);
    }
    RestartForgets(cfg, l, listing);
  }

  lemma HiddenRoll(cfg: Config, others: set<string>, events: seq<Event>, l: Log, size: nat, tag: string)
    requires cfg.maxRemain > 0 && size > 0 && events != [] && events[|events| - 1] == Roll(size, tag)
    requires Others(cfg, others) && Increasing(cfg, Tags(events[..|events| - 1])) && Increasing(cfg, Tags(events))
    requires var init := events[..|events| - 1];
             Holds(cfg.maxRemain, l, others + Left(cfg, init), Names(cfg, Current(init)))
    ensures |l.queue| <= cfg.maxRemain
    ensures Holds(cfg.maxRemain, Rolled(cfg, l, size, tag), others + Left(cfg, events), Names(cfg, Current(events)))
  {
    var init := events[..|events| - 1];
    forall x | x in Names(cfg, Current(init)) ensures x !in others + Left(cfg, init) {
      CurrentIsNew(cfg, others, init, x);
    }
    TagsSplit(events);
    IncreasingParts(cfg, Done(events), Current(events));
    RollHolds(cfg, l, others + Left(cfg, init), Current(init), size, tag);
  }

  /**
   * With a dash in the file name every process starts with an empty queue, keeps the newest of its own
   * rolled files alone, and leaves these behind for ever.
   */
  lemma {:induction false} HiddenFilesStay(cfg: Config, width: nat, others: set<string>, events: seq<Event>)
    requires cfg.maxRemain > 0 && '-' in cfg.fileName && OneWidth(cfg, width) && SuffixesLast(cfg)
    requires Others(cfg, others) && Legal(cfg, others, events)
    ensures After(cfg, others, events).Success?
    ensures Holds(cfg.maxRemain, After(cfg, others, events).value, others + Left(cfg, events), Names(cfg, Current(events)))
  {
    if events == [] {
      assert others + {} + Elements([]) == others;
    } else {
      var init, last := events[..|events| - 1], events[|events| - 1];
      LegalBefore(cfg, others, events);
      HiddenFilesStay(cfg, width, others, init);
      var l := After(cfg, others, init).value;
      match last
      case Restart(listing) =>
        HiddenRestart(cfg, width, others, init, l, listing);
        assert others + Left(cfg, events) + Elements([]) == l.directory;
      case Roll(size, tag) =>
        if size == 0 {
          assert TagOf(last) == [] && Current(init) + [] == Current(init);
        } else {
          HiddenRoll(cfg, others, events, l, size, tag);
        }
    }
  }

  // ---- Exactly when the newest files are kept

  /** The directory holds the other files and the newest rolled files. */
  ghost predicate KeepsNewest(cfg: Config, others: set<string>, events: seq<Event>) {
    && After(cfg, others, events).Success?
    && After(cfg, others, events).value.directory == others + Elements(Newest(History(cfg, events), cfg.maxRemain))
  }

  ghost predicate AlwaysKeepsNewest(cfg: Config, others: set<string>) {
    forall events :: Legal(cfg, others, events) ==> KeepsNewest(cfg, others, events)
  }

  lemma {:induction false} Listing(files: set<string>) returns (listing: seq<string>)
    ensures multiset(listing) == multiset(files)
  {
    if files == {} {
      listing := [];
    } else {
      var x :| x in files;
      var rest := Listing(files - {x});
      listing := [x] + rest;
    }
  }

  /** A roll, a restart, and the rolls of the next process. */
  function TwoProcesses(first: string, listing: seq<string>, rest: seq<string>): seq<Event> {
    if rest == [] then [Roll(1, first)] + [Restart(listing)]
    else TwoProcesses(first, listing, rest[..|rest| - 1]) + [Roll(1, rest[|rest| - 1])]
  }

  lemma EventsLast(events: seq<Event>, e: Event)
    ensures (events + [e])[..|events + [e]| - 1] == events
  {
  }

  lemma OneRoll(cfg: Config, others: set<string>, first: string)
    requires cfg.maxRemain > 0
    ensures Tags([Roll(1, first)]) == Current([Roll(1, first)]) == [first]
    ensures ListsTruly(cfg, others, [Roll(1, first)]) && Left(cfg, [Roll(1, first)]) == {}
    ensures After(cfg, others, [Roll(1, first)]) == Success(Log(others + {RollName(cfg, first)}, [RollName(cfg, first)]))
  {
    EventsLast([], Roll(1, first));
    assert [] + [Roll(1, first)] == [Roll(1, first)] && [] + [first] == [first];
    assert [] + [RollName(cfg, first)] == [RollName(cfg, first)];
  }

  lemma OneMoreRoll(cfg: Config, others: set<string>, events: seq<Event>, tag: string)
    requires ListsTruly(cfg, others, events)
    ensures var more := events + [Roll(1, tag)];
            && Tags(more) == Tags(events) + [tag] && Current(more) == Current(events) + [tag]
            && ListsTruly(cfg, others, more) && Left(cfg, more) == Left(cfg, events)
  {
    EventsLast(events, Roll(1, tag));
  }

  lemma RollAndRestart(cfg: Config, others: set<string>, first: string, listing: seq<string>)
    requires cfg.maxRemain > 0 && multiset(listing) == multiset(others + {RollName(cfg, first)})
    ensures var events := [Roll(1, first)] + [Restart(listing)];
            && Tags(events) == [first] && ListsTruly(cfg, others, events)
            && Left(cfg, events) == {RollName(cfg, first)} && Current(events) == []
  {
    EventsLast([Roll(1, first)], Restart(listing));
    OneRoll(cfg, others, first);
    OneMoreName(cfg, [], first);
    assert [] + [first] == [first] && [first] + [] == [first];
    assert Names(cfg, [first]) == [RollName(cfg, first)];
    assert Elements([RollName(cfg, first)]) == {RollName(cfg, first)};
  }

  lemma {:induction false} TwoProcessesRun(cfg: Config, others: set<string>, first: string, listing: seq<string>, rest: seq<string>)
    requires cfg.maxRemain > 0 && multiset(listing) == multiset(others + {RollName(cfg, first)})
    ensures var events := TwoProcesses(first, listing, rest);
            && Tags(events) == [first] + rest && ListsTruly(cfg, others, events)
            && Left(cfg, events) == {RollName(cfg, first)} && Current(events) == rest
  {
    if rest == [] {
      RollAndRestart(cfg, others, first, listing);
      assert [first] + [] == [first];
    } else {
      var init, last := rest[..|rest| - 1], rest[|rest| - 1];
      SplitLast(rest);
      TwoProcessesRun(cfg, others, first, listing, init);
      OneMoreRoll(cfg, others, TwoProcesses(first, listing, init), last);
      ConcatAssociates([first], init, [last]);
    }
  }

  /** The file of the first process outlives newer ones. */
  lemma OldFileStays(cfg: Config, width: nat, others: set<string>, first: string, rest: seq<string>)
    requires cfg.maxRemain > 0 && '-' in cfg.fileName && OneWidth(cfg, width) && SuffixesLast(cfg) && Others(cfg, others)
    requires Increasing(cfg, [first] + rest) && |rest| == cfg.maxRemain
    ensures !AlwaysKeepsNewest(cfg, others)
  {
    var listing := Listing(others + {RollName(cfg, first)});
    var events := TwoProcesses(first, listing, rest);
    TwoProcessesRun(cfg, others, first, listing, rest);
    HiddenFilesStay(cfg, width, others, events);
    NamesDistinct(cfg, [first] + rest);
    NamesConcat(cfg, [first], rest);
    OneMoreName(cfg, [], first);
    assert [] + [first] == [first] && Names(cfg, [first]) == [RollName(cfg, first)];
    NamesCount(cfg, rest);
    assert Newest([RollName(cfg, first)] + Names(cfg, rest), cfg.maxRemain) == Names(cfg, rest);
    if RollName(cfg, first) in Names(cfg, rest) {
      DistinctParts([RollName(cfg, first)], Names(cfg, rest), RollName(cfg, first));
    }
    IncreasingParts(cfg, [first], rest);
    assert cfg.parse([first][0]).Some?;
    assert !KeepsNewest(cfg, others, events);
  }

  lemma NewestAlwaysKept(cfg: Config, width: nat, others: set<string>)
    requires cfg.maxRemain > 0 && cfg.fileName != "" && OneWidth(cfg, width) && SuffixesLast(cfg) && Others(cfg, others)
    requires '-' !in cfg.fileName
    ensures AlwaysKeepsNewest(cfg, others)
  {
    forall events | Legal(cfg, others, events) ensures KeepsNewest(cfg, others, events) {
      RetentionOverRestarts(cfg, width, others, events);
    }
  }

  /**
   * Given more times than the bound, every run keeps exactly the newest rolled files if and only if the file
   * name holds no dash.
   */
  lemma NewestKeptIff(cfg: Config, width: nat, others: set<string>, tags: seq<string>)
    requires cfg.maxRemain > 0 && cfg.fileName != "" && OneWidth(cfg, width) && SuffixesLast(cfg) && Others(cfg, others)
    requires Increasing(cfg, tags) && |tags| == cfg.maxRemain + 1
    ensures AlwaysKeepsNewest(cfg, others) <==> '-' !in cfg.fileName
  {
    if '-' in cfg.fileName {
      SplitFirst(tags);
      OldFileStays(cfg, width, others, tags[0], tags[1..]);
    } else {
      NewestAlwaysKept(cfg, width, others);
    }
  }
}
