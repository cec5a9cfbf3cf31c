/** The names of rolled log files: how a roll names its file, and when the startup scan reads that name back. */
module LogNames {
  import opened Text

  /** The writer's settings; parse is time.Parse with the configured layout, None an error. */
  datatype Config = Config(fileName: string, suffix: string, maxRemain: nat, parse: string -> Option<int>)

  datatype Fault = SliceOutOfRange

  /** strings.Index. */
  function Index(s: string, part: string): (i: int)
    ensures -1 <= i <= |s|
    ensures i >= 0 ==> HasPrefix(s[i..], part)
  {
    if HasPrefix(s, part) then 0
    else if s == "" then -1
    else
      var i := Index(s[1..], part);
      assert i >= 0 ==> s[1..][i..] == s[i + 1..];
      if i < 0 then -1 else i + 1
  }

  /** It is the first occurrence. */
  lemma {:induction false} IndexIs(s: string, part: string, k: nat)
    requires k <= |s| && HasPrefix(s[k..], part)
    requires forall j :: 0 <= j < k ==> !HasPrefix(s[j..], part)
    ensures Index(s, part) == k
  {
    if k > 0 {
      assert s[0..] == s;
      forall j | 0 <= j < k - 1 ensures !HasPrefix(s[1..][j..], part) {
        assert s[1..][j..] == s[j + 1..];
      }
      assert s[1..][k - 1..] == s[k..];
      IndexIs(s[1..], part, k - 1);
    }
  }

  lemma {:induction false} IndexFirst(s: string, part: string, j: nat)
    requires j <= |s| && HasPrefix(s[j..], part)
    ensures 0 <= Index(s, part) <= j
  {
    if j > 0 && !HasPrefix(s, part) {
      assert s[1..][j - 1..] == s[j..];
      IndexFirst(s[1..], part, j - 1);
    } else {
      assert s[0..] == s;
    }
  }

  /** The part does not start at a place that holds another character. */
  lemma StartsElsewhere(s: string, part: string, j: nat)
    requires j < |s| && part != "" && s[j] != part[0]
    ensures !HasPrefix(s[j..], part)
  {
    OtherPrefix(s[j..], part);
  }

  // ---- What the scan reads

  predicate Named(cfg: Config, name: string) {
    Index(name, cfg.fileName) >= 0 && Index(name, cfg.suffix) >= 0
    && Index(name, "-") > 0 && Index(name, cfg.suffix) > 0
  }

  /** The time tag lies between the first dash and the suffix; a suffix before the dash is a slice out of range. */
  predicate SliceFits(cfg: Config, name: string) {
    Index(name, "-") + 1 <= Index(name, cfg.suffix)
  }

  function TimeTag(cfg: Config, name: string): string
    requires Named(cfg, name) && SliceFits(cfg, name)
  {
    name[Index(name, "-") + 1..Index(name, cfg.suffix)]
  }

  /** The scan takes the file for a rolled one. */
  predicate Accepted(cfg: Config, name: string) {
    Named(cfg, name) && SliceFits(cfg, name) && cfg.parse(TimeTag(cfg, name)).Some?
  }

  /** The files of a directory that the scan takes for rolled ones. */
  function Scan(cfg: Config, names: seq<string>): Result<seq<string>, Fault> {
    if names == [] then Success([])
    else match Scan(cfg, names[..|names| - 1])
         case Failure(e) => Failure(e)
         case Success(before) =>
           var last := names[|names| - 1];
           if Named(cfg, last) && !SliceFits(cfg, last) then Failure(SliceOutOfRange)
           else Success(if Accepted(cfg, last) then before + [last] else before)
  }

  lemma {:induction false} ScanFails(cfg: Config, names: seq<string>, i: nat)
    requires i <= |names| && Scan(cfg, names[..i]).Failure?
    ensures Scan(cfg, names) == Scan(cfg, names[..i])
  {
    if i == |names| {
      assert names[..i] == names;
    } else {
      assert names[..|names| - 1][..i] == names[..i];
      ScanFails(cfg, names[..|names| - 1], i);
    }
  }

  // ---- What a roll writes

  /** GenLogFileName, without the directory. */
  function RollName(cfg: Config, tag: string): string {
    cfg.fileName + "-" + tag + cfg.suffix
  }

  /** The suffix first occurs where the roll wrote it. */
  predicate SuffixLast(cfg: Config, tag: string) {
    Index(RollName(cfg, tag), cfg.suffix) == |cfg.fileName| + 1 + |tag|
  }

  /** The scan takes the roll's file, and reads the tag that the roll wrote. */
  predicate ReadsBack(cfg: Config, tag: string) {
    Accepted(cfg, RollName(cfg, tag)) && TimeTag(cfg, RollName(cfg, tag)) == tag
  }

  /** All texts that the layout parses have one length, as those of "2006-01-02" have. */
  ghost predicate OneWidth(cfg: Config, width: nat) {
    forall tag :: cfg.parse(tag).Some? ==> |tag| == width
  }

  lemma DashAt(cfg: Config, tag: string)
    ensures '-' !in cfg.fileName ==> Index(RollName(cfg, tag), "-") == |cfg.fileName|
    ensures '-' in cfg.fileName ==> 0 <= Index(RollName(cfg, tag), "-") < |cfg.fileName|
  {
    var name := RollName(cfg, tag);
    if '-' in cfg.fileName {
      var k :| 0 <= k < |cfg.fileName| && cfg.fileName[k] == '-';
      assert name[k..][0] == '-' && name[k..][..1] == "-";
      IndexFirst(name, "-", k);
    } else {
      assert name[|cfg.fileName|..][..1] == "-";
      forall j | 0 <= j < |cfg.fileName| ensures !HasPrefix(name[j..], "-") {
        assert name[j] == cfg.fileName[j];
        StartsElsewhere(name, "-", j);
      }
      IndexIs(name, "-", |cfg.fileName|);
    }
  }

  lemma RollIsNamed(cfg: Config, tag: string)
    ensures Index(RollName(cfg, tag), cfg.fileName) == 0
    ensures 0 <= Index(RollName(cfg, tag), cfg.suffix) <= |cfg.fileName| + 1 + |tag|
  {
    var name := RollName(cfg, tag);
    assert name[..|cfg.fileName|] == cfg.fileName;
    assert name[|cfg.fileName| + 1 + |tag|..] == cfg.suffix;
    IndexFirst(name, cfg.suffix, |cfg.fileName| + 1 + |tag|);
  }

  lemma TagOfRoll(cfg: Config, tag: string)
    ensures |cfg.fileName| + 1 + |tag| <= |RollName(cfg, tag)|
    ensures RollName(cfg, tag)[|cfg.fileName| + 1..|cfg.fileName| + 1 + |tag|] == tag
  {
  }

  lemma ReadsBetween(cfg: Config, name: string, start: nat, end: nat)
    requires Index(name, "-") + 1 == start && Index(name, cfg.suffix) == end && 1 < start <= end <= |name|
    requires Index(name, cfg.fileName) >= 0 && cfg.parse(name[start..end]).Some?
    ensures Accepted(cfg, name) && TimeTag(cfg, name) == name[start..end]
  {
    assert Named(cfg, name) && SliceFits(cfg, name);
  }

  lemma ReadBackIfLast(cfg: Config, tag: string)
    requires cfg.fileName != "" && '-' !in cfg.fileName && cfg.parse(tag).Some? && SuffixLast(cfg, tag)
    ensures ReadsBack(cfg, tag)
  {
    DashAt(cfg, tag);
    RollIsNamed(cfg, tag);
    TagOfRoll(cfg, tag);
    ReadsBetween(cfg, RollName(cfg, tag), |cfg.fileName| + 1, |cfg.fileName| + 1 + |tag|);
  }

  lemma ReadBackOnlyIfLast(cfg: Config, tag: string)
    requires '-' !in cfg.fileName && ReadsBack(cfg, tag)
    ensures SuffixLast(cfg, tag)
  {
    DashAt(cfg, tag);
    var name := RollName(cfg, tag);
    assert |TimeTag(cfg, name)| == Index(name, cfg.suffix) - (Index(name, "-") + 1);
  }

  /** Without a dash in the file name, a tag is read back exactly when the suffix first occurs behind it. */
  lemma ReadBackWithoutDash(cfg: Config, tag: string)
    requires cfg.fileName != "" && '-' !in cfg.fileName && cfg.parse(tag).Some?
    ensures ReadsBack(cfg, tag) <==> SuffixLast(cfg, tag)
  {
    if SuffixLast(cfg, tag) {
      ReadBackIfLast(cfg, tag);
    } else if ReadsBack(cfg, tag) {
      ReadBackOnlyIfLast(cfg, tag);
    }
  }

  /** With a dash in the file name the tag that is read is too long, and the scan passes the file over. */
  lemma DashHides(cfg: Config, width: nat, tag: string)
    requires OneWidth(cfg, width) && '-' in cfg.fileName && SuffixLast(cfg, tag) && cfg.parse(tag).Some?
    ensures SliceFits(cfg, RollName(cfg, tag)) && !Accepted(cfg, RollName(cfg, tag))
  {
    DashAt(cfg, tag);
    var name := RollName(cfg, tag);
    if Named(cfg, name) {
      assert |TimeTag(cfg, name)| > |tag|;
    }
  }

  /** A suffix that starts with a character of its own occurs at the end alone. */
  lemma OwnSuffixLast(cfg: Config, tag: string)
    requires cfg.suffix != "" && cfg.suffix[0] != '-' && cfg.suffix[0] !in cfg.fileName && cfg.suffix[0] !in tag
    ensures SuffixLast(cfg, tag)
  {
    var name, end := RollName(cfg, tag), |cfg.fileName| + 1 + |tag|;
    assert name[end..] == cfg.suffix;
    forall j | 0 <= j < end ensures !HasPrefix(name[j..], cfg.suffix) {
      assert name[j] in cfg.fileName || name[j] == '-' || name[j] in tag;
      StartsElsewhere(name, cfg.suffix, j);
    }
    IndexIs(name, cfg.suffix, end);
  }

  /** The file name that core ships with: its own rolled files are never taken for rolled ones. */
  lemma CoreNamesAreHidden(cfg: Config, tag: string)
    requires cfg.fileName == "1Panel-Core" && cfg.suffix == ".log" && OneWidth(cfg, 10)
    requires cfg.parse(tag).Some? && '.' !in tag
    ensures SuffixLast(cfg, tag) && !Accepted(cfg, RollName(cfg, tag)) && Scan(cfg, [RollName(cfg, tag)]) == Success([])
  {
    assert cfg.fileName[6] == '-' && cfg.suffix[0] == '.';
    OwnSuffixLast(cfg, tag);
    DashHides(cfg, 10, tag);
    assert [RollName(cfg, tag)][..0] == [];
  }

  /** The file name that the agent ships with: its rolled files are read back. */
  lemma AgentNamesReadBack(cfg: Config, tag: string)
    requires cfg.fileName == "1Panel" && cfg.suffix == ".log" && cfg.parse(tag).Some? && '.' !in tag
    ensures SuffixLast(cfg, tag) && ReadsBack(cfg, tag)
  {
    OwnSuffixLast(cfg, tag);
    ReadBackIfLast(cfg, tag);
  }

  /** A suffix inside the file name makes the scan slice out of range on the first rolled file. */
  lemma EarlySuffixPanics(cfg: Config, tag: string)
    requires '-' !in cfg.fileName && 0 < Index(RollName(cfg, tag), cfg.suffix) <= |cfg.fileName|
    ensures Scan(cfg, [RollName(cfg, tag)]) == Failure(SliceOutOfRange)
  {
    DashAt(cfg, tag);
    RollIsNamed(cfg, tag);
    assert [RollName(cfg, tag)][..0] == [];
  }

  // ---- Exactly when every roll is read back

  /** A text that repeats itself with period u is determined by u and its length. */
  lemma {:induction false} Periodic(u: string, a: string, b: string, k: nat)
    requires u != "" && |a| == |b| && k <= |a|
    requires (u + a)[..|a|] == a && (u + b)[..|b|] == b
    ensures a[..k] == b[..k]
  {
    if k > 0 {
      Periodic(u, a, b, k - 1);
      var i := k - 1;
      assert a[i] == (u + a)[..|a|][i] == (u + a)[i] && b[i] == (u + b)[..|b|][i] == (u + b)[i];
      if i >= |u| {
        assert a[i] == a[i - |u|] && b[i] == b[i - |u|];
        assert a[..i][i - |u|] == b[..i][i - |u|];
      }
    }
  }

  /** What lies between a dash of the file name and the tag. */
  function Between(cfg: Config, dash: nat): string
    requires dash < |cfg.fileName|
  {
    cfg.fileName[dash + 1..] + "-"
  }

  lemma RollFrom(cfg: Config, tag: string, dash: nat)
    requires dash < |cfg.fileName|
    ensures dash + 1 + |tag| <= |RollName(cfg, tag)|
    ensures RollName(cfg, tag)[dash + 1..dash + 1 + |tag|] == (Between(cfg, dash) + tag)[..|tag|]
  {
    var name, u := RollName(cfg, tag), Between(cfg, dash);
    assert name[dash + 1..] == u + tag + cfg.suffix;
    assert name[dash + 1..dash + 1 + |tag|] == name[dash + 1..][..|tag|];
  }

  /** A tag that is read between a dash of the file name and the suffix repeats itself. */
  lemma DashedTagRepeats(cfg: Config, tag: string)
    requires '-' in cfg.fileName && ReadsBack(cfg, tag)
    ensures 0 <= Index(RollName(cfg, tag), "-") < |cfg.fileName|
    ensures (Between(cfg, Index(RollName(cfg, tag), "-")) + tag)[..|tag|] == tag
  {
    DashAt(cfg, tag);
    var d := Index(RollName(cfg, tag), "-");
    RollFrom(cfg, tag, d);
    var end := Index(RollName(cfg, tag), cfg.suffix);
    assert end == d + 1 + |tag|;
  }

  lemma {:induction false} FirstDashAlike(cfg: Config, a: string, b: string)
    requires '-' in cfg.fileName
    ensures Index(RollName(cfg, a), "-") == Index(RollName(cfg, b), "-")
  {
    DashAt(cfg, a);
    var x, y, d := RollName(cfg, a), RollName(cfg, b), Index(RollName(cfg, a), "-");
    assert y[d..][..1] == x[d..][..1] == "-";
    forall j | 0 <= j < d ensures !HasPrefix(y[j..], "-") {
      if HasPrefix(y[j..], "-") {
        assert x[j..][..1] == y[j..][..1];
        IndexFirst(x, "-", j);
      }
    }
    IndexIs(y, "-", d);
  }

  lemma DashReadsOneTagAtMost(cfg: Config, a: string, b: string)
    requires '-' in cfg.fileName && |a| == |b| && ReadsBack(cfg, a) && ReadsBack(cfg, b)
    ensures a == b
  {
    DashedTagRepeats(cfg, a);
    DashedTagRepeats(cfg, b);
    FirstDashAlike(cfg, a, b);
    Periodic(Between(cfg, Index(RollName(cfg, a), "-")), a, b, |a|);
    assert a[..|a|] == a && b[..|b|] == b;
  }

  /**
   * The scan reads back every tag a roll can write exactly when the file name holds no dash and the
   * suffix never occurs before its place. The layout parses two texts of one length at least.
   */
  lemma EveryRollReadBackIff(cfg: Config, a: string, b: string)
    requires cfg.fileName != "" && a != b && |a| == |b| && cfg.parse(a).Some? && cfg.parse(b).Some?
    ensures (forall tag :: cfg.parse(tag).Some? ==> ReadsBack(cfg, tag))
            <==> '-' !in cfg.fileName && forall tag :: cfg.parse(tag).Some? ==> SuffixLast(cfg, tag)
  {
    if '-' in cfg.fileName {
      if ReadsBack(cfg, a) && ReadsBack(cfg, b) {
        DashReadsOneTagAtMost(cfg, a, b);
      }
    } else {
      forall tag | cfg.parse(tag).Some? ensures ReadsBack(cfg, tag) <==> SuffixLast(cfg, tag) {
        ReadBackWithoutDash(cfg, tag);
      }
    }
  }
}
