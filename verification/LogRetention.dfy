/** The rolled log files a writer keeps: the startup scan, the bounded queue and every later roll. */
module LogRetention {
  import opened LogNames
  import opened StableSort
  import opened Text

  // ---- The comparison of the startup sort

  /** The time between two offsets; the zero time stands for a text that does not parse. */
  function TimeAt(cfg: Config, name: string, start: int, end: int): int {
    if 0 <= start <= end <= |name| && cfg.parse(name[start..end]).Some? then cfg.parse(name[start..end]).value else 0
  }

  /** Both tags are taken at the offsets of the left name, which may lie behind the end of the right one. */
  predicate Comparable(cfg: Config, left: string, right: string) {
    Index(left, cfg.suffix) <= |right|
  }

  predicate Earlier(cfg: Config, left: string, right: string) {
    var start, end := Index(left, "-") + 1, Index(left, cfg.suffix);
    TimeAt(cfg, left, start, end) < TimeAt(cfg, right, start, end)
  }

  function TimeOf(cfg: Config, name: string): int {
    TimeAt(cfg, name, Index(name, "-") + 1, Index(name, cfg.suffix))
  }

  function ByTime(cfg: Config): (string, string) -> bool {
    (a, b) => TimeOf(cfg, a) < TimeOf(cfg, b)
  }

  /** One round of the sort; a comparison out of range ends the process. */
  function InsertName(cfg: Config, s: seq<string>, x: string): Result<seq<string>, Fault> {
    if s == [] then Success([x])
    else if !Comparable(cfg, x, s[|s| - 1]) then Failure(SliceOutOfRange)
    else if !Earlier(cfg, x, s[|s| - 1]) then Success(s + [x])
    else match InsertName(cfg, s[..|s| - 1], x)
         case Failure(e) => Failure(e)
         case Success(r) => Success(r + [s[|s| - 1]])
  }

  /** sort.Slice over the scanned names. */
  function SortNames(cfg: Config, s: seq<string>): Result<seq<string>, Fault> {
    if s == [] then Success([])
    else match SortNames(cfg, s[..|s| - 1])
         case Failure(e) => Failure(e)
         case Success(r) => InsertName(cfg, r, s[|s| - 1])
  }

  // ---- The directory and the queue

  /** The files of the log directory, and the bounded channel of rolled files, oldest first. */
  datatype Log = Log(directory: set<string>, queue: seq<string>)

  /** Sending a file into the channel, removing the oldest while it is full. */
  function Pushed(n: nat, l: Log, file: string): Log
    requires n > 0 && |l.queue| <= n
  {
    if |l.queue| == n then Log(l.directory - {l.queue[0]}, l.queue[1..] + [file])
    else Log(l.directory, l.queue + [file])
  }

  function PushedAll(n: nat, l: Log, files: seq<string>): (r: Log)
    requires n > 0 && |l.queue| <= n
    ensures |r.queue| <= n
  {
    if files == [] then l
    else Pushed(n, PushedAll(n, l, files[..|files| - 1]), files[|files| - 1])
  }

  /** The scanned and sorted names of a directory listing. */
  function Adopted(cfg: Config, listing: seq<string>): Result<seq<string>, Fault> {
    match Scan(cfg, listing)
    case Failure(e) => Failure(e)
    case Success(files) => SortNames(cfg, files)
  }

  /** Startup: a new queue takes up the rolled files of the directory. */
  function Restarted(cfg: Config, l: Log, listing: seq<string>): (r: Result<Log, Fault>)
    ensures r.Success? ==> |r.value.queue| <= cfg.maxRemain
  {
    if cfg.maxRemain == 0 then Success(Log(l.directory, []))
    else match Adopted(cfg, listing)
         case Failure(e) => Failure(e)
         case Success(files) => Success(PushedAll(cfg.maxRemain, Log(l.directory, []), files))
  }

  /** A roll: an empty current file is left alone, another is renamed and joins the queue. */
  function Rolled(cfg: Config, l: Log, size: nat, tag: string): (r: Log)
    requires |l.queue| <= cfg.maxRemain
    ensures |r.queue| <= cfg.maxRemain
  {
    if size == 0 then l
    else
      var file := RollName(cfg, tag);
      var renamed := Log(l.directory + {file}, l.queue);
      if cfg.maxRemain == 0 then renamed else Pushed(cfg.maxRemain, renamed, file)
  }

  /** The writer of one directory over its processes. */
  class Writer {
    const cfg: Config
    var directory: set<string>
    var queue: seq<string>

    constructor (cfg: Config, directory: set<string>)
      ensures this.cfg == cfg && State() == Log(directory, [])
    {
      this.cfg, this.directory, queue := cfg, directory, [];
    }

    ghost function State(): Log
      reads this
    {
      Log(directory, queue)
    }

    method DoRemove()
      requires queue != []
      modifies this
      ensures State() == Log(old(directory) - {old(queue)[0]}, old(queue)[1..])
    {
      directory := directory - {queue[0]};
      queue := queue[1..];
    }

    method Push(file: string)
      requires cfg.maxRemain > 0 && |queue| <= cfg.maxRemain
      modifies this
      ensures State() == Pushed(cfg.maxRemain, old(State()), file)
    {
      ghost var start := State();
      while |queue| >= cfg.maxRemain
        invariant State() == start
          || (|start.queue| == cfg.maxRemain && State() == Log(start.directory - {start.queue[0]}, start.queue[1..]))
        decreases |queue|
      {
        DoRemove();
      }
      queue := queue + [file];
    }

    method ScanDirectory(listing: seq<string>) returns (r: Result<seq<string>, Fault>)
      ensures r == Scan(cfg, listing)
    {
      var files: seq<string> := [];
      for k := 0 to |listing|
        invariant Scan(cfg, listing[..k]) == Success(files)
      {
        assert listing[..k + 1][..k] == listing[..k];
        if Named(cfg, listing[k]) {
          if !SliceFits(cfg, listing[k]) {
            ScanFails(cfg, listing, k + 1);
            return Failure(SliceOutOfRange);
          }
          if cfg.parse(TimeTag(cfg, listing[k])).Some? {
            files := files + [listing[k]];
          }
        }
      }
      assert listing[..|listing|] == listing;
      return Success(files);
    }

    method Start(listing: seq<string>) returns (fault: Option<Fault>)
      modifies this
      ensures match Restarted(cfg, old(State()), listing)
              case Failure(e) => fault == Some(e) && directory == old(directory)
              case Success(l) => fault == None && State() == l
    {
      queue := [];
      if cfg.maxRemain == 0 {
        return None;
      }
      ghost var start := State();
      var scanned := ScanDirectory(listing);
      if scanned.Failure? {
        return Some(scanned.error);
      }
      var sorted := SortNames(cfg, scanned.value);
      if sorted.Failure? {
        return Some(sorted.error);
      }
      var files := sorted.value;
      for k := 0 to |files|
        invariant State() == PushedAll(cfg.maxRemain, start, files[..k])
      {
        assert files[..k + 1][..k] == files[..k];
        Push(files[k]);
      }
      assert files[..|files|] == files;
      fault := None;
    }

    method Reopen(size: nat, tag: string)
      requires |queue| <= cfg.maxRemain
      modifies this
      ensures State() == Rolled(cfg, old(State()), size, tag)
    {
      if size == 0 {
        return;
      }
      var file := RollName(cfg, tag);
      directory := directory + {file};
      if cfg.maxRemain > 0 {
        Push(file);
      }
    }
  }

  // ---- The newest and the oldest files of a history

  function Newest(all: seq<string>, n: nat): seq<string> {
    if |all| <= n then all else all[|all| - n..]
  }

  function Oldest(all: seq<string>, n: nat): seq<string> {
    if |all| <= n then [] else all[..|all| - n]
  }

  function Elements(s: seq<string>): set<string> {
    set x | x in s
  }

  lemma NewestOneMore(all: seq<string>, file: string, n: nat)
    requires n > 0
    ensures var q := Newest(all, n);
            Newest(all + [file], n) == (if |q| == n then q[1..] else q) + [file]
    ensures Oldest(all + [file], n) == Oldest(all, n) + if |Newest(all, n)| == n then [Newest(all, n)[0]] else []
  {
    if |all| >= n {
      assert Newest(all + [file], n) == Newest(all, n)[1..] + [file];
      assert Oldest(all + [file], n) == Oldest(all, n) + [Newest(all, n)[0]];
    }
  }

  /** Pushing a whole history keeps its newest files and removes the others. */
  lemma {:induction false} PushedAllKeepsNewest(n: nat, directory: set<string>, files: seq<string>)
    requires n > 0
    ensures PushedAll(n, Log(directory, []), files) == Log(directory - Elements(Oldest(files, n)), Newest(files, n))
  {
    if files == [] {
      assert Elements([]) == {};
    } else {
      var init, last := files[..|files| - 1], files[|files| - 1];
      PushedAllKeepsNewest(n, directory, init);
      assert files == init + [last];
      NewestOneMore(init, last, n);
    }
  }

  // ---- The sort, when the names are of one layout

  predicate SameOffsets(cfg: Config, names: seq<string>) {
    forall i, j :: 0 <= i < |names| && 0 <= j < |names| ==> Alike(cfg, names[i], names[j])
  }

  predicate Alike(cfg: Config, a: string, b: string) {
    Index(a, "-") == Index(b, "-") && Index(a, cfg.suffix) == Index(b, cfg.suffix)
  }

  lemma SameOffset(cfg: Config, name: string, start: int, end: int, start': int, end': int)
    requires start == start' && end == end'
    ensures TimeAt(cfg, name, start, end) == TimeAt(cfg, name, start', end')
  {
  }

  lemma ComparesTimes(cfg: Config, a: string, b: string)
    requires Alike(cfg, a, b)
    ensures Comparable(cfg, a, b) && (Earlier(cfg, a, b) <==> ByTime(cfg)(a, b))
  {
    var dash, end := Index(a, "-"), Index(a, cfg.suffix);
    assert Index(b, "-") == dash && Index(b, cfg.suffix) == end;
    SameOffset(cfg, b, dash + 1, end, Index(b, "-") + 1, Index(b, cfg.suffix));
  }

  lemma {:induction false} InsertNameByTime(cfg: Config, s: seq<string>, x: string)
    requires forall i :: 0 <= i < |s| ==> Alike(cfg, x, s[i])
    ensures InsertName(cfg, s, x) == Success(Insert(ByTime(cfg), s, x))
  {
    if s == [] {
      assert s + [x] == [x];
    } else {
      ComparesTimes(cfg, x, s[|s| - 1]);
      InsertNameByTime(cfg, s[..|s| - 1], x);
    }
  }

  /** Names of one layout are sorted by their times, without a fault. */
  lemma {:induction false} SortNamesByTime(cfg: Config, s: seq<string>)
    requires SameOffsets(cfg, s)
    ensures SortNames(cfg, s) == Success(Sorted(ByTime(cfg), s))
  {
    if s != [] {
      var init, last := s[..|s| - 1], s[|s| - 1];
      SortNamesByTime(cfg, init);
      SortedMembers(ByTime(cfg), init);
      var r := Sorted(ByTime(cfg), init);
      forall i | 0 <= i < |r| ensures Alike(cfg, last, r[i]) {
        assert r[i] in multiset(r);
        var k :| 0 <= k < |init| && init[k] == r[i];
        assert Alike(cfg, s[|s| - 1], s[k]);
      }
      InsertNameByTime(cfg, r, last);
    }
  }

  lemma ByTimeWeak(cfg: Config)
    ensures WeakOrder(ByTime(cfg))
  {
  }

  /** In an ascending history no removed file is newer than a kept one. */
  lemma KeptAreNewest(cfg: Config, all: seq<string>, n: nat, gone: string, kept: string)
    requires Ascending(ByTime(cfg), all) && gone in Oldest(all, n) && kept in Newest(all, n)
    ensures TimeOf(cfg, gone) <= TimeOf(cfg, kept)
  {
    var less, oldest, newest := ByTime(cfg), Oldest(all, n), Newest(all, n);
    var i :| 0 <= i < |oldest| && oldest[i] == gone;
    var j :| 0 <= j < |newest| && newest[j] == kept;
    assert all[i] == gone && all[|oldest| + j] == kept;
    assert !less(all[|oldest| + j], all[i]);
  }
}
