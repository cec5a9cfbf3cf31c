/** Startup over files of several layouts, whoever wrote them: exactly when the newest are kept. */
module LogLayouts {
  import opened LogNames
  import opened LogRetention
  import opened LogRestarts
  import opened StableSort
  import opened Text

  // ---- The comparison that the sort needs

  /** Comparing the two files does not slice out of range, and tells their order if their times differ. */
  predicate ReadsTrue(cfg: Config, a: string, b: string) {
    && Comparable(cfg, a, b)
    && (TimeOf(cfg, a) != TimeOf(cfg, b) ==> (Earlier(cfg, a, b) <==> TimeOf(cfg, a) < TimeOf(cfg, b)))
  }

  predicate AllReadTrue(cfg: Config, files: seq<string>) {
    forall i, j :: 0 <= i < |files| && 0 <= j < |files| ==> ReadsTrue(cfg, files[i], files[j])
  }

  lemma OneLayoutReadsTrue(cfg: Config, files: seq<string>)
    requires SameOffsets(cfg, files)
    ensures AllReadTrue(cfg, files)
  {
    forall i, j | 0 <= i < |files| && 0 <= j < |files| ensures ReadsTrue(cfg, files[i], files[j]) {
      assert Alike(cfg, files[i], files[j]);
      ComparesTimes(cfg, files[i], files[j]);
    }
  }

  // ---- The sort of files that read true

  lemma {:induction false} InsertNameMembers(cfg: Config, s: seq<string>, x: string)
    requires InsertName(cfg, s, x).Success?
    ensures multiset(InsertName(cfg, s, x).value) == multiset(s) + multiset{x}
  {
    if s != [] && Earlier(cfg, x, s[|s| - 1]) {
      SplitLast(s);
      InsertNameMembers(cfg, s[..|s| - 1], x);
    }
  }

  lemma {:induction false} SortNamesMembers(cfg: Config, s: seq<string>)
    requires SortNames(cfg, s).Success?
    ensures multiset(SortNames(cfg, s).value) == multiset(s)
  {
    if s != [] {
      SplitLast(s);
      SortNamesMembers(cfg, s[..|s| - 1]);
      InsertNameMembers(cfg, SortNames(cfg, s[..|s| - 1]).value, s[|s| - 1]);
    }
  }

  /** No time in the list is later than this one. */
  predicate NoneLater(cfg: Config, s: seq<string>, x: string) {
    forall i :: 0 <= i < |s| ==> TimeOf(cfg, s[i]) <= TimeOf(cfg, x)
  }

  lemma AscendingMore(cfg: Config, s: seq<string>, x: string)
    requires Ascending(ByTime(cfg), s) && NoneLater(cfg, s, x)
    ensures Ascending(ByTime(cfg), s + [x])
  {
    var r := s + [x];
    forall i, j | 0 <= i < j < |r| ensures !ByTime(cfg)(r[j], r[i]) {
      assert r[i] == s[i];
      if j < |s| {
        assert r[j] == s[j];
        AscendingPair(cfg, s, i, j);
      }
    }
  }

  lemma AscendingPair(cfg: Config, s: seq<string>, i: nat, j: nat)
    requires Ascending(ByTime(cfg), s) && i < j < |s|
    ensures !ByTime(cfg)(s[j], s[i])
  {
  }

  lemma LastIsLatest(cfg: Config, s: seq<string>)
    requires s != [] && Ascending(ByTime(cfg), s)
    ensures Ascending(ByTime(cfg), s[..|s| - 1]) && NoneLater(cfg, s, s[|s| - 1])
  {
    forall i | 0 <= i < |s| - 1 ensures TimeOf(cfg, s[i]) <= TimeOf(cfg, s[|s| - 1]) {
      assert !ByTime(cfg)(s[|s| - 1], s[i]);
    }
  }

  lemma NoneLaterMembers(cfg: Config, s: seq<string>, r: seq<string>, x: string, last: string)
    requires multiset(r) == multiset(s) + multiset{x} && NoneLater(cfg, s, last) && TimeOf(cfg, x) <= TimeOf(cfg, last)
    ensures NoneLater(cfg, r, last)
  {
    forall i | 0 <= i < |r| ensures TimeOf(cfg, r[i]) <= TimeOf(cfg, last) {
      OldOrNew(s, r, x, r[i]);
      NoneLaterMember(cfg, s, last, r[i]);
    }
  }

  lemma OldOrNew(s: seq<string>, r: seq<string>, x: string, e: string)
    requires multiset(r) == multiset(s) + multiset{x} && e in r
    ensures e in s || e == x
  {
    assert e in multiset(r);
  }

  lemma NoneLaterMember(cfg: Config, s: seq<string>, last: string, e: string)
    requires NoneLater(cfg, s, last)
    ensures e in s ==> TimeOf(cfg, e) <= TimeOf(cfg, last)
  {
  }

  lemma NoneLaterStill(cfg: Config, s: seq<string>, last: string, x: string)
    requires NoneLater(cfg, s, last) && TimeOf(cfg, last) <= TimeOf(cfg, x)
    ensures NoneLater(cfg, s, x)
  {
  }

  predicate ReadsTrueOfAll(cfg: Config, x: string, s: seq<string>) {
    forall i :: 0 <= i < |s| ==> ReadsTrue(cfg, x, s[i])
  }

  lemma ReadsTrueOfLast(cfg: Config, x: string, s: seq<string>)
    requires s != [] && ReadsTrueOfAll(cfg, x, s)
    ensures ReadsTrueOfAll(cfg, x, s[..|s| - 1]) && Comparable(cfg, x, s[|s| - 1])
    ensures if Earlier(cfg, x, s[|s| - 1]) then TimeOf(cfg, x) <= TimeOf(cfg, s[|s| - 1])
            else TimeOf(cfg, s[|s| - 1]) <= TimeOf(cfg, x)
  {
    assert ReadsTrue(cfg, x, s[|s| - 1]);
  }

  lemma {:induction false} InsertNameAscends(cfg: Config, s: seq<string>, x: string)
    requires Ascending(ByTime(cfg), s) && ReadsTrueOfAll(cfg, x, s)
    ensures InsertName(cfg, s, x).Success? && Ascending(ByTime(cfg), InsertName(cfg, s, x).value)
  {
    if s != [] {
      var init, last := s[..|s| - 1], s[|s| - 1];
      LastIsLatest(cfg, s);
      ReadsTrueOfLast(cfg, x, s);
      if Earlier(cfg, x, last) {
        InsertNameAscends(cfg, init, x);
        InsertNameMembers(cfg, init, x);
        NoneLaterMembers(cfg, init, InsertName(cfg, init, x).value, x, last);
        AscendingMore(cfg, InsertName(cfg, init, x).value, last);
      } else {
        NoneLaterStill(cfg, s, last, x);
        AscendingMore(cfg, s, x);
      }
    }
  }

  /** Files that read true are sorted by their times, without a fault. */
  lemma {:induction false} SortNamesAscends(cfg: Config, s: seq<string>)
    requires AllReadTrue(cfg, s)
    ensures SortNames(cfg, s).Success? && Ascending(ByTime(cfg), SortNames(cfg, s).value)
  {
    if s != [] {
      var init, last := s[..|s| - 1], s[|s| - 1];
      SortNamesAscends(cfg, init);
      SortNamesMembers(cfg, init);
      var r := SortNames(cfg, init).value;
      LastReadsTrue(cfg, s, r);
      InsertNameAscends(cfg, r, last);
    }
  }

  lemma LastReadsTrue(cfg: Config, s: seq<string>, r: seq<string>)
    requires AllReadTrue(cfg, s) && s != [] && multiset(r) == multiset(s[..|s| - 1])
    ensures forall i :: 0 <= i < |r| ==> ReadsTrue(cfg, s[|s| - 1], r[i])
  {
    var init := s[..|s| - 1];
    forall i | 0 <= i < |r| ensures ReadsTrue(cfg, s[|s| - 1], r[i]) {
      assert r[i] in multiset(r);
      var k :| 0 <= k < |init| && init[k] == r[i];
      assert ReadsTrue(cfg, s[|s| - 1], s[k]);
    }
  }

  /**
   * Startup with files that read true, whoever wrote them: the last ones by time are queued, the others
   * removed, and no removed file is newer than a kept one. Files of one layout keep their order among equal times.
   */
  lemma RestartKeepsNewest(cfg: Config, l: Log, listing: seq<string>, files: seq<string>, gone: string, kept: string)
    requires cfg.maxRemain > 0 && Scan(cfg, listing) == Success(files) && AllReadTrue(cfg, files)
    ensures SortNames(cfg, files).Success?
    ensures var sorted, n := SortNames(cfg, files).value, cfg.maxRemain;
            && multiset(sorted) == multiset(files) && Ascending(ByTime(cfg), sorted)
            && (SameOffsets(cfg, files) ==> sorted == Sorted(ByTime(cfg), files))
            && Restarted(cfg, l, listing) == Success(Log(l.directory - Elements(Oldest(sorted, n)), Newest(sorted, n)))
            && (gone in Oldest(sorted, n) && kept in Newest(sorted, n) ==> TimeOf(cfg, gone) <= TimeOf(cfg, kept))
  {
    SortNamesAscends(cfg, files);
    SortNamesMembers(cfg, files);
    if SameOffsets(cfg, files) {
      SortNamesByTime(cfg, files);
    }
    var sorted, n := SortNames(cfg, files).value, cfg.maxRemain;
    PushedAllKeepsNewest(n, l.directory, sorted);
    if gone in Oldest(sorted, n) && kept in Newest(sorted, n) {
      KeptAreNewest(cfg, sorted, n, gone, kept);
    }
  }

  /** Where times differ, any sort by them gives the same list. */
  lemma AnySortAgrees(cfg: Config, files: seq<string>, sorted: seq<string>)
    requires AllReadTrue(cfg, files) && AllApart(ByTime(cfg), files)
    requires multiset(sorted) == multiset(files) && Ascending(ByTime(cfg), sorted)
    ensures SortNames(cfg, files) == Success(sorted)
  {
    SortNamesAscends(cfg, files);
    SortNamesMembers(cfg, files);
    var r := SortNames(cfg, files).value;
    forall a, b | a in r && b in r && a != b ensures Apart(ByTime(cfg), a, b) {
      assert a in multiset(files) && b in multiset(files);
    }
    AscendingUnique(ByTime(cfg), r, sorted);
  }

  // ---- What the sort keeps of the order it meets

  /** x stands before y. */
  predicate Precedes(s: seq<string>, x: string, y: string) {
    exists i, j :: 0 <= i < j < |s| && s[i] == x && s[j] == y
  }

  lemma PrecedesLonger(s: seq<string>, last: string, x: string, y: string)
    requires Precedes(s, x, y)
    ensures Precedes(s + [last], x, y)
  {
    var i, j :| 0 <= i < j < |s| && s[i] == x && s[j] == y;
    assert (s + [last])[i] == x && (s + [last])[j] == y;
  }

  lemma PrecedesLast(s: seq<string>, x: string, last: string)
    requires x in s
    ensures Precedes(s + [last], x, last)
  {
    var i :| 0 <= i < |s| && s[i] == x;
    assert (s + [last])[i] == x && (s + [last])[|s|] == last;
  }

  /** An insertion keeps the order of the names that are there. */
  lemma {:induction false} InsertNameKeepsOrder(cfg: Config, s: seq<string>, name: string, x: string, y: string)
    requires InsertName(cfg, s, name).Success? && Precedes(s, x, y)
    ensures Precedes(InsertName(cfg, s, name).value, x, y)
  {
    var init, last := s[..|s| - 1], s[|s| - 1];
    if !Earlier(cfg, name, last) {
      PrecedesLonger(s, name, x, y);
    } else {
      var r := InsertName(cfg, init, name).value;
      var i, j :| 0 <= i < j < |s| && s[i] == x && s[j] == y;
      if j < |s| - 1 {
        assert init[i] == x && init[j] == y;
        InsertNameKeepsOrder(cfg, init, name, x, y);
        PrecedesLonger(r, last, x, y);
      } else {
        assert init[i] == x;
        InsertNameMembers(cfg, init, name);
        assert x in multiset(r);
        PrecedesLast(r, x, last);
      }
    }
  }

  /** The sort of a longer list does not fail later, and keeps the order of the names sorted before. */
  lemma {:induction false} SortNamesExtends(cfg: Config, s: seq<string>, t: seq<string>)
    requires SortNames(cfg, s + t).Success?
    ensures SortNames(cfg, s).Success?
    ensures forall x, y :: Precedes(SortNames(cfg, s).value, x, y) ==> Precedes(SortNames(cfg, s + t).value, x, y)
  {
    if t == [] {
      AppendNone(s);
    } else {
      var init, last := t[..|t| - 1], t[|t| - 1];
      SplitLast(t);
      ConcatAssociates(s, init, [last]);
      AppendOne(s + init, last);
      SortNamesExtends(cfg, s, init);
      forall x, y | Precedes(SortNames(cfg, s).value, x, y) ensures Precedes(SortNames(cfg, s + t).value, x, y) {
        InsertNameKeepsOrder(cfg, SortNames(cfg, s + init).value, last, x, y);
      }
    }
  }

  lemma {:induction false} ScanExtends(cfg: Config, s: seq<string>, t: seq<string>)
    requires Scan(cfg, s + t).Success?
    ensures Scan(cfg, s).Success? && Scan(cfg, s).value <= Scan(cfg, s + t).value
  {
    if t == [] {
      AppendNone(s);
    } else {
      var init, last := t[..|t| - 1], t[|t| - 1];
      SplitLast(t);
      ConcatAssociates(s, init, [last]);
      AppendOne(s + init, last);
      ScanExtends(cfg, s, init);
    }
  }

  // ---- The bound has no part in scan and sort

  function Bounded(cfg: Config, n: nat): Config {
    cfg.(maxRemain := n)
  }

  lemma {:induction false} ScanUnbounded(cfg: Config, n: nat, names: seq<string>)
    ensures Scan(Bounded(cfg, n), names) == Scan(cfg, names)
  {
    if names != [] {
      ScanUnbounded(cfg, n, names[..|names| - 1]);
    }
  }

  lemma ComparesUnbounded(cfg: Config, n: nat, a: string, b: string)
    ensures Comparable(Bounded(cfg, n), a, b) == Comparable(cfg, a, b)
    ensures Comparable(cfg, a, b) ==> Earlier(Bounded(cfg, n), a, b) == Earlier(cfg, a, b)
  {
  }

  lemma TimeUnbounded(cfg: Config, n: nat, x: string)
    ensures TimeOf(Bounded(cfg, n), x) == TimeOf(cfg, x)
  {
  }

  lemma {:induction false} InsertUnbounded(cfg: Config, n: nat, s: seq<string>, x: string)
    ensures InsertName(Bounded(cfg, n), s, x) == InsertName(cfg, s, x)
  {
    if s != [] {
      ComparesUnbounded(cfg, n, x, s[|s| - 1]);
      InsertUnbounded(cfg, n, s[..|s| - 1], x);
    }
  }

  lemma {:induction false} SortUnbounded(cfg: Config, n: nat, s: seq<string>)
    ensures SortNames(Bounded(cfg, n), s) == SortNames(cfg, s)
  {
    if s != [] {
      SortUnbounded(cfg, n, s[..|s| - 1]);
      if SortNames(cfg, s[..|s| - 1]).Success? {
        InsertUnbounded(cfg, n, SortNames(cfg, s[..|s| - 1]).value, s[|s| - 1]);
      }
    }
  }

  // ---- Exactly when the newest files are kept

  /** The startup does not fault, and removes no file that is newer than one it queues. */
  ghost predicate RemovesOldest(cfg: Config, directory: set<string>, listing: seq<string>) {
    match Restarted(cfg, Log(directory, []), listing)
    case Failure(_) => false
    case Success(l) =>
      forall gone, kept :: gone in directory && gone !in l.directory && kept in l.queue ==> TimeOf(cfg, gone) <= TimeOf(cfg, kept)
  }

  /** So it is under every bound, in whatever order the directory is listed. */
  ghost predicate AlwaysRemovesOldest(cfg: Config, directory: set<string>) {
    forall n: nat, listing: seq<string> :: n > 0 && multiset(listing) == multiset(directory)
      ==> RemovesOldest(Bounded(cfg, n), directory, listing)
  }

  /** The scan slices no name out of range, and any two files it takes up are compared truly. */
  predicate ReadableLayouts(cfg: Config, directory: set<string>) {
    && (forall x :: x in directory ==> Accepted(cfg, x) || Foreign(cfg, x))
    && (forall a, b :: a in directory && b in directory && a != b && Accepted(cfg, a) && Accepted(cfg, b) ==> ReadsTrue(cfg, a, b))
  }

  lemma ReadsItselfTrue(cfg: Config, a: string)
    ensures ReadsTrue(cfg, a, a)
  {
  }

  /** The scanned files of a readable directory. */
  lemma ReadableScan(cfg: Config, directory: set<string>, listing: seq<string>)
    requires ReadableLayouts(cfg, directory) && multiset(listing) == multiset(directory)
    ensures Scan(cfg, listing).Success? && AllReadTrue(cfg, Scan(cfg, listing).value)
  {
    forall i | 0 <= i < |listing| ensures Accepted(cfg, listing[i]) || Foreign(cfg, listing[i]) {
      assert listing[i] in multiset(listing);
    }
    ScanCounts(cfg, listing, "");
    var files := Scan(cfg, listing).value;
    forall i | 0 <= i < |files| ensures files[i] in directory && Accepted(cfg, files[i]) {
      ScanCounts(cfg, listing, files[i]);
      assert files[i] in multiset(files);
    }
    forall i, j | 0 <= i < |files| && 0 <= j < |files| ensures ReadsTrue(cfg, files[i], files[j]) {
      if files[i] == files[j] {
        ReadsItselfTrue(cfg, files[i]);
      }
    }
  }

  lemma ReadsUnbounded(cfg: Config, n: nat, a: string, b: string)
    ensures ReadsTrue(Bounded(cfg, n), a, b) == ReadsTrue(cfg, a, b)
  {
    ComparesUnbounded(cfg, n, a, b);
    TimeUnbounded(cfg, n, a);
    TimeUnbounded(cfg, n, b);
  }

  lemma AcceptsUnbounded(cfg: Config, n: nat, x: string)
    ensures Accepted(Bounded(cfg, n), x) == Accepted(cfg, x) && Foreign(Bounded(cfg, n), x) == Foreign(cfg, x)
  {
  }

  lemma ReadableUnbounded(cfg: Config, n: nat, directory: set<string>)
    requires ReadableLayouts(cfg, directory)
    ensures ReadableLayouts(Bounded(cfg, n), directory)
  {
    forall x | x in directory ensures Accepted(Bounded(cfg, n), x) || Foreign(Bounded(cfg, n), x) {
      AcceptsUnbounded(cfg, n, x);
    }
    forall a, b | a in directory && b in directory && a != b && Accepted(Bounded(cfg, n), a) && Accepted(Bounded(cfg, n), b)
      ensures ReadsTrue(Bounded(cfg, n), a, b)
    {
      AcceptsUnbounded(cfg, n, a);
      AcceptsUnbounded(cfg, n, b);
      ReadsUnbounded(cfg, n, a, b);
    }
  }

  /** What a startup does whose sort succeeds. */
  lemma RestartSplits(cfg: Config, directory: set<string>, listing: seq<string>, files: seq<string>, sorted: seq<string>)
    requires cfg.maxRemain > 0 && Scan(cfg, listing) == Success(files) && SortNames(cfg, files) == Success(sorted)
    ensures Restarted(cfg, Log(directory, []), listing)
            == Success(Log(directory - Elements(Oldest(sorted, cfg.maxRemain)), Newest(sorted, cfg.maxRemain)))
  {
    PushedAllKeepsNewest(cfg.maxRemain, directory, sorted);
  }

  lemma ReadableRemovesOldest(cfg: Config, directory: set<string>, listing: seq<string>)
    requires cfg.maxRemain > 0 && ReadableLayouts(cfg, directory) && multiset(listing) == multiset(directory)
    ensures RemovesOldest(cfg, directory, listing)
  {
    ReadableScan(cfg, directory, listing);
    var files, n := Scan(cfg, listing).value, cfg.maxRemain;
    SortNamesAscends(cfg, files);
    var sorted := SortNames(cfg, files).value;
    RestartSplits(cfg, directory, listing, files, sorted);
    forall gone, kept | gone in Oldest(sorted, n) && kept in Newest(sorted, n) ensures TimeOf(cfg, gone) <= TimeOf(cfg, kept) {
      KeptAreNewest(cfg, sorted, n, gone, kept);
    }
  }

  // ---- What goes wrong otherwise

  /** A name that cannot be sliced ends every startup. */
  lemma {:induction false} ScanFaults(cfg: Config, listing: seq<string>, x: string)
    requires x in listing && !Accepted(cfg, x) && !Foreign(cfg, x)
    ensures Scan(cfg, listing).Failure?
  {
    var init, last := listing[..|listing| - 1], listing[|listing| - 1];
    if x != last {
      LastMembers(listing);
      ScanFaults(cfg, init, x);
    }
  }

  /** A later file before an earlier one is removed under the bound that keeps the earlier one. */
  lemma MisorderedRemoves(
      cfg: Config, directory: set<string>, listing: seq<string>, files: seq<string>, s: seq<string>, i: nat, j: nat)
    requires Scan(cfg, listing) == Success(files) && SortNames(cfg, files) == Success(s)
    requires i < j < |s| && cfg.maxRemain == |s| - j && s[i] in directory && TimeOf(cfg, s[i]) > TimeOf(cfg, s[j])
    ensures !RemovesOldest(cfg, directory, listing)
  {
    RestartSplits(cfg, directory, listing, files, s);
    OnEitherSide(s, cfg.maxRemain, i, j);
  }

  lemma OnEitherSide(s: seq<string>, n: nat, i: nat, j: nat)
    requires i < j < |s| && n == |s| - j
    ensures s[i] in Elements(Oldest(s, n)) && s[j] in Newest(s, n)
  {
    assert Oldest(s, n)[i] == s[i];
    assert Newest(s, n)[0] == s[j];
  }

  lemma MisorderedLoses(
      cfg: Config, directory: set<string>, listing: seq<string>, files: seq<string>, s: seq<string>, x: string, y: string)
      returns (n: nat)
    requires Scan(cfg, listing) == Success(files) && SortNames(cfg, files) == Success(s)
    requires Precedes(s, x, y) && TimeOf(cfg, x) > TimeOf(cfg, y) && x in directory
    ensures n > 0 && !RemovesOldest(Bounded(cfg, n), directory, listing)
  {
    var i, j :| 0 <= i < j < |s| && s[i] == x && s[j] == y;
    n := |s| - j;
    ScanUnbounded(cfg, n, listing);
    SortUnbounded(cfg, n, files);
    TimeUnbounded(cfg, n, x);
    TimeUnbounded(cfg, n, y);
    MisorderedRemoves(Bounded(cfg, n), directory, listing, files, s, i, j);
  }

  /** The pair at the front of a listing is sorted first, and stays as it is then. */
  lemma PairAtFront(cfg: Config, a: string, b: string, rest: seq<string>)
    requires Accepted(cfg, a) && Accepted(cfg, b)
    requires Scan(cfg, [a, b] + rest).Success? && SortNames(cfg, Scan(cfg, [a, b] + rest).value).Success?
    ensures Comparable(cfg, b, a)
    ensures var s := SortNames(cfg, Scan(cfg, [a, b] + rest).value).value;
            if Earlier(cfg, b, a) then Precedes(s, b, a) else Precedes(s, a, b)
  {
    ScanExtends(cfg, [a, b], rest);
    ScanTakesBoth(cfg, a, b);
    var files := Scan(cfg, [a, b] + rest).value;
    assert files == [a, b] + files[2..];
    SortNamesExtends(cfg, [a, b], files[2..]);
    PairSorts(cfg, a, b);
    PairPrecedes(a, b);
    PairPrecedes(b, a);
  }

  lemma PairPrecedes(a: string, b: string)
    ensures Precedes([a, b], a, b)
  {
    assert [a, b][0] == a && [a, b][1] == b;
  }

  /** Some listing and some bound under which two files that are not compared truly spoil the startup. */
  lemma UntrueSpoils(cfg: Config, directory: set<string>, a: string, b: string)
    requires a in directory && b in directory && a != b && Accepted(cfg, a) && Accepted(cfg, b) && !ReadsTrue(cfg, a, b)
    ensures !AlwaysRemovesOldest(cfg, directory)
  {
    var rest := Listing(directory - {a, b});
    var listing := [b, a] + rest;
    assert multiset(listing) == multiset(directory);
    var n: nat := 1;
    ScanUnbounded(cfg, 1, listing);
    if Scan(cfg, listing).Success? && SortNames(cfg, Scan(cfg, listing).value).Success? {
      PairAtFront(cfg, b, a, rest);
      var files := Scan(cfg, listing).value;
      var s := SortNames(cfg, files).value;
      if Earlier(cfg, a, b) {
        n := MisorderedLoses(cfg, directory, listing, files, s, a, b);
      } else {
        n := MisorderedLoses(cfg, directory, listing, files, s, b, a);
      }
    } else if Scan(cfg, listing).Success? {
      SortUnbounded(cfg, 1, Scan(cfg, listing).value);
    }
    assert !RemovesOldest(Bounded(cfg, n), directory, listing);
  }

  lemma UnreadableSpoils(cfg: Config, directory: set<string>, x: string)
    requires x in directory && !Accepted(cfg, x) && !Foreign(cfg, x)
    ensures !AlwaysRemovesOldest(cfg, directory)
  {
    var listing := Listing(directory);
    assert x in multiset(listing);
    ScanFaults(cfg, listing, x);
    ScanUnbounded(cfg, 1, listing);
    assert !RemovesOldest(Bounded(cfg, 1), directory, listing);
  }

  /**
   * Whatever files are there and whoever wrote them: the startup never faults and never removes a file newer than
   * one it keeps, if and only if every name can be sliced and any two files that are taken up are compared truly.
   */
  lemma RestartNewestIff(cfg: Config, directory: set<string>)
    ensures AlwaysRemovesOldest(cfg, directory) <==> ReadableLayouts(cfg, directory)
  {
    if ReadableLayouts(cfg, directory) {
      forall n: nat, listing: seq<string> | n > 0 && multiset(listing) == multiset(directory)
        ensures RemovesOldest(Bounded(cfg, n), directory, listing)
      {
        ReadableUnbounded(cfg, n, directory);
        ReadableRemovesOldest(Bounded(cfg, n), directory, listing);
      }
    } else if x :| x in directory && !Accepted(cfg, x) && !Foreign(cfg, x) {
      UnreadableSpoils(cfg, directory, x);
    } else {
      var a, b :| a in directory && b in directory && a != b && Accepted(cfg, a) && Accepted(cfg, b) && !ReadsTrue(cfg, a, b);
      UntrueSpoils(cfg, directory, a, b);
    }
  }

  // ---- Two layouts: a rolled file and a copy of one with something put before its name

  function Copied(cfg: Config, prefix: string): Config {
    cfg.(fileName := prefix + cfg.fileName)
  }

  lemma PairSorts(cfg: Config, a: string, b: string)
    ensures SortNames(cfg, [a, b])
            == if !Comparable(cfg, b, a) then Failure(SliceOutOfRange) else Success(if Earlier(cfg, b, a) then [b, a] else [a, b])
  {
    assert [a, b][..1] == [a] && [a][..0] == [] && [b] + [a] == [b, a] && [a] + [b] == [a, b];
    assert SortNames(cfg, [a]) == InsertName(cfg, [], a) == Success([a]);
    assert SortNames(cfg, [a, b]) == InsertName(cfg, [a], b);
    assert InsertName(cfg, [a][..0], b) == Success([b]);
  }

  lemma PartInside(prefix: string, part: string, a: string, b: string, c: string)
    ensures HasPrefix(((prefix + part) + a + b + c)[|prefix|..], part)
  {
    assert ((prefix + part) + a + b + c)[|prefix|..] == part + a + b + c;
  }

  lemma CopyIsAccepted(cfg: Config, prefix: string, tag: string)
    requires cfg.fileName != "" && '-' !in cfg.fileName && '-' !in prefix
    requires SuffixLast(Copied(cfg, prefix), tag) && cfg.parse(tag).Some?
    ensures Accepted(cfg, RollName(Copied(cfg, prefix), tag))
  {
    var name, start := RollName(Copied(cfg, prefix), tag), |prefix| + |cfg.fileName| + 1;
    CopyOffsets(cfg, prefix, tag, start, start + |tag|);
    PartInside(prefix, cfg.fileName, "-", tag, cfg.suffix);
    IndexFirst(name, cfg.fileName, |prefix|);
    ReadsBetween(cfg, name, start, start + |tag|);
  }

  /** Where dash, tag and suffix of the copy lie. */
  lemma CopyOffsets(cfg: Config, prefix: string, tag: string, start: nat, end: nat)
    requires '-' !in cfg.fileName && '-' !in prefix && SuffixLast(Copied(cfg, prefix), tag)
    requires start == |prefix| + |cfg.fileName| + 1 && end == start + |tag|
    ensures var copy := RollName(Copied(cfg, prefix), tag);
            && Index(copy, "-") + 1 == start && Index(copy, cfg.suffix) == end <= |copy|
            && copy[start..end] == tag
  {
    DashAt(Copied(cfg, prefix), tag);
    TagOfRoll(Copied(cfg, prefix), tag);
  }

  /** The scan takes up the copy, and the comparison slices out of range exactly when the prefix is longer than the suffix. */
  lemma CopyPanicsIff(cfg: Config, prefix: string, tag: string, copied: string)
    requires cfg.fileName != "" && '-' !in cfg.fileName && '-' !in prefix && |tag| == |copied|
    requires SuffixLast(Copied(cfg, prefix), copied) && cfg.parse(copied).Some?
    ensures Accepted(cfg, RollName(Copied(cfg, prefix), copied))
    ensures SortNames(cfg, [RollName(cfg, tag), RollName(Copied(cfg, prefix), copied)]).Failure? <==> |prefix| > |cfg.suffix|
  {
    CopyIsAccepted(cfg, prefix, copied);
    var start := |prefix| + |cfg.fileName| + 1;
    CopyOffsets(cfg, prefix, copied, start, start + |copied|);
    TagOfRoll(cfg, tag);
    PairSorts(cfg, RollName(cfg, tag), RollName(Copied(cfg, prefix), copied));
  }

  /** What the comparison reads of the rolled file at the offsets of the copy. */
  lemma ShiftedTag(cfg: Config, prefix: string, tag: string, start: nat, end: nat)
    requires |prefix| <= |cfg.suffix| && start == |prefix| + |cfg.fileName| + 1 && end == start + |tag|
    ensures end <= |RollName(cfg, tag)|
    ensures RollName(cfg, tag)[start..end] == (tag + cfg.suffix)[|prefix|..|prefix| + |tag|]
  {
    var name := RollName(cfg, tag);
    assert name[|cfg.fileName| + 1..] == tag + cfg.suffix;
    assert name[start..end] == name[|cfg.fileName| + 1..][|prefix|..|prefix| + |tag|];
  }

  /** The time that is read of the rolled file there; the zero time, if nothing parses. */
  function ShiftedTime(cfg: Config, prefix: string, tag: string): int
    requires |prefix| <= |cfg.suffix|
  {
    var read := (tag + cfg.suffix)[|prefix|..|prefix| + |tag|];
    if cfg.parse(read).Some? then cfg.parse(read).value else 0
  }

  lemma ReadsAt(cfg: Config, left: string, right: string, start: nat, end: nat, tag: string, read: string)
    requires Index(left, "-") + 1 == start <= end == Index(left, cfg.suffix) && end <= |left| && end <= |right|
    requires left[start..end] == tag && cfg.parse(tag).Some? && right[start..end] == read
    ensures Comparable(cfg, left, right)
    ensures Earlier(cfg, left, right)
            <==> cfg.parse(tag).value < if cfg.parse(read).Some? then cfg.parse(read).value else 0
  {
  }

  lemma CopyComparison(cfg: Config, prefix: string, tag: string, copied: string)
    requires '-' !in cfg.fileName && '-' !in prefix && |tag| == |copied| && |prefix| <= |cfg.suffix|
    requires SuffixLast(Copied(cfg, prefix), copied) && cfg.parse(copied).Some?
    ensures var file, copy := RollName(cfg, tag), RollName(Copied(cfg, prefix), copied);
            && Comparable(cfg, copy, file)
            && (Earlier(cfg, copy, file) <==> cfg.parse(copied).value < ShiftedTime(cfg, prefix, tag))
  {
    var start, read := |prefix| + |cfg.fileName| + 1, (tag + cfg.suffix)[|prefix|..|prefix| + |tag|];
    var end := start + |tag|;
    CopyOffsets(cfg, prefix, copied, start, end);
    ShiftedTag(cfg, prefix, tag, start, end);
    ReadsAt(cfg, RollName(Copied(cfg, prefix), copied), RollName(cfg, tag), start, end, copied, read);
  }

  /**
   * With a shorter prefix and room for one file, the rolled file is removed for the copy exactly when the copy's time
   * is not before the one read of the rolled file at shifted offsets, whatever the rolled file's own time is.
   */
  lemma CopyOutlivesIff(cfg: Config, l: Log, prefix: string, tag: string, copied: string)
    requires cfg.fileName != "" && '-' !in cfg.fileName && '-' !in prefix && |tag| == |copied| && |prefix| <= |cfg.suffix|
    requires SuffixLast(cfg, tag) && SuffixLast(Copied(cfg, prefix), copied) && cfg.maxRemain == 1
    requires cfg.parse(tag).Some? && cfg.parse(copied).Some?
    ensures var file, copy := RollName(cfg, tag), RollName(Copied(cfg, prefix), copied);
            Restarted(cfg, l, [file, copy])
            == Success(if cfg.parse(copied).value >= ShiftedTime(cfg, prefix, tag)
                       then Log(l.directory - {file}, [copy]) else Log(l.directory - {copy}, [file]))
  {
    var file, copy := RollName(cfg, tag), RollName(Copied(cfg, prefix), copied);
    ReadBackIfLast(cfg, tag);
    CopyIsAccepted(cfg, prefix, copied);
    CopyComparison(cfg, prefix, tag, copied);
    OneIsRemoved(cfg, l, file, copy);
  }

  lemma OneIsRemoved(cfg: Config, l: Log, a: string, b: string)
    requires Accepted(cfg, a) && Accepted(cfg, b) && Comparable(cfg, b, a) && cfg.maxRemain == 1
    ensures Restarted(cfg, l, [a, b])
            == Success(if Earlier(cfg, b, a) then Log(l.directory - {b}, [a]) else Log(l.directory - {a}, [b]))
  {
    ScanTakesBoth(cfg, a, b);
    PairSorts(cfg, a, b);
    PushedPair(l, a, b);
    PushedPair(l, b, a);
  }

  lemma PushedPair(l: Log, a: string, b: string)
    ensures PushedAll(1, Log(l.directory, []), [a, b]) == Log(l.directory - {a}, [b])
  {
    PushedAllKeepsNewest(1, l.directory, [a, b]);
    assert Oldest([a, b], 1) == [a] && Newest([a, b], 1) == [b];
    assert Elements([a]) == {a};
  }

  lemma ScanTakesBoth(cfg: Config, a: string, b: string)
    requires Accepted(cfg, a) && Accepted(cfg, b)
    ensures Scan(cfg, [a, b]) == Success([a, b])
  {
    assert [a, b][..1] == [a] && [a][..0] == [] && [] + [a] == [a] && [a] + [b] == [a, b];
    assert Scan(cfg, [a]) == Success([a]);
  }
}
