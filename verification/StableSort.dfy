/** Sorting in place by insertion, for any strict weak order: ties keep their order. */
module StableSort {
  import opened Text

  ghost predicate WeakOrder<T(!new)>(less: (T, T) -> bool) {
    && (forall a, b :: less(a, b) ==> !less(b, a))
    && (forall a, b, c :: !less(a, b) && !less(b, c) ==> !less(a, c))
  }

  /** Inserting past the elements that have to come later, and no further. */
  function Insert<T>(less: (T, T) -> bool, s: seq<T>, x: T): seq<T> {
    if s == [] || !less(x, s[|s| - 1]) then s + [x]
    else Insert(less, s[..|s| - 1], x) + [s[|s| - 1]]
  }

  function Sorted<T>(less: (T, T) -> bool, s: seq<T>): seq<T> {
    if s == [] then [] else Insert(less, Sorted(less, s[..|s| - 1]), s[|s| - 1])
  }

  /** No element has to come before an earlier one. */
  ghost predicate Ascending<T>(less: (T, T) -> bool, s: seq<T>) {
    forall i, j :: 0 <= i < j < |s| ==> !less(s[j], s[i])
  }

  lemma {:induction false} InsertMembers<T>(less: (T, T) -> bool, s: seq<T>, x: T)
    ensures multiset(Insert(less, s, x)) == multiset(s) + multiset{x}
    ensures |Insert(less, s, x)| == |s| + 1
  {
    if s != [] && less(x, s[|s| - 1]) {
      InsertMembers(less, s[..|s| - 1], x);
      SplitLast(s);
    }
  }

  lemma {:induction false} SortedMembers<T>(less: (T, T) -> bool, s: seq<T>)
    ensures multiset(Sorted(less, s)) == multiset(s) && |Sorted(less, s)| == |s|
  {
    if s != [] {
      SortedMembers(less, s[..|s| - 1]);
      InsertMembers(less, Sorted(less, s[..|s| - 1]), s[|s| - 1]);
      SplitLast(s);
    }
  }

  lemma {:induction false} InsertAscending<T(!new)>(less: (T, T) -> bool, s: seq<T>, x: T)
    requires WeakOrder(less) && Ascending(less, s)
    ensures Ascending(less, Insert(less, s, x))
  {
    if s != [] && less(x, s[|s| - 1]) {
      var init, last := s[..|s| - 1], s[|s| - 1];
      InsertAscending(less, init, x);
      InsertMembers(less, init, x);
      var r := Insert(less, init, x);
      forall i | 0 <= i < |r| ensures !less(last, r[i]) {
        assert r[i] in multiset(r);
        assert r[i] in init || r[i] == x;
      }
    }
  }

  lemma {:induction false} SortedAscending<T(!new)>(less: (T, T) -> bool, s: seq<T>)
    requires WeakOrder(less)
    ensures Ascending(less, Sorted(less, s))
  {
    if s != [] {
      SortedAscending(less, s[..|s| - 1]);
      InsertAscending(less, Sorted(less, s[..|s| - 1]), s[|s| - 1]);
    }
  }

  // ---- Elements that the order tells apart

  predicate Apart<T>(less: (T, T) -> bool, a: T, b: T) {
    less(a, b) || less(b, a)
  }

  /** Any two different elements come before one another one way or the other. */
  ghost predicate AllApart<T(!new)>(less: (T, T) -> bool, s: seq<T>) {
    forall a, b :: a in s && b in s && a != b ==> Apart(less, a, b)
  }

  lemma FirstSame<T(!new)>(less: (T, T) -> bool, s: seq<T>, t: seq<T>)
    requires AllApart(less, s) && Ascending(less, s) && Ascending(less, t) && s != [] && t != []
    requires s[0] in t && t[0] in s
    ensures s[0] == t[0]
  {
    var i :| 0 <= i < |t| && t[i] == s[0];
    var j :| 0 <= j < |s| && s[j] == t[0];
    assert i > 0 ==> !less(t[i], t[0]);
    assert j > 0 ==> !less(s[j], s[0]);
    assert s[0] in s;
  }

  lemma TailMembers<T>(s: seq<T>)
    requires s != []
    ensures multiset(s[1..]) == multiset(s) - multiset{s[0]}
  {
    assert s == [s[0]] + s[1..];
  }

  /** Two ascending sequences of the same members, all apart, are the same. */
  lemma {:induction false} AscendingUnique<T(!new)>(less: (T, T) -> bool, s: seq<T>, t: seq<T>)
    requires AllApart(less, s) && Ascending(less, s) && Ascending(less, t) && multiset(s) == multiset(t)
    ensures s == t
  {
    assert |s| == |multiset(s)| == |multiset(t)| == |t|;
    if s != [] {
      assert s[0] in multiset(t) && t[0] in multiset(s);
      FirstSame(less, s, t);
      TailMembers(s);
      TailMembers(t);
      AscendingUnique(less, s[1..], t[1..]);
      SplitFirst(s);
      SplitFirst(t);
    }
  }

  // ---- Ties keep their order

  /** The elements that the order does not tell from a, in order. */
  function TiesWith<T>(less: (T, T) -> bool, a: T, s: seq<T>): seq<T> {
    if s == [] then []
    else TiesWith(less, a, s[..|s| - 1]) + Tie(less, a, s[|s| - 1])
  }

  lemma TiesWithOneMore<T>(less: (T, T) -> bool, a: T, s: seq<T>, x: T)
    ensures TiesWith(less, a, s + [x]) == TiesWith(less, a, s) + Tie(less, a, x)
  {
    AppendOne(s, x);
  }

  lemma SwapEmpty<T>(p: seq<T>, q: seq<T>, r: seq<T>)
    requires q == [] || r == []
    ensures (p + q) + r == (p + r) + q
  {
  }

  lemma {:induction false} InsertKeepsTies<T(!new)>(less: (T, T) -> bool, a: T, s: seq<T>, x: T)
    requires WeakOrder(less)
    ensures TiesWith(less, a, Insert(less, s, x)) == TiesWith(less, a, s) + Tie(less, a, x)
  {
    if s == [] || !less(x, s[|s| - 1]) {
      TiesWithOneMore(less, a, s, x);
    } else {
      var init, last := s[..|s| - 1], s[|s| - 1];
      InsertKeepsTies(less, a, init, x);
      TiesWithOneMore(less, a, Insert(less, init, x), last);
      assert Apart(less, a, x) || Apart(less, a, last);
      SwapEmpty(TiesWith(less, a, init), Tie(less, a, x), Tie(less, a, last));
    }
  }

  /** Sorting is stable: elements the order does not tell apart stay as they were arranged. */
  lemma {:induction false} SortedKeepsTies<T(!new)>(less: (T, T) -> bool, a: T, s: seq<T>)
    requires WeakOrder(less)
    ensures TiesWith(less, a, Sorted(less, s)) == TiesWith(less, a, s)
  {
    if s != [] {
      SortedKeepsTies(less, a, s[..|s| - 1]);
      InsertKeepsTies(less, a, Sorted(less, s[..|s| - 1]), s[|s| - 1]);
    }
  }

  /** The tie, if the element is one. */
  function Tie<T>(less: (T, T) -> bool, a: T, x: T): seq<T> {
    if Apart(less, a, x) then [] else [x]
  }

  lemma {:induction false} TiesWithConcat<T>(less: (T, T) -> bool, a: T, s: seq<T>, t: seq<T>)
    ensures TiesWith(less, a, s + t) == TiesWith(less, a, s) + TiesWith(less, a, t)
  {
    if t == [] {
      AppendNone(s);
      AppendNone(TiesWith(less, a, s));
    } else {
      var init, x := t[..|t| - 1], t[|t| - 1];
      TiesWithConcat(less, a, s, init);
      SplitLast(t);
      ConcatAssociates(s, init, [x]);
      TiesWithOneMore(less, a, s + init, x);
      ConcatAssociates(TiesWith(less, a, s), TiesWith(less, a, init), Tie(less, a, x));
    }
  }

  /** Two tied elements in either order sort differently. */
  lemma TieSortsTwoWays<T(!new)>(less: (T, T) -> bool, a: T, b: T, rest: seq<T>)
    requires WeakOrder(less) && a != b && !Apart(less, a, b)
    ensures Sorted(less, [a, b] + rest) != Sorted(less, [b, a] + rest)
  {
    SortedKeepsTies(less, a, [a, b] + rest);
    SortedKeepsTies(less, a, [b, a] + rest);
    TiesWithConcat(less, a, [a, b], rest);
    TiesWithConcat(less, a, [b, a], rest);
    PairTies(less, a, a, b);
    PairTies(less, a, b, a);
    assert ([a, b] + TiesWith(less, a, rest))[0] == a && ([b, a] + TiesWith(less, a, rest))[0] == b;
  }

  lemma PairTies<T(!new)>(less: (T, T) -> bool, a: T, x: T, y: T)
    requires WeakOrder(less) && !Apart(less, a, x) && !Apart(less, a, y)
    ensures TiesWith(less, a, [x, y]) == [x, y]
  {
    TiesWithOneMore(less, a, [], x);
    TiesWithOneMore(less, a, [x], y);
    assert [] + [x] == [x] && [x] + [y] == [x, y];
  }

  // ---- The canonical form, exactly

  /** Every arrangement of the members sorts to one sequence. */
  ghost predicate Canonical<T(!new)>(less: (T, T) -> bool, s: seq<T>) {
    forall t :: multiset(t) == multiset(s) ==> Sorted(less, t) == Sorted(less, s)
  }

  lemma ApartSortsOneWay<T(!new)>(less: (T, T) -> bool, s: seq<T>, t: seq<T>)
    requires WeakOrder(less) && AllApart(less, s) && multiset(t) == multiset(s)
    ensures Sorted(less, t) == Sorted(less, s)
  {
    SortedMembers(less, s);
    SortedMembers(less, t);
    SortedAscending(less, s);
    SortedAscending(less, t);
    assert forall x :: x in Sorted(less, s) ==> x in multiset(Sorted(less, s));
    assert forall x :: x in multiset(s) ==> x in s;
    AscendingUnique(less, Sorted(less, s), Sorted(less, t));
  }

  lemma WithoutOne<T>(s: seq<T>, a: T) returns (rest: seq<T>)
    requires a in s
    ensures multiset(s) == multiset{a} + multiset(rest)
  {
    var i :| 0 <= i < |s| && s[i] == a;
    rest := s[..i] + s[i + 1..];
    assert s == s[..i] + ([a] + s[i + 1..]);
  }

  lemma PairMembers<T>(a: T, b: T, rest: seq<T>)
    ensures multiset([a, b] + rest) == multiset{a} + (multiset{b} + multiset(rest))
  {
  }

  lemma WithoutTwo<T>(s: seq<T>, a: T, b: T) returns (rest: seq<T>)
    requires a in s && b in s && a != b
    ensures multiset(s) == multiset{a} + (multiset{b} + multiset(rest))
  {
    var others := WithoutOne(s, a);
    assert multiset(s)[b] > 0;
    rest := WithoutOne(others, b);
  }

  /** Two tied members spoil the canonical form. */
  lemma TieSpoils<T(!new)>(less: (T, T) -> bool, s: seq<T>, a: T, b: T)
    requires WeakOrder(less) && a in s && b in s && a != b && !Apart(less, a, b)
    ensures !Canonical(less, s)
  {
    var rest := WithoutTwo(s, a, b);
    PairMembers(a, b, rest);
    PairMembers(b, a, rest);
    TieSortsTwoWays(less, a, b, rest);
    NotCanonical(less, s, [a, b] + rest, [b, a] + rest);
  }

  lemma NotCanonical<T(!new)>(less: (T, T) -> bool, s: seq<T>, t: seq<T>, u: seq<T>)
    requires multiset(t) == multiset(s) && multiset(u) == multiset(s) && Sorted(less, t) != Sorted(less, u)
    ensures !Canonical(less, s)
  {
    if Sorted(less, t) == Sorted(less, s) {
      assert Sorted(less, u) != Sorted(less, s);
    }
  }

  /** Sorting yields a canonical form exactly when any two different members are apart. */
  lemma SortIsCanonicalIff<T(!new)>(less: (T, T) -> bool, s: seq<T>)
    requires WeakOrder(less)
    ensures Canonical(less, s) <==> AllApart(less, s)
  {
    if AllApart(less, s) {
      forall t | multiset(t) == multiset(s)
        ensures Sorted(less, t) == Sorted(less, s)
      {
        ApartSortsOneWay(less, s, t);
      }
    } else {
      var a, b :| a in s && b in s && a != b && !Apart(less, a, b);
      TieSpoils(less, s, a, b);
    }
  }

  // ---- In place

  lemma InsertSkips<T>(less: (T, T) -> bool, s: seq<T>, x: T, j: nat)
    requires 0 < j <= |s| && less(x, s[j - 1])
    ensures Insert(less, s[..j], x) + s[j..] == Insert(less, s[..j - 1], x) + s[j - 1..]
  {
    assert s[..j][..j - 1] == s[..j - 1];
    assert s[j - 1..] == [s[j - 1]] + s[j..];
  }

  /** The list while x moves down through s: s[..j], x, the rest of s, and what lies behind. */
  function Moving<T>(s: seq<T>, x: T, rest: seq<T>, j: nat): seq<T>
    requires j <= |s|
  {
    s[..j] + [x] + s[j..] + rest
  }

  lemma MovingSwaps<T>(s: seq<T>, x: T, rest: seq<T>, j: nat)
    requires 0 < j <= |s|
    ensures Moving(s, x, rest, j)[j - 1] == s[j - 1] && Moving(s, x, rest, j)[j] == x
    ensures Moving(s, x, rest, j)[j := s[j - 1]][j - 1 := x] == Moving(s, x, rest, j - 1)
  {
  }

  /** One round: the element at i moves down past the elements that have to come after it. */
  method MoveDown<T>(a: array<T>, i: nat, less: (T, T) -> bool)
    requires i < a.Length
    modifies a
    ensures a[..] == Insert(less, old(a[..i]), old(a[i])) + old(a[i + 1..])
  {
    ghost var s, x, rest := a[..i], a[i], a[i + 1..];
    var j := i;
    assert a[..] == Moving(s, x, rest, i);
    assert s[..i] == s && Insert(less, s, x) == Insert(less, s, x) + s[i..];
    while j > 0 && less(a[j], a[j - 1])
      invariant 0 <= j <= i && a[..] == Moving(s, x, rest, j)
      invariant Insert(less, s, x) == Insert(less, s[..j], x) + s[j..]
    {
      ghost var before := a[..];
      MovingSwaps(s, x, rest, j);
      assert a[j] == before[j] == x && a[j - 1] == before[j - 1] == s[j - 1];
      InsertSkips(less, s, x, j);
      a[j], a[j - 1] := a[j - 1], a[j];
      assert a[..] == before[j := s[j - 1]][j - 1 := x];
      j := j - 1;
    }
    if j > 0 {
      MovingSwaps(s, x, rest, j);
      assert a[..][j] == x && a[..][j - 1] == s[j - 1];
    }
    assert s[..j] + [x] + s[j..] == Insert(less, s, x);
  }

  method Sort<T>(a: array<T>, less: (T, T) -> bool)
    modifies a
    ensures a[..] == Sorted(less, old(a[..]))
  {
    ghost var input := a[..];
    for i := 0 to a.Length
      invariant a[..i] == Sorted(less, input[..i])
      invariant a[i..] == input[i..]
    {
      assert input[..i + 1][..i] == input[..i];
      assert a[i] == a[i..][0] == input[i] && a[i + 1..] == a[i..][1..];
      MoveDown(a, i, less);
      SortedMembers(less, input[..i + 1]);
    }
    assert a[..] == a[..a.Length] && input[..a.Length] == input;
  }
}
