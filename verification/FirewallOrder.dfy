/** The order in which stored firewall rules are applied, and the stable in-place sort that establishes it. */
module FirewallOrder {
  import opened Text
  import opened StableSort

  datatype Entry = Entry(uuid: string, priority: Option<int>, sequence: Option<int>, policy: string)

  /** Go's comparison of strings, on the characters' codes. */
  predicate TextLess(a: string, b: string) {
    if b == "" then false
    else if a == "" then true
    else a[0] < b[0] || (a[0] == b[0] && TextLess(a[1..], b[1..]))
  }

  /** Comparing by a key that may be missing: None leaves the decision to the UUIDs. */
  function ByKey(left: Option<int>, right: Option<int>): Option<bool> {
    if left.None? && right.Some? then Some(false)
    else if left.Some? && right.None? then Some(true)
    else if left.Some? && right.Some? && left.value != right.value then Some(left.value < right.value)
    else None
  }

  predicate Before(firewalld: bool, left: Entry, right: Entry) {
    match (if firewalld then ByKey(left.priority, right.priority) else ByKey(left.sequence, right.sequence))
    case Some(decision) => decision
    case None => TextLess(left.uuid, right.uuid)
  }

  // ---- The order is strict and, on different UUIDs, total

  lemma {:induction false} TextLessIrreflexive(a: string)
    ensures !TextLess(a, a)
  {
    if a != "" {
      TextLessIrreflexive(a[1..]);
    }
  }

  lemma {:induction false} TextLessTotal(a: string, b: string)
    ensures TextLess(a, b) || TextLess(b, a) || a == b
    ensures !(TextLess(a, b) && TextLess(b, a))
  {
    if a != "" && b != "" {
      TextLessTotal(a[1..], b[1..]);
      assert a == [a[0]] + a[1..] && b == [b[0]] + b[1..];
    }
  }

  lemma {:induction false} TextLessTransitive(a: string, b: string, c: string)
    requires TextLess(a, b) && TextLess(b, c)
    ensures TextLess(a, c)
  {
    if a != "" && a[0] == b[0] && b[0] == c[0] {
      TextLessTransitive(a[1..], b[1..], c[1..]);
    }
  }

  /** Of two entries with different UUIDs exactly one comes first, and no entry comes before itself. */
  lemma BeforeTotal(firewalld: bool, a: Entry, b: Entry)
    ensures a.uuid != b.uuid ==> (Before(firewalld, a, b) <==> !Before(firewalld, b, a))
    ensures !Before(firewalld, a, a)
  {
    TextLessTotal(a.uuid, b.uuid);
    TextLessIrreflexive(a.uuid);
  }

  lemma BeforeTransitive(firewalld: bool, a: Entry, b: Entry, c: Entry)
    requires Before(firewalld, a, b) && Before(firewalld, b, c)
    ensures Before(firewalld, a, c)
  {
    if TextLess(a.uuid, b.uuid) && TextLess(b.uuid, c.uuid) {
      TextLessTransitive(a.uuid, b.uuid, c.uuid);
    }
  }

  function Order(firewalld: bool): (Entry, Entry) -> bool {
    (a, b) => Before(firewalld, a, b)
  }

  lemma KeptOrder(firewalld: bool, a: Entry, b: Entry, c: Entry)
    requires !Before(firewalld, a, b) && !Before(firewalld, b, c)
    ensures !Before(firewalld, a, c)
  {
    TextLessTotal(a.uuid, b.uuid);
    TextLessTotal(b.uuid, c.uuid);
    if Before(firewalld, a, c) {
      if TextLess(c.uuid, b.uuid) && TextLess(b.uuid, a.uuid) {
        TextLessTransitive(c.uuid, b.uuid, a.uuid);
      }
      TextLessTotal(a.uuid, c.uuid);
    }
  }

  lemma OrderIsWeak(firewalld: bool)
    ensures WeakOrder(Order(firewalld))
  {
    var less := Order(firewalld);
    forall a, b | less(a, b) ensures !less(b, a) {
      TextLessTotal(a.uuid, b.uuid);
    }
    forall a, b, c | !less(a, b) && !less(b, c) ensures !less(a, c) {
      KeptOrder(firewalld, a, b, c);
    }
  }

  // ---- What comes first

  function KeyOf(firewalld: bool, e: Entry): Option<int> {
    if firewalld then e.priority else e.sequence
  }

  /** A rule with a key comes before one without; the smaller key comes first; equal or missing keys leave it to the UUIDs. */
  lemma BeforeIff(firewalld: bool, a: Entry, b: Entry)
    ensures Before(firewalld, a, b)
            <==> var left, right := KeyOf(firewalld, a), KeyOf(firewalld, b);
                 || (left.Some? && right.None?)
                 || (left.Some? && right.Some? && left.value < right.value)
                 || (left == right && TextLess(a.uuid, b.uuid))
  {
  }

  /** The texts agree before n, where the first ends or has the smaller character. */
  predicate LessAt(a: string, b: string, n: nat) {
    n <= |a| && n < |b| && (forall k :: 0 <= k < n ==> a[k] == b[k]) && (n == |a| || a[n] < b[n])
  }

  lemma LessAtLater(a: string, b: string, n: nat)
    requires a != "" && b != "" && a[0] == b[0]
    ensures LessAt(a[1..], b[1..], n) <==> LessAt(a, b, n + 1)
  {
    if LessAt(a[1..], b[1..], n) {
      forall k | 0 <= k < n + 1 ensures a[k] == b[k] {
        if k > 0 {
          assert a[1..][k - 1] == b[1..][k - 1];
        }
      }
    }
  }

  /** Texts are compared at the first place where they differ; a proper prefix is less. */
  lemma {:induction false} TextLessIff(a: string, b: string)
    ensures TextLess(a, b) <==> exists n :: LessAt(a, b, n)
  {
    if b != "" && a == "" {
      assert LessAt(a, b, 0);
    } else if b != "" && a[0] == b[0] {
      TextLessIff(a[1..], b[1..]);
      if n: nat :| LessAt(a[1..], b[1..], n) {
        LessAtLater(a, b, n);
      }
      if n: nat :| LessAt(a, b, n) {
        LessAtLater(a, b, n - 1);
      }
    } else if b != "" && a[0] < b[0] {
      assert LessAt(a, b, 0);
    }
  }

  /** In the sorted list the rules with a key come first, in the order of their keys, and equal keys go by UUID. */
  lemma SortedByKey(firewalld: bool, s: seq<Entry>, i: nat, j: nat)
    requires i < j < |Sorted(Order(firewalld), s)|
    ensures var r := Sorted(Order(firewalld), s);
            var left, right := KeyOf(firewalld, r[i]), KeyOf(firewalld, r[j]);
            && (right.Some? ==> left.Some? && left.value <= right.value)
            && (left == right ==> !TextLess(r[j].uuid, r[i].uuid))
  {
    var r := Sorted(Order(firewalld), s);
    OrderIsWeak(firewalld);
    SortedAscending(Order(firewalld), s);
    assert !Order(firewalld)(r[j], r[i]);
    BeforeIff(firewalld, r[j], r[i]);
  }

  // ---- The canonical form

  predicate DistinctUuids(s: seq<Entry>) {
    forall i, j :: 0 <= i < j < |s| ==> s[i].uuid != s[j].uuid
  }

  /**
   * The sort computes a canonical form exactly when any two different rules come before one another one
   * way or the other: then, and only then, every arrangement of the list sorts to one sequence.
   */
  lemma RulesSortCanonicallyIff(firewalld: bool, s: seq<Entry>)
    ensures Canonical(Order(firewalld), s) <==> AllApart(Order(firewalld), s)
  {
    OrderIsWeak(firewalld);
    SortIsCanonicalIff(Order(firewalld), s);
  }

  /** Different UUIDs are enough, for every provider; the result is the members, each before the later ones. */
  lemma DistinctRulesSortCanonically(firewalld: bool, s: seq<Entry>)
    requires DistinctUuids(s)
    ensures Canonical(Order(firewalld), s)
    ensures var r := Sorted(Order(firewalld), s);
            multiset(r) == multiset(s) && forall i, j :: 0 <= i < j < |r| ==> !Before(firewalld, r[j], r[i])
  {
    var less := Order(firewalld);
    OrderIsWeak(firewalld);
    forall a, b | a in s && b in s && a != b
      ensures Apart(less, a, b)
    {
      var i :| 0 <= i < |s| && s[i] == a;
      var j :| 0 <= j < |s| && s[j] == b;
      BeforeTotal(firewalld, a, b);
    }
    SortIsCanonicalIff(less, s);
    SortedMembers(less, s);
    SortedAscending(less, s);
    var r := Sorted(less, s);
    forall i, j | 0 <= i < j < |r| ensures !Before(firewalld, r[j], r[i]) {
      assert !less(r[j], r[i]);
    }
  }

  /** The source's in-place sort for one provider; all providers but firewalld use one order. */
  method SortFirewallRules(rules: array<Entry>, firewalld: bool)
    modifies rules
    ensures rules[..] == Sorted(Order(firewalld), old(rules[..]))
  {
    Sort(rules, Order(firewalld));
  }
}
