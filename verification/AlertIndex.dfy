/** The slotted index over the open rows, and its three in-place operations. */
module AlertIndexes {
  import opened Text
  import opened AlertConfigs

  /** The two ways in which open rows are slotted. */
  datatype Field = ByKind | ByKey

  function FieldOf(rules: Rules, field: Field, c: AlertConfig): string {
    match field
    case ByKind => c.kind
    case ByKey => SyncKey(rules, c)
  }

  function Select(rules: Rules, field: Field, s: seq<AlertConfig>, value: string): seq<AlertConfig> {
    if s == [] then []
    else Select(rules, field, s[..|s| - 1], value) +
         if FieldOf(rules, field, s[|s| - 1]) == value then [s[|s| - 1]] else []
  }

  function WithoutId(s: seq<AlertConfig>, id: nat): seq<AlertConfig> {
    if s == [] then []
    else WithoutId(s[..|s| - 1], id) + if s[|s| - 1].id == id then [] else [s[|s| - 1]]
  }

  type Slots = map<string, seq<AlertConfig>>

  /** Every slot holds exactly the open rows with its value, in order; there are no empty slots. */
  ghost predicate Indexed(slots: Slots, rules: Rules, field: Field, open: seq<AlertConfig>) {
    && (forall v :: v in slots ==> slots[v] == Select(rules, field, open, v) && slots[v] != [])
    && (forall v :: v !in slots ==> Select(rules, field, open, v) == [])
  }

  function SetSlot(slots: Slots, value: string, s: seq<AlertConfig>): Slots {
    if s == [] then slots - {value} else slots[value := s]
  }

  function AddTo(slots: Slots, value: string, c: AlertConfig): Slots {
    slots[value := (if value in slots then slots[value] else []) + [c]]
  }

  /** The slots without the row that has this identifier. */
  function DropId(slots: Slots, id: nat): Slots {
    map v | v in slots && WithoutId(slots[v], id) != [] :: WithoutId(slots[v], id)
  }

  // ---- Facts about the two filters

  lemma {:induction false} WithoutAbsent(s: seq<AlertConfig>, id: nat)
    requires forall k :: 0 <= k < |s| ==> s[k].id != id
    ensures WithoutId(s, id) == s
  {
    if s != [] {
      WithoutAbsent(s[..|s| - 1], id);
      SplitLast(s);
    }
  }

  lemma {:induction false} WithoutAt(s: seq<AlertConfig>, k: nat)
    requires UniqueIds(s) && k < |s|
    ensures WithoutId(s, s[k].id) == s[..k] + s[k + 1..]
  {
    var rest := s[..|s| - 1];
    if k == |s| - 1 {
      WithoutAbsent(rest, s[k].id);
      assert s[..k] + s[k + 1..] == rest;
      assert WithoutId(s, s[k].id) == rest + [];
    } else {
      WithoutAt(rest, k);
      assert s[..k] + s[k + 1..] == (rest[..k] + rest[k + 1..]) + [s[|s| - 1]];
    }
  }

  lemma {:induction false} SelectAppend(rules: Rules, field: Field, a: seq<AlertConfig>, c: AlertConfig, value: string)
    ensures Select(rules, field, a + [c], value)
         == Select(rules, field, a, value) + if FieldOf(rules, field, c) == value then [c] else []
  {
    assert (a + [c])[..|a|] == a;
  }

  /** Dropping a row and slotting commute. */
  lemma {:induction false} SelectWithout(rules: Rules, field: Field, s: seq<AlertConfig>, id: nat, value: string)
    ensures Select(rules, field, WithoutId(s, id), value) == WithoutId(Select(rules, field, s, value), id)
  {
    if s != [] {
      var rest, last := s[..|s| - 1], s[|s| - 1];
      SelectWithout(rules, field, rest, id, value);
      var picked := Select(rules, field, rest, value);
      assert picked + [] == picked;
      assert (picked + [last])[..|picked|] == picked;
      if last.id == id {
        assert WithoutId(s, id) == WithoutId(rest, id);
      } else {
        SelectAppend(rules, field, WithoutId(rest, id), last, value);
      }
    }
  }

  lemma {:induction false} SelectMember(rules: Rules, field: Field, s: seq<AlertConfig>, value: string, c: AlertConfig)
    ensures c in Select(rules, field, s, value) <==> c in s && FieldOf(rules, field, c) == value
  {
    if s != [] {
      SelectMember(rules, field, s[..|s| - 1], value, c);
      SplitLast(s);
    }
  }

  lemma {:induction false} SelectUnique(rules: Rules, field: Field, s: seq<AlertConfig>, value: string)
    requires UniqueIds(s)
    ensures UniqueIds(Select(rules, field, s, value))
  {
    if s != [] {
      var rest, last := s[..|s| - 1], s[|s| - 1];
      SelectUnique(rules, field, rest, value);
      forall c | c in Select(rules, field, rest, value)
        ensures c.id != last.id
      {
        SelectMember(rules, field, rest, value, c);
        var k :| 0 <= k < |rest| && rest[k] == c;
        assert s[k] == c;
      }
    }
  }

  /** Dropping an identifier from the slots keeps the index true of the rows without it. */
  lemma DropIndexed(slots: Slots, rules: Rules, field: Field, open: seq<AlertConfig>, id: nat)
    requires Indexed(slots, rules, field, open)
    ensures Indexed(DropId(slots, id), rules, field, WithoutId(open, id))
  {
    var dropped := DropId(slots, id);
    forall v
      ensures v in dropped ==> dropped[v] == Select(rules, field, WithoutId(open, id), v)
      ensures v !in dropped ==> Select(rules, field, WithoutId(open, id), v) == []
    {
      SelectWithout(rules, field, open, id, v);
    }
  }

  lemma AddIndexed(slots: Slots, rules: Rules, field: Field, open: seq<AlertConfig>, c: AlertConfig)
    requires Indexed(slots, rules, field, open)
    ensures Indexed(AddTo(slots, FieldOf(rules, field, c), c), rules, field, open + [c])
  {
    var w := FieldOf(rules, field, c);
    var slots' := AddTo(slots, w, c);
    forall v
      ensures v in slots' ==> slots'[v] == Select(rules, field, open + [c], v) && slots'[v] != []
      ensures v !in slots' ==> Select(rules, field, open + [c], v) == []
    {
      SelectAppend(rules, field, open, c, v);
      var picked := Select(rules, field, open, v);
      assert picked + [] == picked;
      if v == w {
        assert (if w in slots then slots[w] else []) == picked;
      }
    }
  }

  /** The slots as they are built, one open row after the other. */
  function SlotsOf(rules: Rules, field: Field, open: seq<AlertConfig>): Slots {
    if open == [] then map[]
    else AddTo(SlotsOf(rules, field, open[..|open| - 1]), FieldOf(rules, field, open[|open| - 1]), open[|open| - 1])
  }

  lemma {:induction false} SlotsOfIndexed(rules: Rules, field: Field, open: seq<AlertConfig>)
    ensures Indexed(SlotsOf(rules, field, open), rules, field, open)
  {
    if open != [] {
      var rest, last := open[..|open| - 1], open[|open| - 1];
      SplitLast(open);
      SlotsOfIndexed(rules, field, rest);
      AddIndexed(SlotsOf(rules, field, rest), rules, field, rest, last);
    }
  }

  /** Dropping a row from the built slots gives the slots built without the row. */
  lemma SlotsWithout(rules: Rules, field: Field, open: seq<AlertConfig>, id: nat)
    ensures DropId(SlotsOf(rules, field, open), id) == SlotsOf(rules, field, WithoutId(open, id))
  {
    SlotsOfIndexed(rules, field, open);
    DropIndexed(SlotsOf(rules, field, open), rules, field, open, id);
    SlotsOfIndexed(rules, field, WithoutId(open, id));
  }

  lemma SlotsDisjoint(rules: Rules, field: Field, open: seq<AlertConfig>)
    requires UniqueIds(open)
    ensures Disjoint(SlotsOf(rules, field, open))
  {
    SlotsOfIndexed(rules, field, open);
    IndexedDisjoint(SlotsOf(rules, field, open), rules, field, open);
  }

  /** What DeleteById relies on: an identifier is in one slot at most, and once there. */
  ghost predicate Disjoint(slots: Slots) {
    && (forall v :: v in slots ==> slots[v] != [] && UniqueIds(slots[v]))
    && (forall v, w, a, b :: v in slots && w in slots && v != w && a in slots[v] && b in slots[w] ==> a.id != b.id)
  }

  lemma IndexedDisjoint(slots: Slots, rules: Rules, field: Field, open: seq<AlertConfig>)
    requires Indexed(slots, rules, field, open) && UniqueIds(open)
    ensures Disjoint(slots)
  {
    forall v | v in slots
      ensures UniqueIds(slots[v])
    {
      SelectUnique(rules, field, open, v);
    }
    forall v, w, a, b | v in slots && w in slots && v != w && a in slots[v] && b in slots[w]
      ensures a.id != b.id
    {
      SelectMember(rules, field, open, v, a);
      SelectMember(rules, field, open, w, b);
      var i :| 0 <= i < |open| && open[i] == a;
      var j :| 0 <= j < |open| && open[j] == b;
      assert i != j;
    }
  }

  lemma OthersKeep(slots: Slots, value: string, k: nat, v: string)
    requires Disjoint(slots) && value in slots && k < |slots[value]|
    requires v in slots && v != value
    ensures WithoutId(slots[v], slots[value][k].id) == slots[v]
  {
    forall j | 0 <= j < |slots[v]|
      ensures slots[v][j].id != slots[value][k].id
    {
      assert slots[v][j] in slots[v] && slots[value][k] in slots[value];
    }
    WithoutAbsent(slots[v], slots[value][k].id);
  }

  /** Rewriting the one slot that holds an identifier is dropping the identifier. */
  lemma SetSlotDropsTo(slots: Slots, value: string, k: nat, kept: seq<AlertConfig>)
    requires Disjoint(slots) && value in slots && k < |slots[value]| && kept == slots[value][..k] + slots[value][k + 1..]
    ensures SetSlot(slots, value, kept) == DropId(slots, slots[value][k].id)
  {
    SetSlotDrops(slots, value, k);
  }

  lemma SetSlotDrops(slots: Slots, value: string, k: nat)
    requires Disjoint(slots) && value in slots && k < |slots[value]|
    ensures SetSlot(slots, value, slots[value][..k] + slots[value][k + 1..]) == DropId(slots, slots[value][k].id)
  {
    var id := slots[value][k].id;
    WithoutAt(slots[value], k);
    forall v | v in slots && v != value
      ensures WithoutId(slots[v], id) == slots[v] && slots[v] != []
    {
      OthersKeep(slots, value, k, v);
    }
    SetSlotOnly(slots, value, slots[value][..k] + slots[value][k + 1..], id);
  }

  lemma SetSlotOnly(slots: Slots, value: string, s: seq<AlertConfig>, id: nat)
    requires value in slots && WithoutId(slots[value], id) == s
    requires forall v :: v in slots && v != value ==> WithoutId(slots[v], id) == slots[v] && slots[v] != []
    ensures SetSlot(slots, value, s) == DropId(slots, id)
  {
  }

  lemma DropAbsent(slots: Slots, id: nat)
    requires Disjoint(slots)
    requires forall v, c :: v in slots && c in slots[v] ==> c.id != id
    ensures DropId(slots, id) == slots
  {
    forall v | v in slots
      ensures WithoutId(slots[v], id) == slots[v] && slots[v] != []
    {
      forall j | 0 <= j < |slots[v]|
        ensures slots[v][j].id != id
      {
        assert slots[v][j] in slots[v];
      }
      WithoutAbsent(slots[v], id);
    }
  }

  /** The first row of the slot that no alert refers to, or None when they all are referred to. */
  ghost predicate TakesFirstUnused(slots: Slots, used: set<nat>, value: string, item: Option<AlertConfig>) {
    match item
    case None => value in slots ==> forall k :: 0 <= k < |slots[value]| ==> slots[value][k].id in used
    case Some(c) =>
      && value in slots && c.id !in used
      && exists k :: 0 <= k < |slots[value]| && slots[value][k] == c
                     && forall j :: 0 <= j < k ==> slots[value][j].id in used
  }

  /** The place of the row with this identifier, or the length of the list. */
  method PositionOf(items: seq<AlertConfig>, id: nat) returns (k: nat)
    ensures k <= |items|
    ensures k < |items| ==> items[k].id == id
    ensures k == |items| ==> forall c :: c in items ==> c.id != id
  {
    k := 0;
    while k < |items|
      invariant k <= |items|
      invariant forall j :: 0 <= j < k ==> items[j].id != id
    {
      if items[k].id == id {
        return;
      }
      k := k + 1;
    }
  }

  /** One of the two maps from a text to the open rows that carry it. */
  class ConfigIndex {
    var slots: Slots

    constructor ()
      ensures slots == map[]
    {
      slots := map[];
    }

    method Add(value: string, row: AlertConfig)
      modifies this
      ensures slots == AddTo(old(slots), value, row)
    {
      slots := slots[value := (if value in slots then slots[value] else []) + [row]];
    }

    /** Take the first row of a slot. */
    method PopFirst(value: string) returns (item: Option<AlertConfig>)
      requires Disjoint(slots)
      modifies this
      ensures item == if value in old(slots) then Some(old(slots)[value][0]) else None
      ensures slots == if item.Some? then DropId(old(slots), item.value.id) else old(slots)
    {
      if value !in slots {
        return None;
      }
      var items := slots[value];
      SetSlotDropsTo(slots, value, 0, items[1..]);
      item := Some(items[0]);
      if |items| == 1 {
        slots := slots - {value};
      } else {
        slots := slots[value := items[1..]];
      }
    }

    /** Take the first row of a slot that no alert refers to. */
    method PopUnused(used: set<nat>, value: string) returns (item: Option<AlertConfig>)
      requires Disjoint(slots)
      modifies this
      ensures TakesFirstUnused(old(slots), used, value, item)
      ensures slots == if item.Some? then DropId(old(slots), item.value.id) else old(slots)
    {
      if value !in slots {
        return None;
      }
      var items := slots[value];
      for k := 0 to |items|
        invariant slots == old(slots)
        invariant forall j :: 0 <= j < k ==> items[j].id in used
      {
        if items[k].id !in used {
          SetSlotDrops(slots, value, k);
          if k == 0 {
            assert items[..0] + items[1..] == items[1..];
            if |items| == 1 {
              slots := slots - {value};
            } else {
              slots := slots[value := items[1..]];
            }
          } else {
            slots := slots[value := items[..k] + items[k + 1..]];
          }
          return Some(items[k]);
        }
      }
      item := None;
    }

    /** Drop the row with this identifier; the slots are visited in any order. */
    method DeleteById(id: nat)
      requires Disjoint(slots)
      modifies this
      ensures slots == DropId(old(slots), id)
    {
      var todo := slots.Keys;
      while todo != {}
        invariant slots == old(slots) && todo <= slots.Keys
        invariant forall v, c :: v in slots && v !in todo && c in slots[v] ==> c.id != id
        decreases |todo|
      {
        var value :| value in todo;
        var items := slots[value];
        var k := PositionOf(items, id);
        if k < |items| {
          SetSlotDrops(slots, value, k);
          if |items| == 1 {
            assert items[..k] + items[k + 1..] == [];
            slots := slots - {value};
          } else {
            slots := slots[value := items[..k] + items[k + 1..]];
          }
          return;
        }
        todo := todo - {value};
      }
      DropAbsent(slots, id);
    }
  }
}
