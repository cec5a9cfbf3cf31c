/**
 * The maps that the synchronisation keeps over the old rows, as functions of the one list that
 * AlertSyncSpec works with, and how each of them changes when an item lands.
 */
module AlertSyncMaps {
  import opened Text
  import opened Folds
  import opened AlertConfigs
  import opened AlertIndexes
  import opened AlertSyncSpec

  // ---- The identifiers that alerts refer to

  function IdsOf(parts: seq<string>): set<nat> {
    if parts == [] then {}
    else
      var parsed := ParseUint(TrimSpace(parts[|parts| - 1]));
      IdsOf(parts[..|parts| - 1]) + if parsed.Some? then {parsed.value} else {}
  }

  /** All the numbers in the comma-separated method lists. */
  function UsedIds(methods: seq<string>): set<nat> {
    if methods == [] then {}
    else UsedIds(methods[..|methods| - 1]) + IdsOf(Split(methods[|methods| - 1], ','))
  }

  lemma {:induction false} IdsOfMeaning(parts: seq<string>, id: nat)
    ensures id in IdsOf(parts) <==> exists part :: part in parts && ParseUint(TrimSpace(part)) == Some(id)
  {
    if parts != [] {
      IdsOfMeaning(parts[..|parts| - 1], id);
      SplitLast(parts);
    }
  }

  /** The method list has this identifier as one of its comma-separated numbers. */
  predicate Names(list: string, id: nat) {
    exists part :: part in Split(list, ',') && ParseUint(TrimSpace(part)) == Some(id)
  }

  /** An identifier is used exactly when some alert's method list names it. */
  lemma {:induction false} UsedIdsMeaning(methods: seq<string>, id: nat)
    ensures id in UsedIds(methods) <==> exists list :: list in methods && Names(list, id)
  {
    if methods != [] {
      var rest, last := methods[..|methods| - 1], methods[|methods| - 1];
      UsedIdsMeaning(rest, id);
      IdsOfMeaning(Split(last, ','), id);
      assert id in IdsOf(Split(last, ',')) <==> Names(last, id);
      LastMembers(methods);
    }
  }

  lemma IdsOfMore(parts: seq<string>, j: nat)
    requires j < |parts|
    ensures IdsOf(parts[..j + 1])
            == var parsed := ParseUint(TrimSpace(parts[j])); IdsOf(parts[..j]) + if parsed.Some? then {parsed.value} else {}
  {
    TakeMore(parts, j);
  }

  lemma UsedIdsMore(methods: seq<string>, i: nat)
    requires i < |methods|
    ensures UsedIds(methods[..i + 1]) == UsedIds(methods[..i]) + IdsOf(Split(methods[i], ','))
  {
    TakeMore(methods, i);
  }

  method LoadUsedIds(methods: seq<string>) returns (used: set<nat>)
    ensures used == UsedIds(methods)
  {
    used := {};
    for i := 0 to |methods|
      invariant used == UsedIds(methods[..i])
    {
      var parts := Split(methods[i], ',');
      ghost var earlier := used;
      for j := 0 to |parts|
        invariant used == earlier + IdsOf(parts[..j])
      {
        IdsOfMore(parts, j);
        var parsed := ParseUint(TrimSpace(parts[j]));
        if parsed.Some? {
          used := used + {parsed.value};
        }
      }
      assert parts[..|parts|] == parts;
      UsedIdsMore(methods, i);
    }
    assert methods[..|methods|] == methods;
  }

  // ---- What the maps hold

  /** A row that a UID can still name. */
  predicate Nameable(before: seq<AlertConfig>, placed: seq<nat>, r: AlertConfig) {
    r in before && (IsSingleton(r.kind) || r.id !in placed)
  }

  /** The source's map from UID to row: the nameable rows, as they are read. */
  function UidMap(before: seq<AlertConfig>, placed: seq<nat>): map<string, AlertConfig> {
    if before == [] then map[]
    else
      var last := before[|before| - 1];
      var rest := UidMap(before[..|before| - 1], placed);
      if !BlankUid(last) && (IsSingleton(last.kind) || last.id !in placed) then rest[last.uid := last] else rest
  }

  ghost predicate UidIndexed(byUid: map<string, AlertConfig>, before: seq<AlertConfig>, placed: seq<nat>) {
    && (forall u :: u in byUid ==> Nameable(before, placed, byUid[u]) && byUid[u].uid == u && TrimSpace(u) != "")
    && (forall r :: Nameable(before, placed, r) && !BlankUid(r) ==> r.uid in byUid)
  }

  /** The singleton row that is still unmatched: the source's map by singleton kind has this one key. */
  function OpenSingleton(before: seq<AlertConfig>, placed: seq<nat>): Option<AlertConfig> {
    var last := LastOfKind(before, COMMON);
    if last.Some? && last.value.id in placed then None else last
  }

  /** What the source's consumed set holds: the old rows landed on. */
  function ConsumedIds(before: seq<AlertConfig>, placed: seq<nat>): set<nat> {
    set r | r in before && r.id in placed :: r.id
  }

  // ---- How the maps change when an item lands

  lemma WithoutIdAppend(s: seq<AlertConfig>, last: AlertConfig, id: nat)
    ensures WithoutId(s + [last], id) == WithoutId(s, id) + if last.id == id then [] else [last]
  {
    AppendOne(s, last);
  }

  /** What one more old row adds to the open ones. */
  function OpenRow(last: AlertConfig, placed: seq<nat>): seq<AlertConfig> {
    if !IsSingleton(last.kind) && last.id !in placed then [last] else []
  }

  lemma OpenRowMore(open: seq<AlertConfig>, last: AlertConfig, placed: seq<nat>, id: nat)
    ensures WithoutId(open, id) + OpenRow(last, placed + [id]) == WithoutId(open + OpenRow(last, placed), id)
  {
    PlacedMore(placed, id, last.id);
    if OpenRow(last, placed) == [] {
      AppendNone(open);
      AppendNone(WithoutId(open, id));
    } else {
      WithoutIdAppend(open, last, id);
    }
  }

  lemma PlacedMore(placed: seq<nat>, id: nat, x: nat)
    ensures x in placed + [id] <==> x in placed || x == id
  {
  }

  lemma {:induction false} OpenRowsMore(before: seq<AlertConfig>, placed: seq<nat>, id: nat)
    ensures OpenRows(before, placed + [id]) == WithoutId(OpenRows(before, placed), id)
  {
    if before != [] {
      var rest, last := before[..|before| - 1], before[|before| - 1];
      OpenRowsMore(rest, placed, id);
      OpenRowMore(OpenRows(rest, placed), last, placed, id);
    }
  }

  lemma {:induction false} OpenRowsUnique(before: seq<AlertConfig>, placed: seq<nat>)
    requires UniqueIds(before)
    ensures UniqueIds(OpenRows(before, placed))
  {
    if before != [] {
      var rest, last := before[..|before| - 1], before[|before| - 1];
      OpenRowsUnique(rest, placed);
      forall r | r in OpenRows(rest, placed)
        ensures r.id != last.id
      {
        var k :| 0 <= k < |rest| && rest[k] == r;
        assert before[k] == r;
      }
    }
  }

  lemma LastUidAlone(before: seq<AlertConfig>)
    requires before != [] && UniqueUids(before)
    ensures UniqueUids(before[..|before| - 1])
    ensures forall r :: r in before[..|before| - 1] ==> r.uid != before[|before| - 1].uid
  {
    var rest, last := before[..|before| - 1], before[|before| - 1];
    forall r | r in rest
      ensures r.uid != last.uid
    {
      var k :| 0 <= k < |rest| && rest[k] == r;
      assert before[k] == r;
    }
  }

  lemma UidIndexedMore(
      byUid: map<string, AlertConfig>, rest: seq<AlertConfig>, last: AlertConfig, before: seq<AlertConfig>, placed: seq<nat>)
    requires UidIndexed(byUid, rest, placed) && before == rest + [last]
    requires forall r :: r in rest ==> r.uid != last.uid
    ensures UidIndexed(if Nameable(before, placed, last) && !BlankUid(last) then byUid[last.uid := last] else byUid, before, placed)
  {
    LastMembers(before);
    forall u | u in byUid
      ensures Nameable(before, placed, byUid[u]) && u != last.uid
    {
      assert Nameable(rest, placed, byUid[u]);
    }
    forall r | Nameable(before, placed, r) && r != last
      ensures Nameable(rest, placed, r)
    {
    }
  }

  lemma {:induction false} UidMapIndexed(before: seq<AlertConfig>, placed: seq<nat>)
    requires UniqueUids(before)
    ensures UidIndexed(UidMap(before, placed), before, placed)
  {
    if before != [] {
      var rest, last := before[..|before| - 1], before[|before| - 1];
      LastUidAlone(before);
      UidMapIndexed(rest, placed);
      UidIndexedMore(UidMap(rest, placed), rest, last, before, placed);
    }
  }

  lemma UidIndexedOnce(
      a: map<string, AlertConfig>, b: map<string, AlertConfig>, before: seq<AlertConfig>, placed: seq<nat>)
    requires UniqueUids(before) && UidIndexed(a, before, placed) && UidIndexed(b, before, placed)
    ensures a == b
  {
    forall u | u in a
      ensures u in b && a[u] == b[u]
    {
      SameRowByUid(before, a[u], b[a[u].uid]);
    }
    forall u | u in b
      ensures u in a
    {
      assert Nameable(before, placed, b[u]);
    }
  }

  lemma UidsAfterLanding(before: seq<AlertConfig>, placed: seq<nat>, row: AlertConfig)
    requires UniqueIds(before) && UniqueUids(before)
    requires row in before && !IsSingleton(row.kind)
    ensures UidMap(before, placed + [row.id]) == UidMap(before, placed) - {row.uid}
  {
    var byUid := UidMap(before, placed);
    var byUid', placed' := byUid - {row.uid}, placed + [row.id];
    UidMapIndexed(before, placed);
    UidMapIndexed(before, placed');
    forall u | u in byUid'
      ensures Nameable(before, placed', byUid'[u])
    {
      assert byUid[u] != row;
      OtherRowOtherId(before, byUid[u], row);
    }
    forall r | Nameable(before, placed', r) && !BlankUid(r)
      ensures r.uid in byUid'
    {
      assert Nameable(before, placed, r);
      if r.uid == row.uid {
        SameRowByUid(before, r, row);
      }
    }
    UidIndexedOnce(byUid', UidMap(before, placed'), before, placed');
  }

  lemma {:induction false} UidsAfterOther(before: seq<AlertConfig>, placed: seq<nat>, id: nat)
    requires forall k :: 0 <= k < |before| && before[k].id == id ==> IsSingleton(before[k].kind)
    ensures UidMap(before, placed + [id]) == UidMap(before, placed)
  {
    if before != [] {
      UidsAfterOther(before[..|before| - 1], placed, id);
    }
  }

  /** The four maps and the consumed set all describe the same open rows. */
  ghost predicate Agree(
      rules: Rules, before: seq<AlertConfig>, placed: seq<nat>, kindSlots: Slots, keySlots: Slots,
      byUid: map<string, AlertConfig>, singleton: Option<AlertConfig>, consumed: set<nat>)
  {
    && kindSlots == SlotsOf(rules, ByKind, OpenRows(before, placed))
    && keySlots == SlotsOf(rules, ByKey, OpenRows(before, placed))
    && byUid == UidMap(before, placed)
    && singleton == OpenSingleton(before, placed)
    && consumed == ConsumedIds(before, placed)
  }

  lemma ConsumedMore(before: seq<AlertConfig>, placed: seq<nat>, row: AlertConfig)
    requires row in before
    ensures ConsumedIds(before, placed + [row.id]) == ConsumedIds(before, placed) + {row.id}
  {
  }

  /** A new row enters no map. */
  lemma InsertKeepsAgreement(before: seq<AlertConfig>, placed: seq<nat>, id: nat)
    requires forall r :: r in before ==> r.id != id
    ensures OpenRows(before, placed + [id]) == OpenRows(before, placed)
    ensures UidMap(before, placed + [id]) == UidMap(before, placed)
    ensures OpenSingleton(before, placed + [id]) == OpenSingleton(before, placed)
    ensures ConsumedIds(before, placed + [id]) == ConsumedIds(before, placed)
  {
    OpenRowsKept(before, placed, id);
    UidsAfterOther(before, placed, id);
    var last := LastOfKind(before, COMMON);
    assert last.Some? ==> last.value.id != id;
  }

  lemma {:induction false} OpenRowsKept(before: seq<AlertConfig>, placed: seq<nat>, id: nat)
    requires forall k :: 0 <= k < |before| && before[k].id == id ==> IsSingleton(before[k].kind)
    ensures OpenRows(before, placed + [id]) == OpenRows(before, placed)
  {
    if before != [] {
      OpenRowsKept(before[..|before| - 1], placed, id);
    }
  }

  /** A landing on a row that is not a singleton takes it out of the three indexes. */
  lemma LandingKeepsAgreement(
      rules: Rules, before: seq<AlertConfig>, placed: seq<nat>, row: AlertConfig, kindSlots: Slots, keySlots: Slots,
      byUid: map<string, AlertConfig>, singleton: Option<AlertConfig>, consumed: set<nat>)
    requires UniqueIds(before) && UniqueUids(before)
    requires row in before && !IsSingleton(row.kind)
    requires Agree(rules, before, placed, kindSlots, keySlots, byUid, singleton, consumed)
    ensures Agree(rules, before, placed + [row.id], DropId(kindSlots, row.id), DropId(keySlots, row.id),
                  byUid - {row.uid}, singleton, consumed + {row.id})
  {
    OpenRowsMore(before, placed, row.id);
    SlotsWithout(rules, ByKind, OpenRows(before, placed), row.id);
    SlotsWithout(rules, ByKey, OpenRows(before, placed), row.id);
    UidsAfterLanding(before, placed, row);
    ConsumedMore(before, placed, row);
    SingletonStays(before, placed, row);
  }

  lemma SingletonStays(before: seq<AlertConfig>, placed: seq<nat>, row: AlertConfig)
    requires UniqueIds(before) && row in before && !IsSingleton(row.kind)
    ensures OpenSingleton(before, placed + [row.id]) == OpenSingleton(before, placed)
  {
    var last := LastOfKind(before, COMMON);
    if last.Some? {
      assert last.value.kind != row.kind;
      OtherRowOtherId(before, last.value, row);
      PlacedMore(placed, row.id, last.value.id);
    }
  }

  /** A landing on the singleton row takes it out of the singleton map only. */
  lemma SingletonKeepsAgreement(
      rules: Rules, before: seq<AlertConfig>, placed: seq<nat>, row: AlertConfig, kindSlots: Slots, keySlots: Slots,
      byUid: map<string, AlertConfig>, consumed: set<nat>)
    requires UniqueIds(before) && Agree(rules, before, placed, kindSlots, keySlots, byUid, Some(row), consumed)
    ensures Agree(rules, before, placed + [row.id], kindSlots, keySlots, byUid, None, consumed + {row.id})
  {
    forall k | 0 <= k < |before| && before[k].id == row.id
      ensures IsSingleton(before[k].kind)
    {
      SameRowById(before, before[k], row);
    }
    OpenRowsKept(before, placed, row.id);
    UidsAfterOther(before, placed, row.id);
    ConsumedMore(before, placed, row);
    PlacedMore(placed, row.id, row.id);
  }

  // ---- A lookup in a map is the search in the list

  lemma UidLookup(before: seq<AlertConfig>, placed: seq<nat>, uid: string)
    requires UniqueUids(before) && TrimSpace(uid) != ""
    ensures var byUid := UidMap(before, placed);
            FindUid(Candidates(before, placed), uid) == if uid in byUid then Some(byUid[uid]) else None
  {
    var byUid, candidates := UidMap(before, placed), Candidates(before, placed);
    UidMapIndexed(before, placed);
    assert forall r :: r in candidates <==> Nameable(before, placed, r);
    if uid in byUid {
      FindUidHit(candidates, byUid[uid]);
      SameRowByUid(before, FindUid(candidates, uid).value, byUid[uid]);
    }
  }

  lemma KeySlot(rules: Rules, open: seq<AlertConfig>, key: string)
    ensures var slots := SlotsOf(rules, ByKey, open);
            FindKey(rules, open, key) == if key in slots && slots[key] != [] then Some(slots[key][0]) else None
  {
    SlotsOfIndexed(rules, ByKey, open);
    KeyLookup(rules, open, key);
  }

  lemma {:induction false} KeyLookup(rules: Rules, s: seq<AlertConfig>, key: string)
    ensures var slot := Select(rules, ByKey, s, key);
            FindKey(rules, s, key) == if slot == [] then None else Some(slot[0])
  {
    if s != [] {
      KeyLookup(rules, s[..|s| - 1], key);
    }
  }

  function FirstUnused(slot: seq<AlertConfig>, used: set<nat>): Option<AlertConfig> {
    if slot == [] then None
    else
      var first := FirstUnused(slot[..|slot| - 1], used);
      if first.Some? then first else if slot[|slot| - 1].id !in used then Some(slot[|slot| - 1]) else None
  }

  lemma {:induction false} UnusedLookup(rules: Rules, s: seq<AlertConfig>, used: set<nat>, kind: string)
    ensures FindUnused(s, used, kind) == FirstUnused(Select(rules, ByKind, s, kind), used)
  {
    if s != [] {
      var rest, last := s[..|s| - 1], s[|s| - 1];
      UnusedLookup(rules, rest, used, kind);
      var slot := Select(rules, ByKind, rest, kind);
      if last.kind == kind {
        FirstUnusedMore(slot, last, used);
      } else {
        AppendNone(slot);
      }
    }
  }

  lemma FirstUnusedMore(slot: seq<AlertConfig>, x: AlertConfig, used: set<nat>)
    ensures FirstUnused(slot + [x], used)
            == var first := FirstUnused(slot, used); if first.Some? then first else if x.id !in used then Some(x) else None
  {
    AppendOne(slot, x);
  }

  lemma {:induction false} FirstUnusedNone(slot: seq<AlertConfig>, used: set<nat>)
    requires forall k :: 0 <= k < |slot| ==> slot[k].id in used
    ensures FirstUnused(slot, used) == None
  {
    if slot != [] {
      FirstUnusedNone(slot[..|slot| - 1], used);
    }
  }

  lemma {:induction false} FirstUnusedAt(slot: seq<AlertConfig>, used: set<nat>, k: nat)
    requires k < |slot| && slot[k].id !in used
    requires forall j :: 0 <= j < k ==> slot[j].id in used
    ensures FirstUnused(slot, used) == Some(slot[k])
  {
    if k == |slot| - 1 {
      FirstUnusedNone(slot[..|slot| - 1], used);
    } else {
      FirstUnusedAt(slot[..|slot| - 1], used, k);
    }
  }

  /** What PopUnused takes is the first unused open row of the kind. */
  lemma UnusedPopped(rules: Rules, open: seq<AlertConfig>, used: set<nat>, kind: string, popped: Option<AlertConfig>)
    requires TakesFirstUnused(SlotsOf(rules, ByKind, open), used, kind, popped)
    ensures popped == FindUnused(open, used, kind)
  {
    var slots := SlotsOf(rules, ByKind, open);
    SlotsOfIndexed(rules, ByKind, open);
    UnusedLookup(rules, open, used, kind);
    if popped.Some? {
      var k :| 0 <= k < |slots[kind]| && slots[kind][k] == popped.value
               && forall j :: 0 <= j < k ==> slots[kind][j].id in used;
      FirstUnusedAt(slots[kind], used, k);
    } else if kind in slots {
      FirstUnusedNone(slots[kind], used);
    }
  }

  /** A row that is not a singleton joins the open rows, at their end. */
  lemma ReadingOpens(before: seq<AlertConfig>, item: AlertConfig)
    ensures OpenRows(before + [item], [])
         == if IsSingleton(item.kind) then OpenRows(before, []) else OpenRows(before, []) + [item]
    ensures OpenSingleton(before + [item], []) == if IsSingleton(item.kind) then Some(item) else OpenSingleton(before, [])
    ensures UidMap(before + [item], [])
         == if BlankUid(item) then UidMap(before, []) else UidMap(before, [])[item.uid := item]
  {
    AppendOne(before, item);
    AppendNone(OpenRows(before, []));
  }

  lemma SlotsOfMore(rules: Rules, field: Field, open: seq<AlertConfig>, item: AlertConfig)
    ensures SlotsOf(rules, field, open + [item]) == AddTo(SlotsOf(rules, field, open), FieldOf(rules, field, item), item)
  {
    AppendOne(open, item);
  }

  /** Reading one more old row: a singleton enters its map, another row the two indexes, either the map of UIDs. */
  lemma ReadingKeepsAgreement(
      rules: Rules, before: seq<AlertConfig>, item: AlertConfig, kindSlots: Slots, keySlots: Slots,
      byUid: map<string, AlertConfig>, singleton: Option<AlertConfig>)
    requires Agree(rules, before, [], kindSlots, keySlots, byUid, singleton, {})
    ensures var byUid' := if BlankUid(item) then byUid else byUid[item.uid := item];
            if IsSingleton(item.kind)
            then Agree(rules, before + [item], [], kindSlots, keySlots, byUid', Some(item), {})
            else Agree(rules, before + [item], [], AddTo(kindSlots, item.kind, item),
                       AddTo(keySlots, SyncKey(rules, item), item), byUid', singleton, {})
  {
    var byUid' := if BlankUid(item) then byUid else byUid[item.uid := item];
    ReadingOpens(before, item);
    NothingConsumed(before + [item]);
    if IsSingleton(item.kind) {
      assert Agree(rules, before + [item], [], kindSlots, keySlots, byUid', Some(item), {});
    } else {
      SlotsOfMore(rules, ByKind, OpenRows(before, []), item);
      SlotsOfMore(rules, ByKey, OpenRows(before, []), item);
      assert Agree(rules, before + [item], [], AddTo(kindSlots, item.kind, item),
                   AddTo(keySlots, SyncKey(rules, item), item), byUid', singleton, {});
    }
  }

  lemma NothingConsumed(before: seq<AlertConfig>)
    ensures ConsumedIds(before, []) == {}
  {
  }

  /** The decisions that the source takes from its maps are those that the specification takes from the list. */
  lemma LookupsAgree(rules: Rules, used: set<nat>, before: seq<AlertConfig>, placed: seq<nat>, item: AlertConfig)
    requires UniqueUids(before)
    ensures var byUid, trimmed := UidMap(before, placed), TrimSpace(item.uid);
            UidAgrees(before, placed, item) <==> !(trimmed != "" && trimmed in byUid && byUid[trimmed].kind != item.kind)
    ensures Landing(rules, used, before, placed, item)
         == var byUid, open := UidMap(before, placed), OpenRows(before, placed);
            if IsSingleton(item.kind) then OpenSingleton(before, placed)
            else if !BlankUid(item) && item.uid in byUid then Some(byUid[item.uid])
            else if FindKey(rules, open, SyncKey(rules, item)).Some? then FindKey(rules, open, SyncKey(rules, item))
            else FindUnused(open, used, item.kind)
    ensures !BlankUid(item) && item.uid in UidMap(before, placed) ==>
              UidMap(before, placed)[item.uid] in before && UidMap(before, placed)[item.uid].uid == item.uid
  {
    var trimmed := TrimSpace(item.uid);
    if trimmed != "" {
      TrimmedFixed(trimmed);
      UidLookup(before, placed, trimmed);
      UidLookup(before, placed, item.uid);
      UidMapIndexed(before, placed);
    }
  }

  // ---- The run and the sweep, one item at a time

  /** One more item is one more step, and an item that fails fails the run. */
  lemma ItemStep(
      rules: Rules, used: set<nat>, before: seq<AlertConfig>, data: seq<AlertConfig>, uuids: seq<Uuid>,
      start: Progress, i: nat, p: Progress)
    requires i < |data| <= |uuids|
    requires Fold(StepAt(rules, used, before, data, uuids), start, i) == Success(p)
    ensures Fold(StepAt(rules, used, before, data, uuids), start, i + 1) == Step(rules, used, before, p, data[i], uuids[i])
    ensures Step(rules, used, before, p, data[i], uuids[i]).Failure? ==>
              Fold(StepAt(rules, used, before, data, uuids), start, |data|) == Step(rules, used, before, p, data[i], uuids[i])
  {
    var step := StepAt(rules, used, before, data, uuids);
    var r := step(p, i);
    assert r == Step(rules, used, before, p, data[i], uuids[i]);
    if r.Failure? {
      FoldFailure(step, start, i, |data|, r.error);
    }
  }

  /** The sweep for one more old row, in terms of the source's consumed set. */
  lemma SweepOneMore(s: seq<AlertConfig>, before: seq<AlertConfig>, k: nat, used: set<nat>, placed: seq<nat>)
    requires k < |before|
    ensures Sweep(s, before[..k + 1], used, placed)
         == if before[k].id in used || before[k].id in ConsumedIds(before, placed)
            then Sweep(s, before[..k], used, placed)
            else WithoutId(Sweep(s, before[..k], used, placed), before[k].id)
  {
    SweepMore(s, before[..k], before[k], used, placed);
    assert before[..k] + [before[k]] == before[..k + 1];
    assert before[k] in before;
  }

  lemma {:induction false} NothingSwept(s: seq<AlertConfig>, used: set<nat>, placed: seq<nat>)
    ensures Sweep(s, [], used, placed) == s
  {
    if s != [] {
      NothingSwept(s[..|s| - 1], used, placed);
      SplitLast(s);
    }
  }

  /** Sweeping for one more old row deletes that row, if it is to be dropped. */
  lemma {:induction false} SweepMore(
      s: seq<AlertConfig>, before: seq<AlertConfig>, row: AlertConfig, used: set<nat>, placed: seq<nat>)
    ensures Sweep(s, before + [row], used, placed)
         == if row.id in used || row.id in placed then Sweep(s, before, used, placed)
            else WithoutId(Sweep(s, before, used, placed), row.id)
  {
    if s != [] {
      var rest, last := s[..|s| - 1], s[|s| - 1];
      SweepMore(rest, before, row, used, placed);
      HasIdMore(before, row, last.id);
      var kept := Sweep(rest, before, used, placed);
      assert kept + [] == kept && (kept + [last])[..|kept|] == kept;
      assert WithoutId(kept, row.id) + [] == WithoutId(kept, row.id);
    }
  }

  lemma HasIdMore(before: seq<AlertConfig>, row: AlertConfig, id: nat)
    ensures HasId(before + [row], id) <==> HasId(before, id) || row.id == id
  {
    if HasId(before, id) {
      var r :| r in before && r.id == id;
      assert r in before + [row];
    }
    assert row in before + [row];
  }
}
