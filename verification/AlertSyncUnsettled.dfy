/** Items that a first synchronisation takes and a second does not, or not without a change. */
module AlertSyncUnsettled {
  import opened Text
  import opened AlertConfigs
  import opened AlertSyncSpec
  import opened AlertSyncProofs
  import opened AlertSyncOrder
  import opened AlertSyncStable

  // ---- Two items of one singleton kind

  function Saved(item: AlertConfig, id: nat): AlertConfig {
    item.(id := id, secret := "")
  }

  lemma CommonIsInserted(rules: Rules, used: set<nat>, p: Progress, item: AlertConfig, uuid: Uuid)
    requires item.kind == COMMON && !BlankUid(item) && !HasUid(p.table.rows, item.uid)
    ensures Step(rules, used, [], p, item, uuid)
            == Success(Progress(Table(p.table.rows + [Saved(item, p.table.nextId)], p.table.nextId + 1), p.placed + [p.table.nextId]))
  {
    assert LastOfKind([], COMMON).None? && FindUid(Candidates([], p.placed), TrimSpace(item.uid)).None?;
    assert Prepare(rules, item, uuid) == Success(item.(id := 0, secret := ""));
  }

  lemma TwoItemsRun(rules: Rules, used: set<nat>, before: Table, data: seq<AlertConfig>, uuids: seq<Uuid>)
    requires before.rows == [] && |data| == |uuids| == 2 && data[0].kind == data[1].kind == COMMON
    requires !BlankUid(data[0]) && !BlankUid(data[1]) && data[0].uid != data[1].uid
    ensures Sync(rules, used, before, data, uuids).Success?
  {
    var id := before.nextId;
    var start, first := Progress(before, []), Progress(Table([] + [Saved(data[0], id)], id + 1), [] + [id]);
    CommonIsInserted(rules, used, start, data[0], uuids[0]);
    assert Run(rules, used, before, data, uuids, 0) == Success(start);
    assert Run(rules, used, before, data, uuids, 1) == Success(first);
    CommonIsInserted(rules, used, first, data[1], uuids[1]);
    assert Run(rules, used, before, data, uuids, 2).Success?;
  }

  /** A first run over an empty table takes any two singleton items of different UIDs, which no second run takes again. */
  lemma UnstableRunSucceeds(
      rules: Rules, used: set<nat>, before: Table, data: seq<AlertConfig>, uuids: seq<Uuid>, uuids': seq<Uuid>)
    requires before.rows == [] && |data| == |uuids| == |uuids'| == 2 && data[0].kind == data[1].kind == COMMON
    requires !BlankUid(data[0]) && !BlankUid(data[1]) && data[0].uid != data[1].uid
    ensures Sync(rules, used, before, data, uuids).Success? && !Stable(data)
    ensures Sync(rules, used, Sync(rules, used, before, data, uuids).value, data, uuids').Failure?
  {
    TwoItemsRun(rules, used, before, data, uuids);
    TwoSingletonsUnstable(data);
    UnstableFailsAgain(rules, used, before, data, uuids, uuids');
  }

  lemma UnstableFailsAgain(
      rules: Rules, used: set<nat>, before: Table, data: seq<AlertConfig>, uuids: seq<Uuid>, uuids': seq<Uuid>)
    requires ValidTable(before) && |data| <= |uuids| && |data| <= |uuids'| && !Stable(data)
    requires AllNamed(data) && Sync(rules, used, before, data, uuids).Success?
    ensures Sync(rules, used, Sync(rules, used, before, data, uuids).value, data, uuids').Failure?
  {
    SyncTwice(rules, used, before, data, uuids, uuids');
  }

  lemma TwoSingletonsUnstable(data: seq<AlertConfig>)
    requires |data| == 2 && data[0].kind == data[1].kind == COMMON && !BlankUid(data[0]) && !BlankUid(data[1])
    ensures !Stable(data) && AllNamed(data)
  {
    assert !StableAt(data, 0);
  }

  // ---- Two items of one content that change places

  /**
   * Of two old rows the second has the content of both items; the first item has no UID, and the second that of the
   * first row.
   */
  predicate Crossed(rules: Rules, before: Table, a: AlertConfig, b: AlertConfig, data: seq<AlertConfig>) {
    && before.rows == [a, b] && a.id != b.id && a.uid != b.uid && |data| == 2
    && a.kind == b.kind == data[0].kind == data[1].kind && !IsSingleton(a.kind) && a.kind != CUSTOM
    && BlankUid(data[0]) && data[1].uid == a.uid == TrimSpace(a.uid) != ""
    && SyncKey(rules, a) != SyncKey(rules, b) == SyncKey(rules, data[0]) == SyncKey(rules, data[1])
    && data[0].title != data[1].title
  }

  lemma OpenMore(s: seq<AlertConfig>, last: AlertConfig, placed: seq<nat>)
    ensures OpenRows(s + [last], placed)
            == OpenRows(s, placed) + if !IsSingleton(last.kind) && last.id !in placed then [last] else []
  {
    assert (s + [last])[..|s|] == s;
  }

  lemma NoSingles(s: seq<AlertConfig>)
    requires forall r :: r in s ==> !IsSingleton(r.kind)
    ensures Singles(s) == []
  {
    if Singles(s) != [] {
      assert Singles(s)[0] in Singles(s);
    }
  }

  lemma OpenPair(a: AlertConfig, b: AlertConfig, placed: seq<nat>)
    requires !IsSingleton(a.kind) && !IsSingleton(b.kind) && a.id !in placed
    ensures OpenRows([a, b], placed) == if b.id in placed then [a] else [a, b]
    ensures Candidates([a, b], placed) == OpenRows([a, b], placed)
  {
    Pair(a, b);
    OpenMore([], a, placed);
    OpenMore([a], b, placed);
    assert [] + [a] == [a];
    NoSingles([a, b]);
  }

  lemma SecondFound(rules: Rules, a: AlertConfig, b: AlertConfig, key: string)
    requires SyncKey(rules, a) != key && SyncKey(rules, b) == key
    ensures FindKey(rules, [a, b], key) == Some(b)
  {
    Pair(a, b);
    FindKeyMore(rules, [], a, key);
    FindKeyMore(rules, [a], b, key);
    assert [] + [a] == [a];
  }

  lemma FirstCrosses(
      rules: Rules, used: set<nat>, before: Table, a: AlertConfig, b: AlertConfig, data: seq<AlertConfig>, uuid: Uuid,
      placed: seq<nat>)
    requires Crossed(rules, before, a, b, data) && placed == []
    ensures Step(rules, used, before.rows, Progress(before, placed), data[0], uuid)
            == Success(Progress(Table([a, data[0].(id := b.id, uid := b.uid, secret := "")], before.nextId), placed + [b.id]))
  {
    OpenPair(a, b, placed);
    SecondFound(rules, a, b, SyncKey(rules, data[0]));
    var merged := data[0].(id := b.id, uid := b.uid, secret := "");
    assert Landing(rules, used, before.rows, placed, data[0]) == Some(b);
    assert Inherit(rules, data[0], b) == Success(merged);
    assert SaveRow(before, merged) == Success(Table([a, merged], before.nextId)) by {
      assert ReplaceRow([a, b], merged) == [a, merged];
    }
  }

  lemma SecondCrosses(
      rules: Rules, used: set<nat>, before: Table, a: AlertConfig, b: AlertConfig, data: seq<AlertConfig>, uuid: Uuid,
      b': AlertConfig, placed: seq<nat>)
    requires Crossed(rules, before, a, b, data) && b'.id == b.id && b'.uid == b.uid
    requires a.id !in placed && b.id in placed
    ensures Step(rules, used, before.rows, Progress(Table([a, b'], before.nextId), placed), data[1], uuid)
            == Success(Progress(Table([data[1].(id := a.id, secret := ""), b'], before.nextId), placed + [a.id]))
  {
    OpenPair(a, b, placed);
    var merged := data[1].(id := a.id, secret := "");
    OneFound(a);
    assert Inherit(rules, data[1], a) == Success(merged);
    assert SaveRow(Table([a, b'], before.nextId), merged) == Success(Table([merged, b'], before.nextId)) by {
      assert ReplaceRow([a, b'], merged) == [merged, b'];
    }
  }

  lemma OneFound(a: AlertConfig)
    ensures FindUid([a], a.uid) == Some(a)
  {
    FindUidHit([a], a);
  }

  lemma CrossedRun(
      rules: Rules, used: set<nat>, before: Table, a: AlertConfig, b: AlertConfig, data: seq<AlertConfig>,
      uuids: seq<Uuid>)
    requires Crossed(rules, before, a, b, data) && |uuids| == 2
    ensures Run(rules, used, before, data, uuids, |data|).Success?
    ensures var p := Run(rules, used, before, data, uuids, |data|).value;
            p.placed == [b.id, a.id] && |p.table.rows| == 2 && p.table.rows[0].id == a.id && p.table.rows[1].id == b.id
  {
    var start, none: seq<nat> := Progress(before, []), [];
    var b' := data[0].(id := b.id, uid := b.uid, secret := "");
    FirstCrosses(rules, used, before, a, b, data, uuids[0], none);
    assert Run(rules, used, before, data, uuids, 0) == Success(start);
    var first := Progress(Table([a, b'], before.nextId), none + [b.id]);
    assert Run(rules, used, before, data, uuids, 1) == Success(first);
    SecondCrosses(rules, used, before, a, b, data, uuids[1], b', none + [b.id]);
    Pair(b.id, a.id);
  }

  lemma PairOrder(s: seq<AlertConfig>, a: nat, b: nat)
    requires |s| == 2 && s[0].id == a != s[1].id == b
    ensures !Ahead(s, b, a)
  {
  }

  lemma UuidIsNotEmpty(uuid: Uuid)
    ensures uuid != ""
  {
    assert TrimSpace("") == "";
  }

  lemma CrossedIsFresh(
      rules: Rules, before: Table, a: AlertConfig, b: AlertConfig, data: seq<AlertConfig>, uuids: seq<Uuid>)
    requires Crossed(rules, before, a, b, data) && |uuids| == 2 && uuids[0] != a.uid
    ensures FreshUuids(data, uuids)
  {
    UuidIsNotEmpty(uuids[0]);
    assert NamedByNone(data, uuids[0]);
  }

  lemma CrossedItems(rules: Rules, before: Table, a: AlertConfig, b: AlertConfig, data: seq<AlertConfig>)
    requires Crossed(rules, before, a, b, data)
    ensures Stable(data) && NoTwins(rules, data) && Contend(rules, data[0], data[1])
  {
    assert StableAt(data, 0);
    assert StableAt(data, 1);
  }

  lemma CrossedSync(
      rules: Rules, used: set<nat>, before: Table, a: AlertConfig, b: AlertConfig, data: seq<AlertConfig>,
      uuids: seq<Uuid>)
    requires Crossed(rules, before, a, b, data) && |uuids| == 2
    ensures Sync(rules, used, before, data, uuids).Success?
    ensures Placements(rules, used, before, data, uuids) == [b.id, a.id]
    ensures !Ahead(Sync(rules, used, before, data, uuids).value.rows, b.id, a.id)
  {
    CrossedRun(rules, used, before, a, b, data, uuids);
    var p := Run(rules, used, before, data, uuids, |data|).value;
    PairSwept(p.table.rows, before.rows, used, p.placed, a.id, b.id);
    PairOrder(p.table.rows, a.id, b.id);
  }

  lemma PairSwept(
      s: seq<AlertConfig>, before: seq<AlertConfig>, used: set<nat>, placed: seq<nat>, a: nat, b: nat)
    requires |s| == 2 && s[0].id == a && s[1].id == b && placed == [b, a]
    ensures Sweep(s, before, used, placed) == s
  {
    assert a in placed && b in placed;
    SweepNothing(s, before, used, placed);
  }

  /** The first run takes such items; the second, which finds the first row before the second, changes the table or fails. */
  lemma CrossedDoNotSettle(
      rules: Rules, used: set<nat>, before: Table, a: AlertConfig, b: AlertConfig, data: seq<AlertConfig>,
      uuids: seq<Uuid>, uuids': seq<Uuid>)
    requires ValidTable(before) && Crossed(rules, before, a, b, data) && |uuids| == |uuids'| == 2 && uuids[0] != a.uid
    ensures Sync(rules, used, before, data, uuids).Success? && Stable(data) && NoTwins(rules, data)
    ensures Sync(rules, used, Sync(rules, used, before, data, uuids).value, data, uuids')
            != Success(Sync(rules, used, before, data, uuids).value)
  {
    CrossedItems(rules, before, a, b, data);
    CrossedIsFresh(rules, before, a, b, data, uuids);
    CrossedSync(rules, used, before, a, b, data, uuids);
    SyncTwice(rules, used, before, data, uuids, uuids');
    var t := Sync(rules, used, before, data, uuids).value;
    assert !InOrderAt(rules, t.rows, Placements(rules, used, before, data, uuids), data, 0);
  }
}
