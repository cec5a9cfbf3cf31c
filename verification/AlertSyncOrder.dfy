/** Where the rows of a synchronisation stand in the table, and how each item came to its row. */
module AlertSyncOrder {
  import opened Text
  import opened AlertConfigs
  import opened AlertSyncSpec
  import opened AlertSyncProofs
  import opened Folds

  /** The row a stands before the row b. */
  predicate Ahead(s: seq<AlertConfig>, a: nat, b: nat) {
    exists i, j :: 0 <= i < j < |s| && s[i].id == a && s[j].id == b
  }

  lemma NotBothAhead(s: seq<AlertConfig>, a: nat, b: nat)
    requires UniqueIds(s) && Ahead(s, a, b)
    ensures !Ahead(s, b, a)
  {
  }

  lemma AheadMore(s: seq<AlertConfig>, more: seq<AlertConfig>, a: nat, b: nat)
    requires Ahead(s, a, b)
    ensures Ahead(s + more, a, b)
  {
    var i, j :| 0 <= i < j < |s| && s[i].id == a && s[j].id == b;
    assert (s + more)[i] == s[i] && (s + more)[j] == s[j];
  }

  lemma AheadLast(s: seq<AlertConfig>, row: AlertConfig, a: nat)
    requires HasId(s, a)
    ensures Ahead(s + [row], a, row.id)
  {
    var r :| r in s && r.id == a;
    var i :| 0 <= i < |s| && s[i] == r;
    assert (s + [row])[i] == r && (s + [row])[|s|] == row;
  }

  lemma FindKeyMore(rules: Rules, s: seq<AlertConfig>, row: AlertConfig, key: string)
    ensures FindKey(rules, s + [row], key)
            == if FindKey(rules, s, key).Some? then FindKey(rules, s, key)
               else if SyncKey(rules, row) == key then Some(row) else None
  {
    assert (s + [row])[..|s|] == s;
  }

  lemma {:induction false} FindKeyHit(rules: Rules, s: seq<AlertConfig>, row: AlertConfig)
    requires row in s
    ensures FindKey(rules, s, SyncKey(rules, row)).Some?
  {
    if s[|s| - 1] != row {
      LastMembers(s);
      FindKeyHit(rules, s[..|s| - 1], row);
    }
  }

  /** The row found for a key stands before every other open row of that key. */
  lemma {:induction false} FoundFirst(
      rules: Rules, before: seq<AlertConfig>, placed: seq<nat>, key: string, row: AlertConfig, r: AlertConfig)
    requires FindKey(rules, OpenRows(before, placed), key) == Some(row)
    requires r in OpenRows(before, placed) && SyncKey(rules, r) == key && r != row
    ensures Ahead(before, row.id, r.id)
  {
    var rest, last := before[..|before| - 1], before[|before| - 1];
    var open := OpenRows(rest, placed);
    SplitLast(before);
    if OpenRows(before, placed) == open {
      AppendNone(open);
      FoundFirst(rules, rest, placed, key, row, r);
      AheadMore(rest, [last], row.id, r.id);
    } else {
      FindKeyMore(rules, open, last, key);
      if r in open {
        FindKeyHit(rules, open, r);
        FoundFirst(rules, rest, placed, key, row, r);
        AheadMore(rest, [last], row.id, r.id);
      } else {
        assert r == last;
        AheadLast(rest, last, row.id);
      }
    }
  }

  lemma ShapeKeepsOrder(before: Table, table: Table, placed: seq<nat>, a: nat, b: nat)
    requires Shape(before, table, placed) && Ahead(before.rows, a, b)
    ensures Ahead(table.rows, a, b)
  {
    var i, j :| 0 <= i < j < |before.rows| && before.rows[i].id == a && before.rows[j].id == b;
    assert OldRow(before.rows[i], table.rows[i], placed) && OldRow(before.rows[j], table.rows[j], placed);
  }

  lemma SweepKeepsId(s: seq<AlertConfig>, before: seq<AlertConfig>, used: set<nat>, placed: seq<nat>, a: nat)
    requires HasId(s, a) && !Dropped(before, used, placed, a)
    ensures HasId(Sweep(s, before, used, placed), a)
  {
    var r :| r in s && r.id == a;
    SweepMembers(s, before, used, placed, r);
  }

  lemma {:induction false} SweepKeepsOrder(
      s: seq<AlertConfig>, before: seq<AlertConfig>, used: set<nat>, placed: seq<nat>, a: nat, b: nat)
    requires Ahead(s, a, b) && !Dropped(before, used, placed, a) && !Dropped(before, used, placed, b)
    ensures Ahead(Sweep(s, before, used, placed), a, b)
  {
    var rest, last := s[..|s| - 1], s[|s| - 1];
    var swept := Sweep(rest, before, used, placed);
    var i, j :| 0 <= i < j < |s| && s[i].id == a && s[j].id == b;
    if j == |s| - 1 {
      assert rest[i] in rest;
      SweepKeepsId(rest, before, used, placed, a);
      AheadLast(swept, last, a);
    } else {
      assert rest[i].id == a && rest[j].id == b;
      SweepKeepsOrder(rest, before, used, placed, a, b);
      AheadMore(swept, if Dropped(before, used, placed, last.id) then [] else [last], a, b);
    }
  }

  // ---- How each item came to its row

  /** The item landed on this row, or was inserted. */
  predicate LandedBy(rules: Rules, used: set<nat>, before: Table, item: AlertConfig, earlier: seq<nat>, id: nat) {
    match Landing(rules, used, before.rows, earlier, item)
    case Some(row) => id == row.id
    case None => before.nextId <= id
  }

  /**
   * What an item is saved as, over an old row of its kind or as a new one: its own texts; its secret, if it is custom
   * and has one, else the old row's; its UID, if it has one, else the old row's or the one drawn.
   */
  predicate SavedAs(row: AlertConfig, item: AlertConfig, was: Option<AlertConfig>, uuid: string) {
    && row.kind == item.kind && row.title == item.title && row.status == item.status && row.config == item.config
    && row.secret == (if item.kind != "custom" then ""
                      else if item.secret != "" || was.None? then item.secret else was.value.secret)
    && row.uid == (if TrimSpace(item.uid) != "" then item.uid else if was.Some? then was.value.uid else uuid)
    && (was.Some? ==> was.value.kind == item.kind)
  }

  /** The item is saved over the old row with the identifier, if there is one, and otherwise as a new row. */
  predicate SavedOver(before: seq<AlertConfig>, row: AlertConfig, item: AlertConfig, uuid: string) {
    if exists was :: was in before && was.id == row.id
    then exists was :: was in before && was.id == row.id && SavedAs(row, item, Some(was), uuid)
    else SavedAs(row, item, None, uuid)
  }

  predicate Saves(before: seq<AlertConfig>, rows: seq<AlertConfig>, id: nat, item: AlertConfig, uuid: string) {
    exists row :: row in rows && row.id == id && SavedOver(before, row, item, uuid)
  }

  predicate Noted(
      rules: Rules, used: set<nat>, before: Table, data: seq<AlertConfig>, uuids: seq<Uuid>, p: Progress, n: nat)
    requires n <= |data| <= |uuids|
  {
    && |p.placed| == n
    && forall j :: 0 <= j < n ==> NotedAt(rules, used, before, data[j], uuids[j], p, j)
  }

  predicate NotedAt(
      rules: Rules, used: set<nat>, before: Table, item: AlertConfig, uuid: Uuid, p: Progress, j: nat)
    requires j < |p.placed|
  {
    && LandedBy(rules, used, before, item, p.placed[..j], p.placed[j])
    && Saves(before.rows, p.table.rows, p.placed[j], item, uuid)
  }

  lemma InheritSaves(rules: Rules, item: AlertConfig, row: AlertConfig, uuid: string)
    requires Inherit(rules, item, row).Success?
    ensures var merged := Inherit(rules, item, row).value;
            merged.id == row.id && SavedAs(merged, item, Some(row), uuid)
  {
  }

  lemma PrepareSaves(rules: Rules, item: AlertConfig, uuid: Uuid, id: nat)
    requires Prepare(rules, item, uuid).Success?
    ensures SavedAs(Prepare(rules, item, uuid).value.(id := id), item, None, uuid)
  {
  }

  lemma ReplacedMember(s: seq<AlertConfig>, row: AlertConfig, k: nat)
    requires k < |s| && s[k].id == row.id
    ensures row in ReplaceRow(s, row)
  {
    assert ReplaceRow(s, row)[k] == row;
  }

  lemma LandNotes(rules: Rules, p: Progress, before: Table, item: AlertConfig, row: AlertConfig, uuid: Uuid)
    requires Sound(before, p) && row in before.rows && row.id !in p.placed
    requires LandOn(rules, p, item, row).Success?
    ensures Saves(before.rows, LandOn(rules, p, item, row).value.table.rows, row.id, item, uuid)
  {
    var merged := Inherit(rules, item, row).value;
    var k :| 0 <= k < |before.rows| && before.rows[k] == row;
    assert OldRow(before.rows[k], p.table.rows[k], p.placed);
    InheritSaves(rules, item, row, uuid);
    ReplacedMember(p.table.rows, merged, k);
    assert SavedOver(before.rows, merged, item, uuid);
  }

  lemma AppendNotes(rules: Rules, p: Progress, before: Table, item: AlertConfig, uuid: Uuid)
    requires Sound(before, p) && Append(rules, p, item, uuid).Success?
    ensures Saves(before.rows, Append(rules, p, item, uuid).value.table.rows, p.table.nextId, item, uuid)
  {
    var row := Prepare(rules, item, uuid).value.(id := p.table.nextId);
    PrepareSaves(rules, item, uuid, p.table.nextId);
    assert row in p.table.rows + [row];
    assert SavedOver(before.rows, row, item, uuid);
  }

  lemma StepNotes(
      rules: Rules, used: set<nat>, before: Table, p: Progress, item: AlertConfig, uuid: Uuid, q: Progress, id: nat)
    requires Sound(before, p) && Step(rules, used, before.rows, p, item, uuid) == Success(q)
    requires q.placed == p.placed + [id]
    ensures LandedBy(rules, used, before, item, p.placed, id)
    ensures Saves(before.rows, q.table.rows, id, item, uuid)
  {
    assert id == q.placed[|p.placed|];
    match Landing(rules, used, before.rows, p.placed, item)
    case Some(row) =>
      LandingIsOpen(rules, used, before, p, item);
      LandNotes(rules, p, before, item, row, uuid);
    case None => AppendNotes(rules, p, before, item, uuid);
  }

  lemma StaysNoted(
      rules: Rules, before: seq<AlertConfig>, rows: seq<AlertConfig>, rows': seq<AlertConfig>, id: nat, last: AlertConfig,
      other: nat, item: AlertConfig, uuid: string)
    requires StepHolds(rules, rows, rows', id, last) && Saves(before, rows, other, item, uuid) && other != id
    ensures Saves(before, rows', other, item, uuid)
  {
    var row :| row in rows && row.id == other && SavedOver(before, row, item, uuid);
    assert row in rows';
  }

  lemma NoteStays(
      rules: Rules, used: set<nat>, before: Table, item: AlertConfig, uuid: Uuid, p: Progress, q: Progress, id: nat,
      last: AlertConfig, j: nat)
    requires j < |p.placed| && q.placed == p.placed + [id] && id !in p.placed
    requires StepHolds(rules, p.table.rows, q.table.rows, id, last) && NotedAt(rules, used, before, item, uuid, p, j)
    ensures NotedAt(rules, used, before, item, uuid, q, j)
  {
    assert q.placed[..j] == p.placed[..j] && q.placed[j] == p.placed[j];
    StaysNoted(rules, before.rows, p.table.rows, q.table.rows, id, last, p.placed[j], item, uuid);
  }

  lemma LastIsNew(placed: seq<nat>, id: nat)
    requires NoDuplicates(placed + [id])
    ensures id !in placed
  {
    assert forall j :: 0 <= j < |placed| ==> (placed + [id])[j] == placed[j];
    assert (placed + [id])[|placed|] == id;
  }

  lemma NoteMore(
      rules: Rules, used: set<nat>, before: Table, data: seq<AlertConfig>, uuids: seq<Uuid>, p: Progress, q: Progress,
      n: nat)
    requires n < |data| <= |uuids| && Sound(before, p) && Noted(rules, used, before, data, uuids, p, n)
    requires Step(rules, used, before.rows, p, data[n], uuids[n]) == Success(q)
    ensures Sound(before, q) && Noted(rules, used, before, data, uuids, q, n + 1)
  {
    var id := StepSound(rules, used, before, p, data[n], uuids[n]);
    LastIsNew(p.placed, id);
    StepNotes(rules, used, before, p, data[n], uuids[n], q, id);
    AppendOne(p.placed, id);
    forall j | 0 <= j < n ensures NotedAt(rules, used, before, data[j], uuids[j], q, j) {
      NoteStays(rules, used, before, data[j], uuids[j], p, q, id, data[n], j);
    }
    assert NotedAt(rules, used, before, data[n], uuids[n], q, n);
  }

  lemma RunNotes(rules: Rules, used: set<nat>, before: Table, data: seq<AlertConfig>, uuids: seq<Uuid>, n: nat)
    requires ValidTable(before) && n <= |data| <= |uuids|
    requires Run(rules, used, before, data, uuids, n).Success?
    ensures Noted(rules, used, before, data, uuids, Run(rules, used, before, data, uuids, n).value, n)
  {
    var step := StepAt(rules, used, before.rows, data, uuids);
    var inv := (p: Progress, i: nat) =>
      i <= |data| && Sound(before, p) && Noted(rules, used, before, data, uuids, p, i);
    StartSound(rules, before, data);
    forall p, i: nat | i < n && inv(p, i) && step(p, i).Success?
      ensures inv(step(p, i).value, i + 1)
    {
      NoteMore(rules, used, before, data, uuids, p, step(p, i).value, i);
    }
    FoldKeeps(step, Progress(before, []), n, inv);
  }

  // ---- What the first run leaves for the items without a UID

  /** No item names this UID. */
  predicate NamedByNone(data: seq<AlertConfig>, uid: string) {
    forall i :: 0 <= i < |data| ==> TrimSpace(data[i].uid) != uid
  }

  /** The row has the UID that an old row of the same kind and identifier had, or one that no item names. */
  predicate UidKnown(before: seq<AlertConfig>, data: seq<AlertConfig>, row: AlertConfig) {
    NamedByNone(data, row.uid) || exists r :: r in before && r.id == row.id && r.uid == row.uid && r.kind == row.kind
  }

  predicate BlankUidsKnown(before: seq<AlertConfig>, rows: seq<AlertConfig>, placed: seq<nat>, data: seq<AlertConfig>)
    requires |placed| == |data|
  {
    forall j :: 0 <= j < |data| && BlankUid(data[j]) ==>
      exists row :: row in rows && row.id == placed[j] && UidKnown(before, data, row)
  }

  /** The UIDs drawn for the items without one are named by no item. */
  predicate FreshUuids(data: seq<AlertConfig>, uuids: seq<Uuid>)
    requires |data| <= |uuids|
  {
    forall j :: 0 <= j < |data| && BlankUid(data[j]) ==> NamedByNone(data, uuids[j])
  }

  lemma SweptUids(
      rules: Rules, used: set<nat>, before: Table, data: seq<AlertConfig>, uuids: seq<Uuid>, p: Progress)
    requires |data| <= |uuids| && FreshUuids(data, uuids) && Noted(rules, used, before, data, uuids, p, |data|)
    ensures BlankUidsKnown(before.rows, Sweep(p.table.rows, before.rows, used, p.placed), p.placed, data)
  {
    var rows := Sweep(p.table.rows, before.rows, used, p.placed);
    forall j | 0 <= j < |data| && BlankUid(data[j])
      ensures exists row :: row in rows && row.id == p.placed[j] && UidKnown(before.rows, data, row)
    {
      assert NotedAt(rules, used, before, data[j], uuids[j], p, j);
      var row :| row in p.table.rows && row.id == p.placed[j] && SavedOver(before.rows, row, data[j], uuids[j]);
      SweepMembers(p.table.rows, before.rows, used, p.placed, row);
      assert UidKnown(before.rows, data, row);
    }
  }

  /** The row stands before every row of the item's content that no item landed on. */
  predicate RankedAt(rules: Rules, rows: seq<AlertConfig>, placed: seq<nat>, item: AlertConfig, id: nat) {
    forall f :: f in rows && f.id !in placed && !IsSingleton(f.kind) && SyncKey(rules, f) == SyncKey(rules, item) ==>
      Ahead(rows, id, f.id)
  }

  predicate MatchesByContent(item: AlertConfig) {
    BlankUid(item) && !IsSingleton(item.kind)
  }

  lemma LandsByContent(
      rules: Rules, used: set<nat>, before: seq<AlertConfig>, placed: seq<nat>, item: AlertConfig, r: AlertConfig)
    requires MatchesByContent(item) && r in OpenRows(before, placed) && SyncKey(rules, r) == SyncKey(rules, item)
    ensures Landing(rules, used, before, placed, item).Some?
    ensures Landing(rules, used, before, placed, item) == FindKey(rules, OpenRows(before, placed), SyncKey(rules, item))
  {
    FindKeyHit(rules, OpenRows(before, placed), r);
  }

  lemma RanksBefore(rules: Rules, used: set<nat>, before: Table, p: Progress, item: AlertConfig, j: nat, f: AlertConfig)
    requires Sound(before, p) && j < |p.placed| && MatchesByContent(item)
    requires LandedBy(rules, used, before, item, p.placed[..j], p.placed[j])
    requires f in before.rows && f.id in used && f.id !in p.placed && !IsSingleton(f.kind)
    requires SyncKey(rules, f) == SyncKey(rules, item)
    ensures Ahead(Sweep(p.table.rows, before.rows, used, p.placed), p.placed[j], f.id)
  {
    LandsByContent(rules, used, before.rows, p.placed[..j], item, f);
    var row := Landing(rules, used, before.rows, p.placed[..j], item).value;
    FoundFirst(rules, before.rows, p.placed[..j], SyncKey(rules, item), row, f);
    ShapeKeepsOrder(before, p.table, p.placed, row.id, f.id);
    SweepKeepsOrder(p.table.rows, before.rows, used, p.placed, row.id, f.id);
  }

  lemma SweptRanks(
      rules: Rules, used: set<nat>, before: Table, data: seq<AlertConfig>, uuids: seq<Uuid>, p: Progress, j: nat)
    requires j < |data| <= |uuids| && Sound(before, p) && Noted(rules, used, before, data, uuids, p, |data|)
    requires MatchesByContent(data[j])
    requires NothingElse(Sweep(p.table.rows, before.rows, used, p.placed), before.rows, used, p.placed)
    ensures RankedAt(rules, Sweep(p.table.rows, before.rows, used, p.placed), p.placed, data[j], p.placed[j])
  {
    var rows := Sweep(p.table.rows, before.rows, used, p.placed);
    assert NotedAt(rules, used, before, data[j], uuids[j], p, j);
    forall f | f in rows && f.id !in p.placed && !IsSingleton(f.kind) && SyncKey(rules, f) == SyncKey(rules, data[j])
      ensures Ahead(rows, p.placed[j], f.id)
    {
      RanksBefore(rules, used, before, p, data[j], j, f);
    }
  }
}
