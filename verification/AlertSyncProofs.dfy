/** What every synchronisation keeps: each old row is landed on once, and no referenced row is lost. */
module AlertSyncProofs {
  import opened Text
  import opened AlertConfigs
  import opened AlertSyncSpec
  import opened Folds

  predicate NoDuplicates(s: seq<nat>) {
    forall i, j :: 0 <= i < j < |s| ==> s[i] != s[j]
  }

  /** The number of old rows that an item landed on. */
  function CountPlaced(before: seq<AlertConfig>, placed: seq<nat>): nat {
    if before == [] then 0
    else CountPlaced(before[..|before| - 1], placed) + (if before[|before| - 1].id in placed then 1 else 0)
  }

  /**
   * The old rows are still there in order, with their identifiers and kinds, and unchanged unless
   * landed on; the rows behind them are the inserted ones.
   */
  predicate Shape(before: Table, table: Table, placed: seq<nat>) {
    var rows, n := table.rows, |before.rows|;
    && n <= |rows|
    && table.nextId == before.nextId + |rows| - n
    && (forall k :: 0 <= k < n ==> OldRow(before.rows[k], rows[k], placed))
    && (forall k :: n <= k < |rows| ==> rows[k].id == before.nextId + k - n && rows[k].id in placed)
  }

  predicate OldRow(was: AlertConfig, row: AlertConfig, placed: seq<nat>) {
    row.id == was.id && row.kind == was.kind && (row.id in placed || row == was)
  }

  /** Every item landed on an old row or on an inserted one, each on a row of its own. */
  predicate Landed(before: Table, placed: seq<nat>, nextId: nat) {
    && before.nextId <= nextId
    && (forall id :: id in placed ==> HasId(before.rows, id) || before.nextId <= id < nextId)
    && NoDuplicates(placed)
    && |placed| == CountPlaced(before.rows, placed) + nextId - before.nextId
  }

  /** What holds after every item. */
  predicate Sound(before: Table, p: Progress) {
    && ValidTable(before) && ValidTable(p.table)
    && Shape(before, p.table, p.placed)
    && Landed(before, p.placed, p.table.nextId)
  }

  lemma {:induction false} CountPlacedNone(before: seq<AlertConfig>)
    ensures CountPlaced(before, []) == 0
  {
    if before != [] {
      CountPlacedNone(before[..|before| - 1]);
    }
  }

  lemma {:induction false} CountPlacedMore(before: seq<AlertConfig>, placed: seq<nat>, id: nat)
    requires UniqueIds(before) && id !in placed
    ensures CountPlaced(before, placed + [id]) == CountPlaced(before, placed) + if HasId(before, id) then 1 else 0
  {
    if before != [] {
      var rest, last := before[..|before| - 1], before[|before| - 1];
      CountPlacedMore(rest, placed, id);
      assert last in before && forall r :: r in rest ==> r in before;
      if last.id == id {
        assert !HasId(rest, id);
      } else if HasId(before, id) {
        var r :| r in before && r.id == id;
        assert r in rest;
      }
    }
  }

  /** The row that an item lands on was not landed on before. */
  lemma LandingIsOpen(rules: Rules, used: set<nat>, before: Table, p: Progress, item: AlertConfig)
    requires Sound(before, p)
    requires var row := Landing(rules, used, before.rows, p.placed, item);
             row.Some? && row.value.kind == item.kind
    ensures Landing(rules, used, before.rows, p.placed, item).value.id !in p.placed
  {
  }

  lemma NoDuplicatesMore(s: seq<nat>, id: nat)
    requires NoDuplicates(s) && id !in s
    ensures NoDuplicates(s + [id])
    ensures forall x :: x in s + [id] <==> x in s || x == id
  {
  }

  lemma LandedOnOld(before: Table, placed: seq<nat>, nextId: nat, id: nat)
    requires ValidTable(before) && Landed(before, placed, nextId)
    requires HasId(before.rows, id) && id !in placed
    ensures Landed(before, placed + [id], nextId)
  {
    CountPlacedMore(before.rows, placed, id);
    NoDuplicatesMore(placed, id);
  }

  lemma LandedOnNew(before: Table, placed: seq<nat>, nextId: nat)
    requires ValidTable(before) && Landed(before, placed, nextId)
    ensures Landed(before, placed + [nextId], nextId + 1)
  {
    assert !HasId(before.rows, nextId);
    CountPlacedMore(before.rows, placed, nextId);
    NoDuplicatesMore(placed, nextId);
  }

  lemma SaveShape(before: Table, p: Progress, k: nat, merged: AlertConfig)
    requires Shape(before, p.table, p.placed) && k < |before.rows|
    requires merged.id == before.rows[k].id && merged.kind == before.rows[k].kind
    ensures Shape(before, Table(p.table.rows[k := merged], p.table.nextId), p.placed + [merged.id])
  {
    var rows, rows', placed' := p.table.rows, p.table.rows[k := merged], p.placed + [merged.id];
    assert merged.id in placed';
    forall j | 0 <= j < |before.rows|
      ensures OldRow(before.rows[j], rows'[j], placed')
    {
      assert OldRow(before.rows[j], rows[j], p.placed);
    }
  }

  lemma InsertShape(before: Table, p: Progress, row: AlertConfig)
    requires ValidTable(p.table) && Shape(before, p.table, p.placed)
    requires InsertRow(p.table, row).Success?
    ensures var table, id := InsertRow(p.table, row).value, p.table.nextId;
            && Shape(before, table, p.placed + [id])
            && row.(id := id) in table.rows
            && (forall r :: r in p.table.rows ==> r in table.rows)
  {
    assert InsertRow(p.table, row).value.rows[|p.table.rows|] == row.(id := p.table.nextId);
  }

  lemma SaveSound(before: Table, p: Progress, k: nat, merged: AlertConfig)
    requires Sound(before, p) && k < |before.rows| && before.rows[k].id !in p.placed
    requires merged.id == before.rows[k].id && merged.kind == before.rows[k].kind && SaveRow(p.table, merged).Success?
    ensures Sound(before, Progress(SaveRow(p.table, merged).value, p.placed + [merged.id]))
  {
    assert OldRow(before.rows[k], p.table.rows[k], p.placed) && before.rows[k] in before.rows;
    ReplaceOne(p.table.rows, merged, k);
    SaveRowValid(p.table, merged, k);
    SaveShape(before, p, k, merged);
    LandedOnOld(before, p.placed, p.table.nextId, merged.id);
  }

  lemma InsertSound(before: Table, p: Progress, row: AlertConfig)
    requires Sound(before, p) && InsertRow(p.table, row).Success?
    ensures Sound(before, Progress(InsertRow(p.table, row).value, p.placed + [p.table.nextId]))
  {
    InsertRowValid(p.table, row);
    InsertShape(before, p, row);
    LandedOnNew(before, p.placed, p.table.nextId);
  }

  /** The item is held by the row it landed on, and the other rows stay as they are. */
  predicate StepHolds(rules: Rules, rows: seq<AlertConfig>, rows': seq<AlertConfig>, id: nat, item: AlertConfig) {
    && Holds(rules, rows', id, item)
    && forall r :: r in rows && r.id != id ==> r in rows'
  }

  lemma SaveHolds(rules: Rules, rows: seq<AlertConfig>, k: nat, row: AlertConfig, item: AlertConfig)
    requires k < |rows| && rows[k].id == row.id && Inherit(rules, item, row).Success?
    ensures StepHolds(rules, rows, rows[k := Inherit(rules, item, row).value], row.id, item)
  {
    var merged := Inherit(rules, item, row).value;
    var rows' := rows[k := merged];
    InheritSettles(rules, item, row);
    assert rows'[k] == merged && merged in rows';
    forall r | r in rows && r.id != row.id
      ensures r in rows'
    {
      var j :| 0 <= j < |rows| && rows[j] == r;
      assert rows'[j] == r;
    }
  }

  /** Soundness is kept, the item landed on a new row that now holds it, the other rows stay. */
  predicate Stepped(rules: Rules, before: Table, p: Progress, q: Progress, item: AlertConfig, id: nat) {
    && Sound(before, q)
    && q.placed == p.placed + [id]
    && StepHolds(rules, p.table.rows, q.table.rows, id, item)
  }

  lemma LandStepped(rules: Rules, before: Table, p: Progress, item: AlertConfig, row: AlertConfig)
    requires Sound(before, p) && row in before.rows && row.id !in p.placed
    requires LandOn(rules, p, item, row).Success?
    ensures Stepped(rules, before, p, LandOn(rules, p, item, row).value, item, row.id)
  {
    var merged := Inherit(rules, item, row).value;
    var k :| 0 <= k < |before.rows| && before.rows[k] == row;
    assert OldRow(before.rows[k], p.table.rows[k], p.placed);
    InheritSettles(rules, item, row);
    ReplaceOne(p.table.rows, merged, k);
    SaveSound(before, p, k, merged);
    SaveHolds(rules, p.table.rows, k, row, item);
  }

  lemma AppendStepped(rules: Rules, before: Table, p: Progress, item: AlertConfig, uuid: Uuid)
    requires Sound(before, p)
    requires Append(rules, p, item, uuid).Success?
    ensures Stepped(rules, before, p, Append(rules, p, item, uuid).value, item, p.table.nextId)
  {
    var prepared := Prepare(rules, item, uuid).value;
    PrepareSettles(rules, item, uuid, p.table.nextId);
    InsertSound(before, p, prepared);
    InsertShape(before, p, prepared);
  }

  /** Every item, whatever it lands on. */
  lemma StepSound(rules: Rules, used: set<nat>, before: Table, p: Progress, item: AlertConfig, uuid: Uuid)
      returns (id: nat)
    requires Sound(before, p)
    requires Step(rules, used, before.rows, p, item, uuid).Success?
    ensures Stepped(rules, before, p, Step(rules, used, before.rows, p, item, uuid).value, item, id)
  {
    match Landing(rules, used, before.rows, p.placed, item)
    case Some(row) =>
      id := row.id;
      LandingIsOpen(rules, used, before, p, item);
      LandStepped(rules, before, p, item, row);
    case None =>
      id := p.table.nextId;
      AppendStepped(rules, before, p, item, uuid);
  }

  // ---- Whole runs

  /** The row with this identifier holds the item: saving the item again would not change it. */
  predicate Holds(rules: Rules, rows: seq<AlertConfig>, id: nat, item: AlertConfig) {
    exists row :: row in rows && row.id == id && Settled(rules, item, row)
  }

  /** What the first n items left behind: each is held by its row, and each agreed with the UIDs it met. */
  predicate Traced(rules: Rules, before: seq<AlertConfig>, data: seq<AlertConfig>, p: Progress, n: nat)
    requires n <= |data|
  {
    && |p.placed| == n
    && forall j :: 0 <= j < n ==>
                     && Holds(rules, p.table.rows, p.placed[j], data[j])
                     && UidAgrees(before, p.placed[..j], data[j])
  }

  lemma StartSound(rules: Rules, before: Table, data: seq<AlertConfig>)
    requires ValidTable(before)
    ensures Sound(before, Progress(before, []))
    ensures Traced(rules, before.rows, data, Progress(before, []), 0)
  {
    CountPlacedNone(before.rows);
  }

  /** Every run, over any table, any references and any items. */
  lemma RunConforms(rules: Rules, used: set<nat>, before: Table, data: seq<AlertConfig>, uuids: seq<Uuid>, n: nat)
    requires ValidTable(before) && n <= |data| <= |uuids|
    requires Run(rules, used, before, data, uuids, n).Success?
    ensures var p := Run(rules, used, before, data, uuids, n).value;
            Sound(before, p) && Traced(rules, before.rows, data, p, n)
  {
    var step := StepAt(rules, used, before.rows, data, uuids);
    var inv := (p: Progress, i: nat) => i <= |data| && Sound(before, p) && Traced(rules, before.rows, data, p, i);
    StartSound(rules, before, data);
    forall p, i: nat | i < n && inv(p, i) && step(p, i).Success?
      ensures inv(step(p, i).value, i + 1)
    {
      TraceMore(rules, used, before, data, p, uuids[i], i + 1);
    }
    FoldKeeps(step, Progress(before, []), n, inv);
  }

  /** A row that holds an item goes on holding it when another row is written. */
  lemma StaysHeld(
      rules: Rules, rows: seq<AlertConfig>, rows': seq<AlertConfig>, id: nat, item: AlertConfig, other: nat, held: AlertConfig)
    requires StepHolds(rules, rows, rows', id, item) && Holds(rules, rows, other, held) && other != id
    ensures Holds(rules, rows', other, held)
  {
    var row :| row in rows && row.id == other && Settled(rules, held, row);
    assert row in rows';
  }

  lemma TraceStep(
      rules: Rules, before: seq<AlertConfig>, data: seq<AlertConfig>, p: Progress, q: Progress, id: nat, n: nat)
    requires 0 < n <= |data| && Traced(rules, before, data, p, n - 1)
    requires q.placed == p.placed + [id] && NoDuplicates(q.placed)
    requires StepHolds(rules, p.table.rows, q.table.rows, id, data[n - 1])
    requires UidAgrees(before, p.placed, data[n - 1])
    ensures Traced(rules, before, data, q, n)
  {
    assert q.placed[..n - 1] == p.placed;
    forall j | 0 <= j < n - 1
      ensures Holds(rules, q.table.rows, q.placed[j], data[j]) && UidAgrees(before, q.placed[..j], data[j])
    {
      assert q.placed[..j] == p.placed[..j] && q.placed[j] == p.placed[j] && q.placed[n - 1] == id;
      StaysHeld(rules, p.table.rows, q.table.rows, id, data[n - 1], p.placed[j], data[j]);
    }
  }

  lemma TraceMore(
      rules: Rules, used: set<nat>, before: Table, data: seq<AlertConfig>, p: Progress, uuid: Uuid, n: nat)
    requires 0 < n <= |data| && Sound(before, p) && Traced(rules, before.rows, data, p, n - 1)
    requires Step(rules, used, before.rows, p, data[n - 1], uuid).Success?
    ensures Sound(before, Step(rules, used, before.rows, p, data[n - 1], uuid).value)
    ensures Traced(rules, before.rows, data, Step(rules, used, before.rows, p, data[n - 1], uuid).value, n)
  {
    var id := StepSound(rules, used, before, p, data[n - 1], uuid);
    TraceStep(rules, before.rows, data, p, Step(rules, used, before.rows, p, data[n - 1], uuid).value, id, n);
  }

  /** The old rows that no item landed on but an alert refers to. */
  function Leftover(before: seq<AlertConfig>, used: set<nat>, placed: seq<nat>): (r: seq<AlertConfig>)
    ensures forall c :: c in r <==> c in before && c.id in used && c.id !in placed
  {
    if before == [] then []
    else Leftover(before[..|before| - 1], used, placed) +
         (if before[|before| - 1].id in used && before[|before| - 1].id !in placed then [before[|before| - 1]] else [])
  }

  /** The sweep of the old rows, as they are now, keeps the landed-on and the referenced ones. */
  lemma {:induction false} SweepOldLength(
      s: seq<AlertConfig>, b: seq<AlertConfig>, before: seq<AlertConfig>, used: set<nat>, placed: seq<nat>)
    requires |s| == |b|
    requires forall k :: 0 <= k < |b| ==> s[k].id == b[k].id
    requires forall r :: r in b ==> HasId(before, r.id)
    ensures |Sweep(s, before, used, placed)| == |Leftover(b, used, placed)| + CountPlaced(b, placed)
  {
    if b != [] {
      var n := |b| - 1;
      var id := b[n].id;
      assert b[n] in b;
      assert Dropped(before, used, placed, s[n].id) <==> id !in used && id !in placed;
      assert |Sweep(s, before, used, placed)|
          == |Sweep(s[..n], before, used, placed)| + if id !in used && id !in placed then 0 else 1;
      assert |Leftover(b, used, placed)|
          == |Leftover(b[..n], used, placed)| + if id in used && id !in placed then 1 else 0;
      SweepOldLength(s[..n], b[..n], before, used, placed);
    }
  }

  /** The sweep keeps every inserted row. */
  lemma {:induction false} SweepNewLength(
      rows: seq<AlertConfig>, before: seq<AlertConfig>, used: set<nat>, placed: seq<nat>, m: nat)
    requires |before| <= m <= |rows|
    requires forall k :: |before| <= k < |rows| ==> rows[k].id in placed
    ensures |Sweep(rows[..m], before, used, placed)| == |Sweep(rows[..|before|], before, used, placed)| + m - |before|
  {
    if m > |before| {
      SweepNewLength(rows, before, used, placed, m - 1);
      var s := rows[..m];
      assert s[..m - 1] == rows[..m - 1];
      assert s[m - 1] == rows[m - 1];
    }
  }

  lemma SweepLength(before: Table, p: Progress, used: set<nat>)
    requires Sound(before, p)
    ensures |Sweep(p.table.rows, before.rows, used, p.placed)|
         == |p.placed| + |Leftover(before.rows, used, p.placed)|
  {
    var rows := p.table.rows;
    SweepOldLength(rows[..|before.rows|], before.rows, before.rows, used, p.placed);
    SweepNewLength(rows, before.rows, used, p.placed, |rows|);
    assert rows[..|rows|] == rows;
  }

  lemma {:induction false} SweepUnique(s: seq<AlertConfig>, before: seq<AlertConfig>, used: set<nat>, placed: seq<nat>)
    requires UniqueIds(s) && UniqueUids(s)
    ensures UniqueIds(Sweep(s, before, used, placed)) && UniqueUids(Sweep(s, before, used, placed))
  {
    if s != [] {
      var rest := s[..|s| - 1];
      SweepUnique(rest, before, used, placed);
      forall r | r in Sweep(rest, before, used, placed)
        ensures r.id != s[|s| - 1].id && r.uid != s[|s| - 1].uid
      {
        SweepMembers(rest, before, used, placed, r);
        var k :| 0 <= k < |rest| && rest[k] == r;
        assert s[k] == r;
      }
    }
  }

  /** The identifiers the items landed on in a successful synchronisation. */
  function Placements(rules: Rules, used: set<nat>, before: Table, data: seq<AlertConfig>, uuids: seq<Uuid>): seq<nat>
    requires Sync(rules, used, before, data, uuids).Success?
  {
    Run(rules, used, before, data, uuids, |data|).value.placed
  }

  predicate AllHeld(rules: Rules, rows: seq<AlertConfig>, placed: seq<nat>, data: seq<AlertConfig>) {
    && |placed| == |data|
    && forall j :: 0 <= j < |data| ==> Holds(rules, rows, placed[j], data[j])
  }

  /** A row an alert refers to survives with its identifier and kind, unchanged if no item landed on it. */
  predicate ReferencedKept(rows: seq<AlertConfig>, before: seq<AlertConfig>, used: set<nat>, placed: seq<nat>) {
    forall r :: r in before && r.id in used ==>
                  exists row :: row in rows && row.id == r.id && row.kind == r.kind && (r.id !in placed ==> row == r)
  }

  /** A row that no alert refers to and no item landed on is gone. */
  predicate UnreferencedGone(rows: seq<AlertConfig>, before: seq<AlertConfig>, used: set<nat>, placed: seq<nat>) {
    forall r :: r in before && r.id !in used && r.id !in placed ==> !HasId(rows, r.id)
  }

  predicate NothingElse(rows: seq<AlertConfig>, before: seq<AlertConfig>, used: set<nat>, placed: seq<nat>) {
    forall row :: row in rows ==> row.id in placed || (row in before && row.id in used)
  }

  lemma {:induction false} SweepMembers(
      s: seq<AlertConfig>, before: seq<AlertConfig>, used: set<nat>, placed: seq<nat>, c: AlertConfig)
    ensures c in Sweep(s, before, used, placed) <==> c in s && !Dropped(before, used, placed, c.id)
  {
    if s != [] {
      SweepMembers(s[..|s| - 1], before, used, placed, c);
      SplitLast(s);
    }
  }

  lemma SweepHolds(rules: Rules, before: Table, data: seq<AlertConfig>, p: Progress, used: set<nat>)
    requires Traced(rules, before.rows, data, p, |data|)
    ensures AllHeld(rules, Sweep(p.table.rows, before.rows, used, p.placed), p.placed, data)
  {
    var rows := Sweep(p.table.rows, before.rows, used, p.placed);
    forall j | 0 <= j < |data|
      ensures Holds(rules, rows, p.placed[j], data[j])
    {
      assert Holds(rules, p.table.rows, p.placed[j], data[j]);
      var row :| row in p.table.rows && row.id == p.placed[j] && Settled(rules, data[j], row);
      SweepMembers(p.table.rows, before.rows, used, p.placed, row);
    }
  }

  lemma SweepKeeps(before: Table, p: Progress, used: set<nat>)
    requires Sound(before, p)
    ensures var rows := Sweep(p.table.rows, before.rows, used, p.placed);
            && ReferencedKept(rows, before.rows, used, p.placed)
            && UnreferencedGone(rows, before.rows, used, p.placed)
            && NothingElse(rows, before.rows, used, p.placed)
  {
    var rows := Sweep(p.table.rows, before.rows, used, p.placed);
    forall r | r in before.rows && r.id in used
      ensures exists row :: row in rows && row.id == r.id && row.kind == r.kind && (r.id !in p.placed ==> row == r)
    {
      var k :| 0 <= k < |before.rows| && before.rows[k] == r;
      SweepMembers(p.table.rows, before.rows, used, p.placed, p.table.rows[k]);
    }
    forall row | row in rows
      ensures row.id in p.placed || (row in before.rows && row.id in used)
      ensures !Dropped(before.rows, used, p.placed, row.id)
    {
      SweepMembers(p.table.rows, before.rows, used, p.placed, row);
      var k :| 0 <= k < |p.table.rows| && p.table.rows[k] == row;
      if k < |before.rows| {
        assert before.rows[k] in before.rows && HasId(before.rows, row.id);
      }
    }
  }

  /**
   * Conservation, for every successful synchronisation: every item has a row of its own that holds it,
   * the referenced rows are kept, the unreferenced unmatched ones are gone, and the rows are counted.
   */
  lemma SyncConserves(rules: Rules, used: set<nat>, before: Table, data: seq<AlertConfig>, uuids: seq<Uuid>)
    requires ValidTable(before) && |data| <= |uuids|
    requires Sync(rules, used, before, data, uuids).Success?
    ensures var table := Sync(rules, used, before, data, uuids).value;
            var placed := Placements(rules, used, before, data, uuids);
            && ValidTable(table)
            && NoDuplicates(placed) && AllHeld(rules, table.rows, placed, data)
            && ReferencedKept(table.rows, before.rows, used, placed)
            && UnreferencedGone(table.rows, before.rows, used, placed)
            && NothingElse(table.rows, before.rows, used, placed)
            && |table.rows| == |data| + |Leftover(before.rows, used, placed)|
  {
    RunConforms(rules, used, before, data, uuids, |data|);
    var p := Run(rules, used, before, data, uuids, |data|).value;
    SweepUnique(p.table.rows, before.rows, used, p.placed);
    SweepLength(before, p, used);
    SweepKeeps(before, p, used);
    SweepHolds(rules, before, data, p, used);
  }
}
