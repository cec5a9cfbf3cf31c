/**
 * What a synchronisation of the alert configuration table does, said with one list: the old rows
 * that no incoming item has landed on yet. The indexes of the implementation are not mentioned.
 */
module AlertSyncSpec {
  import opened Text
  import opened AlertConfigs
  import opened Folds

  /** The table while the incoming items are processed, and the identifier each one landed on. */
  datatype Progress = Progress(table: Table, placed: seq<nat>)

  /** The old rows that are not singletons and that no item has landed on, in table order. */
  function OpenRows(before: seq<AlertConfig>, placed: seq<nat>): (open: seq<AlertConfig>)
    ensures forall r :: r in open <==> r in before && !IsSingleton(r.kind) && r.id !in placed
  {
    if before == [] then []
    else
      var last := before[|before| - 1];
      assert before == before[..|before| - 1] + [last];
      OpenRows(before[..|before| - 1], placed) + if !IsSingleton(last.kind) && last.id !in placed then [last] else []
  }

  function Singles(before: seq<AlertConfig>): (singles: seq<AlertConfig>)
    ensures forall r :: r in singles <==> r in before && IsSingleton(r.kind)
  {
    if before == [] then []
    else (if IsSingleton(before[0].kind) then [before[0]] else []) + Singles(before[1..])
  }

  function LastOfKind(s: seq<AlertConfig>, kind: string): (r: Option<AlertConfig>)
    ensures r.Some? ==> r.value in s && r.value.kind == kind
  {
    if s == [] then None
    else if s[|s| - 1].kind == kind then Some(s[|s| - 1])
    else LastOfKind(s[..|s| - 1], kind)
  }

  /** The first row with this UID. */
  function FindUid(s: seq<AlertConfig>, uid: string): (r: Option<AlertConfig>)
    ensures r.Some? ==> r.value in s && r.value.uid == uid
  {
    if s == [] then None
    else
      var first := FindUid(s[..|s| - 1], uid);
      if first.Some? then first else if s[|s| - 1].uid == uid then Some(s[|s| - 1]) else None
  }

  lemma {:induction false} FindUidHit(s: seq<AlertConfig>, row: AlertConfig)
    requires row in s
    ensures FindUid(s, row.uid).Some?
  {
    if s[|s| - 1] != row {
      FindUidHit(s[..|s| - 1], row);
    }
  }

  /** The first row with this content key. */
  function FindKey(rules: Rules, s: seq<AlertConfig>, key: string): (r: Option<AlertConfig>)
    ensures r.Some? ==> r.value in s && SyncKey(rules, r.value) == key
  {
    if s == [] then None
    else
      var first := FindKey(rules, s[..|s| - 1], key);
      if first.Some? then first else if SyncKey(rules, s[|s| - 1]) == key then Some(s[|s| - 1]) else None
  }

  /** The first row of this kind that no alert refers to. */
  function FindUnused(s: seq<AlertConfig>, used: set<nat>, kind: string): (r: Option<AlertConfig>)
    ensures r.Some? ==> r.value in s && r.value.kind == kind && r.value.id !in used
  {
    if s == [] then None
    else
      var first := FindUnused(s[..|s| - 1], used, kind);
      if first.Some? then first
      else if s[|s| - 1].kind == kind && s[|s| - 1].id !in used then Some(s[|s| - 1])
      else None
  }

  /** The rows a UID can name: the open rows, and every old singleton, landed on or not. */
  function Candidates(before: seq<AlertConfig>, placed: seq<nat>): seq<AlertConfig> {
    OpenRows(before, placed) + Singles(before)
  }

  /** The trimmed UID of the item names no candidate of another kind. */
  predicate UidAgrees(before: seq<AlertConfig>, placed: seq<nat>, item: AlertConfig) {
    BlankUid(item) ||
    match FindUid(Candidates(before, placed), TrimSpace(item.uid))
    case None => true
    case Some(row) => row.kind == item.kind
  }

  /** The existing row an item lands on: by singleton kind, else by UID, else by content, else any unused of its kind. */
  function Landing(rules: Rules, used: set<nat>, before: seq<AlertConfig>, placed: seq<nat>, item: AlertConfig)
    : (r: Option<AlertConfig>)
    ensures r.Some? ==> r.value in before
  {
    if IsSingleton(item.kind) then
      var last := LastOfKind(before, item.kind);
      if last.Some? && last.value.id in placed then None else last
    else
      var open := OpenRows(before, placed);
      var byUid := if BlankUid(item) then None else FindUid(Candidates(before, placed), item.uid);
      var byKey := FindKey(rules, open, SyncKey(rules, item));
      if byUid.Some? then byUid else if byKey.Some? then byKey else FindUnused(open, used, item.kind)
  }

  /** The item is saved over an existing row. */
  function LandOn(rules: Rules, p: Progress, item: AlertConfig, row: AlertConfig): (r: Result<Progress, SyncError>)
    ensures r.Success? ==>
              && Inherit(rules, item, row).Success?
              && r.value.table == Table(ReplaceRow(p.table.rows, Inherit(rules, item, row).value), p.table.nextId)
              && r.value.placed == p.placed + [row.id]
  {
    var merged :- Inherit(rules, item, row);
    var table :- SaveRow(p.table, merged);
    Success(Progress(table, p.placed + [row.id]))
  }

  /** The item is inserted as a new row. */
  function Append(rules: Rules, p: Progress, item: AlertConfig, uuid: Uuid): (r: Result<Progress, SyncError>)
    ensures r.Success? ==> r.value.placed == p.placed + [p.table.nextId]
  {
    var prepared :- Prepare(rules, item, uuid);
    var table :- InsertRow(p.table, prepared);
    Success(Progress(table, p.placed + [p.table.nextId]))
  }

  /** The item is saved over the row it lands on, or inserted. */
  function Place(rules: Rules, p: Progress, item: AlertConfig, uuid: Uuid, landing: Option<AlertConfig>)
    : (r: Result<Progress, SyncError>)
    ensures r.Success? ==> |r.value.placed| == |p.placed| + 1
  {
    match landing
    case Some(row) => LandOn(rules, p, item, row)
    case None => Append(rules, p, item, uuid)
  }

  function Step(rules: Rules, used: set<nat>, before: seq<AlertConfig>, p: Progress, item: AlertConfig, uuid: Uuid)
    : (r: Result<Progress, SyncError>)
    ensures r.Success? ==> |r.value.placed| == |p.placed| + 1
  {
    if !UidAgrees(before, p.placed, item) then Failure(UidOfOtherKind)
    else Place(rules, p, item, uuid, Landing(rules, used, before, p.placed, item))
  }

  /** The step for the item at index i. */
  function StepAt(rules: Rules, used: set<nat>, before: seq<AlertConfig>, data: seq<AlertConfig>, uuids: seq<Uuid>)
    : (Progress, nat) -> Result<Progress, SyncError>
  {
    (p: Progress, i: nat) =>
      if i < |data| && i < |uuids| then Step(rules, used, before, p, data[i], uuids[i]) else Success(p)
  }

  /** The first n items, in order. */
  function Run(rules: Rules, used: set<nat>, before: Table, data: seq<AlertConfig>, uuids: seq<Uuid>, n: nat)
    : Result<Progress, SyncError>
  {
    Fold(StepAt(rules, used, before.rows, data, uuids), Progress(before, []), n)
  }

  /** An old row is dropped when no alert refers to it and no item landed on it. */
  predicate Dropped(before: seq<AlertConfig>, used: set<nat>, placed: seq<nat>, id: nat) {
    HasId(before, id) && id !in used && id !in placed
  }

  function Sweep(s: seq<AlertConfig>, before: seq<AlertConfig>, used: set<nat>, placed: seq<nat>): seq<AlertConfig> {
    if s == [] then []
    else Sweep(s[..|s| - 1], before, used, placed) +
         (if Dropped(before, used, placed, s[|s| - 1].id) then [] else [s[|s| - 1]])
  }

  /** The whole synchronisation: all the items, then the sweep; a failure leaves nothing behind. */
  function Sync(rules: Rules, used: set<nat>, before: Table, data: seq<AlertConfig>, uuids: seq<Uuid>)
    : Result<Table, SyncError>
  {
    var p :- Run(rules, used, before, data, uuids, |data|);
    Success(Table(Sweep(p.table.rows, before.rows, used, p.placed), p.table.nextId))
  }
}
