/** The alert configuration table: its rows, and the row rules that a synchronisation applies. */
module AlertConfigs {
  import opened Text

  /** One row; the two timestamps and the two user columns are not part of this model. */
  datatype AlertConfig = AlertConfig(
    id: nat, uid: string, kind: string, title: string, status: string, config: string, secret: string)

  datatype Table = Table(rows: seq<AlertConfig>, nextId: nat)

  datatype SyncError =
    | UidOfOtherKind | SecretMissing | SchemaNotOne | EnvelopeInvalid | EnvelopeUnversioned | UidTaken

  /**
   * The two checks that read a row's texts: the canonical form of its config, and the fault, if any,
   * in the config and secret of a custom row. StandardRules below is the source's own instance.
   */
  datatype Rules = Rules(normalize: string -> string, secretFault: (string, string) -> Option<SyncError>)

  /** What uuid.NewString returns is never blank. */
  type Uuid = s: string | TrimSpace(s) != "" witness Witness()

  function Witness(): (s: string)
    ensures TrimSpace(s) != ""
  {
    TrimmedFixed("0");
    "0"
  }

  const CUSTOM := "custom"
  const COMMON := "common"
  const DISABLE := "Disable"

  predicate IsSingleton(kind: string) {
    kind == COMMON
  }

  predicate BlankUid(c: AlertConfig) {
    TrimSpace(c.uid) == ""
  }

  /** The text key under which a row is matched by content. Two kinds can share a key. */
  function SyncKey(rules: Rules, c: AlertConfig): string {
    c.kind + "::" + rules.normalize(c.config)
  }

  // ---- Row rules

  /** Check a row that is about to be written; a row that is not custom loses its secret. */
  function ValidateSecret(rules: Rules, c: AlertConfig): Result<AlertConfig, SyncError> {
    if c.kind != CUSTOM then Success(c.(secret := ""))
    else match rules.secretFault(c.config, c.secret)
         case Some(fault) => Failure(fault)
         case None => Success(c)
  }

  /** A disabled custom row that the incoming item repeats is kept without checking its secret. */
  predicate KeepsDisabledCustom(item: AlertConfig, row: AlertConfig) {
    && item.kind == CUSTOM && row.status == DISABLE
    && item.title == row.title && item.status == row.status && item.config == row.config
    && (item.secret == "" || item.secret == row.secret)
  }

  /** What is saved when an incoming item lands on an existing row. */
  function Inherit(rules: Rules, item: AlertConfig, row: AlertConfig): Result<AlertConfig, SyncError> {
    if item.kind != row.kind then Failure(UidOfOtherKind)
    else
      var merged := item.(id := row.id,
                          uid := if BlankUid(item) then row.uid else item.uid,
                          secret := if item.kind == CUSTOM && item.secret == "" then row.secret else item.secret);
      if KeepsDisabledCustom(item, row) then Success(merged) else ValidateSecret(rules, merged)
  }

  /** What is inserted when an incoming item lands on no row; the identifier is set by the table. */
  function Prepare(rules: Rules, item: AlertConfig, uuid: Uuid): Result<AlertConfig, SyncError> {
    ValidateSecret(rules, item.(id := 0, uid := if BlankUid(item) then uuid else item.uid))
  }

  /** A row that an item has been saved to takes the same item again without changing. */
  predicate Settled(rules: Rules, item: AlertConfig, row: AlertConfig) {
    && Inherit(rules, item, row) == Success(row)
    && row.kind == item.kind
    && (!BlankUid(item) ==> row.uid == item.uid)
  }

  lemma InheritSettles(rules: Rules, item: AlertConfig, row: AlertConfig)
    requires Inherit(rules, item, row).Success?
    ensures Settled(rules, item, Inherit(rules, item, row).value)
    ensures Inherit(rules, item, row).value.id == row.id
  {
  }

  lemma PrepareSettles(rules: Rules, item: AlertConfig, uuid: Uuid, id: nat)
    requires Prepare(rules, item, uuid).Success?
    ensures Settled(rules, item, Prepare(rules, item, uuid).value.(id := id))
  {
  }

  // ---- Table statements

  predicate UniqueIds(s: seq<AlertConfig>) {
    forall i, j :: 0 <= i < j < |s| ==> s[i].id != s[j].id
  }

  predicate UniqueUids(s: seq<AlertConfig>) {
    forall i, j :: 0 <= i < j < |s| ==> s[i].uid != s[j].uid
  }

  /** What the database enforces: the primary key, the unique index on the UID, fresh identifiers. */
  predicate ValidTable(t: Table) {
    && UniqueIds(t.rows)
    && UniqueUids(t.rows)
    && forall r :: r in t.rows ==> r.id < t.nextId
  }

  lemma SameRowById(s: seq<AlertConfig>, a: AlertConfig, b: AlertConfig)
    requires UniqueIds(s) && a in s && b in s && a.id == b.id
    ensures a == b
  {
  }

  lemma OtherRowOtherId(s: seq<AlertConfig>, a: AlertConfig, b: AlertConfig)
    requires UniqueIds(s) && a in s && b in s && a != b
    ensures a.id != b.id
  {
  }

  lemma SameRowByUid(s: seq<AlertConfig>, a: AlertConfig, b: AlertConfig)
    requires UniqueUids(s) && a in s && b in s && a.uid == b.uid
    ensures a == b
  {
  }

  predicate HasId(s: seq<AlertConfig>, id: nat) {
    exists r :: r in s && r.id == id
  }

  function ReplaceRow(s: seq<AlertConfig>, row: AlertConfig): (r: seq<AlertConfig>)
    ensures |r| == |s|
    ensures forall k :: 0 <= k < |s| ==> r[k] == if s[k].id == row.id then row else s[k]
  {
    if s == [] then [] else [if s[0].id == row.id then row else s[0]] + ReplaceRow(s[1..], row)
  }

  predicate UidElsewhere(s: seq<AlertConfig>, id: nat, uid: string) {
    exists other :: other in s && other.id != id && other.uid == uid
  }

  predicate HasUid(s: seq<AlertConfig>, uid: string) {
    exists other :: other in s && other.uid == uid
  }

  /** UPDATE of the row with this identifier, under the unique index; every caller's row exists. */
  function SaveRow(t: Table, row: AlertConfig): Result<Table, SyncError> {
    if UidElsewhere(t.rows, row.id, row.uid) then Failure(UidTaken)
    else Success(Table(ReplaceRow(t.rows, row), t.nextId))
  }

  /** INSERT with the next identifier, under the unique index. */
  function InsertRow(t: Table, row: AlertConfig): Result<Table, SyncError> {
    if HasUid(t.rows, row.uid) then Failure(UidTaken)
    else Success(Table(t.rows + [row.(id := t.nextId)], t.nextId + 1))
  }

  /** With unique identifiers, replacing a row updates the one place that holds it. */
  lemma ReplaceOne(s: seq<AlertConfig>, row: AlertConfig, k: nat)
    requires UniqueIds(s) && k < |s| && s[k].id == row.id
    ensures ReplaceRow(s, row) == s[k := row]
  {
    forall j | 0 <= j < |s|
      ensures ReplaceRow(s, row)[j] == s[k := row][j]
    {
      if j != k {
        assert s[j].id != s[k].id;
      }
    }
  }

  lemma ReplacedUids(s: seq<AlertConfig>, row: AlertConfig, k: nat)
    requires UniqueUids(s) && UniqueIds(s) && k < |s| && s[k].id == row.id && !UidElsewhere(s, row.id, row.uid)
    ensures UniqueUids(s[k := row]) && UniqueIds(s[k := row])
  {
    forall j | 0 <= j < |s| && j != k ensures s[j].uid != row.uid && s[j].id != row.id {
      assert s[j] in s && s[j].id != s[k].id;
    }
  }

  lemma SaveRowValid(t: Table, row: AlertConfig, k: nat)
    requires ValidTable(t) && k < |t.rows| && t.rows[k].id == row.id && SaveRow(t, row).Success?
    ensures ValidTable(SaveRow(t, row).value)
  {
    ReplaceOne(t.rows, row, k);
    ReplacedUids(t.rows, row, k);
    forall r | r in t.rows[k := row] ensures r.id < t.nextId {
      assert r == row || r in t.rows;
      assert t.rows[k] in t.rows;
    }
  }

  lemma InsertRowValid(t: Table, row: AlertConfig)
    requires ValidTable(t) && InsertRow(t, row).Success?
    ensures ValidTable(InsertRow(t, row).value)
  {
    assert forall k :: 0 <= k < |t.rows| ==> t.rows[k] in t.rows;
  }
}
