/**
 * The Docker port-guard table. One table holds two partitions, the managed policies and the read-only
 * ones observed at run time; the unique index on the endpoint includes the partition, the one on the
 * UUID does not.
 */
module PortGuardRepo {
  import opened Text

  datatype Endpoint = Endpoint(family: string, hostIp: string, hostPort: nat, protocol: string)

  datatype Policy = Policy(
    uuid: string, readOnly: bool, endpoint: Endpoint, mode: string, sources: string, description: string,
    nativeAction: string, nativeRules: string, sequence: int)

  /** The columns of the endpoint index. */
  datatype Key = Key(readOnly: bool, endpoint: Endpoint)

  type Table = map<Key, Policy>

  datatype GuardError = UuidTaken | EndpointTaken

  function KeyOf(p: Policy): Key {
    Key(p.readOnly, p.endpoint)
  }

  predicate UuidUsed(t: Table, uuid: string) {
    exists k :: k in t && t[k].uuid == uuid
  }

  /** Both unique indexes hold. */
  predicate Valid(t: Table) {
    && (forall k :: k in t ==> KeyOf(t[k]) == k)
    && (forall k, l :: k in t && l in t && t[k].uuid == t[l].uuid ==> k == l)
  }

  function Partition(t: Table, readOnly: bool): Table {
    map k | k in t && k.readOnly == readOnly :: t[k]
  }

  function Merged(old': Policy, new': Policy): Policy {
    old'.(mode := new'.mode, sources := new'.sources, description := new'.description)
  }

  /** INSERT .. ON CONFLICT (endpoint) DO UPDATE; a conflict on the UUID alone is an error. */
  function UpsertOne(t: Table, p: Policy): Result<Table, GuardError> {
    var q := p.(readOnly := false);
    if KeyOf(q) in t then Success(t[KeyOf(q) := Merged(t[KeyOf(q)], q)])
    else if UuidUsed(t, q.uuid) then Failure(UuidTaken)
    else Success(t[KeyOf(q) := q])
  }

  function Upsert(t: Table, batch: seq<Policy>): Result<Table, GuardError> {
    if batch == [] then Success(t)
    else
      var before :- Upsert(t, batch[..|batch| - 1]);
      UpsertOne(before, batch[|batch| - 1])
  }

  function InsertOne(t: Table, p: Policy): Result<Table, GuardError> {
    var q := p.(readOnly := true);
    if KeyOf(q) in t then Failure(EndpointTaken)
    else if UuidUsed(t, q.uuid) then Failure(UuidTaken)
    else Success(t[KeyOf(q) := q])
  }

  function InsertAll(t: Table, batch: seq<Policy>): Result<Table, GuardError> {
    if batch == [] then Success(t)
    else
      var before :- InsertAll(t, batch[..|batch| - 1]);
      InsertOne(before, batch[|batch| - 1])
  }

  /** Delete the read-only rows, then insert the new ones. */
  function Replace(t: Table, batch: seq<Policy>): Result<Table, GuardError> {
    InsertAll(Partition(t, false), batch)
  }

  function DeleteManaged(t: Table, uuids: seq<string>): Table {
    map k | k in t && (k.readOnly || t[k].uuid !in uuids) :: t[k]
  }

  class Repo {
    var table: Table

    constructor ()
      ensures table == map[]
    {
      table := map[];
    }

    method UpsertBatch(batch: array<Policy>) returns (err: Option<GuardError>)
      modifies this, batch
      ensures match Upsert(old(table), old(batch[..]))
              case Success(after) => err == None && table == after
              case Failure(e) => err == Some(e) && table == old(table)
      ensures err == None ==> forall i :: 0 <= i < batch.Length ==> batch[i] == old(batch[i]).(readOnly := false)
    {
      var tx := table;
      for i := 0 to batch.Length
        invariant table == old(table)
        invariant Upsert(old(table), old(batch[..])[..i]) == Success(tx)
        invariant forall j :: 0 <= j < i ==> batch[j] == old(batch[j]).(readOnly := false)
        invariant forall j :: i <= j < batch.Length ==> batch[j] == old(batch[j])
      {
        UpsertMore(old(table), old(batch[..]), i);
        batch[i] := batch[i].(readOnly := false);
        var next := UpsertOne(tx, batch[i]);
        if next.Failure? {
          UpsertFails(old(table), old(batch[..]), i + 1);
          return Some(next.error);
        }
        tx := next.value;
      }
      assert old(batch[..])[..batch.Length] == old(batch[..]);
      table := tx;
      err := None;
    }

    method ReplaceRuntimeReadOnly(batch: array<Policy>) returns (err: Option<GuardError>)
      modifies this, batch
      ensures match Replace(old(table), old(batch[..]))
              case Success(after) => err == None && table == after
              case Failure(e) => err == Some(e) && table == old(table)
    {
      var tx := Partition(table, false);
      for i := 0 to batch.Length
        invariant table == old(table)
        invariant forall j :: 0 <= j < i ==> batch[j] == old(batch[j]).(readOnly := true)
        invariant forall j :: i <= j < batch.Length ==> batch[j] == old(batch[j])
      {
        batch[i] := batch[i].(readOnly := true);
      }
      for i := 0 to batch.Length
        invariant table == old(table)
        invariant forall j :: 0 <= j < batch.Length ==> batch[j] == old(batch[j]).(readOnly := true)
        invariant InsertAll(Partition(old(table), false), old(batch[..])[..i]) == Success(tx)
      {
        InsertMore(Partition(old(table), false), old(batch[..]), i);
        var next := InsertOne(tx, batch[i]);
        if next.Failure? {
          InsertFails(Partition(old(table), false), old(batch[..]), i + 1);
          return Some(next.error);
        }
        tx := next.value;
      }
      assert old(batch[..])[..batch.Length] == old(batch[..]);
      table := tx;
      err := None;
    }

    method DeleteBatch(uuids: seq<string>)
      modifies this
      ensures table == DeleteManaged(old(table), uuids)
    {
      table := map k | k in table && (k.readOnly || table[k].uuid !in uuids) :: table[k];
    }
  }

  // ---- Batches, one row at a time

  lemma UpsertMore(t: Table, batch: seq<Policy>, i: nat)
    requires i < |batch| && Upsert(t, batch[..i]).Success?
    ensures Upsert(t, batch[..i + 1]) == UpsertOne(Upsert(t, batch[..i]).value, batch[i])
  {
    assert batch[..i + 1][..i] == batch[..i];
  }

  lemma {:induction false} UpsertFails(t: Table, batch: seq<Policy>, i: nat)
    requires i <= |batch| && Upsert(t, batch[..i]).Failure?
    ensures Upsert(t, batch) == Upsert(t, batch[..i])
    decreases |batch| - i
  {
    if i == |batch| {
      assert batch[..i] == batch;
    } else {
      assert batch[..i + 1][..i] == batch[..i];
      UpsertFails(t, batch, i + 1);
    }
  }

  lemma InsertMore(t: Table, batch: seq<Policy>, i: nat)
    requires i < |batch| && InsertAll(t, batch[..i]).Success?
    ensures InsertAll(t, batch[..i + 1]) == InsertOne(InsertAll(t, batch[..i]).value, batch[i])
  {
    assert batch[..i + 1][..i] == batch[..i];
  }

  lemma {:induction false} InsertFails(t: Table, batch: seq<Policy>, i: nat)
    requires i <= |batch| && InsertAll(t, batch[..i]).Failure?
    ensures InsertAll(t, batch) == InsertAll(t, batch[..i])
    decreases |batch| - i
  {
    if i == |batch| {
      assert batch[..i] == batch;
    } else {
      assert batch[..i + 1][..i] == batch[..i];
      InsertFails(t, batch, i + 1);
    }
  }
}
