/** The two partitions of the port-guard table stay apart, and a batch is a last-wins merge. */
module PortGuardProofs {
  import opened Text
  import opened PortGuardRepo

  // ---- The unique indexes

  lemma InsertingKeepsValid(t: Table, p: Policy)
    requires Valid(t) && KeyOf(p) !in t && !UuidUsed(t, p.uuid)
    ensures Valid(t[KeyOf(p) := p])
  {
  }

  lemma {:induction false} UpsertKeepsValid(t: Table, batch: seq<Policy>)
    requires Valid(t) && Upsert(t, batch).Success?
    ensures Valid(Upsert(t, batch).value)
  {
    if batch != [] {
      var rest, q := batch[..|batch| - 1], batch[|batch| - 1].(readOnly := false);
      UpsertKeepsValid(t, rest);
      var before := Upsert(t, rest).value;
      if KeyOf(q) !in before {
        InsertingKeepsValid(before, q);
      }
    }
  }

  lemma {:induction false} InsertKeepsValid(t: Table, batch: seq<Policy>)
    requires Valid(t) && InsertAll(t, batch).Success?
    ensures Valid(InsertAll(t, batch).value)
  {
    if batch != [] {
      var rest, q := batch[..|batch| - 1], batch[|batch| - 1].(readOnly := true);
      InsertKeepsValid(t, rest);
      InsertingKeepsValid(InsertAll(t, rest).value, q);
    }
  }

  /** Every operation keeps both indexes, so every run of them does. */
  lemma OperationsKeepValid(t: Table, batch: seq<Policy>, uuids: seq<string>)
    requires Valid(t)
    ensures Upsert(t, batch).Success? ==> Valid(Upsert(t, batch).value)
    ensures Replace(t, batch).Success? ==> Valid(Replace(t, batch).value)
    ensures Valid(DeleteManaged(t, uuids))
  {
    if Upsert(t, batch).Success? {
      UpsertKeepsValid(t, batch);
    }
    assert Valid(Partition(t, false));
    if Replace(t, batch).Success? {
      InsertKeepsValid(Partition(t, false), batch);
    }
  }

  // ---- The partitions

  lemma PartitionsMakeUp(t: Table)
    ensures Partition(t, false) + Partition(t, true) == t
  {
  }

  predicate AllManaged(t: Table) {
    forall k :: k in t ==> !k.readOnly
  }

  predicate AllReadOnly(t: Table) {
    forall k :: k in t ==> k.readOnly
  }

  lemma UuidsMakeUp(m: Table, r: Table, uuid: string)
    requires AllManaged(m) && AllReadOnly(r)
    ensures UuidUsed(m + r, uuid) <==> UuidUsed(m, uuid) || UuidUsed(r, uuid)
  {
    if UuidUsed(m, uuid) {
      var k :| k in m && m[k].uuid == uuid;
      assert k in m + r && (m + r)[k].uuid == uuid;
    }
    if UuidUsed(r, uuid) {
      var k :| k in r && r[k].uuid == uuid;
      assert k in m + r && (m + r)[k].uuid == uuid;
    }
  }

  /** The policies of the batch that name an endpoint for the first time: those that are inserted. */
  function Inserts(m: Table, batch: seq<Policy>): seq<Policy> {
    if batch == [] then []
    else
      var rest, last := batch[..|batch| - 1], batch[|batch| - 1];
      Inserts(m, rest) + if Key(false, last.endpoint) in m || Names(rest, last.endpoint) then [] else [last]
  }

  predicate Names(batch: seq<Policy>, endpoint: Endpoint) {
    exists p :: p in batch && p.endpoint == endpoint
  }

  /** None of the inserted UUIDs is a read-only one. */
  predicate NoClash(inserts: seq<Policy>, r: Table) {
    forall p :: p in inserts ==> !UuidUsed(r, p.uuid)
  }

  lemma {:induction false} UpsertKeys(t: Table, batch: seq<Policy>)
    requires Upsert(t, batch).Success?
    ensures forall k :: k in Upsert(t, batch).value <==> k in t || (!k.readOnly && Names(batch, k.endpoint))
  {
    if batch != [] {
      var rest, last := batch[..|batch| - 1], batch[|batch| - 1];
      UpsertKeys(t, rest);
      LastMembers(batch);
      assert forall e :: Names(batch, e) <==> Names(rest, e) || last.endpoint == e;
    }
  }

  /**
   * An upsert works on the managed partition alone: with read-only rows present it succeeds exactly
   * when it succeeds without them and inserts no UUID of theirs, and then leaves them as they are.
   */
  lemma {:induction false} UpsertIgnoresReadOnly(m: Table, r: Table, batch: seq<Policy>)
    requires AllManaged(m) && AllReadOnly(r)
    ensures Upsert(m + r, batch).Success? <==> Upsert(m, batch).Success? && NoClash(Inserts(m, batch), r)
    ensures Upsert(m + r, batch).Success? ==>
              Upsert(m + r, batch).value == Upsert(m, batch).value + r && AllManaged(Upsert(m, batch).value)
  {
    if batch != [] {
      var rest, last := batch[..|batch| - 1], batch[|batch| - 1];
      UpsertIgnoresReadOnly(m, r, rest);
      if Upsert(m, rest).Success? {
        UpsertKeys(m, rest);
        if NoClash(Inserts(m, rest), r) {
          UpsertOneIgnoresReadOnly(Upsert(m, rest).value, r, last);
        }
      }
    }
  }

  lemma UpsertOneIgnoresReadOnly(m: Table, r: Table, p: Policy)
    requires AllManaged(m) && AllReadOnly(r)
    ensures UpsertOne(m + r, p).Success?
       <==> UpsertOne(m, p).Success? && (Key(false, p.endpoint) in m || !UuidUsed(r, p.uuid))
    ensures UpsertOne(m + r, p).Success? ==>
              UpsertOne(m + r, p).value == UpsertOne(m, p).value + r && AllManaged(UpsertOne(m, p).value)
  {
    UuidsMakeUp(m, r, p.uuid);
    var q := p.(readOnly := false);
    assert KeyOf(q) !in r;
    if KeyOf(q) in m {
      assert (m + r)[KeyOf(q) := Merged(m[KeyOf(q)], q)] == m[KeyOf(q) := Merged(m[KeyOf(q)], q)] + r;
    } else {
      assert (m + r)[KeyOf(q) := q] == m[KeyOf(q) := q] + r;
    }
  }

  lemma PartitionOfSum(m: Table, r: Table)
    requires AllManaged(m) && AllReadOnly(r)
    ensures Partition(m + r, false) == m && Partition(m + r, true) == r
  {
  }

  lemma UpsertIsSeparate(t: Table, batch: seq<Policy>)
    requires Upsert(t, batch).Success?
    ensures Partition(Upsert(t, batch).value, true) == Partition(t, true)
  {
    var m, r := Partition(t, false), Partition(t, true);
    PartitionsMakeUp(t);
    UpsertIgnoresReadOnly(m, r, batch);
    PartitionOfSum(Upsert(m, batch).value, r);
  }

  lemma DeleteIsSeparate(t: Table, uuids: seq<string>)
    ensures Partition(DeleteManaged(t, uuids), true) == Partition(t, true)
    ensures Partition(DeleteManaged(t, uuids), false) == DeleteManaged(Partition(t, false), uuids)
  {
  }

  lemma ReplaceIsSeparate(t: Table, batch: seq<Policy>)
    requires Replace(t, batch).Success?
    ensures Partition(Replace(t, batch).value, false) == Partition(t, false)
  {
    InsertsReadOnly(Partition(t, false), batch);
    assert Partition(Partition(t, false), false) == Partition(t, false);
  }

  /** Managed operations never alter a read-only row, and a replacement never alters a managed one. */
  lemma PartitionsAreSeparate(t: Table, batch: seq<Policy>, uuids: seq<string>)
    ensures Upsert(t, batch).Success? ==> Partition(Upsert(t, batch).value, true) == Partition(t, true)
    ensures Partition(DeleteManaged(t, uuids), true) == Partition(t, true)
    ensures Replace(t, batch).Success? ==> Partition(Replace(t, batch).value, false) == Partition(t, false)
  {
    DeleteIsSeparate(t, uuids);
    if Upsert(t, batch).Success? {
      UpsertIsSeparate(t, batch);
    }
    if Replace(t, batch).Success? {
      ReplaceIsSeparate(t, batch);
    }
  }

  lemma {:induction false} InsertsReadOnly(t: Table, batch: seq<Policy>)
    requires InsertAll(t, batch).Success?
    ensures Partition(InsertAll(t, batch).value, false) == Partition(t, false)
  {
    if batch != [] {
      InsertsReadOnly(t, batch[..|batch| - 1]);
    }
  }

  // ---- A batch is a last-wins merge

  /** The policy at this index is the first of the batch for its endpoint. */
  predicate FirstAt(batch: seq<Policy>, i: nat)
    requires i < |batch|
  {
    forall k :: 0 <= k < i ==> batch[k].endpoint != batch[i].endpoint
  }

  predicate LastAt(batch: seq<Policy>, i: nat)
    requires i < |batch|
  {
    forall k :: i < k < |batch| ==> batch[k].endpoint != batch[i].endpoint
  }

  /** A row whose endpoint the batch does not name, and every read-only row, stays as it was. */
  lemma {:induction false} UpsertKeepsOthers(t: Table, batch: seq<Policy>, key: Key)
    requires Upsert(t, batch).Success? && (key.readOnly || forall i :: 0 <= i < |batch| ==> batch[i].endpoint != key.endpoint)
    ensures key in Upsert(t, batch).value <==> key in t
    ensures key in t ==> Upsert(t, batch).value[key] == t[key]
  {
    if batch != [] {
      UpsertKeepsOthers(t, batch[..|batch| - 1], key);
    }
  }

  /** The row keeps the UUID, the native columns and the sequence of another. */
  predicate KeepsNative(row: Policy, base: Policy) {
    row.uuid == base.uuid && row.nativeAction == base.nativeAction && row.nativeRules == base.nativeRules
    && row.sequence == base.sequence
  }

  predicate HasTexts(row: Policy, p: Policy) {
    row.mode == p.mode && row.sources == p.sources && row.description == p.description
  }

  lemma UpsertOneSets(t: Table, p: Policy)
    requires UpsertOne(t, p).Success?
    ensures var after, key := UpsertOne(t, p).value, Key(false, p.endpoint);
            && key in after && HasTexts(after[key], p) && KeepsNative(after[key], if key in t then t[key] else p)
            && (key in t ==> after[key].readOnly == t[key].readOnly && after[key].endpoint == t[key].endpoint)
            && (key !in t ==> !after[key].readOnly && after[key].endpoint == p.endpoint)
  {
  }

  /**
   * Last wins: the row of a named endpoint has the mode, sources and description of the last policy for it, and keeps
   * the UUID, native columns and sequence of the row that was there, else of the first policy for it.
   */
  lemma {:induction false} BatchIsLastWins(t: Table, batch: seq<Policy>, first: nat, last: nat)
    requires Valid(t) && Upsert(t, batch).Success?
    requires first <= last < |batch| && batch[first].endpoint == batch[last].endpoint
    requires FirstAt(batch, first) && LastAt(batch, last)
    ensures var after, key := Upsert(t, batch).value, Key(false, batch[last].endpoint);
            && key in after && !after[key].readOnly && after[key].endpoint == batch[last].endpoint
            && HasTexts(after[key], batch[last])
            && KeepsNative(after[key], if key in t then t[key] else batch[first])
  {
    var n := |batch| - 1;
    var rest, key := batch[..n], Key(false, batch[last].endpoint);
    var before := Upsert(t, rest).value;
    if last < n {
      BatchIsLastWins(t, rest, first, last);
      UpsertOtherStays(before, batch[n], key);
    } else {
      UpsertOneSets(before, batch[n]);
      if first == n {
        UpsertKeepsOthers(t, rest, key);
      } else {
        var previous := PreviousFor(batch, first, n);
        BatchIsLastWins(t, rest, first, previous);
      }
    }
  }

  lemma UpsertOtherStays(t: Table, p: Policy, key: Key)
    requires UpsertOne(t, p).Success? && key in t && Key(false, p.endpoint) != key
    ensures key in UpsertOne(t, p).value && UpsertOne(t, p).value[key] == t[key]
  {
  }

  /** The last policy before the n-th one for its endpoint. */
  lemma {:induction false} PreviousFor(batch: seq<Policy>, first: nat, n: nat) returns (i: nat)
    requires first < n == |batch| - 1 && batch[first].endpoint == batch[n].endpoint
    ensures first <= i < n && batch[i].endpoint == batch[n].endpoint && LastAt(batch[..n], i)
  {
    i := n - 1;
    while batch[i].endpoint != batch[n].endpoint
      invariant first <= i < n
      invariant forall k :: i < k < n ==> batch[k].endpoint != batch[n].endpoint
      decreases i
    {
      i := i - 1;
    }
  }

  /** The policy is inserted: neither the table nor an earlier policy has its endpoint. */
  predicate InsertsAt(t: Table, batch: seq<Policy>, i: nat)
    requires i < |batch|
  {
    Key(false, batch[i].endpoint) !in t && FirstAt(batch, i)
  }

  /** One of the first n policies is inserted with this UUID. */
  predicate UuidInserted(t: Table, batch: seq<Policy>, n: nat, uuid: string)
    requires n <= |batch|
  {
    exists j :: 0 <= j < n && InsertsAt(t, batch, j) && batch[j].uuid == uuid
  }

  lemma UuidInsertedMore(t: Table, batch: seq<Policy>, n: nat, uuid: string)
    requires n < |batch|
    ensures UuidInserted(t, batch, n + 1, uuid)
            <==> UuidInserted(t, batch, n, uuid) || (InsertsAt(t, batch, n) && batch[n].uuid == uuid)
  {
  }

  /** The UUID is free in the table and not that of an earlier policy that is inserted. */
  predicate FreeAt(t: Table, batch: seq<Policy>, i: nat)
    requires i < |batch|
  {
    !UuidUsed(t, batch[i].uuid) && !UuidInserted(t, batch, i, batch[i].uuid)
  }

  lemma {:induction false} UpsertUuids(t: Table, batch: seq<Policy>, n: nat, uuid: string)
    requires n <= |batch| && Upsert(t, batch[..n]).Success?
    ensures UuidUsed(Upsert(t, batch[..n]).value, uuid) <==> UuidUsed(t, uuid) || UuidInserted(t, batch, n, uuid)
  {
    if n > 0 {
      var i := n - 1;
      TakeMore(batch, i);
      var before, q := Upsert(t, batch[..i]).value, batch[i].(readOnly := false);
      UpsertUuids(t, batch, i, uuid);
      UpsertMore(t, batch, i);
      UpsertHasKey(t, batch, i);
      UuidInsertedMore(t, batch, i, uuid);
      if KeyOf(q) in before {
        MergedUuid(before, q, uuid);
      } else {
        InsertedUuid(before, q, uuid);
      }
    }
  }

  lemma UpsertHasKey(t: Table, batch: seq<Policy>, n: nat)
    requires n < |batch| && Upsert(t, batch[..n]).Success?
    ensures Key(false, batch[n].endpoint) in Upsert(t, batch[..n]).value <==> !InsertsAt(t, batch, n)
  {
    UpsertKeys(t, batch[..n]);
    if k :| 0 <= k < n && batch[k].endpoint == batch[n].endpoint {
      assert batch[..n][k] in batch[..n];
    }
  }

  /** Every one of the first n policies that is inserted has a free UUID. */
  predicate AllFree(t: Table, batch: seq<Policy>, n: nat)
    requires n <= |batch|
  {
    forall i :: 0 <= i < n && InsertsAt(t, batch, i) ==> FreeAt(t, batch, i)
  }

  lemma {:induction false} UpsertedIff(t: Table, batch: seq<Policy>, n: nat)
    requires n <= |batch|
    ensures Upsert(t, batch[..n]).Success? <==> AllFree(t, batch, n)
    ensures Upsert(t, batch[..n]).Failure? ==> Upsert(t, batch[..n]) == Failure(UuidTaken)
  {
    if n > 0 {
      var i := n - 1;
      TakeMore(batch, i);
      UpsertedIff(t, batch, i);
      if Upsert(t, batch[..i]).Success? {
        UpsertMore(t, batch, i);
        UpsertHasKey(t, batch, i);
        UpsertUuids(t, batch, i, batch[i].uuid);
      }
    }
  }

  /** An upsert fails exactly when a policy that it inserts has a UUID that is taken by then. */
  lemma UpsertSucceedsIff(t: Table, batch: seq<Policy>)
    ensures Upsert(t, batch).Success? <==> forall i :: 0 <= i < |batch| && InsertsAt(t, batch, i) ==> FreeAt(t, batch, i)
    ensures Upsert(t, batch).Failure? ==> Upsert(t, batch) == Failure(UuidTaken)
  {
    UpsertedIff(t, batch, |batch|);
    assert batch[..|batch|] == batch;
  }

  // ---- What a replacement and a deletion leave

  /** Some policy of the batch goes to this key as a read-only row. */
  predicate Observes(batch: seq<Policy>, key: Key) {
    exists i :: 0 <= i < |batch| && key == Key(true, batch[i].endpoint)
  }

  predicate ObservedRow(batch: seq<Policy>, key: Key, row: Policy) {
    forall i :: 0 <= i < |batch| && key == Key(true, batch[i].endpoint) ==> row == batch[i].(readOnly := true)
  }

  lemma {:induction false} InsertAllHolds(t: Table, batch: seq<Policy>, key: Key)
    requires InsertAll(t, batch).Success?
    ensures key in InsertAll(t, batch).value <==> key in t || Observes(batch, key)
    ensures key in t ==> InsertAll(t, batch).value[key] == t[key]
    ensures Observes(batch, key) ==> ObservedRow(batch, key, InsertAll(t, batch).value[key])
  {
    if batch != [] {
      var n := |batch| - 1;
      InsertAllHolds(t, batch[..n], key);
      assert forall i :: 0 <= i < n ==> batch[..n][i] == batch[i];
    }
  }

  /** A replacement leaves the managed rows, and beside them exactly the observed policies as read-only rows. */
  lemma ReplaceHolds(t: Table, observed: seq<Policy>, key: Key)
    requires Replace(t, observed).Success?
    ensures !key.readOnly ==> (key in Replace(t, observed).value <==> key in t)
    ensures !key.readOnly && key in t ==> Replace(t, observed).value[key] == t[key]
    ensures key.readOnly ==>
              (key in Replace(t, observed).value <==> exists i :: 0 <= i < |observed| && observed[i].endpoint == key.endpoint)
    ensures key.readOnly ==> forall i :: 0 <= i < |observed| && observed[i].endpoint == key.endpoint ==>
              Replace(t, observed).value[key] == observed[i].(readOnly := true)
  {
    InsertAllHolds(Partition(t, false), observed, key);
    assert forall i :: 0 <= i < |observed| && key.readOnly ==>
      (key == Key(true, observed[i].endpoint) <==> observed[i].endpoint == key.endpoint);
  }

  /** Of the first n observed policies: endpoints and UUIDs of their own, and no UUID of a managed row. */
  predicate Separable(m: Table, observed: seq<Policy>, n: nat)
    requires n <= |observed|
  {
    forall i :: 0 <= i < n ==> !UuidUsed(m, observed[i].uuid) && StandsApart(observed, i)
  }

  predicate StandsApart(observed: seq<Policy>, i: nat)
    requires i < |observed|
  {
    forall j :: 0 <= j < i ==> observed[j].endpoint != observed[i].endpoint && observed[j].uuid != observed[i].uuid
  }

  predicate HasUuid(observed: seq<Policy>, n: nat, uuid: string)
    requires n <= |observed|
  {
    exists i :: 0 <= i < n && observed[i].uuid == uuid
  }

  lemma {:induction false} InsertedHaveUuids(m: Table, batch: seq<Policy>, n: nat, uuid: string)
    requires n <= |batch| && InsertAll(m, batch[..n]).Success?
    ensures UuidUsed(InsertAll(m, batch[..n]).value, uuid) <==> UuidUsed(m, uuid) || HasUuid(batch, n, uuid)
  {
    if n > 0 {
      var i := n - 1;
      TakeMore(batch, i);
      InsertedHaveUuids(m, batch, i, uuid);
      InsertMore(m, batch, i);
      InsertedUuid(InsertAll(m, batch[..i]).value, batch[i].(readOnly := true), uuid);
    }
  }

  lemma InsertHasKey(m: Table, batch: seq<Policy>, n: nat)
    requires AllManaged(m) && n < |batch| && InsertAll(m, batch[..n]).Success?
    ensures Key(true, batch[n].endpoint) in InsertAll(m, batch[..n]).value
            <==> exists i :: 0 <= i < n && batch[i].endpoint == batch[n].endpoint
  {
    InsertAllHolds(m, batch[..n], Key(true, batch[n].endpoint));
    assert forall i :: 0 <= i < n ==> batch[..n][i] == batch[i];
  }

  lemma {:induction false} InsertedIff(m: Table, batch: seq<Policy>, n: nat)
    requires AllManaged(m) && n <= |batch|
    ensures InsertAll(m, batch[..n]).Success? <==> Separable(m, batch, n)
  {
    if n > 0 {
      var i := n - 1;
      TakeMore(batch, i);
      InsertedIff(m, batch, i);
      if InsertAll(m, batch[..i]).Success? {
        InsertMore(m, batch, i);
        InsertHasKey(m, batch, i);
        InsertedHaveUuids(m, batch, i, batch[i].uuid);
        assert StandsApart(batch, i) <==>
          !HasUuid(batch, i, batch[i].uuid) && !exists j :: 0 <= j < i && batch[j].endpoint == batch[i].endpoint;
      }
    }
  }

  /** A replacement succeeds exactly when the observed policies differ in endpoint and UUID and reuse no managed UUID. */
  lemma ReplaceSucceedsIff(t: Table, observed: seq<Policy>)
    ensures Replace(t, observed).Success?
            <==> && (forall i, j :: 0 <= i < j < |observed| ==>
                       observed[i].endpoint != observed[j].endpoint && observed[i].uuid != observed[j].uuid)
                 && forall i, k :: 0 <= i < |observed| && k in t && !k.readOnly ==> t[k].uuid != observed[i].uuid
  {
    InsertedIff(Partition(t, false), observed, |observed|);
    assert observed[..|observed|] == observed;
    SeparableMeans(t, observed);
  }

  lemma SeparableMeans(t: Table, observed: seq<Policy>)
    ensures Separable(Partition(t, false), observed, |observed|)
            <==> && (forall i, j :: 0 <= i < j < |observed| ==>
                       observed[i].endpoint != observed[j].endpoint && observed[i].uuid != observed[j].uuid)
                 && forall i, k :: 0 <= i < |observed| && k in t && !k.readOnly ==> t[k].uuid != observed[i].uuid
  {
    var m := Partition(t, false);
    forall i | 0 <= i < |observed|
      ensures UuidUsed(m, observed[i].uuid) <==> exists k :: k in t && !k.readOnly && t[k].uuid == observed[i].uuid
    {
      if k :| k in t && !k.readOnly && t[k].uuid == observed[i].uuid {
        assert k in m && m[k].uuid == observed[i].uuid;
      }
    }
  }

  /** A deletion takes away exactly the managed rows with one of the UUIDs, and changes none. */
  lemma DeleteTakes(t: Table, uuids: seq<string>, key: Key)
    ensures key in DeleteManaged(t, uuids) <==> key in t && (key.readOnly || t[key].uuid !in uuids)
    ensures key in DeleteManaged(t, uuids) ==> DeleteManaged(t, uuids)[key] == t[key]
  {
  }

  // ---- Managed operations and replacements

  /** A batch can be inserted as read-only rows beside the managed ones. */
  predicate Replaceable(m: Table, batch: seq<Policy>) {
    && InsertAll(map[], batch).Success?
    && forall p :: p in batch ==> !UuidUsed(m, p.uuid)
  }

  lemma {:induction false} InsertBeside(m: Table, batch: seq<Policy>)
    requires AllManaged(m)
    ensures InsertAll(m, batch).Success? <==> Replaceable(m, batch)
    ensures InsertAll(map[], batch).Success? ==> AllReadOnly(InsertAll(map[], batch).value)
    ensures InsertAll(m, batch).Success? ==> InsertAll(m, batch).value == m + InsertAll(map[], batch).value
  {
    if batch == [] {
      assert m + map[] == m;
    } else {
      var rest, last := batch[..|batch| - 1], batch[|batch| - 1];
      InsertBeside(m, rest);
      LastMembers(batch);
      if InsertAll(map[], rest).Success? {
        InsertOneBeside(m, InsertAll(map[], rest).value, last);
      }
    }
  }

  lemma InsertOneBeside(m: Table, r: Table, p: Policy)
    requires AllManaged(m) && AllReadOnly(r)
    ensures InsertOne(m + r, p).Success? <==> InsertOne(r, p).Success? && !UuidUsed(m, p.uuid)
    ensures InsertOne(r, p).Success? ==> AllReadOnly(InsertOne(r, p).value)
    ensures InsertOne(m + r, p).Success? ==> InsertOne(m + r, p).value == m + InsertOne(r, p).value
  {
    UuidsMakeUp(m, r, p.uuid);
    var q := p.(readOnly := true);
    assert KeyOf(q) !in m;
    assert (m + r)[KeyOf(q) := q] == m + r[KeyOf(q) := q];
  }

  lemma {:induction false} InsertedUuids(batch: seq<Policy>, uuid: string)
    requires InsertAll(map[], batch).Success?
    ensures UuidUsed(InsertAll(map[], batch).value, uuid) <==> exists p :: p in batch && p.uuid == uuid
  {
    if batch != [] {
      var rest, last := batch[..|batch| - 1], batch[|batch| - 1];
      InsertedUuids(rest, uuid);
      LastMembers(batch);
      InsertedUuid(InsertAll(map[], rest).value, last.(readOnly := true), uuid);
    }
  }

  lemma InsertedUuid(t: Table, q: Policy, uuid: string)
    requires KeyOf(q) !in t
    ensures UuidUsed(t[KeyOf(q) := q], uuid) <==> UuidUsed(t, uuid) || q.uuid == uuid
  {
    var after := t[KeyOf(q) := q];
    if UuidUsed(t, uuid) {
      var k :| k in t && t[k].uuid == uuid;
      assert k in after && after[k].uuid == uuid;
    }
    assert KeyOf(q) in after && after[KeyOf(q)].uuid == q.uuid;
  }

  /** A managed upsert adds the UUIDs it inserts and loses none. */
  lemma {:induction false} UpsertedUuids(m: Table, batch: seq<Policy>, uuid: string)
    requires AllManaged(m) && Upsert(m, batch).Success?
    ensures UuidUsed(Upsert(m, batch).value, uuid)
       <==> UuidUsed(m, uuid) || exists p :: p in Inserts(m, batch) && p.uuid == uuid
  {
    if batch != [] {
      var rest, last := batch[..|batch| - 1], batch[|batch| - 1];
      UpsertedUuids(m, rest, uuid);
      UpsertKeys(m, rest);
      var before, q := Upsert(m, rest).value, last.(readOnly := false);
      if KeyOf(q) in before {
        MergedUuid(before, q, uuid);
      } else {
        InsertedUuid(before, q, uuid);
        assert forall p :: p in Inserts(m, batch) <==> p in Inserts(m, rest) || p == last;
      }
    }
  }

  lemma MergedUuid(t: Table, q: Policy, uuid: string)
    requires KeyOf(q) in t
    ensures UuidUsed(t[KeyOf(q) := Merged(t[KeyOf(q)], q)], uuid) <==> UuidUsed(t, uuid)
  {
    var after := t[KeyOf(q) := Merged(t[KeyOf(q)], q)];
    assert after.Keys == t.Keys && forall k :: k in t ==> after[k].uuid == t[k].uuid;
  }

  function UpsertThenReplace(t: Table, batch: seq<Policy>, observed: seq<Policy>): Result<Table, GuardError> {
    var after :- Upsert(t, batch);
    Replace(after, observed)
  }

  function ReplaceThenUpsert(t: Table, batch: seq<Policy>, observed: seq<Policy>): Result<Table, GuardError> {
    var after :- Replace(t, observed);
    Upsert(after, batch)
  }

  /** The rows left by either order, and when each of them succeeds. */
  lemma BothOrders(m: Table, r: Table, batch: seq<Policy>, observed: seq<Policy>)
    requires AllManaged(m) && AllReadOnly(r)
    ensures UpsertThenReplace(m + r, batch, observed).Success?
       <==> Upsert(m, batch).Success? && NoClash(Inserts(m, batch), r) && Replaceable(Upsert(m, batch).value, observed)
    ensures ReplaceThenUpsert(m + r, batch, observed).Success?
       <==> Replaceable(m, observed) && Upsert(m, batch).Success?
            && NoClash(Inserts(m, batch), InsertAll(map[], observed).value)
    ensures UpsertThenReplace(m + r, batch, observed).Success? ==>
              UpsertThenReplace(m + r, batch, observed).value
              == Upsert(m, batch).value + InsertAll(map[], observed).value
    ensures ReplaceThenUpsert(m + r, batch, observed).Success? ==>
              ReplaceThenUpsert(m + r, batch, observed).value
              == Upsert(m, batch).value + InsertAll(map[], observed).value
  {
    UpsertIgnoresReadOnly(m, r, batch);
    UpsertIgnoresReadOnly(m, map[], batch);
    assert m + map[] == m;
    InsertBeside(m, observed);
    PartitionOfSum(m, r);
    if Upsert(m, batch).Success? {
      var after := Upsert(m, batch).value;
      assert AllManaged(after);
      PartitionOfSum(after, r);
      InsertBeside(after, observed);
    }
    if InsertAll(map[], observed).Success? {
      UpsertIgnoresReadOnly(m, InsertAll(map[], observed).value, batch);
    }
  }

  lemma ClashesAgree(m: Table, batch: seq<Policy>, observed: seq<Policy>)
    requires AllManaged(m) && Upsert(m, batch).Success? && InsertAll(map[], observed).Success?
    ensures Replaceable(Upsert(m, batch).value, observed)
       <==> Replaceable(m, observed) && NoClash(Inserts(m, batch), InsertAll(map[], observed).value)
  {
    forall p | p in observed
      ensures UuidUsed(Upsert(m, batch).value, p.uuid)
         <==> UuidUsed(m, p.uuid) || exists q :: q in Inserts(m, batch) && q.uuid == p.uuid
    {
      UpsertedUuids(m, batch, p.uuid);
    }
    forall q | q in Inserts(m, batch)
      ensures UuidUsed(InsertAll(map[], observed).value, q.uuid) <==> exists p :: p in observed && p.uuid == q.uuid
    {
      InsertedUuids(observed, q.uuid);
    }
  }

  /**
   * An upsert and a replacement commute, exactly up to UUIDs: upserting first succeeds if and only if
   * replacing first does and the upsert inserts no UUID of the read-only rows that are replaced; when it
   * succeeds, both orders leave the same table.
   */
  lemma UpsertCommutesWithReplace(t: Table, batch: seq<Policy>, observed: seq<Policy>)
    ensures UpsertThenReplace(t, batch, observed).Success?
       <==> ReplaceThenUpsert(t, batch, observed).Success?
            && NoClash(Inserts(Partition(t, false), batch), Partition(t, true))
    ensures UpsertThenReplace(t, batch, observed).Success? ==>
              UpsertThenReplace(t, batch, observed).value == ReplaceThenUpsert(t, batch, observed).value
  {
    var m, r := Partition(t, false), Partition(t, true);
    PartitionsMakeUp(t);
    BothOrders(m, r, batch, observed);
    if Upsert(m, batch).Success? && InsertAll(map[], observed).Success? {
      ClashesAgree(m, batch, observed);
    }
  }

  /**
   * A deletion and a replacement commute, exactly up to UUIDs: replacing first succeeds if and only if
   * deleting first lets the replacement succeed and no observed policy reuses a UUID that is deleted.
   */
  lemma DeleteCommutesWithReplace(t: Table, uuids: seq<string>, observed: seq<Policy>)
    ensures Replace(t, observed).Success?
       <==> Replace(DeleteManaged(t, uuids), observed).Success?
            && forall p :: p in observed && p.uuid in uuids ==> !UuidUsed(Partition(t, false), p.uuid)
    ensures Replace(t, observed).Success? ==>
              DeleteManaged(Replace(t, observed).value, uuids) == Replace(DeleteManaged(t, uuids), observed).value
  {
    var m := Partition(t, false);
    var kept := DeleteManaged(m, uuids);
    DeleteIsSeparate(t, uuids);
    InsertBeside(m, observed);
    InsertBeside(kept, observed);
    ReplaceableAfterDeletion(m, uuids, observed);
    if Replace(t, observed).Success? {
      DeleteBeside(m, InsertAll(map[], observed).value, uuids);
    }
  }

  lemma ReplaceableAfterDeletion(m: Table, uuids: seq<string>, observed: seq<Policy>)
    requires AllManaged(m)
    ensures Replaceable(m, observed)
       <==> Replaceable(DeleteManaged(m, uuids), observed) && forall p :: p in observed && p.uuid in uuids ==> !UuidUsed(m, p.uuid)
  {
    forall p | p in observed
      ensures UuidUsed(m, p.uuid) <==> UuidUsed(DeleteManaged(m, uuids), p.uuid) || (p.uuid in uuids && UuidUsed(m, p.uuid))
    {
      DeletedUuids(m, uuids, p.uuid);
    }
  }

  lemma DeleteBeside(m: Table, r: Table, uuids: seq<string>)
    requires AllManaged(m) && AllReadOnly(r)
    ensures DeleteManaged(m + r, uuids) == DeleteManaged(m, uuids) + r
  {
  }

  lemma DeletedUuids(m: Table, uuids: seq<string>, uuid: string)
    requires AllManaged(m)
    ensures UuidUsed(DeleteManaged(m, uuids), uuid) <==> uuid !in uuids && UuidUsed(m, uuid)
  {
    if uuid !in uuids && UuidUsed(m, uuid) {
      var k :| k in m && m[k].uuid == uuid;
      assert k in DeleteManaged(m, uuids);
    }
  }
}
