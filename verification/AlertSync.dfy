/**
 * The synchronisation as the source runs it: one transaction that loops over the incoming items with
 * three redundant indexes over the old rows, proved to do what AlertSyncSpec says with one list.
 */
module AlertSync {
  import opened Text
  import opened Folds
  import opened AlertConfigs
  import opened AlertIndexes
  import opened AlertSyncSpec
  import opened AlertSyncProofs
  import opened AlertSyncMaps

  lemma LandedKind(rules: Rules, p: Progress, item: AlertConfig, row: AlertConfig)
    requires LandOn(rules, p, item, row).Success?
    ensures item.kind == row.kind
  {
  }

  // ---- The transaction

  /** The source's local state while it runs: the rows it writes, its maps, and the set of consumed rows. */
  class Transaction {
    const rules: Rules
    const used: set<nat>
    const before: seq<AlertConfig>
    const byKind: ConfigIndex
    const byKey: ConfigIndex
    var rows: seq<AlertConfig>
    var nextId: nat
    var byUid: map<string, AlertConfig>
    var singleton: Option<AlertConfig>
    var consumed: set<nat>
    ghost var placed: seq<nat>

    ghost function Current(): Progress
      reads this
    {
      Progress(Table(rows, nextId), placed)
    }

    /** The three indexes, the singleton and the consumed set all describe the same open rows. */
    ghost predicate Valid()
      reads this, byKind, byKey
    {
      && byKind != byKey
      && UniqueIds(before) && UniqueUids(before) && (forall r :: r in before ==> r.id < nextId)
      && Agree(rules, before, placed, byKind.slots, byKey.slots, byUid, singleton, consumed)
    }

    /** Begin: read the table and build the indexes. */
    constructor (rules: Rules, used: set<nat>, rows: seq<AlertConfig>, nextId: nat)
      requires ValidTable(Table(rows, nextId))
      ensures Valid() && fresh(byKind) && fresh(byKey)
      ensures this.rules == rules && this.used == used && before == rows
      ensures Current() == Progress(Table(rows, nextId), [])
    {
      this.rules, this.used, this.before := rules, used, rows;
      this.rows, this.nextId := rows, nextId;
      byUid, singleton, consumed, placed := map[], None, {}, [];
      byKind := new ConfigIndex();
      byKey := new ConfigIndex();
      new;
      for i := 0 to |before|
        invariant byKind != byKey && fresh(byKind) && fresh(byKey)
        invariant Current() == Progress(Table(rows, nextId), []) && consumed == {}
        invariant Agree(rules, before[..i], [], byKind.slots, byKey.slots, byUid, singleton, {})
      {
        Read(i);
      }
      assert before[..|before|] == before;
    }

    /** Enter one old row into the maps. */
    method Read(i: nat)
      requires byKind != byKey && i < |before|
      requires Agree(rules, before[..i], [], byKind.slots, byKey.slots, byUid, singleton, {})
      modifies this`byUid, this`singleton, byKind, byKey
      ensures Agree(rules, before[..i + 1], [], byKind.slots, byKey.slots, byUid, singleton, {})
    {
      var item := before[i];
      TakeMore(before, i);
      ReadingKeepsAgreement(rules, before[..i], item, byKind.slots, byKey.slots, byUid, singleton);
      if !BlankUid(item) {
        byUid := byUid[item.uid := item];
      }
      if IsSingleton(item.kind) {
        singleton := Some(item);
      } else {
        byKind.Add(item.kind, item);
        byKey.Add(SyncKey(rules, item), item);
      }
    }

    /** An error is reported exactly when the specification fails with it, and otherwise the state is the specified one. */
    ghost predicate Reports(err: Option<SyncError>, r: Result<Progress, SyncError>)
      reads this
    {
      match r
      case Failure(e) => err == Some(e)
      case Success(p) => err == None && Current() == p
    }

    /** Save an item that inherits from an existing row. */
    method Land(item: AlertConfig, row: AlertConfig) returns (err: Option<SyncError>)
      modifies this`rows, this`consumed, this`placed
      ensures Reports(err, LandOn(rules, old(Current()), item, row))
      ensures err == None ==> consumed == old(consumed) + {row.id} && placed == old(placed) + [row.id]
    {
      var merged := Inherit(rules, item, row);
      if merged.Failure? {
        return Some(merged.error);
      }
      consumed := consumed + {merged.value.id};
      var table := SaveRow(Table(rows, nextId), merged.value);
      if table.Failure? {
        return Some(table.error);
      }
      rows := table.value.rows;
      placed := placed + [row.id];
      err := None;
    }

    /** Insert an item that no row matches. */
    method Insert(item: AlertConfig, uuid: Uuid) returns (err: Option<SyncError>)
      requires Valid()
      modifies this`rows, this`nextId, this`placed
      ensures Reports(err, Append(rules, old(Current()), item, uuid))
      ensures err == None ==> Valid()
    {
      var prepared := Prepare(rules, item, uuid);
      if prepared.Failure? {
        return Some(prepared.error);
      }
      var table := InsertRow(Table(rows, nextId), prepared.value);
      if table.Failure? {
        return Some(table.error);
      }
      InsertKeepsAgreement(before, placed, nextId);
      placed := placed + [nextId];
      rows, nextId := table.value.rows, table.value.nextId;
      err := None;
    }

    /** Land on the unmatched old row of the singleton kind. */
    method LandOnSingleton(item: AlertConfig) returns (err: Option<SyncError>)
      requires Valid() && singleton.Some?
      modifies this`rows, this`consumed, this`placed, this`singleton
      ensures Reports(err, LandOn(rules, old(Current()), item, old(singleton).value))
      ensures err == None ==> Valid()
    {
      SingletonKeepsAgreement(rules, before, placed, singleton.value, byKind.slots, byKey.slots, byUid, consumed);
      err := Land(item, singleton.value);
      singleton := None;
    }

    /** The row has left the three indexes and entered the consumed set. */
    twostate predicate TookOut(row: AlertConfig)
      reads this, byKind, byKey
    {
      && byKind.slots == DropId(old(byKind.slots), row.id)
      && byKey.slots == DropId(old(byKey.slots), row.id)
      && byUid == old(byUid) - {row.uid}
      && consumed == old(consumed) + {row.id}
      && placed == old(placed) + [row.id]
    }

    twostate predicate Untouched()
      reads this, byKind, byKey
    {
      && byKind.slots == old(byKind.slots) && byKey.slots == old(byKey.slots)
      && byUid == old(byUid) && consumed == old(consumed) && Current() == old(Current())
    }

    ghost predicate Splittable()
      reads this, byKind, byKey
    {
      byKind != byKey && Disjoint(byKind.slots) && Disjoint(byKey.slots)
    }

    /** Land on the row that the item's UID names; it is deleted from the two slotted indexes. */
    method LandByUid(item: AlertConfig) returns (err: Option<SyncError>)
      requires Splittable() && item.uid in byUid && byUid[item.uid].uid == item.uid
      modifies this`rows, this`consumed, this`placed, this`byUid, byKind, byKey
      ensures Reports(err, LandOn(rules, old(Current()), item, old(byUid)[item.uid]))
      ensures err == None ==> TookOut(old(byUid)[item.uid])
    {
      var row := byUid[item.uid];
      byUid := byUid - {item.uid};
      err := Land(item, row);
      if err.None? {
        byKind.DeleteById(row.id);
        byKey.DeleteById(row.id);
      }
    }

    /** Land on the first row with the item's content key, if there is one. */
    method LandByKey(item: AlertConfig) returns (row: Option<AlertConfig>, err: Option<SyncError>)
      requires Splittable()
      modifies this`rows, this`consumed, this`placed, this`byUid, byKind, byKey
      ensures row == var key, slots := SyncKey(rules, item), old(byKey.slots);
                     if key in slots && slots[key] != [] then Some(slots[key][0]) else None
      ensures row.Some? ==> Reports(err, LandOn(rules, old(Current()), item, row.value))
      ensures row.Some? && err == None ==> TookOut(row.value)
      ensures row.None? ==> err == None && Untouched()
    {
      row := byKey.PopFirst(SyncKey(rules, item));
      err := None;
      if row.Some? {
        byUid := byUid - {row.value.uid};
        err := Land(item, row.value);
        if err.None? {
          byKind.DeleteById(row.value.id);
        }
      }
    }

    /** Land on the first row of the item's kind that no alert refers to, if there is one. */
    method LandByKind(item: AlertConfig) returns (row: Option<AlertConfig>, err: Option<SyncError>)
      requires Splittable()
      modifies this`rows, this`consumed, this`placed, this`byUid, byKind, byKey
      ensures TakesFirstUnused(old(byKind.slots), used, item.kind, row)
      ensures row.Some? ==> Reports(err, LandOn(rules, old(Current()), item, row.value))
      ensures row.Some? && err == None ==> TookOut(row.value)
      ensures row.None? ==> err == None && Untouched()
    {
      row := byKind.PopUnused(used, item.kind);
      err := None;
      if row.Some? {
        byUid := byUid - {row.value.uid};
        byKey.DeleteById(row.value.id);
        err := Land(item, row.value);
      }
    }

    /** The landing that the two slotted indexes give when the UID names no row. */
    ghost function SlotLanding(item: AlertConfig): Option<AlertConfig>
      reads this
    {
      var open := OpenRows(before, placed);
      var byContent := FindKey(rules, open, SyncKey(rules, item));
      if byContent.Some? then byContent else FindUnused(open, used, item.kind)
    }

    /** Land by content, else by kind. */
    method SyncBySlots(item: AlertConfig) returns (row: Option<AlertConfig>, err: Option<SyncError>)
      requires Valid() && Splittable()
      modifies this`rows, this`consumed, this`placed, this`byUid, byKind, byKey
      ensures row == old(SlotLanding(item))
      ensures row.Some? ==> Reports(err, LandOn(rules, old(Current()), item, row.value))
      ensures row.Some? && err == None ==> TookOut(row.value)
      ensures row.None? ==> err == None && Untouched() && Valid()
      ensures row.Some? ==> row.value in before && !IsSingleton(row.value.kind)
    {
      ghost var open := OpenRows(before, placed);
      KeySlot(rules, open, SyncKey(rules, item));
      row, err := LandByKey(item);
      if row.None? {
        ghost var slots := byKind.slots;
        row, err := LandByKind(item);
        UnusedPopped(rules, open, used, item.kind, row);
      }
    }

    /** An item of the singleton kind. */
    method SyncSingleton(item: AlertConfig, uuid: Uuid) returns (err: Option<SyncError>)
      requires Valid()
      modifies this`rows, this`nextId, this`consumed, this`placed, this`singleton
      ensures Reports(err, Place(rules, old(Current()), item, uuid, old(singleton)))
      ensures err == None ==> Valid()
    {
      if singleton.Some? {
        err := LandOnSingleton(item);
      } else {
        err := Insert(item, uuid);
      }
    }

    /** An item whose UID names an open row. */
    method SyncNamed(item: AlertConfig, uuid: Uuid) returns (err: Option<SyncError>)
      requires Valid() && Splittable()
      requires item.uid in byUid && byUid[item.uid].uid == item.uid
      requires byUid[item.uid] in before && (IsSingleton(byUid[item.uid].kind) ==> byUid[item.uid].kind != item.kind)
      modifies this`rows, this`consumed, this`placed, this`byUid, byKind, byKey
      ensures Reports(err, Place(rules, old(Current()), item, uuid, Some(old(byUid)[item.uid])))
      ensures err == None ==> Valid()
    {
      ghost var row := byUid[item.uid];
      err := LandByUid(item);
      if err.None? {
        LandedKind(rules, old(Current()), item, row);
        LandingKeepsAgreement(rules, before, old(placed), row, old(byKind.slots), old(byKey.slots), old(byUid), singleton,
                              old(consumed));
      }
    }

    /** An item whose UID names no row. */
    method SyncUnnamed(item: AlertConfig, uuid: Uuid) returns (err: Option<SyncError>)
      requires Valid() && Splittable()
      modifies this`rows, this`nextId, this`consumed, this`placed, this`byUid, byKind, byKey
      ensures Reports(err, Place(rules, old(Current()), item, uuid, old(SlotLanding(item))))
      ensures err == None ==> Valid()
    {
      var row;
      row, err := SyncBySlots(item);
      if row.Some? {
        LandingKeepsAgreement(rules, before, old(placed), row.value, old(byKind.slots), old(byKey.slots), old(byUid),
                              singleton, old(consumed));
      } else {
        err := Insert(item, uuid);
      }
    }

    /** One turn of the source's loop. */
    method SyncItem(item: AlertConfig, uuid: Uuid) returns (err: Option<SyncError>)
      requires Valid()
      modifies this`rows, this`nextId, this`consumed, this`placed, this`byUid, this`singleton, byKind, byKey
      ensures Reports(err, Step(rules, used, before, old(Current()), item, uuid))
      ensures err == None ==> Valid()
    {
      var trimmed := TrimSpace(item.uid);
      LookupsAgree(rules, used, before, placed, item);
      if trimmed != "" && trimmed in byUid && byUid[trimmed].kind != item.kind {
        return Some(UidOfOtherKind);
      }
      if IsSingleton(item.kind) {
        err := SyncSingleton(item, uuid);
        return;
      }
      OpenRowsUnique(before, placed);
      SlotsDisjoint(rules, ByKind, OpenRows(before, placed));
      SlotsDisjoint(rules, ByKey, OpenRows(before, placed));
      if trimmed != "" && item.uid in byUid {
        err := SyncNamed(item, uuid);
      } else {
        err := SyncUnnamed(item, uuid);
      }
    }

    /** All the items, up to the first that fails. */
    method SyncItems(data: seq<AlertConfig>, uuids: seq<Uuid>) returns (err: Option<SyncError>)
      requires Valid() && |data| <= |uuids|
      modifies this`rows, this`nextId, this`consumed, this`placed, this`byUid, this`singleton, byKind, byKey
      ensures Reports(err, Fold(StepAt(rules, used, before, data, uuids), old(Current()), |data|))
      ensures err == None ==> consumed == ConsumedIds(before, placed)
    {
      ghost var start := Current();
      err := None;
      for i := 0 to |data|
        invariant Valid() && err == None
        invariant Fold(StepAt(rules, used, before, data, uuids), start, i) == Success(Current())
      {
        err := SyncNext(data, uuids, i, start);
        if err.Some? {
          return;
        }
      }
    }

    /** The item at index i, after the ones before it. */
    method SyncNext(data: seq<AlertConfig>, uuids: seq<Uuid>, i: nat, ghost start: Progress)
      returns (err: Option<SyncError>)
      requires Valid() && i < |data| <= |uuids|
      requires Fold(StepAt(rules, used, before, data, uuids), start, i) == Success(Current())
      modifies this`rows, this`nextId, this`consumed, this`placed, this`byUid, this`singleton, byKind, byKey
      ensures err == None ==> Valid() && Fold(StepAt(rules, used, before, data, uuids), start, i + 1) == Success(Current())
      ensures err.Some? ==> Fold(StepAt(rules, used, before, data, uuids), start, |data|) == Failure(err.value)
    {
      ItemStep(rules, used, before, data, uuids, start, i, Current());
      err := SyncItem(data[i], uuids[i]);
    }

    /** Delete the old rows that no alert refers to and no item landed on. */
    method SweepOld()
      requires consumed == ConsumedIds(before, placed)
      modifies this`rows
      ensures rows == Sweep(old(rows), before, used, placed)
    {
      NothingSwept(rows, used, placed);
      for k := 0 to |before|
        invariant rows == Sweep(old(rows), before[..k], used, placed)
      {
        SweepOneMore(old(rows), before, k, used, placed);
        if before[k].id !in used && before[k].id !in consumed {
          rows := WithoutId(rows, before[k].id);
        }
      }
      assert before[..|before|] == before;
    }
  }

  // ---- The table and its synchronisation

  class AlertStore {
    var rows: seq<AlertConfig>
    var nextId: nat

    function Contents(): Table
      reads this
    {
      Table(rows, nextId)
    }

    /**
     * The synchronisation: it does what Sync says, whatever order the maps are visited in, and an
     * error leaves the table as it was.
     */
    method SyncAll(rules: Rules, methods: seq<string>, data: seq<AlertConfig>, uuids: seq<Uuid>)
        returns (err: Option<SyncError>)
      requires ValidTable(Contents()) && |data| <= |uuids|
      modifies this
      ensures match Sync(rules, UsedIds(methods), old(Contents()), data, uuids)
              case Failure(e) => err == Some(e) && Contents() == old(Contents())
              case Success(table) => err == None && Contents() == table
      ensures ValidTable(Contents())
    {
      var used := LoadUsedIds(methods);
      var tx := new Transaction(rules, used, rows, nextId);
      err := tx.SyncItems(data, uuids);
      if err.Some? {
        return;
      }
      tx.SweepOld();
      SyncConserves(rules, used, Contents(), data, uuids);
      rows, nextId := tx.rows, tx.nextId;
      err := None;
    }
  }
}
