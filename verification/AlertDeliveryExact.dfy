/** What each delivery transaction does, read off the logs and the tasks alone. */
module AlertDeliveryExact {
  import opened Text
  import opened AlertDelivery

  /** The log can be reserved against: it is pushing, agrees with the task, and has no task yet. */
  predicate Reservable(db: Db, logId: nat, alertId: nat, task: AlertTask) {
    && logId in db.logs && db.logs[logId].status == "Pushing"
    && db.logs[logId].alertId == alertId && db.logs[logId].kind == task.kind && db.logs[logId].method' == task.method'
    && forall t :: t in db.tasks ==> t.deliveryLog != Some(logId)
  }

  /**
   * A reservation reports true exactly when a task is given and the log can be reserved against; then the task is
   * added under the log and nothing else changes. In every other case nothing changes at all.
   */
  lemma ReserveExactly(db: Db, logId: nat, alertId: nat, pending: Option<AlertTask>)
    ensures var (after, outcome) := Apply(db, Reserve(logId, alertId, pending));
            && (outcome == Outcome(true, None) <==> pending.Some? && Reservable(db, logId, alertId, pending.value))
            && (outcome.done <==> outcome == Outcome(true, None))
            && after.logs == db.logs && after.nextLog == db.nextLog
            && after.tasks == if outcome.done then db.tasks + [pending.value.(deliveryLog := Some(logId))] else db.tasks
  {
    if pending.Some? && Reservable(db, logId, alertId, pending.value) {
      assert !HasTask(db.tasks, logId);
    } else if HasTask(db.tasks, logId) {
      var t :| t in db.tasks && t.deliveryLog == Some(logId);
    }
  }

  /** Its three errors; a log that has its task already is no error. */
  lemma ReserveFaults(db: Db, logId: nat, alertId: nat, pending: Option<AlertTask>)
    ensures var err := Apply(db, Reserve(logId, alertId, pending)).1.err;
            var pushing := logId in db.logs && db.logs[logId].status == "Pushing";
            && (err == Some(TaskRequired) <==> pending.None?)
            && (err == Some(LogNotPending) <==> pending.Some? && !pushing)
            && (err == Some(TaskMismatch)
                <==> pending.Some? && pushing
                     && !(db.logs[logId].alertId == alertId && db.logs[logId].kind == pending.value.kind
                          && db.logs[logId].method' == pending.value.method'))
            && err != Some(MetadataUnavailable)
  {
  }

  lemma {:induction false} WithoutCounts(tasks: seq<AlertTask>, id: nat, t: AlertTask)
    ensures multiset(WithoutTasks(tasks, id))[t] == if t.deliveryLog == Some(id) then 0 else multiset(tasks)[t]
  {
    if tasks != [] {
      var rest, last := tasks[..|tasks| - 1], tasks[|tasks| - 1];
      WithoutCounts(rest, id, t);
      SplitLast(tasks);
      assert multiset(rest + [last]) == multiset(rest) + multiset{last};
    }
  }

  /** A pushing log that failed: it keeps the message, its task is deleted and every other task stays. */
  lemma FailureExactly(db: Db, logId: nat, message: string, fallback: Option<AlertTask>)
    requires logId in db.logs && db.logs[logId].status == "Pushing"
    ensures var (after, outcome) := Apply(db, Finalize(logId, false, message, fallback));
            var log := db.logs[logId];
            && outcome == Outcome(true, None) && after.nextLog == db.nextLog
            && after.logs == db.logs[logId := AlertLog(log.kind, log.method', log.alertId, "Error", message)]
            && forall t :: multiset(after.tasks)[t] == if t.deliveryLog == Some(logId) then 0 else multiset(db.tasks)[t]
  {
    forall t
      ensures multiset(WithoutTasks(db.tasks, logId))[t] == if t.deliveryLog == Some(logId) then 0 else multiset(db.tasks)[t]
    {
      WithoutCounts(db.tasks, logId, t);
    }
  }

  /** A pushing log that succeeded: its message is cleared and it has its task, reserved or from the fallback. */
  lemma SuccessExactly(db: Db, logId: nat, message: string, fallback: Option<AlertTask>)
    requires logId in db.logs && db.logs[logId].status == "Pushing"
    ensures var (after, outcome) := Apply(db, Finalize(logId, true, message, fallback));
            var log := db.logs[logId];
            var reserved := exists t :: t in db.tasks && t.deliveryLog == Some(logId);
            && (outcome == Outcome(true, None) <==> reserved || fallback.Some?)
            && (outcome == Outcome(true, Some(MetadataUnavailable)) <==> !reserved && fallback.None?)
            && (outcome.err.None? ==>
                  && after.logs == db.logs[logId := AlertLog(log.kind, log.method', log.alertId, "Success", "")]
                  && after.tasks == (if reserved then db.tasks else db.tasks + [fallback.value.(deliveryLog := Some(logId))])
                  && after.nextLog == db.nextLog)
            && (outcome.err.Some? ==> after == db)
  {
    if HasTask(db.tasks, logId) {
      var t :| t in db.tasks && t.deliveryLog == Some(logId);
    }
  }

  /** Any other log is left alone. */
  lemma NotPushingIgnored(db: Db, logId: nat, succeeded: bool, message: string, fallback: Option<AlertTask>)
    requires !(logId in db.logs && db.logs[logId].status == "Pushing")
    ensures Apply(db, Finalize(logId, succeeded, message, fallback)) == (db, Outcome(false, None))
  {
  }

  /** Cleaning keeps the pushing logs as they are, deletes all others, and touches no task. */
  lemma CleanExactly(db: Db, id: nat)
    ensures var after := Apply(db, Clean).0;
            && (id in after.logs <==> id in db.logs && db.logs[id].status == "Pushing")
            && (id in after.logs ==> after.logs[id] == db.logs[id])
            && after.tasks == db.tasks && after.nextLog == db.nextLog
  {
  }

  lemma CreateExactly(db: Db, log: AlertLog, task: AlertTask)
    ensures var after := Apply(db, CreateLog(log)).0;
            after.logs == db.logs[db.nextLog := log] && after.nextLog > db.nextLog && after.tasks == db.tasks
    ensures var after := Apply(db, CreateTask(task)).0;
            && after.logs == db.logs && after.nextLog == db.nextLog && |after.tasks| == |db.tasks| + 1
            && after.tasks[..|db.tasks|] == db.tasks && after.tasks[|db.tasks|] == task.(deliveryLog := None)
  {
  }

  // ---- Counting

  /** The task is of this kind, quota type and method, and, for a day, from between its two midnights. */
  predicate Of(t: AlertTask, kind: string, quotaType: string, method': string, midnight: Option<int>) {
    && t.kind == kind && t.quotaType == quotaType && t.method' == method'
    && (midnight.Some? ==> midnight.value < t.createdAt < midnight.value + 24 * 60 * 60 * 1_000_000_000)
  }

  /** The places below n of such tasks. */
  function Places(tasks: seq<AlertTask>, n: nat, kind: string, quotaType: string, method': string, midnight: Option<int>): set<nat>
    requires n <= |tasks|
  {
    set i: nat | i < n && Of(tasks[i], kind, quotaType, method', midnight)
  }

  lemma PlacesMore(tasks: seq<AlertTask>, n: nat, kind: string, quotaType: string, method': string, midnight: Option<int>)
    requires n < |tasks|
    ensures Places(tasks, n + 1, kind, quotaType, method', midnight)
            == Places(tasks, n, kind, quotaType, method', midnight)
               + if Of(tasks[n], kind, quotaType, method', midnight) then {n} else {}
  {
  }

  lemma {:induction false} CountsFirst(
      tasks: seq<AlertTask>, n: nat, kind: string, quotaType: string, method': string, midnight: Option<int>)
    requires n <= |tasks|
    ensures CountQuota(tasks[..n], Quota(kind, quotaType, method', midnight))
            == |Places(tasks, n, kind, quotaType, method', midnight)|
  {
    if n > 0 {
      var i := n - 1;
      TakeMore(tasks, i);
      CountsFirst(tasks, i, kind, quotaType, method', midnight);
      PlacesMore(tasks, i, kind, quotaType, method', midnight);
    }
  }

  /** The count of a kind, a quota type and a method, of one day or of all, is the number of these tasks. */
  lemma CountExactly(tasks: seq<AlertTask>, kind: string, quotaType: string, method': string, midnight: Option<int>)
    ensures CountQuota(tasks, Quota(kind, quotaType, method', midnight))
            == |set i: nat | i < |tasks| && Of(tasks[i], kind, quotaType, method', midnight)|
  {
    CountsFirst(tasks, |tasks|, kind, quotaType, method', midnight);
    assert tasks[..|tasks|] == tasks;
    assert Places(tasks, |tasks|, kind, quotaType, method', midnight)
        == set i: nat | i < |tasks| && Of(tasks[i], kind, quotaType, method', midnight);
  }
}
