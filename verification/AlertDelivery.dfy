/**
 * Alert delivery: a log is created, a task is reserved against it, the delivery is finalised as a
 * success or a failure, and finished logs are cleaned away. Each operation is one transaction; a run
 * is any sequence of them, so it covers every interleaving of the callers.
 */
module AlertDelivery {
  import opened Text

  const PUSHING := "Pushing"
  const SUCCESS := "Success"
  const ERROR := "Error"

  datatype AlertLog = AlertLog(kind: string, method': string, alertId: nat, status: string, message: string)

  /** The deliveryLog column is unique; None is the SQL NULL, which never conflicts. */
  datatype AlertTask = AlertTask(
    kind: string, quotaType: string, method': string, quota: string, deliveryLog: Option<nat>, createdAt: int)

  /** What LoadTaskCount counts by: three columns, over all days or over the day that starts at a midnight. */
  datatype Quota = Quota(kind: string, quotaType: string, method': string, day: Option<int>)

  /** 24 hours, in nanoseconds. */
  const DAY := 86_400_000_000_000

  datatype Db = Db(logs: map<nat, AlertLog>, tasks: seq<AlertTask>, nextLog: nat)

  datatype DeliveryError = TaskRequired | LogNotPending | TaskMismatch | MetadataUnavailable

  datatype Event =
    | CreateLog(log: AlertLog)
    | CreateTask(task: AlertTask)
    | Reserve(logId: nat, alertId: nat, pending: Option<AlertTask>)
    | Finalize(logId: nat, succeeded: bool, message: string, fallback: Option<AlertTask>)
    | Clean

  /** The Boolean and the error that the source's functions return. */
  datatype Outcome = Outcome(done: bool, err: Option<DeliveryError>)

  /** The task counts for the quota; one created at a midnight exactly counts for no day. */
  predicate Charges(t: AlertTask, quota: Quota) {
    && t.kind == quota.kind && t.quotaType == quota.quotaType && t.method' == quota.method'
    && match quota.day
       case None => true
       case Some(midnight) => midnight < t.createdAt < midnight + DAY
  }

  predicate IsPushing(db: Db, id: nat) {
    id in db.logs && db.logs[id].status == PUSHING
  }

  predicate HasTask(tasks: seq<AlertTask>, id: nat) {
    exists t :: t in tasks && t.deliveryLog == Some(id)
  }

  function WithoutTasks(tasks: seq<AlertTask>, id: nat): seq<AlertTask> {
    if tasks == [] then []
    else
      var last := tasks[|tasks| - 1];
      WithoutTasks(tasks[..|tasks| - 1], id) + if last.deliveryLog == Some(id) then [] else [last]
  }

  // ---- The transactions

  function ReserveTask(db: Db, logId: nat, alertId: nat, pending: Option<AlertTask>): (Db, Outcome) {
    if pending.None? then (db, Outcome(false, Some(TaskRequired)))
    else if !IsPushing(db, logId) then (db, Outcome(false, Some(LogNotPending)))
    else
      var log, task := db.logs[logId], pending.value;
      if log.alertId != alertId || log.kind != task.kind || log.method' != task.method'
      then (db, Outcome(false, Some(TaskMismatch)))
      else if HasTask(db.tasks, logId) then (db, Outcome(false, None))
      else (db.(tasks := db.tasks + [task.(deliveryLog := Some(logId))]), Outcome(true, None))
  }

  function FinalizeTask(db: Db, logId: nat, succeeded: bool, message: string, fallback: Option<AlertTask>)
    : (Db, Outcome)
  {
    if !IsPushing(db, logId) then (db, Outcome(false, None))
    else
      var log := db.logs[logId];
      var closed := db.logs[logId := if succeeded then log.(status := SUCCESS, message := "")
                                     else log.(status := ERROR, message := message)];
      if !succeeded then (db.(logs := closed, tasks := WithoutTasks(db.tasks, logId)), Outcome(true, None))
      else if HasTask(db.tasks, logId) then (db.(logs := closed), Outcome(true, None))
      else if fallback.None? then (db, Outcome(true, Some(MetadataUnavailable)))  // rolled back, yet reported done
      else (db.(logs := closed, tasks := db.tasks + [fallback.value.(deliveryLog := Some(logId))]), Outcome(true, None))
  }

  function CleanLogs(db: Db): Db {
    db.(logs := map id | id in db.logs && db.logs[id].status == PUSHING :: db.logs[id])
  }

  function Apply(db: Db, event: Event): (Db, Outcome) {
    match event
    case CreateLog(log) => (db.(logs := db.logs[db.nextLog := log], nextLog := db.nextLog + 1), Outcome(true, None))
    case CreateTask(task) => (db.(tasks := db.tasks + [task.(deliveryLog := None)]), Outcome(true, None))
    case Reserve(logId, alertId, pending) => ReserveTask(db, logId, alertId, pending)
    case Finalize(logId, succeeded, message, fallback) => FinalizeTask(db, logId, succeeded, message, fallback)
    case Clean => (CleanLogs(db), Outcome(true, None))
  }

  /** A finalisation that changed the log. */
  predicate Finalizes(event: Event, outcome: Outcome, id: nat) {
    event.Finalize? && event.logId == id && outcome == Outcome(true, None)
  }

  // ---- The class of the source, whose methods are the transactions

  class AlertDb {
    var logs: map<nat, AlertLog>
    var tasks: seq<AlertTask>
    var nextLog: nat

    constructor ()
      ensures Contents() == Db(map[], [], 1)
    {
      logs, tasks, nextLog := map[], [], 1;
    }

    function Contents(): Db
      reads this
    {
      Db(logs, tasks, nextLog)
    }

    /** The rows with this delivery log: at most one, by the unique index. */
    method CountTasks(id: nat) returns (count: nat)
      ensures count == 0 <==> !HasTask(tasks, id)
    {
      count := 0;
      for i := 0 to |tasks|
        invariant count == 0 <==> !HasTask(tasks[..i], id)
      {
        assert tasks[..i + 1] == tasks[..i] + [tasks[i]];
        if tasks[i].deliveryLog == Some(id) {
          count := count + 1;
        }
      }
      assert tasks[..|tasks|] == tasks;
    }

    method DeleteTasks(id: nat)
      modifies this`tasks
      ensures tasks == WithoutTasks(old(tasks), id)
    {
      var kept: seq<AlertTask> := [];
      for i := 0 to |tasks|
        invariant tasks == old(tasks) && kept == WithoutTasks(tasks[..i], id)
      {
        assert tasks[..i + 1][..i] == tasks[..i];
        if tasks[i].deliveryLog != Some(id) {
          kept := kept + [tasks[i]];
        }
      }
      assert tasks[..|tasks|] == tasks;
      tasks := kept;
    }

    method CreatePendingAlertTask(logId: nat, alertId: nat, pending: Option<AlertTask>)
        returns (created: bool, err: Option<DeliveryError>)
      modifies this
      ensures (Contents(), Outcome(created, err)) == Apply(old(Contents()), Reserve(logId, alertId, pending))
    {
      if pending.None? {
        return false, Some(TaskRequired);
      }
      if logId !in logs || logs[logId].status != PUSHING {
        return false, Some(LogNotPending);
      }
      var log, task := logs[logId], pending.value;
      if log.alertId != alertId || log.kind != task.kind || log.method' != task.method' {
        return false, Some(TaskMismatch);
      }
      var count := CountTasks(logId);
      created, err := count == 0, None;
      if created {
        tasks := tasks + [task.(deliveryLog := Some(logId))];
      }
    }

    method FinalizePendingAlertTask(logId: nat, succeeded: bool, message: string, fallback: Option<AlertTask>)
        returns (finalized: bool, err: Option<DeliveryError>)
      modifies this
      ensures (Contents(), Outcome(finalized, err)) == Apply(old(Contents()), Finalize(logId, succeeded, message, fallback))
    {
      var savedLogs, savedTasks := logs, tasks;
      finalized, err := false, None;
      if logId !in logs || logs[logId].status != PUSHING {
        return;
      }
      logs := logs[logId := logs[logId].(status := if succeeded then SUCCESS else ERROR,
                                         message := if succeeded then "" else message)];
      finalized := true;
      if !succeeded {
        DeleteTasks(logId);
        return;
      }
      var count := CountTasks(logId);
      if count > 0 {
        return;
      }
      if fallback.None? {
        err := Some(MetadataUnavailable);
        logs, tasks := savedLogs, savedTasks;
        return;
      }
      tasks := tasks + [fallback.value.(deliveryLog := Some(logId))];
    }

    method CleanAlertLogs()
      modifies this
      ensures Contents() == Apply(old(Contents()), Clean).0
    {
      logs := map id | id in logs && logs[id].status == PUSHING :: logs[id];
    }

    method CreateAlertLog(log: AlertLog) returns (id: nat)
      modifies this
      ensures id == old(nextLog) && Contents() == Apply(old(Contents()), CreateLog(log)).0
    {
      id := nextLog;
      logs, nextLog := logs[id := log], nextLog + 1;
    }

    method CreateAlertTask(task: AlertTask)
      modifies this
      ensures Contents() == Apply(old(Contents()), CreateTask(task)).0
    {
      tasks := tasks + [task.(deliveryLog := None)];
    }

    method Count(quota: Quota) returns (count: nat)
      ensures count == CountQuota(tasks, quota)
    {
      count := 0;
      for i := 0 to |tasks|
        invariant count == CountQuota(tasks[..i], quota)
      {
        assert tasks[..i + 1][..i] == tasks[..i];
        if Charges(tasks[i], quota) {
          count := count + 1;
        }
      }
      assert tasks[..|tasks|] == tasks;
    }

    /** The count of the day that starts at the last midnight, and that of all days. */
    method LoadTaskCount(kind: string, project: string, method': string, midnight: int) returns (today: nat, total: nat)
      ensures today == CountQuota(tasks, Quota(kind, project, method', Some(midnight)))
      ensures total == CountQuota(tasks, Quota(kind, project, method', None))
    {
      total := Count(Quota(kind, project, method', None));
      today := Count(Quota(kind, project, method', Some(midnight)));
    }
  }

  function CountQuota(tasks: seq<AlertTask>, quota: Quota): nat {
    if tasks == [] then 0
    else CountQuota(tasks[..|tasks| - 1], quota) + if Charges(tasks[|tasks| - 1], quota) then 1 else 0
  }
}
