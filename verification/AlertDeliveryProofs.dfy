/** Every run of the delivery transactions: a log is finalised once, and its task count is conserved. */
module AlertDeliveryProofs {
  import opened Text
  import opened AlertDelivery

  /** What became of a log that was created as pushing. */
  datatype Fate = Pending | Delivered(task: AlertTask) | Failed

  /** The database and, as a history variable, the fate of every log that was ever pushing. */
  datatype World = World(db: Db, fate: map<nat, Fate>)

  /** The rows of a delivery log. */
  function TasksFor(tasks: seq<AlertTask>, id: nat): (r: seq<AlertTask>)
    ensures forall t :: t in r <==> t in tasks && t.deliveryLog == Some(id)
  {
    if tasks == [] then []
    else
      var last := tasks[|tasks| - 1];
      assert tasks == tasks[..|tasks| - 1] + [last];
      TasksFor(tasks[..|tasks| - 1], id) + if last.deliveryLog == Some(id) then [last] else []
  }

  function Advance(w: World, event: Event): World {
    var (db, outcome) := Apply(w.db, event);
    var fate :=
      match event
      case CreateLog(log) => if log.status == PUSHING then w.fate[w.db.nextLog := Pending] else w.fate
      case Finalize(id, succeeded, _, _) =>
        if !Finalizes(event, outcome, id) then w.fate
        else if !succeeded then w.fate[id := Failed]
        else if TasksFor(db.tasks, id) != [] then w.fate[id := Delivered(TasksFor(db.tasks, id)[0])]
        else w.fate
      case _ => w.fate;
    World(db, fate)
  }

  function After(events: seq<Event>): World {
    if events == [] then World(Db(map[], [], 1), map[])
    else Advance(After(events[..|events| - 1]), events[|events| - 1])
  }

  function OutcomeAt(events: seq<Event>, i: nat): Outcome
    requires i < |events|
  {
    Apply(After(events[..i]).db, events[i]).1
  }

  // ---- The invariant

  predicate UniqueDeliveries(tasks: seq<AlertTask>) {
    forall i, j :: 0 <= i < j < |tasks| && tasks[i].deliveryLog.Some? ==> tasks[i].deliveryLog != tasks[j].deliveryLog
  }

  /** Pushing logs are the pending ones; a finished log that is still there shows its fate; no identifier is ahead. */
  ghost predicate LogsGood(w: World) {
    && (forall id :: id in w.fate || id in w.db.logs ==> id < w.db.nextLog)
    && (forall id :: IsPushing(w.db, id) <==> id in w.fate && w.fate[id] == Pending)
    && (forall id :: id in w.fate && id in w.db.logs && w.fate[id].Delivered? ==> w.db.logs[id].status == SUCCESS)
    && (forall id :: id in w.fate && id in w.db.logs && w.fate[id].Failed? ==> w.db.logs[id].status == ERROR)
  }

  /** A delivery task belongs to a pending log or is the one task of a delivered log, and that task is there. */
  predicate TasksGood(tasks: seq<AlertTask>, fate: map<nat, Fate>) {
    && UniqueDeliveries(tasks)
    && (forall t :: t in tasks && t.deliveryLog.Some? ==>
                      t.deliveryLog.value in fate
                      && (fate[t.deliveryLog.value] == Pending || fate[t.deliveryLog.value] == Delivered(t)))
    && (forall id :: id in fate && fate[id].Delivered? ==>
                       fate[id].task in tasks && fate[id].task.deliveryLog == Some(id))
  }

  ghost predicate Good(w: World) {
    LogsGood(w) && TasksGood(w.db.tasks, w.fate)
  }

  lemma {:induction false} WithoutMembers(tasks: seq<AlertTask>, id: nat)
    requires UniqueDeliveries(tasks)
    ensures forall t :: t in WithoutTasks(tasks, id) <==> t in tasks && t.deliveryLog != Some(id)
    ensures UniqueDeliveries(WithoutTasks(tasks, id))
  {
    if tasks != [] {
      var rest, last := tasks[..|tasks| - 1], tasks[|tasks| - 1];
      WithoutMembers(rest, id);
      assert tasks == rest + [last];
      forall t | t in WithoutTasks(rest, id) && t.deliveryLog.Some?
        ensures t.deliveryLog != last.deliveryLog
      {
        var k :| 0 <= k < |rest| && rest[k] == t;
        assert tasks[k] == t;
      }
    }
  }

  lemma AddDelivery(tasks: seq<AlertTask>, task: AlertTask)
    requires UniqueDeliveries(tasks)
    requires task.deliveryLog.Some? ==> !HasTask(tasks, task.deliveryLog.value)
    ensures UniqueDeliveries(tasks + [task])
  {
    forall i | 0 <= i < |tasks| && task.deliveryLog.Some?
      ensures tasks[i].deliveryLog != task.deliveryLog
    {
      assert tasks[i] in tasks;
    }
  }

  lemma ReserveKeeps(w: World, logId: nat, alertId: nat, pending: Option<AlertTask>)
    requires Good(w)
    ensures Good(Advance(w, Reserve(logId, alertId, pending)))
  {
    if pending.Some? && ReserveTask(w.db, logId, alertId, pending).1 == Outcome(true, None) {
      AddDelivery(w.db.tasks, pending.value.(deliveryLog := Some(logId)));
    }
  }

  lemma FailKeeps(w: World, logId: nat, message: string, fallback: Option<AlertTask>)
    requires Good(w)
    ensures Good(Advance(w, Finalize(logId, false, message, fallback)))
  {
    WithoutMembers(w.db.tasks, logId);
  }

  /** Recording a delivery's one task as its fate. */
  lemma DeliveredGood(tasks: seq<AlertTask>, fate: map<nat, Fate>, id: nat, task: AlertTask)
    requires UniqueDeliveries(tasks) && task in tasks && task.deliveryLog == Some(id)
    requires id in fate && fate[id] == Pending
    requires forall t :: t in tasks && t.deliveryLog.Some? ==>
                           t.deliveryLog.value in fate
                           && (fate[t.deliveryLog.value] == Pending || fate[t.deliveryLog.value] == Delivered(t))
    requires forall k :: k in fate && fate[k].Delivered? ==> fate[k].task in tasks && fate[k].task.deliveryLog == Some(k)
    ensures TasksGood(tasks, fate[id := Delivered(task)])
    ensures TasksFor(tasks, id) == [task]
  {
    OneTask(tasks, id);
  }

  /** The world after a pushing log has been delivered with a task. */
  function DeliveredWorld(w: World, id: nat, tasks: seq<AlertTask>, task: AlertTask): World
    requires id in w.db.logs
  {
    World(Db(w.db.logs[id := w.db.logs[id].(status := SUCCESS, message := "")], tasks, w.db.nextLog),
          w.fate[id := Delivered(task)])
  }

  lemma LogsDelivered(w: World, id: nat, tasks: seq<AlertTask>, task: AlertTask)
    requires LogsGood(w) && IsPushing(w.db, id)
    ensures LogsGood(DeliveredWorld(w, id, tasks, task))
  {
  }

  lemma SucceedReserved(w: World, logId: nat, message: string, fallback: Option<AlertTask>, task: AlertTask)
    requires Good(w) && IsPushing(w.db, logId)
    requires task in w.db.tasks && task.deliveryLog == Some(logId)
    ensures Advance(w, Finalize(logId, true, message, fallback)) == DeliveredWorld(w, logId, w.db.tasks, task)
    ensures TasksGood(w.db.tasks, w.fate[logId := Delivered(task)])
  {
    DeliveredGood(w.db.tasks, w.fate, logId, task);
    assert HasTask(w.db.tasks, logId);
  }

  lemma FallbackGood(tasks: seq<AlertTask>, fate: map<nat, Fate>, id: nat, task: AlertTask)
    requires TasksGood(tasks, fate) && id in fate && fate[id] == Pending
    requires task.deliveryLog == Some(id) && !HasTask(tasks, id)
    ensures TasksGood(tasks + [task], fate[id := Delivered(task)])
    ensures TasksFor(tasks + [task], id) == [task]
  {
    AddDelivery(tasks, task);
    assert forall t :: t in tasks + [task] <==> t in tasks || t == task;
    DeliveredGood(tasks + [task], fate, id, task);
  }

  lemma SucceedFallback(w: World, logId: nat, message: string, fallback: AlertTask)
    requires Good(w) && IsPushing(w.db, logId) && !HasTask(w.db.tasks, logId)
    ensures var task := fallback.(deliveryLog := Some(logId));
            && Advance(w, Finalize(logId, true, message, Some(fallback)))
            == DeliveredWorld(w, logId, w.db.tasks + [task], task)
            && TasksGood(w.db.tasks + [task], w.fate[logId := Delivered(task)])
  {
    FallbackGood(w.db.tasks, w.fate, logId, fallback.(deliveryLog := Some(logId)));
  }

  lemma SucceedKeeps(w: World, logId: nat, message: string, fallback: Option<AlertTask>)
    requires Good(w)
    ensures Good(Advance(w, Finalize(logId, true, message, fallback)))
  {
    if IsPushing(w.db, logId) {
      if HasTask(w.db.tasks, logId) {
        var task :| task in w.db.tasks && task.deliveryLog == Some(logId);
        SucceedReserved(w, logId, message, fallback, task);
        LogsDelivered(w, logId, w.db.tasks, task);
      } else if fallback.Some? {
        var task := fallback.value.(deliveryLog := Some(logId));
        SucceedFallback(w, logId, message, fallback.value);
        LogsDelivered(w, logId, w.db.tasks + [task], task);
      }
    }
  }

  /** Under the unique index a delivery log has one task at most. */
  lemma {:induction false} OneTask(tasks: seq<AlertTask>, id: nat)
    requires UniqueDeliveries(tasks)
    ensures |TasksFor(tasks, id)| == if HasTask(tasks, id) then 1 else 0
    ensures forall t :: t in tasks && t.deliveryLog == Some(id) ==> TasksFor(tasks, id) == [t]
  {
    if tasks != [] {
      var rest, last := tasks[..|tasks| - 1], tasks[|tasks| - 1];
      OneTask(rest, id);
      LastMembers(tasks);
      if last.deliveryLog == Some(id) {
        forall t | t in rest
          ensures t.deliveryLog != Some(id)
        {
          var k :| 0 <= k < |rest| && rest[k] == t;
          assert tasks[k] == t;
        }
        assert last in tasks && !HasTask(rest, id);
        assert TasksFor(rest, id) == [];
      }
    }
  }

  lemma AdvanceKeeps(w: World, event: Event)
    requires Good(w)
    ensures Good(Advance(w, event))
  {
    match event
    case CreateLog(log) =>
    case CreateTask(task) => AddDelivery(w.db.tasks, task.(deliveryLog := None));
    case Reserve(logId, alertId, pending) => ReserveKeeps(w, logId, alertId, pending);
    case Finalize(logId, succeeded, message, fallback) =>
      if succeeded {
        SucceedKeeps(w, logId, message, fallback);
      } else {
        FailKeeps(w, logId, message, fallback);
      }
    case Clean =>
  }

  lemma {:induction false} AlwaysGood(events: seq<Event>)
    ensures Good(After(events))
  {
    if events != [] {
      AlwaysGood(events[..|events| - 1]);
      AdvanceKeeps(After(events[..|events| - 1]), events[|events| - 1]);
    }
  }

  // ---- What every run keeps

  lemma FateKept(w: World, event: Event, id: nat)
    requires Good(w) && id in w.fate && w.fate[id] != Pending
    ensures id in Advance(w, event).fate && Advance(w, event).fate[id] == w.fate[id]
  {
  }

  lemma AfterLast(events: seq<Event>, j: nat)
    requires 0 < j <= |events|
    ensures After(events[..j]) == Advance(After(events[..j - 1]), events[j - 1])
  {
    TakeMore(events, j - 1);
  }

  lemma FateStep(events: seq<Event>, j: nat, id: nat)
    requires 0 < j <= |events| && id in After(events[..j - 1]).fate && After(events[..j - 1]).fate[id] != Pending
    ensures id in After(events[..j]).fate && After(events[..j]).fate[id] == After(events[..j - 1]).fate[id]
  {
    AfterLast(events, j);
    AlwaysGood(events[..j - 1]);
    FateKept(After(events[..j - 1]), events[j - 1], id);
  }

  /** Once settled, a fate never changes. */
  lemma {:induction false} FateStays(events: seq<Event>, i: nat, j: nat, id: nat)
    requires i <= j <= |events|
    requires id in After(events[..i]).fate && After(events[..i]).fate[id] != Pending
    ensures id in After(events[..j]).fate && After(events[..j]).fate[id] == After(events[..i]).fate[id]
  {
    if i == j {
      assert events[..j] == events[..i];
    } else {
      FateStays(events, i, j - 1, id);
      FateStep(events, j, id);
    }
  }

  /** A finalisation finds the log pending and settles its fate. */
  lemma FinalizeSettles(events: seq<Event>, i: nat, id: nat)
    requires i < |events| && Finalizes(events[i], OutcomeAt(events, i), id)
    ensures id in After(events[..i]).fate && After(events[..i]).fate[id] == Pending
    ensures id in After(events[..i + 1]).fate
    ensures if events[i].succeeded then After(events[..i + 1]).fate[id].Delivered?
            else After(events[..i + 1]).fate[id] == Failed
  {
    var w := After(events[..i]);
    AlwaysGood(events[..i]);
    assert events[..i + 1][..i] == events[..i];
    assert events[i] == Finalize(id, events[i].succeeded, events[i].message, events[i].fallback);
    if events[i].succeeded {
      SucceedDelivers(w, id, events[i].message, events[i].fallback);
    }
  }

  lemma SucceedDelivers(w: World, id: nat, message: string, fallback: Option<AlertTask>)
    requires Good(w) && FinalizeTask(w.db, id, true, message, fallback).1 == Outcome(true, None)
    ensures TasksFor(FinalizeTask(w.db, id, true, message, fallback).0.tasks, id) != []
  {
    var tasks := FinalizeTask(w.db, id, true, message, fallback).0.tasks;
    if HasTask(w.db.tasks, id) {
      var t :| t in tasks && t.deliveryLog == Some(id);
      assert t in TasksFor(tasks, id);
    } else {
      assert tasks[|tasks| - 1] in TasksFor(tasks, id);
    }
  }

  /** In every run, a log leaves Pushing once at most. */
  lemma FinalizedOnce(events: seq<Event>, i: nat, j: nat, id: nat)
    requires i < j < |events|
    requires Finalizes(events[i], OutcomeAt(events, i), id)
    ensures !Finalizes(events[j], OutcomeAt(events, j), id)
  {
    FinalizeSettles(events, i, id);
    FateStays(events, i + 1, j, id);
    if Finalizes(events[j], OutcomeAt(events, j), id) {
      FinalizeSettles(events, j, id);
    }
  }

  /**
   * In every run, from its finalisation on a delivered log has exactly one task, always the same one,
   * and a failed log has none; while the log is not cleaned away it shows the outcome.
   */
  lemma FinalizedStays(events: seq<Event>, i: nat, m: nat, id: nat)
    requires i < m <= |events|
    requires Finalizes(events[i], OutcomeAt(events, i), id)
    ensures var now, then' := After(events[..m]).db, After(events[..i + 1]).db;
            && TasksFor(now.tasks, id) == TasksFor(then'.tasks, id)
            && |TasksFor(now.tasks, id)| == (if events[i].succeeded then 1 else 0)
            && (id in now.logs ==> now.logs[id].status == if events[i].succeeded then SUCCESS else ERROR)
  {
    FinalizeSettles(events, i, id);
    FateStays(events, i + 1, m, id);
    AlwaysGood(events[..i + 1]);
    AlwaysGood(events[..m]);
    SettledTasks(After(events[..i + 1]), id);
    SettledTasks(After(events[..m]), id);
  }

  lemma SettledTasks(w: World, id: nat)
    requires Good(w) && id in w.fate && w.fate[id] != Pending
    ensures TasksFor(w.db.tasks, id) == if w.fate[id].Delivered? then [w.fate[id].task] else []
  {
    OneTask(w.db.tasks, id);
    assert w.fate[id].Failed? ==> !HasTask(w.db.tasks, id);
  }

  // ---- Conservation of quota

  /** The logs delivered against this quota, whether or not they are still there. */
  function DeliveredFor(w: World, quota: Quota): set<nat> {
    set id | id in w.fate && w.fate[id].Delivered? && Charges(w.fate[id].task, quota)
  }

  /** The pending logs that hold a reservation of this quota. */
  function ReservedFor(w: World, quota: Quota): set<nat> {
    set id | id in w.fate && w.fate[id] == Pending && exists t :: t in w.db.tasks && t.deliveryLog == Some(id) && Charges(t, quota)
  }

  /** The tasks of this quota that no delivery log stands behind. */
  function CountDirect(tasks: seq<AlertTask>, quota: Quota): nat {
    if tasks == [] then 0
    else
      var last := tasks[|tasks| - 1];
      CountDirect(tasks[..|tasks| - 1], quota) + if Charges(last, quota) && last.deliveryLog.None? then 1 else 0
  }

  /** The delivery logs that have a task of this quota. */
  function ChargedLogs(tasks: seq<AlertTask>, quota: Quota): set<nat> {
    set t | t in tasks && t.deliveryLog.Some? && Charges(t, quota) :: t.deliveryLog.value
  }

  lemma {:induction false} CountSplits(tasks: seq<AlertTask>, quota: Quota)
    requires UniqueDeliveries(tasks)
    ensures CountQuota(tasks, quota) == CountDirect(tasks, quota) + |ChargedLogs(tasks, quota)|
  {
    if tasks == [] {
      assert ChargedLogs(tasks, quota) == {};
    } else {
      var rest, last := tasks[..|tasks| - 1], tasks[|tasks| - 1];
      CountSplits(rest, quota);
      ChargedMore(tasks, quota);
      LastIsNew(tasks, quota);
    }
  }

  function Charge(t: AlertTask, quota: Quota): set<nat> {
    if Charges(t, quota) && t.deliveryLog.Some? then {t.deliveryLog.value} else {}
  }

  lemma ChargedMore(tasks: seq<AlertTask>, quota: Quota)
    requires tasks != []
    ensures ChargedLogs(tasks, quota) == ChargedLogs(tasks[..|tasks| - 1], quota) + Charge(tasks[|tasks| - 1], quota)
  {
    LastMembers(tasks);
  }

  lemma LastIsNew(tasks: seq<AlertTask>, quota: Quota)
    requires tasks != [] && UniqueDeliveries(tasks)
    ensures ChargedLogs(tasks[..|tasks| - 1], quota) !! Charge(tasks[|tasks| - 1], quota)
  {
    var rest, last := tasks[..|tasks| - 1], tasks[|tasks| - 1];
    forall t | t in rest && t.deliveryLog.Some? ensures t.deliveryLog != last.deliveryLog {
      var k :| 0 <= k < |rest| && rest[k] == t;
      assert tasks[k] == t;
    }
  }

  lemma ChargedAreDeliveredOrReserved(w: World, quota: Quota)
    requires Good(w)
    ensures ChargedLogs(w.db.tasks, quota) == DeliveredFor(w, quota) + ReservedFor(w, quota)
    ensures DeliveredFor(w, quota) !! ReservedFor(w, quota)
  {
    forall id | id in DeliveredFor(w, quota) || id in ReservedFor(w, quota)
      ensures id in ChargedLogs(w.db.tasks, quota)
    {
      if id in DeliveredFor(w, quota) {
        assert w.fate[id].task in w.db.tasks;
      }
    }
  }

  /**
   * In every run, what LoadTaskCount counts for a quota is its successful deliveries plus its
   * outstanding reservations, plus the tasks created without a delivery log.
   */
  lemma QuotaConserved(events: seq<Event>, quota: Quota)
    ensures var w := After(events);
            var delivered, reserved := |DeliveredFor(w, quota)|, |ReservedFor(w, quota)|;
            CountQuota(w.db.tasks, quota) == delivered + reserved + CountDirect(w.db.tasks, quota)
  {
    AlwaysGood(events);
    CountSplits(After(events).db.tasks, quota);
    ChargedAreDeliveredOrReserved(After(events), quota);
  }

  /**
   * The Boolean of a finalisation is not the whole answer: it is true together with an error exactly
   * when a pushing log succeeds without a reservation and without a fallback, and then nothing changes.
   */
  lemma ReportedButRolledBack(db: Db, id: nat, succeeded: bool, message: string, fallback: Option<AlertTask>)
    ensures var (after, outcome) := FinalizeTask(db, id, succeeded, message, fallback);
            && (outcome.done && outcome.err.Some?
                <==> IsPushing(db, id) && succeeded && !HasTask(db.tasks, id) && fallback.None?)
            && (outcome.err.Some? ==> after == db)
            && (outcome.done && outcome.err.None? <==> IsPushing(db, id) && !IsPushing(after, id))
  {
  }
}
