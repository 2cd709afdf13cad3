/** What the gateway promises over every run: any interleaving of its actors, any repository
    failures, any number of crashes and restarts. */
module LifecycleTheorems {
  import opened Wrappers
  import opened TaskStore
  import opened Lifecycle
  import opened LifecycleInvariant
  import opened LifecycleSteps
  import Forwarder
  import Recovery

  /** Some run goes from `s` to `t`. */
  ghost predicate Leads(c: Config, s: State, t: State) {
    exists es :: IsRun(c, s, es) && After(c, s, es) == t
  }

  ghost predicate Reachable(c: Config, s: State) {
    Leads(c, INITIAL, s)
  }

  lemma LeadsInv(c: Config, s: State, t: State)
    requires Inv(s) && Leads(c, s, t)
    ensures Inv(t)
  {
    var es :| IsRun(c, s, es) && After(c, s, es) == t;
    RunInv(c, s, es);
  }

  lemma ReachableInv(c: Config, s: State)
    requires Reachable(c, s)
    ensures Inv(s)
  {
    InitialInv();
    LeadsInv(c, INITIAL, s);
  }

  // ----- Finished rows and dispatch marks are final -----

  predicate SameVerdict(a: Row, b: Row) {
    && a.status == b.status && a.result == b.result && a.finishedAt == b.finishedAt
    && a.errorCode == b.errorCode && a.errorMessage == b.errorMessage && a.transportUncertain == b.transportUncertain
  }

  predicate KeepsRow(a: Row, b: Row) {
    (a.dispatchedAt.Some? ==> b.dispatchedAt.Some?) && (a.finishedAt.Some? ==> SameVerdict(a, b))
  }

  /** Of the tasks created so far, none comes back after deletion, none loses its dispatch
      mark, and no finished one changes its verdict. */
  ghost predicate Keeps(a: Db, b: Db, used: set<TaskId>) {
    forall id :: id in used && id in b.tasks ==> id in a.tasks && KeepsRow(a.tasks[id], b.tasks[id])
  }

  lemma KeepsOutcome(a: Db, b: Db, used: set<TaskId>, fault: Fault)
    requires Keeps(a, b, used)
    ensures Keeps(a, Outcome(fault, a, b), used)
  {
  }

  lemma FinishKeeps(db: Db, used: set<TaskId>, id: TaskId, code: string, message: string, result: string, now: int)
    ensures Keeps(db, FinishFailed(db, id, code, message, now), used)
    ensures Keeps(db, MarkUncertain(db, id, code, message, now), used)
    ensures Keeps(db, FinishSucceeded(db, id, result, now), used)
    ensures Keeps(db, MarkRequestDispatched(db, id, now), used)
    ensures Keeps(db, UpdateHeartbeat(db, id, now), used)
  {
  }

  /** The two unguarded status updates are harmless on unfinished rows only. */
  lemma StatusKeeps(db: Db, used: set<TaskId>, id: TaskId, workerId: string, now: int)
    requires Unfinished(db, id)
    ensures Keeps(db, MarkQueued(db, id), used)
    ensures Keeps(db, MarkRunning(db, id, workerId, now), used)
  {
  }

  lemma ScanStatementKeeps(s: State, db: Db, fault: Fault, next: Phase)
    requires Keeps(s.db, db, s.used)
    ensures Keeps(s.db, AfterScanStatement(s, db, fault, next).db, s.used)
  {
  }

  lemma ScanKeeps(s: State, cutoff: int, now: int, fault: Fault)
    requires Scanning(s, AtDecide) && Unfinished(s.db, s.phase.items[0].id)
    ensures Keeps(s.db, DecideStep(s, cutoff, now, fault).db, s.used)
  {
    var item := s.phase.items[0];
    match Recovery.Decide(item, cutoff)
    case SkipFresh =>
    case FailPayloadMissing =>
      FinishKeeps(s.db, s.used, item.id, Recovery.PAYLOAD_MISSING_CODE, Recovery.PAYLOAD_MISSING_MESSAGE, "", now);
      var db := FinishFailed(s.db, item.id, Recovery.PAYLOAD_MISSING_CODE, Recovery.PAYLOAD_MISSING_MESSAGE, now);
      ScanStatementKeeps(s, db, fault, Rest(s));
    case LeaveUncertain =>
      FinishKeeps(s.db, s.used, item.id, Recovery.UNCERTAIN_CODE, Recovery.UNCERTAIN_MESSAGE, "", now);
      var db := MarkUncertain(s.db, item.id, Recovery.UNCERTAIN_CODE, Recovery.UNCERTAIN_MESSAGE, now);
      ScanStatementKeeps(s, db, fault, Rest(s));
    case Requeue =>
      StatusKeeps(s.db, s.used, item.id, "", now);
      ScanStatementKeeps(s, MarkQueued(s.db, item.id), fault, s.phase.(pc := AtEnqueue));
  }

  lemma FinishStatementKeeps(db: Db, used: set<TaskId>, id: TaskId, o: Forwarder.ForwardOutcome, now: int, fault: Fault)
    ensures Keeps(db, Outcome(fault, db, FinishStatement(db, id, o, now)), used)
  {
    FinishKeeps(db, used, id, o.errorCode, o.errorMessage, o.summary, now);
  }

  /** What makes the unguarded statements safe is that whoever issues one holds a task that
      is still waiting. */
  lemma HolderUnfinished(s: State, id: TaskId)
    requires Inv(s) && s.phase.Serving?
    requires id in s.handlers || exists w :: 0 <= w < |s.workers| && s.workers[w].Preparing(id)
    ensures Unfinished(s.db, id) && s.db.tasks[id].dispatchedAt.None?
  {
    if id !in s.handlers {
      var w :| 0 <= w < |s.workers| && s.workers[w].Preparing(id);
      assert WorkerOk(s.db, s.unwritten, s.workers[w]);
    }
    assert Fresh(s.db, id);
  }

  lemma ScannedUnfinished(s: State)
    requires Inv(s) && Scanning(s, AtDecide)
    ensures Unfinished(s.db, s.phase.items[0].id)
  {
    assert ItemOk(s.db, s.enqueued, s.phase.items[0], false);
  }

  lemma CleanKeeps(db: Db, used: set<TaskId>, victims: set<TaskId>, now: int)
    ensures Keeps(db, DeleteTasks(db, victims), used)
    ensures Keeps(db, DeletePayloads(db, victims), used)
    ensures Keeps(db, MarkDispatchedRunningUncertain(db, FORCED_CODE, FORCED_MESSAGE, now), used)
  {
  }

  lemma BeginKeeps(s: State, w: nat, workerId: string, now: int, fault: Fault)
    requires w < |s.workers| && s.workers[w].PayloadLoaded? && Unfinished(s.db, s.workers[w].id)
    ensures var t := BeginStep(s, w, workerId, now, fault); Keeps(s.db, t.db, s.used) && t.used == s.used
  {
    var id := s.workers[w].id;
    StatusKeeps(s.db, s.used, id, workerId, now);
    KeepsOutcome(s.db, MarkRunning(s.db, id, workerId, now), s.used, fault);
  }

  lemma FinishStepKeeps(c: Config, s: State, e: Event)
    requires Enabled(c, s, e) && e.Finish?
    ensures Keeps(s.db, Step(c, s, e).db, s.used) && s.used == Step(c, s, e).used
  {
    FinishStatementKeeps(s.db, s.used, s.workers[e.w].id, s.workers[e.w].outcome, e.now, e.fault);
  }

  lemma MarkStepKeeps(c: Config, s: State, e: Event)
    requires Enabled(c, s, e) && (e.Heartbeat? || e.StoreMark?)
    ensures Keeps(s.db, Step(c, s, e).db, s.used) && s.used == Step(c, s, e).used
  {
    FinishKeeps(s.db, s.used, if e.Heartbeat? then s.workers[e.w].id else e.id, "", "", "", e.now);
  }

  lemma QuietWorkerStep(c: Config, s: State, e: Event)
    requires Enabled(c, s, e)
    requires e.Dequeue? || e.WorkerExit? || e.LoadTask? || e.LoadPayload? || e.EndForward?
    ensures s.db == Step(c, s, e).db && s.used == Step(c, s, e).used
  {
  }

  lemma QuietWriteStep(c: Config, s: State, e: Event)
    requires Enabled(c, s, e) && IsWriteEvent(e) && !e.StoreMark?
    ensures s.db == Step(c, s, e).db && s.used == Step(c, s, e).used
  {
  }

  lemma WriteEventKeeps(c: Config, s: State, e: Event)
    requires Enabled(c, s, e) && (e.Heartbeat? || IsWriteEvent(e))
    ensures Keeps(s.db, Step(c, s, e).db, s.used) && s.used == Step(c, s, e).used
  {
    if e.Heartbeat? || e.StoreMark? {
      MarkStepKeeps(c, s, e);
    } else {
      QuietWriteStep(c, s, e);
    }
  }

  lemma BeginEventKeeps(c: Config, s: State, e: Event)
    requires Inv(s) && Enabled(c, s, e) && e.BeginForward?
    ensures Keeps(s.db, Step(c, s, e).db, s.used) && s.used == Step(c, s, e).used
  {
    assert s.workers[e.w].Preparing(s.workers[e.w].id);
    HolderUnfinished(s, s.workers[e.w].id);
    BeginKeeps(s, e.w, e.workerId, e.now, e.fault);
  }

  /** Whoever begins to forward holds a task that is still waiting, so no worker event changes a verdict. */
  lemma WorkerStepKeeps(c: Config, s: State, e: Event)
    requires Inv(s) && Enabled(c, s, e) && IsWorkerEvent(e)
    ensures Keeps(s.db, Step(c, s, e).db, s.used) && s.used == Step(c, s, e).used
  {
    if e.BeginForward? {
      BeginEventKeeps(c, s, e);
    } else if e.Finish? {
      FinishStepKeeps(c, s, e);
    } else if e.Heartbeat? || IsWriteEvent(e) {
      WriteEventKeeps(c, s, e);
    } else {
      QuietWorkerStep(c, s, e);
    }
  }

  lemma ScanRefuseKeeps(s: State, now: int, fault: Fault)
    requires Scanning(s, AtRefused)
    ensures var id := s.phase.items[0].id;
            var db := FinishFailed(s.db, id, Recovery.QUEUE_FULL_CODE, Recovery.QUEUE_FULL_MESSAGE, now);
            Keeps(s.db, AfterScanStatement(s, db, fault, Rest(s)).db, s.used)
  {
    var id := s.phase.items[0].id;
    var db := FinishFailed(s.db, id, Recovery.QUEUE_FULL_CODE, Recovery.QUEUE_FULL_MESSAGE, now);
    FinishKeeps(s.db, s.used, id, Recovery.QUEUE_FULL_CODE, Recovery.QUEUE_FULL_MESSAGE, "", now);
    ScanStatementKeeps(s, db, fault, Rest(s));
  }

  lemma QuietScanStep(c: Config, s: State, e: Event)
    requires Enabled(c, s, e) && (e.Start? || e.ScanEnqueue? || e.ScanDone?)
    ensures s.db == Step(c, s, e).db && s.used == Step(c, s, e).used
  {
  }

  lemma ScanUsed(s: State, cutoff: int, now: int, fault: Fault)
    requires Scanning(s, AtDecide)
    ensures DecideStep(s, cutoff, now, fault).used == s.used
  {
  }

  lemma ScanStepKeeps(c: Config, s: State, e: Event)
    requires Inv(s) && Enabled(c, s, e) && IsScanEvent(e)
    ensures Keeps(s.db, Step(c, s, e).db, s.used) && s.used == Step(c, s, e).used
  {
    if e.ScanDecide? {
      ScannedUnfinished(s);
      ScanKeeps(s, e.cutoff, e.now, e.fault);
      ScanUsed(s, e.cutoff, e.now, e.fault);
    } else if e.ScanRefuse? {
      ScanRefuseKeeps(s, e.now, e.fault);
    } else {
      QuietScanStep(c, s, e);
    }
  }

  lemma CreateKeeps(s: State, id: TaskId, request: string, payload: Payload, now: int, fault: Fault)
    requires s.admitted > 0 && id !in s.used
    ensures var t := SubmitStep(s, id, request, payload, now, fault); Keeps(s.db, t.db, s.used) && s.used <= t.used
  {
    KeepsOutcome(s.db, CreateAccepted(s.db, id, request, payload, now), s.used, fault);
  }

  lemma QueuedKeeps(s: State, id: TaskId, fault: Fault)
    requires Unfinished(s.db, id)
    ensures var t := MarkQueuedStep(s, id, fault); Keeps(s.db, t.db, s.used) && s.used == t.used
  {
    StatusKeeps(s.db, s.used, id, "", 0);
  }

  lemma RefuseKeeps(s: State, id: TaskId, now: int, fault: Fault)
    ensures var t := RefuseStep(s, id, now, fault); Keeps(s.db, t.db, s.used) && s.used == t.used
  {
    FinishKeeps(s.db, s.used, id, Recovery.QUEUE_FULL_CODE, Recovery.QUEUE_FULL_MESSAGE, "", now);
  }

  lemma QuietSubmitStep(c: Config, s: State, e: Event)
    requires Enabled(c, s, e) && (e.Admit? || e.SubmitEnqueue?)
    ensures s.db == Step(c, s, e).db && s.used == Step(c, s, e).used
  {
  }

  lemma SubmitStepKeeps(c: Config, s: State, e: Event)
    requires Enabled(c, s, e) && IsSubmitEvent(e) && (e.SubmitMarkQueued? ==> Unfinished(s.db, e.id))
    ensures Keeps(s.db, Step(c, s, e).db, s.used) && s.used <= Step(c, s, e).used
  {
    match e
    case Submit(id, request, payload, now, fault) => CreateKeeps(s, id, request, payload, now, fault);
    case SubmitMarkQueued(id, fault) => QueuedKeeps(s, id, fault);
    case SubmitRefuse(id, now, fault) => RefuseKeeps(s, id, now, fault);
    case _ => QuietSubmitStep(c, s, e);
  }

  /** The cleaner, the shutdown and a crash. */
  lemma ProcessStepKeeps(c: Config, s: State, e: Event)
    requires Enabled(c, s, e) && !IsWorkerEvent(e) && !IsScanEvent(e) && !IsSubmitEvent(e)
    ensures Keeps(s.db, Step(c, s, e).db, s.used) && s.used == Step(c, s, e).used
  {
    var victims := if e.CleanTasks? || e.CleanPayloads? then e.victims else {};
    CleanKeeps(s.db, s.used, victims, if e.ForceUncertain? then e.now else 0);
  }

  lemma StepKeeps(c: Config, s: State, e: Event)
    requires Inv(s) && Enabled(c, s, e)
    ensures Keeps(s.db, Step(c, s, e).db, s.used) && s.used <= Step(c, s, e).used
  {
    if IsWorkerEvent(e) {
      WorkerStepKeeps(c, s, e);
    } else if IsScanEvent(e) {
      ScanStepKeeps(c, s, e);
    } else if IsSubmitEvent(e) {
      if e.SubmitMarkQueued? { HolderUnfinished(s, e.id); }
      SubmitStepKeeps(c, s, e);
    } else {
      ProcessStepKeeps(c, s, e);
    }
  }

  lemma {:induction false} RunKeeps(c: Config, s: State, es: seq<Event>)
    requires Inv(s) && IsRun(c, s, es)
    ensures Keeps(s.db, After(c, s, es).db, s.used)
    decreases |es|
  {
    if es != [] {
      var t := Step(c, s, es[0]);
      StepInv(c, s, es[0]);
      StepKeeps(c, s, es[0]);
      RunKeeps(c, t, es[1..]);
    }
  }

  /** Once a task is finished its status, result and error never change again; its row can
      only be deleted, and a deleted row never returns. */
  lemma FinishedIsFinal(c: Config, s: State, es: seq<Event>, id: TaskId)
    requires Reachable(c, s) && IsRun(c, s, es) && id in s.db.tasks && s.db.tasks[id].finishedAt.Some?
    ensures var t := After(c, s, es); id in t.db.tasks ==> SameVerdict(s.db.tasks[id], t.db.tasks[id])
  {
    ReachableInv(c, s);
    RunKeeps(c, s, es);
  }

  lemma DeletedIsGone(c: Config, s: State, es: seq<Event>, id: TaskId)
    requires Reachable(c, s) && IsRun(c, s, es) && id in s.used && id !in s.db.tasks
    ensures id !in After(c, s, es).db.tasks
  {
    ReachableInv(c, s);
    RunKeeps(c, s, es);
  }

  // ----- No second dispatch -----

  predicate BeginsForward(s: State, e: Event, id: TaskId) {
    e.BeginForward? && e.w < |s.workers| && s.workers[e.w].Holds(id)
  }

  /** After its dispatch mark is stored, no forward of the task ever starts again, however
      many crashes and recovery scans follow. */
  lemma NoForwardAfterDispatch(c: Config, s: State, es: seq<Event>, e: Event, id: TaskId)
    requires Reachable(c, s) && id in s.db.tasks && s.db.tasks[id].dispatchedAt.Some?
    requires IsRun(c, s, es) && Enabled(c, After(c, s, es), e)
    ensures !BeginsForward(After(c, s, es), e, id)
  {
    var t := After(c, s, es);
    ReachableInv(c, s);
    RunKeeps(c, s, es);
    RunInv(c, s, es);
    if BeginsForward(t, e, id) {
      assert t.workers[e.w].Preparing(id);
      HolderUnfinished(t, id);
      assert false;
    }
  }

  /** The forwards that tried to write a request are at most one more than those that lost
      their mark, to a failed statement or to a crash; and the attempts, sent or broken, are
      those first ones and the repeated ones inside a forward. */
  lemma AtMostOneMarkedWrite(c: Config, s: State, id: TaskId)
    requires Reachable(c, s)
    ensures s.lostMarks[id] <= s.writes[id] <= s.lostMarks[id] + 1
    ensures s.wire.sent[id] + s.wire.broken[id] == s.writes[id] + s.wire.again[id]
  {
    ReachableInv(c, s);
  }

  // ----- Replay -----

  /** Whatever the expiry times and the cleaner's schedule, a task that is neither finished
      nor dispatched still has its payload. */
  lemma UndispatchedKeepsPayload(c: Config, s: State, id: TaskId)
    requires Reachable(c, s) && id in s.db.tasks && Replayable(s.db.tasks[id])
    ensures id in s.db.payloads
  {
    ReachableInv(c, s);
  }

  /** So the scan reports a missing payload only for a task that was dispatched and whose
      payload has since expired; such a task ends `failed`, not `uncertain`. */
  lemma PayloadMissingOnlyIfDispatched(c: Config, s: State, cutoff: int)
    requires Reachable(c, s) && Scanning(s, AtDecide)
    ensures var item := s.phase.items[0];
            Recovery.Decide(item, cutoff).FailPayloadMissing? <==>
            (item.row.dispatchedAt.Some? && item.id !in s.db.payloads && Recovery.IsRunningTaskStale(item.row, cutoff))
  {
    ReachableInv(c, s);
    var item := s.phase.items[0];
    assert ItemOk(s.db, s.enqueued, item, false);
    assert RowOk(item.row);
  }
}
