/** What the verdict `uncertain` and the dispatch mark say about the upstream call. */
module LifecycleWritten {
  import opened Wrappers
  import opened TaskStore
  import opened Lifecycle
  import opened LifecycleInvariant
  import opened LifecycleSteps
  import opened LifecycleTheorems
  import Forwarder
  import Recovery

  /** The row says that the request may have been executed. */
  predicate ClaimsWritten(row: Row) {
    row.dispatchedAt.Some? || row.status.Uncertain?
  }

  /** The worker has seen the write hook run, or is about to say so. */
  predicate SawWritten(w: WorkerPc) {
    (w.Forwarding? && w.wrote) || (w.Finishing? && w.outcome.transportUncertain)
  }

  ghost predicate RowsWritten(db: Db, writes: multiset<TaskId>) {
    forall id :: id in db.tasks && ClaimsWritten(db.tasks[id]) ==> writes[id] > 0
  }

  ghost predicate WorkersWritten(workers: seq<WorkerPc>, writes: multiset<TaskId>) {
    forall i :: 0 <= i < |workers| && SawWritten(workers[i]) ==> writes[workers[i].id] > 0
  }

  ghost predicate Written(s: State) {
    RowsWritten(s.db, s.writes) && WorkersWritten(s.workers, s.writes)
  }

  // ----- Statements -----

  lemma CreateWritten(db: Db, writes: multiset<TaskId>, id: TaskId, request: string, payload: Payload, now: int)
    requires RowsWritten(db, writes)
    ensures RowsWritten(CreateAccepted(db, id, request, payload, now), writes)
  {
  }

  lemma StatusWritten(db: Db, writes: multiset<TaskId>, id: TaskId, workerId: string, now: int)
    requires RowsWritten(db, writes)
    ensures RowsWritten(MarkQueued(db, id), writes) && RowsWritten(MarkRunning(db, id, workerId, now), writes)
    ensures RowsWritten(UpdateHeartbeat(db, id, now), writes)
  {
  }

  lemma FinishWritten(db: Db, writes: multiset<TaskId>, id: TaskId, code: string, message: string, now: int)
    requires RowsWritten(db, writes)
    ensures RowsWritten(FinishFailed(db, id, code, message, now), writes)
    ensures RowsWritten(FinishSucceeded(db, id, code, now), writes)
    ensures writes[id] > 0 ==> RowsWritten(MarkUncertain(db, id, code, message, now), writes)
    ensures writes[id] > 0 ==> RowsWritten(MarkRequestDispatched(db, id, now), writes)
  {
  }

  lemma CleanWritten(db: Db, writes: multiset<TaskId>, victims: set<TaskId>, code: string, message: string, now: int)
    requires RowsWritten(db, writes)
    ensures RowsWritten(DeleteTasks(db, victims), writes) && RowsWritten(DeletePayloads(db, victims), writes)
    ensures RowsWritten(MarkDispatchedRunningUncertain(db, code, message, now), writes)
  {
  }

  // ----- Events -----

  lemma MoveWritten(s: State, w: nat, pc: WorkerPc)
    requires WorkersWritten(s.workers, s.writes) && w < |s.workers| && (SawWritten(pc) ==> s.writes[pc.id] > 0)
    ensures WorkersWritten(s.workers[w := pc], s.writes)
  {
  }

  lemma WroteStepWritten(s: State, id: TaskId)
    requires Written(s) && s.writes[id] > 0
    ensures Written(WroteStep(s, id))
  {
    var after := SetWrote(s.workers, id);
    forall i | 0 <= i < |after| && SawWritten(after[i])
      ensures s.writes[after[i].id] > 0
    {
      assert after[i] != s.workers[i] ==> after[i].id == id;
    }
  }

  lemma EndWriteWritten(s: State, id: TaskId, whole: bool)
    requires Written(s)
    ensures Written(EndWriteStep(s, id, whole))
  {
  }

  lemma EndStepWritten(s: State, w: nat, result: Forwarder.UpstreamResult)
    requires Written(s) && w < |s.workers| && s.workers[w].Forwarding?
    ensures Written(EndStep(s, w, result))
  {
    Forwarder.UncertainExactlyWhenAnswerLost(result, s.workers[w].wrote);
    MoveWritten(s, w, Finishing(s.workers[w].id, Forwarder.Classify(result, s.workers[w].wrote)));
  }

  lemma FinishStepWritten(s: State, w: nat, now: int, fault: Fault)
    requires Written(s) && w < |s.workers| && s.workers[w].Finishing?
    ensures Written(FinishStep(s, w, now, fault))
  {
    var id, o := s.workers[w].id, s.workers[w].outcome;
    FinishWritten(s.db, s.writes, id, o.errorCode, o.errorMessage, now);
    FinishWritten(s.db, s.writes, id, o.summary, o.errorMessage, now);
    MoveWritten(s, w, Idle);
  }

  lemma BeginStepWritten(s: State, w: nat, workerId: string, now: int, fault: Fault)
    requires Written(s) && w < |s.workers| && s.workers[w].PayloadLoaded?
    ensures Written(BeginStep(s, w, workerId, now, fault))
  {
    StatusWritten(s.db, s.writes, s.workers[w].id, workerId, now);
    MoveWritten(s, w, Idle);
    MoveWritten(s, w, Forwarding(s.workers[w].id, false));
  }

  lemma MarkStepWritten(s: State, id: TaskId, now: int, fault: Fault)
    requires Written(s) && s.writes[id] > 0
    ensures Written(MarkStep(s, id, now, fault))
  {
    FinishWritten(s.db, s.writes, id, "", "", now);
  }

  lemma StatementWritten(s: State, fault: Fault, db: Db)
    requires Written(s) && RowsWritten(db, s.writes)
    ensures Written(StatementStep(s, fault, db))
  {
  }

  lemma ForwardStepWritten(c: Config, s: State, e: Event)
    requires Written(s) && Enabled(c, s, e) && (e.BeginForward? || e.EndForward? || e.Finish?)
    ensures Written(Step(c, s, e))
  {
    if e.BeginForward? {
      BeginStepWritten(s, e.w, e.workerId, e.now, e.fault);
    } else if e.EndForward? {
      EndStepWritten(s, e.w, e.result);
    } else {
      FinishStepWritten(s, e.w, e.now, e.fault);
    }
  }

  /** The write of a task whose hook is still to run, or whose mark is to be stored, has ended. */
  ghost predicate PipelineWritten(s: State) {
    (forall id <- s.hooks :: s.writes[id] > 0) && forall id <- s.marking :: s.writes[id] > 0
  }

  lemma WriteEventWritten(c: Config, s: State, e: Event)
    requires Written(s) && Enabled(c, s, e) && IsWriteEvent(e) && PipelineWritten(s)
    ensures Written(Step(c, s, e))
  {
    match e
    case BeginWrite(_) =>
    case EndWrite(id, whole) => EndWriteWritten(s, id, whole);
    case WroteRequest(id) => WroteStepWritten(s, id);
    case StoreMark(id, now, fault) => MarkStepWritten(s, id, now, fault);
  }

  lemma HeartbeatWritten(c: Config, s: State, e: Event)
    requires Written(s) && Enabled(c, s, e) && e.Heartbeat?
    ensures Written(Step(c, s, e))
  {
    StatusWritten(s.db, s.writes, s.workers[e.w].id, "", e.now);
    StatementWritten(s, e.fault, UpdateHeartbeat(s.db, s.workers[e.w].id, e.now));
  }

  lemma LoadTaskWritten(s: State, w: nat, fault: Fault)
    requires Written(s) && w < |s.workers| && s.workers[w].Dequeued?
    ensures Written(LoadTaskStep(s, w, fault))
  {
    MoveWritten(s, w, Idle);
    MoveWritten(s, w, TaskLoaded(s.workers[w].id));
  }

  lemma LoadPayloadWritten(s: State, w: nat, fault: Fault)
    requires Written(s) && w < |s.workers| && s.workers[w].TaskLoaded?
    ensures Written(LoadPayloadStep(s, w, fault))
  {
    MoveWritten(s, w, Idle);
    MoveWritten(s, w, PayloadLoaded(s.workers[w].id));
  }

  lemma LoadStepWritten(c: Config, s: State, e: Event)
    requires Written(s) && Enabled(c, s, e) && (e.Dequeue? || e.WorkerExit? || e.LoadTask? || e.LoadPayload?)
    ensures Written(Step(c, s, e))
  {
    if e.Dequeue? {
      MoveWritten(s, e.w, Dequeued(s.queue[0]));
    } else if e.WorkerExit? {
      MoveWritten(s, e.w, Exited);
    } else if e.LoadTask? {
      LoadTaskWritten(s, e.w, e.fault);
    } else {
      LoadPayloadWritten(s, e.w, e.fault);
    }
  }

  lemma WorkerStepWritten(c: Config, s: State, e: Event)
    requires Written(s) && Enabled(c, s, e) && IsWorkerEvent(e) && PipelineWritten(s)
    ensures Written(Step(c, s, e))
  {
    if e.BeginForward? || e.EndForward? || e.Finish? {
      ForwardStepWritten(c, s, e);
    } else if IsWriteEvent(e) {
      WriteEventWritten(c, s, e);
    } else if e.Heartbeat? {
      HeartbeatWritten(c, s, e);
    } else {
      LoadStepWritten(c, s, e);
    }
  }

  lemma ScanStatementWritten(s: State, db: Db, fault: Fault, next: Phase)
    requires Written(s) && RowsWritten(db, s.writes)
    ensures Written(AfterScanStatement(s, db, fault, next))
  {
  }

  /** The scan leaves a row uncertain only if its dispatch mark is stored. */
  lemma DecideWritten(s: State, cutoff: int, now: int, fault: Fault)
    requires Written(s) && Scanning(s, AtDecide) && IsCurrent(s.db, s.phase.items[0])
    ensures Written(DecideStep(s, cutoff, now, fault))
  {
    var id := s.phase.items[0].id;
    match Recovery.Decide(s.phase.items[0], cutoff) {
      case SkipFresh => {}
      case FailPayloadMissing => {
        FinishWritten(s.db, s.writes, id, Recovery.PAYLOAD_MISSING_CODE, Recovery.PAYLOAD_MISSING_MESSAGE, now);
        var db := FinishFailed(s.db, id, Recovery.PAYLOAD_MISSING_CODE, Recovery.PAYLOAD_MISSING_MESSAGE, now);
        ScanStatementWritten(s, db, fault, Rest(s));
      }
      case LeaveUncertain => {
        FinishWritten(s.db, s.writes, id, Recovery.UNCERTAIN_CODE, Recovery.UNCERTAIN_MESSAGE, now);
        var db := MarkUncertain(s.db, id, Recovery.UNCERTAIN_CODE, Recovery.UNCERTAIN_MESSAGE, now);
        ScanStatementWritten(s, db, fault, Rest(s));
      }
      case Requeue => {
        StatusWritten(s.db, s.writes, id, "", now);
        ScanStatementWritten(s, MarkQueued(s.db, id), fault, s.phase.(pc := AtEnqueue));
      }
    }
  }

  lemma ScanRefuseWritten(s: State, now: int, fault: Fault)
    requires Written(s) && Scanning(s, AtRefused)
    ensures var id := s.phase.items[0].id;
            var db := FinishFailed(s.db, id, Recovery.QUEUE_FULL_CODE, Recovery.QUEUE_FULL_MESSAGE, now);
            Written(AfterScanStatement(s, db, fault, Rest(s)))
  {
    var id := s.phase.items[0].id;
    FinishWritten(s.db, s.writes, id, Recovery.QUEUE_FULL_CODE, Recovery.QUEUE_FULL_MESSAGE, now);
  }

  lemma ScanStepWritten(c: Config, s: State, e: Event)
    requires Written(s) && Enabled(c, s, e) && IsScanEvent(e) && (e.ScanDecide? ==> IsCurrent(s.db, s.phase.items[0]))
    ensures Written(Step(c, s, e))
  {
    if e.ScanDecide? {
      DecideWritten(s, e.cutoff, e.now, e.fault);
    } else if e.ScanRefuse? {
      ScanRefuseWritten(s, e.now, e.fault);
    }
  }

  lemma OtherStepWritten(c: Config, s: State, e: Event)
    requires Written(s) && Enabled(c, s, e) && !IsWorkerEvent(e) && !IsScanEvent(e)
    ensures Written(Step(c, s, e))
  {
    match e
    case Submit(id, request, payload, now, fault) => CreateWritten(s.db, s.writes, id, request, payload, now);
    case SubmitMarkQueued(id, fault) => StatusWritten(s.db, s.writes, id, "", 0);
    case SubmitRefuse(id, now, fault) =>
      FinishWritten(s.db, s.writes, id, Recovery.QUEUE_FULL_CODE, Recovery.QUEUE_FULL_MESSAGE, now);
    case CleanTasks(victims, _, _) => CleanWritten(s.db, s.writes, victims, "", "", 0);
    case CleanPayloads(victims, _, _) => CleanWritten(s.db, s.writes, victims, "", "", 0);
    case ForceUncertain(now, _) => CleanWritten(s.db, s.writes, {}, FORCED_CODE, FORCED_MESSAGE, now);
    case _ =>
  }

  lemma StepWritten(c: Config, s: State, e: Event)
    requires Inv(s) && Written(s) && Enabled(c, s, e)
    ensures Written(Step(c, s, e))
  {
    if IsWorkerEvent(e) {
      WorkerStepWritten(c, s, e);
    } else if IsScanEvent(e) {
      assert e.ScanDecide? ==> ItemOk(s.db, s.enqueued, s.phase.items[0], false);
      ScanStepWritten(c, s, e);
    } else {
      OtherStepWritten(c, s, e);
    }
  }

  lemma {:induction false} RunWritten(c: Config, s: State, es: seq<Event>)
    requires Inv(s) && Written(s) && IsRun(c, s, es)
    ensures Written(After(c, s, es))
    decreases |es|
  {
    if es != [] {
      var e := es[0];
      StepInv(c, s, e);
      StepWritten(c, s, e);
      RunWritten(c, Step(c, s, e), es[1..]);
    }
  }

  /** In every reachable state a task is `uncertain`, or carries a dispatch mark, only if an
      attempt to write its request has ended; the request was sent exactly if not all of its
      attempts broke, which the gateway does not look at (see `UncertainCanMeanUnsent`). */
  lemma UncertainMeansAttempted(c: Config, s: State, id: TaskId)
    requires Reachable(c, s) && id in s.db.tasks
    ensures s.db.tasks[id].status.Uncertain? || s.db.tasks[id].dispatchedAt.Some? ==>
              s.writes[id] > 0 && s.wire.sent[id] + s.wire.broken[id] > 0 &&
              (s.wire.sent[id] > 0 <==> s.wire.broken[id] < s.writes[id] + s.wire.again[id])
  {
    var es :| IsRun(c, INITIAL, es) && After(c, INITIAL, es) == s;
    InitialInv();
    RunWritten(c, INITIAL, es);
    ReachableInv(c, s);
  }

  // ----- Runs in which no write fails -----

  predicate WritesSucceed(es: seq<Event>) {
    forall i :: 0 <= i < |es| && es[i].EndWrite? ==> es[i].whole
  }

  lemma ScanBreaksNothing(c: Config, s: State, e: Event)
    requires Enabled(c, s, e) && IsScanEvent(e)
    ensures Step(c, s, e).wire.broken == s.wire.broken
  {
  }

  lemma BreaksOnlyByWrite(c: Config, s: State, e: Event)
    requires Enabled(c, s, e) && (e.EndWrite? ==> e.whole)
    ensures Step(c, s, e).wire.broken == s.wire.broken
  {
    if IsScanEvent(e) { ScanBreaksNothing(c, s, e); }
  }

  lemma {:induction false} NothingBroken(c: Config, s: State, es: seq<Event>)
    requires IsRun(c, s, es) && WritesSucceed(es)
    ensures After(c, s, es).wire.broken == s.wire.broken
    decreases |es|
  {
    if es != [] {
      BreaksOnlyByWrite(c, s, es[0]);
      NothingBroken(c, Step(c, s, es[0]), es[1..]);
    }
  }

  /** If no write fails, then whatever else does, an uncertain or dispatched task's request was sent. */
  lemma UncertainMeansSent(c: Config, es: seq<Event>, id: TaskId)
    requires IsRun(c, INITIAL, es) && WritesSucceed(es)
    ensures var s := After(c, INITIAL, es);
            id in s.db.tasks && (s.db.tasks[id].status.Uncertain? || s.db.tasks[id].dispatchedAt.Some?) ==>
              s.wire.sent[id] > 0
  {
    var s := After(c, INITIAL, es);
    NothingBroken(c, INITIAL, es);
    if id in s.db.tasks { UncertainMeansAttempted(c, s, id); }
  }
}
