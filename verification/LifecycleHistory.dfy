/** Where everything in the tables comes from: over every run, each verdict goes back to an answer
    the task's own forward got, or to the scan, a full queue or a forced shutdown, and each
    request and payload is the one submitted under its id. */
module LifecycleHistory {
  import opened Wrappers
  import opened TaskStore
  import opened Lifecycle
  import opened LifecycleInvariant
  import opened LifecycleSteps
  import opened LifecycleTheorems
  import opened LifecycleVerdicts
  import Forwarder
  import Recovery

  /** An answer that a forward of the task got, and whether its write hook had run by then. */
  datatype Answer = Answer(id: TaskId, result: Forwarder.UpstreamResult, wrote: bool)

  datatype Submission = Submission(request: string, payload: Payload, now: int)

  datatype History = History(submitted: map<TaskId, Submission>, answers: set<Answer>)

  const NOTHING := History(map[], {})

  /** What one event adds. */
  function Learn(s: State, e: Event, h: History): History {
    match e
    case Submit(id, request, payload, now, _) =>
      h.(submitted := h.submitted[id := Submission(request, payload, now)])
    case EndForward(w, r) =>
      if w < |s.workers| && s.workers[w].Forwarding?
      then h.(answers := h.answers + {Answer(s.workers[w].id, r, s.workers[w].wrote)})
      else h
    case _ => h
  }

  ghost function HistoryOf(c: Config, s: State, es: seq<Event>, h: History): History
    requires IsRun(c, s, es)
    decreases |es|
  {
    if es == [] then h else HistoryOf(c, Step(c, s, es[0]), es[1..], Learn(s, es[0], h))
  }

  // ----- What backs a row -----

  ghost predicate DeliveredTo(answers: set<Answer>, id: TaskId, text: string) {
    exists a :: a in answers && a.id == id && Delivers(a.result, text)
  }

  ghost predicate FailedBy(answers: set<Answer>, id: TaskId, code: string, message: string) {
    exists a :: a in answers && a.id == id && Fails(a.result, a.wrote, code, message)
  }

  ghost predicate BrokeFor(answers: set<Answer>, id: TaskId) {
    exists a :: a in answers && a.id == id && Breaks(a.result, a.wrote)
  }

  /** The verdict of a row, by what brought it about. */
  ghost predicate VerdictBacked(row: Row, id: TaskId, answers: set<Answer>) {
    match row.status
    case Succeeded => row.errorCode == "" && DeliveredTo(answers, id, row.result)
    case Failed =>
      || (row.errorCode == "queue_full" && row.errorMessage == "local task queue is full")
      || (row.errorCode == "recovery_payload_missing" && row.dispatchedAt.Some?)
      || FailedBy(answers, id, row.errorCode, row.errorMessage)
    case Uncertain =>
      || (row.errorCode == "gateway_shutdown_uncertain" && row.dispatchedAt.Some?)
      || (row.errorCode == "upstream_transport_uncertain" && row.dispatchedAt.Some?)
      || (row.errorCode == "upstream_transport_uncertain" && BrokeFor(answers, id))
    case _ => true
  }

  ghost predicate RowBacked(row: Row, id: TaskId, h: History) {
    && id in h.submitted && row.request == h.submitted[id].request && row.createdAt == h.submitted[id].now
    && VerdictBacked(row, id, h.answers)
  }

  ghost predicate TablesBacked(db: Db, h: History) {
    && (forall id <- db.tasks :: RowBacked(db.tasks[id], id, h))
    && (forall id <- db.payloads :: id in h.submitted && db.payloads[id] == h.submitted[id].payload)
  }

  /** The worker is about to record the verdict of one of its answers. */
  ghost predicate WorkerBacked(w: WorkerPc, answers: set<Answer>) {
    w.Finishing? ==>
      exists a :: a in answers && a.id == w.id && w.outcome == Forwarder.Classify(a.result, a.wrote)
  }

  ghost predicate WorkersBacked(workers: seq<WorkerPc>, answers: set<Answer>) {
    forall i :: 0 <= i < |workers| ==> WorkerBacked(workers[i], answers)
  }

  ghost predicate Backed(s: State, h: History) {
    TablesBacked(s.db, h) && WorkersBacked(s.workers, h.answers)
  }

  // ----- Statements -----

  lemma CreateBacked(db: Db, h: History, id: TaskId, request: string, payload: Payload, now: int)
    requires TablesBacked(db, h) && id !in db.tasks && id !in db.payloads
    ensures var after := h.(submitted := h.submitted[id := Submission(request, payload, now)]);
            TablesBacked(db, after) && TablesBacked(CreateAccepted(db, id, request, payload, now), after)
  {
  }

  lemma StatusBacked(db: Db, h: History, id: TaskId, workerId: string, now: int)
    requires TablesBacked(db, h)
    ensures TablesBacked(MarkQueued(db, id), h) && TablesBacked(MarkRunning(db, id, workerId, now), h)
    ensures TablesBacked(UpdateHeartbeat(db, id, now), h) && TablesBacked(MarkRequestDispatched(db, id, now), h)
  {
  }

  lemma QueueFullBacked(db: Db, h: History, id: TaskId, now: int)
    requires TablesBacked(db, h)
    ensures TablesBacked(FinishFailed(db, id, Recovery.QUEUE_FULL_CODE, Recovery.QUEUE_FULL_MESSAGE, now), h)
  {
  }

  lemma ScanFinishBacked(db: Db, h: History, id: TaskId, now: int)
    requires TablesBacked(db, h) && (id in db.tasks ==> db.tasks[id].dispatchedAt.Some?)
    ensures TablesBacked(
              FinishFailed(db, id, Recovery.PAYLOAD_MISSING_CODE, Recovery.PAYLOAD_MISSING_MESSAGE, now), h)
    ensures TablesBacked(MarkUncertain(db, id, Recovery.UNCERTAIN_CODE, Recovery.UNCERTAIN_MESSAGE, now), h)
  {
  }

  lemma CleanBacked(db: Db, h: History, victims: set<TaskId>, now: int)
    requires TablesBacked(db, h)
    ensures TablesBacked(DeleteTasks(db, victims), h) && TablesBacked(DeletePayloads(db, victims), h)
    ensures TablesBacked(MarkDispatchedRunningUncertain(db, FORCED_CODE, FORCED_MESSAGE, now), h)
  {
  }

  /** The row a worker finishes is backed by the answer it goes by. */
  lemma FinishedBacked(before: Row, after: Row, a: Answer, h: History, now: int)
    requires a in h.answers && RowBacked(before, a.id, h) && Finished(before, a.result, a.wrote, now, after)
    ensures RowBacked(after, a.id, h)
  {
    if after.status.Succeeded? {
      assert Delivers(a.result, after.result);
    }
  }

  lemma FinishBacked(db: Db, h: History, a: Answer, now: int)
    requires TablesBacked(db, h) && a in h.answers
    ensures TablesBacked(FinishStatement(db, a.id, Forwarder.Classify(a.result, a.wrote), now), h)
  {
    var after := FinishStatement(db, a.id, Forwarder.Classify(a.result, a.wrote), now);
    if Unfinished(db, a.id) {
      FinishStatementMeans(db, a.id, a.result, a.wrote, now);
      FinishedBacked(db.tasks[a.id], after.tasks[a.id], a, h, now);
    }
  }

  // ----- Events -----

  lemma MoveBacked(workers: seq<WorkerPc>, w: nat, pc: WorkerPc, answers: set<Answer>)
    requires WorkersBacked(workers, answers) && w < |workers| && WorkerBacked(pc, answers)
    ensures WorkersBacked(workers[w := pc], answers)
  {
  }

  lemma EndBacked(s: State, w: nat, r: Forwarder.UpstreamResult, h: History)
    requires Backed(s, h) && w < |s.workers| && s.workers[w].Forwarding?
    ensures Backed(EndStep(s, w, r), Learn(s, EndForward(w, r), h))
  {
    var after := Learn(s, EndForward(w, r), h);
    MoreAnswers(s, h, after);
    var pc := EndStep(s, w, r).workers[w];
    assert Answer(pc.id, r, s.workers[w].wrote) in after.answers;
    MoveBacked(s.workers, w, pc, after.answers);
  }

  lemma MoreAnswers(s: State, h: History, more: History)
    requires Backed(s, h) && more.submitted == h.submitted && h.answers <= more.answers
    ensures Backed(s, more)
  {
    forall id <- s.db.tasks
      ensures RowBacked(s.db.tasks[id], id, more)
    {
      MoreForRow(s.db.tasks[id], id, h.answers, more.answers);
    }
  }

  lemma MoreForRow(row: Row, id: TaskId, answers: set<Answer>, more: set<Answer>)
    requires VerdictBacked(row, id, answers) && answers <= more
    ensures VerdictBacked(row, id, more)
  {
  }

  lemma FinishEventBacked(s: State, w: nat, now: int, fault: Fault, h: History)
    requires Backed(s, h) && w < |s.workers| && s.workers[w].Finishing?
    ensures Backed(FinishStep(s, w, now, fault), h)
  {
    assert WorkerBacked(s.workers[w], h.answers);
    var a :| a in h.answers && a.id == s.workers[w].id && s.workers[w].outcome == Forwarder.Classify(a.result, a.wrote);
    FinishBacked(s.db, h, a, now);
    MoveBacked(s.workers, w, Idle, h.answers);
  }

  lemma BeginBacked(s: State, w: nat, workerId: string, now: int, fault: Fault, h: History)
    requires Backed(s, h) && w < |s.workers| && s.workers[w].PayloadLoaded?
    ensures Backed(BeginStep(s, w, workerId, now, fault), h)
  {
    StatusBacked(s.db, h, s.workers[w].id, workerId, now);
    MoveBacked(s.workers, w, Idle, h.answers);
    MoveBacked(s.workers, w, Forwarding(s.workers[w].id, false), h.answers);
  }

  lemma WroteBacked(s: State, id: TaskId, h: History)
    requires Backed(s, h)
    ensures Backed(WroteStep(s, id), h)
  {
    forall i | 0 <= i < |s.workers|
      ensures WorkerBacked(SetWrote(s.workers, id)[i], h.answers)
    {
      assert WorkerBacked(s.workers[i], h.answers);
    }
  }

  lemma AttemptBacked(c: Config, s: State, e: Event, h: History)
    requires Backed(s, h) && Enabled(c, s, e) && (e.BeginWrite? || e.EndWrite?)
    ensures Backed(Step(c, s, e), h)
  {
    assert Step(c, s, e).db == s.db && Step(c, s, e).workers == s.workers;
  }

  lemma WriteEventBacked(c: Config, s: State, e: Event, h: History)
    requires Backed(s, h) && Enabled(c, s, e) && IsWriteEvent(e)
    ensures Backed(Step(c, s, e), h)
  {
    if e.WroteRequest? {
      WroteBacked(s, e.id, h);
    } else if e.StoreMark? {
      StatusBacked(s.db, h, e.id, "", e.now);
    } else {
      AttemptBacked(c, s, e, h);
    }
  }

  lemma LoadBacked(c: Config, s: State, e: Event, h: History)
    requires Backed(s, h) && Enabled(c, s, e) && (e.LoadTask? || e.LoadPayload?)
    ensures Backed(Step(c, s, e), h)
  {
    MoveBacked(s.workers, e.w, Idle, h.answers);
    MoveBacked(s.workers, e.w, TaskLoaded(s.workers[e.w].id), h.answers);
    MoveBacked(s.workers, e.w, PayloadLoaded(s.workers[e.w].id), h.answers);
  }

  lemma IdleBacked(c: Config, s: State, e: Event, h: History)
    requires Backed(s, h) && Enabled(c, s, e) && (e.Dequeue? || e.WorkerExit? || e.Heartbeat?)
    ensures Backed(Step(c, s, e), h)
  {
    if e.Dequeue? {
      MoveBacked(s.workers, e.w, Dequeued(s.queue[0]), h.answers);
    } else if e.WorkerExit? {
      MoveBacked(s.workers, e.w, Exited, h.answers);
    } else {
      StatusBacked(s.db, h, s.workers[e.w].id, "", e.now);
    }
  }

  lemma WorkerEventBacked(c: Config, s: State, e: Event, h: History)
    requires Backed(s, h) && Enabled(c, s, e) && IsWorkerEvent(e)
    ensures Backed(Step(c, s, e), Learn(s, e, h))
  {
    if e.EndForward? {
      EndBacked(s, e.w, e.result, h);
    } else if e.Finish? {
      FinishEventBacked(s, e.w, e.now, e.fault, h);
    } else if e.BeginForward? {
      BeginBacked(s, e.w, e.workerId, e.now, e.fault, h);
    } else if IsWriteEvent(e) {
      WriteEventBacked(c, s, e, h);
    } else if e.LoadTask? || e.LoadPayload? {
      LoadBacked(c, s, e, h);
    } else {
      IdleBacked(c, s, e, h);
    }
  }

  lemma ScanStatementBacked(s: State, db: Db, fault: Fault, next: Phase, h: History)
    requires Backed(s, h) && TablesBacked(db, h)
    ensures Backed(AfterScanStatement(s, db, fault, next), h)
  {
  }

  /** The scan fails a task for want of a payload, or leaves it uncertain, only if it was dispatched. */
  lemma DecideBacked(s: State, cutoff: int, now: int, fault: Fault, h: History)
    requires Inv(s) && Backed(s, h) && Scanning(s, AtDecide)
    ensures Backed(DecideStep(s, cutoff, now, fault), h)
  {
    var item := s.phase.items[0];
    assert ItemOk(s.db, s.enqueued, item, false) && RowOk(item.row);
    match Recovery.Decide(item, cutoff) {
      case SkipFresh => {}
      case FailPayloadMissing => {
        ScanFinishBacked(s.db, h, item.id, now);
        var db := FinishFailed(s.db, item.id, Recovery.PAYLOAD_MISSING_CODE, Recovery.PAYLOAD_MISSING_MESSAGE, now);
        ScanStatementBacked(s, db, fault, Rest(s), h);
      }
      case LeaveUncertain => {
        ScanFinishBacked(s.db, h, item.id, now);
        var db := MarkUncertain(s.db, item.id, Recovery.UNCERTAIN_CODE, Recovery.UNCERTAIN_MESSAGE, now);
        ScanStatementBacked(s, db, fault, Rest(s), h);
      }
      case Requeue => {
        StatusBacked(s.db, h, item.id, "", now);
        ScanStatementBacked(s, MarkQueued(s.db, item.id), fault, s.phase.(pc := AtEnqueue), h);
      }
    }
  }

  lemma ScanRefuseBacked(s: State, now: int, fault: Fault, h: History)
    requires Backed(s, h) && Scanning(s, AtRefused)
    ensures var id := s.phase.items[0].id;
            var db := FinishFailed(s.db, id, Recovery.QUEUE_FULL_CODE, Recovery.QUEUE_FULL_MESSAGE, now);
            Backed(AfterScanStatement(s, db, fault, Rest(s)), h)
  {
    QueueFullBacked(s.db, h, s.phase.items[0].id, now);
  }

  lemma ScanEventBacked(c: Config, s: State, e: Event, h: History)
    requires Inv(s) && Backed(s, h) && Enabled(c, s, e) && IsScanEvent(e)
    ensures Backed(Step(c, s, e), Learn(s, e, h))
  {
    if e.ScanDecide? {
      DecideBacked(s, e.cutoff, e.now, e.fault, h);
    } else if e.ScanRefuse? {
      ScanRefuseBacked(s, e.now, e.fault, h);
    }
  }

  lemma SubmitBacked(s: State, id: TaskId, request: string, payload: Payload, now: int, fault: Fault, h: History)
    requires Inv(s) && Backed(s, h) && s.admitted > 0 && id !in s.used
    ensures Backed(SubmitStep(s, id, request, payload, now, fault),
                   h.(submitted := h.submitted[id := Submission(request, payload, now)]))
  {
    CreateBacked(s.db, h, id, request, payload, now);
  }

  lemma OtherEventBacked(c: Config, s: State, e: Event, h: History)
    requires Backed(s, h) && Enabled(c, s, e) && !IsWorkerEvent(e) && !IsScanEvent(e) && !e.Submit?
    ensures Backed(Step(c, s, e), Learn(s, e, h))
  {
    match e
    case SubmitMarkQueued(id, fault) => StatusBacked(s.db, h, id, "", 0);
    case SubmitRefuse(id, now, fault) => QueueFullBacked(s.db, h, id, now);
    case CleanTasks(victims, _, _) => CleanBacked(s.db, h, victims, 0);
    case CleanPayloads(victims, _, _) => CleanBacked(s.db, h, victims, 0);
    case ForceUncertain(now, _) => CleanBacked(s.db, h, {}, now);
    case _ =>
  }

  lemma StepBacked(c: Config, s: State, e: Event, h: History)
    requires Inv(s) && Backed(s, h) && Enabled(c, s, e)
    ensures Backed(Step(c, s, e), Learn(s, e, h))
  {
    if IsWorkerEvent(e) {
      WorkerEventBacked(c, s, e, h);
    } else if IsScanEvent(e) {
      ScanEventBacked(c, s, e, h);
    } else if e.Submit? {
      SubmitBacked(s, e.id, e.request, e.payload, e.now, e.fault, h);
    } else {
      OtherEventBacked(c, s, e, h);
    }
  }

  lemma {:induction false} RunBacked(c: Config, s: State, es: seq<Event>, h: History)
    requires Inv(s) && Backed(s, h) && IsRun(c, s, es)
    ensures Backed(After(c, s, es), HistoryOf(c, s, es, h))
    decreases |es|
  {
    if es != [] {
      StepInv(c, s, es[0]);
      StepBacked(c, s, es[0], h);
      RunBacked(c, Step(c, s, es[0]), es[1..], Learn(s, es[0], h));
    }
  }

  /** In every run: a task that succeeded has the summary of a 200 answer that a forward of it
      got, a failed one the code and message of such an answer unless the queue was full or its
      payload expired after dispatch, and an uncertain one had such an answer break off, or was
      dispatched; its request and its payload are those submitted under its id. */
  lemma VerdictsAreAnswers(c: Config, es: seq<Event>, id: TaskId)
    requires IsRun(c, INITIAL, es)
    ensures var db, h := After(c, INITIAL, es).db, HistoryOf(c, INITIAL, es, NOTHING);
            && (id in db.tasks ==> RowBacked(db.tasks[id], id, h))
            && (id in db.payloads ==> id in h.submitted && db.payloads[id] == h.submitted[id].payload)
  {
    InitialInv();
    RunBacked(c, INITIAL, es, NOTHING);
  }
}
