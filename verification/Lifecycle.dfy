/** One gateway process after another over one database, as a state machine. Each event is
    one atomic step of a submit handler, the recovery scan, a worker, the HTTP transport, the
    cleaner or the shutdown; any order of enabled events is a run. */
module Lifecycle {
  import opened Wrappers
  import opened TaskStore
  import Forwarder
  import Recovery

  /** Defaulted configuration: the source raises a queue capacity or worker count below one to one. */
  datatype Config = Config(capacity: nat, workerCount: nat, scanLimit: nat) {
    predicate Valid() { capacity >= 1 && workerCount >= 1 }
  }

  /** Where a submit handler stands: row created, row marked queued, or refused by the queue. */
  datatype HandlerPc = RowCreated | RowQueued | QueueRefused

  datatype WorkerPc =
    | Idle
    | Dequeued(id: TaskId)
    | TaskLoaded(id: TaskId)
    | PayloadLoaded(id: TaskId)
    | Forwarding(id: TaskId, wrote: bool)
    | Finishing(id: TaskId, outcome: Forwarder.ForwardOutcome)
    | Exited
  {
    predicate Holds(t: TaskId) { !Idle? && !Exited? && id == t }
    /** Holds the task, but has not begun to forward it. */
    predicate Preparing(t: TaskId) { (Dequeued? || TaskLoaded? || PayloadLoaded?) && id == t }
  }

  /** What the scan does next with the first of its remaining items. */
  datatype ScanPc = AtDecide | AtEnqueue | AtRefused

  datatype Phase = Down | Recovering(items: seq<ScanItem>, pc: ScanPc) | Serving

  /** The request bodies on the wire: `inflight` are the tasks an attempt to write whose request
      is under way, perhaps after their worker has moved on. The rest is history, one entry
      an attempt: `sent` those that put the whole request on the wire, `broken` those that
      failed before, `again` those after the first of their forward, of which the gateway
      learns nothing (the transport retries, and follows a redirect that keeps the body). */
  datatype Wire = Wire(
    inflight: set<TaskId>,
    sent: multiset<TaskId>,
    broken: multiset<TaskId>,
    again: multiset<TaskId>)

  /** `admitted` counts requests that have passed the draining gate but not yet created
      their row. `db` is durable; the fields from `phase` to `marking` die with the process.
      A forwarded task goes from `unwritten` (no attempt to write its request has ended) to
      `hooks` (the first one has, whole or broken, and its write hook is still to run) to
      `marking` (the hook has set the worker's flag and has the dispatch mark still to
      store), even if its worker has moved on. The rest is history for stating properties:
      `used` ids ever created; `enqueued`, `dequeued` by this process in order; `served`
      tasks this process accepted (202) or requeued; `dropped` those whose worker had a
      repository call fail; `writes` the forwards in which an attempt to write has ended;
      `lostMarks` those of them whose dispatch mark was not stored. */
  datatype State = State(
    db: Db,
    phase: Phase,
    handlers: map<TaskId, HandlerPc>,
    queue: seq<TaskId>,
    closed: bool,
    draining: bool,
    admitted: nat,
    workers: seq<WorkerPc>,
    unwritten: set<TaskId>,
    hooks: set<TaskId>,
    marking: set<TaskId>,
    wire: Wire,
    used: set<TaskId>,
    enqueued: seq<TaskId>,
    dequeued: seq<TaskId>,
    served: set<TaskId>,
    dropped: set<TaskId>,
    writes: multiset<TaskId>,
    lostMarks: multiset<TaskId>)

  datatype Event =
    | Start(items: seq<ScanItem>, staleBefore: int)
    | ScanDecide(cutoff: int, now: int, fault: Fault)
    | ScanEnqueue
    | ScanRefuse(now: int, fault: Fault)
    | ScanDone
    | Admit
    | Submit(id: TaskId, request: string, payload: Payload, now: int, fault: Fault)
    | SubmitMarkQueued(id: TaskId, fault: Fault)
    | SubmitEnqueue(id: TaskId)
    | SubmitRefuse(id: TaskId, now: int, fault: Fault)
    | Dequeue(w: nat)
    | WorkerExit(w: nat)
    | LoadTask(w: nat, fault: Fault)
    | LoadPayload(w: nat, fault: Fault)
    | BeginForward(w: nat, workerId: string, now: int, fault: Fault)
    | BeginWrite(w: nat)
    | EndWrite(id: TaskId, whole: bool)
    | WroteRequest(id: TaskId)
    | StoreMark(id: TaskId, now: int, fault: Fault)
    | EndForward(w: nat, result: Forwarder.UpstreamResult)
    | Finish(w: nat, now: int, fault: Fault)
    | Heartbeat(w: nat, now: int, fault: Fault)
    | CleanTasks(victims: set<TaskId>, finishedBefore: int, fault: Fault)
    | CleanPayloads(victims: set<TaskId>, expiresBefore: int, fault: Fault)
    | StartDraining
    | CloseQueue
    | ForceUncertain(now: int, fault: Fault)
    | Crash

  predicate IsScanEvent(e: Event) {
    e.Start? || e.ScanDecide? || e.ScanEnqueue? || e.ScanRefuse? || e.ScanDone?
  }

  predicate IsSubmitEvent(e: Event) {
    e.Admit? || e.Submit? || e.SubmitMarkQueued? || e.SubmitEnqueue? || e.SubmitRefuse?
  }

  predicate IsWorkerEvent(e: Event) {
    || e.Dequeue? || e.WorkerExit? || e.LoadTask? || e.LoadPayload? || e.BeginForward? || e.EndForward?
    || e.Finish? || e.Heartbeat? || IsWriteEvent(e)
  }

  predicate IsWriteEvent(e: Event) {
    e.BeginWrite? || e.EndWrite? || e.WroteRequest? || e.StoreMark?
  }

  const INITIAL := State(
    Db(map[], map[]), Down, map[], [], false, false, 0, [], {}, {}, {},
    Wire({}, multiset{}, multiset{}, multiset{}), {}, [], [], {}, {}, multiset{}, multiset{})

  const FORCED_CODE := "gateway_shutdown_uncertain"
  const FORCED_MESSAGE := "gateway shutdown grace period elapsed before task completion"

  /** The process ends, by a crash or by returning from main: only database and history stay.
      Marks still to be stored are lost, and so are those whose hook is still to run. */
  function Stop(s: State): State {
    INITIAL.(db := s.db, used := s.used, wire := s.wire.(inflight := {}), writes := s.writes,
    lostMarks := s.lostMarks + multiset(s.hooks) + multiset(s.marking))
  }

  function Rest(s: State): Phase
    requires s.phase.Recovering? && s.phase.items != []
  {
    Recovering(s.phase.items[1..], AtDecide)
  }

  function SetWrote(workers: seq<WorkerPc>, id: TaskId): seq<WorkerPc> {
    seq(|workers|, i requires 0 <= i < |workers| =>
      if workers[i].Forwarding? && workers[i].id == id then workers[i].(wrote := true) else workers[i])
  }

  predicate Scanning(s: State, pc: ScanPc) {
    s.phase.Recovering? && s.phase.items != [] && s.phase.pc == pc
  }

  predicate At(s: State, w: nat) {
    s.phase.Serving? && w < |s.workers|
  }

  /** No attempt to write the request has begun. */
  predicate Untouched(s: State, id: TaskId) {
    id in s.unwritten && id !in s.wire.inflight
  }

  ghost predicate Enabled(c: Config, s: State, e: Event) {
    match e
    case Start(items, staleBefore) => s.phase.Down? && IsScanResult(s.db, staleBefore, c.scanLimit, items)
    case ScanDecide(_, _, _) => Scanning(s, AtDecide)
    case ScanEnqueue => Scanning(s, AtEnqueue)
    case ScanRefuse(_, _) => Scanning(s, AtRefused)
    case ScanDone => s.phase == Recovering([], AtDecide)
    case Admit => s.phase.Serving? && !s.draining
    case Submit(id, _, _, _, _) => s.phase.Serving? && s.admitted > 0 && id !in s.used
    case SubmitMarkQueued(id, _) => s.phase.Serving? && id in s.handlers && s.handlers[id] == RowCreated
    case SubmitEnqueue(id) => s.phase.Serving? && id in s.handlers && s.handlers[id] == RowQueued
    case SubmitRefuse(id, _, _) => s.phase.Serving? && id in s.handlers && s.handlers[id] == QueueRefused
    case Dequeue(w) => At(s, w) && s.workers[w].Idle? && s.queue != []
    case WorkerExit(w) => At(s, w) && s.workers[w].Idle? && s.closed && s.queue == []
    case LoadTask(w, _) => At(s, w) && s.workers[w].Dequeued?
    case LoadPayload(w, _) => At(s, w) && s.workers[w].TaskLoaded?
    case BeginForward(w, _, _, _) => At(s, w) && s.workers[w].PayloadLoaded?
    case BeginWrite(w) => At(s, w) && s.workers[w].Forwarding? && s.workers[w].id !in s.wire.inflight
    case EndWrite(id, _) => s.phase.Serving? && id in s.wire.inflight
    case WroteRequest(id) => s.phase.Serving? && id in s.hooks
    case StoreMark(id, _, _) => s.phase.Serving? && id in s.marking
    case EndForward(w, result) =>
      At(s, w) && s.workers[w].Forwarding? && (result.NotSent? ==> Untouched(s, s.workers[w].id))
    case Finish(w, _, _) => At(s, w) && s.workers[w].Finishing?
    case Heartbeat(w, _, _) => At(s, w) && s.workers[w].Forwarding?
    case CleanTasks(victims, before, _) =>
      s.phase.Serving? && forall id :: id in victims ==> ExpiredTask(s.db, id, before)
    case CleanPayloads(victims, before, _) =>
      s.phase.Serving? && forall id :: id in victims ==> ExpiredPayload(s.db, id, before)
    case StartDraining => s.phase.Serving?
    case CloseQueue => s.phase.Serving? && s.draining
    case ForceUncertain(_, _) => s.phase.Serving? && s.closed
    case Crash => true
  }

  /** TryEnqueue, as one step. */
  predicate CanEnqueue(c: Config, s: State) {
    !s.closed && |s.queue| < c.capacity
  }

  function Enqueue(s: State, id: TaskId): State {
    s.(queue := s.queue + [id], enqueued := s.enqueued + [id], served := s.served + {id})
  }

  function SetWorker(s: State, w: nat, pc: WorkerPc): State
    requires w < |s.workers|
  {
    s.(workers := s.workers[w := pc])
  }

  function Drop(s: State, w: nat): State
    requires w < |s.workers| && !s.workers[w].Idle? && !s.workers[w].Exited?
  {
    s.(workers := s.workers[w := Idle], dropped := s.dropped + {s.workers[w].id})
  }

  /** A scan statement that fails makes the scan fail, and with it the process. */
  function AfterScanStatement(s: State, db: Db, fault: Fault, next: Phase): State {
    if fault.NoFault? then s.(db := db, phase := next) else Stop(s.(db := Outcome(fault, s.db, db)))
  }

  function DecideStep(s: State, cutoff: int, now: int, fault: Fault): State
    requires Scanning(s, AtDecide)
  {
    var item := s.phase.items[0];
    match Recovery.Decide(item, cutoff)
    case SkipFresh => s.(phase := Rest(s))
    case FailPayloadMissing =>
      var db := FinishFailed(s.db, item.id, Recovery.PAYLOAD_MISSING_CODE, Recovery.PAYLOAD_MISSING_MESSAGE, now);
      AfterScanStatement(s, db, fault, Rest(s))
    case LeaveUncertain =>
      var db := MarkUncertain(s.db, item.id, Recovery.UNCERTAIN_CODE, Recovery.UNCERTAIN_MESSAGE, now);
      AfterScanStatement(s, db, fault, Rest(s))
    case Requeue =>
      AfterScanStatement(s, MarkQueued(s.db, item.id), fault, s.phase.(pc := AtEnqueue))
  }

  function EndAttempt(wire: Wire, id: TaskId, whole: bool, first: bool): Wire {
    Wire(wire.inflight - {id},
         if whole then wire.sent + multiset{id} else wire.sent,
         if whole then wire.broken else wire.broken + multiset{id},
         if first then wire.again else wire.again + multiset{id})
  }

  /** An attempt to write the request ends; only after the first of its forward does the hook run. */
  function EndWriteStep(s: State, id: TaskId, whole: bool): State {
    var t := s.(wire := EndAttempt(s.wire, id, whole, id in s.unwritten));
    if id in s.unwritten
    then t.(unwritten := s.unwritten - {id}, hooks := s.hooks + {id}, writes := s.writes + multiset{id})
    else t
  }

  /** The write hook, first half: whether or not the write failed, it sets the worker's flag. */
  function WroteStep(s: State, id: TaskId): State {
    s.(hooks := s.hooks - {id}, marking := s.marking + {id}, workers := SetWrote(s.workers, id))
  }

  /** Second half: it stores the dispatch mark and ignores a failure to do so. */
  function MarkStep(s: State, id: TaskId, now: int, fault: Fault): State {
    var stored := !fault.Lost? && id in s.db.tasks;
    s.(db := Outcome(fault, s.db, MarkRequestDispatched(s.db, id, now)), marking := s.marking - {id},
    lostMarks := if stored then s.lostMarks else s.lostMarks + multiset{id})
  }

  function FinishStatement(db: Db, id: TaskId, o: Forwarder.ForwardOutcome, now: int): Db {
    if o.transportUncertain then MarkUncertain(db, id, o.errorCode, o.errorMessage, now)
    else if o.errorCode != "" then FinishFailed(db, id, o.errorCode, o.errorMessage, now)
    else FinishSucceeded(db, id, o.summary, now)
  }

  function RemoveHandler(s: State, id: TaskId): State {
    s.(handlers := s.handlers - {id})
  }

  function SubmitStep(s: State, id: TaskId, request: string, payload: Payload, now: int, fault: Fault): State
    requires s.admitted > 0
  {
    var db := Outcome(fault, s.db, CreateAccepted(s.db, id, request, payload, now));
    s.(admitted := s.admitted - 1, db := db, used := s.used + {id},
    handlers := if fault.NoFault? then s.handlers[id := RowCreated] else s.handlers)
  }

  function MarkQueuedStep(s: State, id: TaskId, fault: Fault): State {
    s.(db := Outcome(fault, s.db, MarkQueued(s.db, id)),
    handlers := if fault.NoFault? then s.handlers[id := RowQueued] else s.handlers - {id})
  }

  function RefuseStep(s: State, id: TaskId, now: int, fault: Fault): State {
    var db := FinishFailed(s.db, id, Recovery.QUEUE_FULL_CODE, Recovery.QUEUE_FULL_MESSAGE, now);
    RemoveHandler(s.(db := Outcome(fault, s.db, db)), id)
  }

  function DequeueStep(s: State, w: nat): State
    requires w < |s.workers| && s.queue != []
  {
    var id := s.queue[0];
    s.(queue := s.queue[1..], dequeued := s.dequeued + [id], workers := s.workers[w := Dequeued(id)])
  }

  function LoadTaskStep(s: State, w: nat, fault: Fault): State
    requires w < |s.workers| && s.workers[w].Dequeued?
  {
    var id := s.workers[w].id;
    if fault.NoFault? && id in s.db.tasks then SetWorker(s, w, TaskLoaded(id)) else Drop(s, w)
  }

  function LoadPayloadStep(s: State, w: nat, fault: Fault): State
    requires w < |s.workers| && s.workers[w].TaskLoaded?
  {
    var id := s.workers[w].id;
    if fault.NoFault? && id in s.db.payloads then SetWorker(s, w, PayloadLoaded(id)) else Drop(s, w)
  }

  /** Marks the task running and calls the forwarder, or gives the task up. */
  function BeginStep(s: State, w: nat, workerId: string, now: int, fault: Fault): State
    requires w < |s.workers| && s.workers[w].PayloadLoaded?
  {
    var id := s.workers[w].id;
    var t := s.(db := Outcome(fault, s.db, MarkRunning(s.db, id, workerId, now)));
    if fault.NoFault? && id in s.db.tasks
    then SetWorker(t.(unwritten := t.unwritten + {id}), w, Forwarding(id, false))
    else Drop(t, w)
  }

  /** The forwarder returns; the request was not even sent if it failed before the HTTP client. */
  function EndStep(s: State, w: nat, result: Forwarder.UpstreamResult): State
    requires w < |s.workers| && s.workers[w].Forwarding?
  {
    var id := s.workers[w].id;
    var t := if result.NotSent? then s.(unwritten := s.unwritten - {id}) else s;
    SetWorker(t, w, Finishing(id, Forwarder.Classify(result, s.workers[w].wrote)))
  }

  function FinishStep(s: State, w: nat, now: int, fault: Fault): State
    requires w < |s.workers| && s.workers[w].Finishing?
  {
    var t := s.(db := Outcome(fault, s.db, FinishStatement(s.db, s.workers[w].id, s.workers[w].outcome, now)));
    if fault.NoFault? then SetWorker(t, w, Idle) else Drop(t, w)
  }

  function StatementStep(s: State, fault: Fault, db: Db): State {
    s.(db := Outcome(fault, s.db, db))
  }

  ghost function Step(c: Config, s: State, e: Event): State
    requires Enabled(c, s, e)
  {
    match e
    case Start(items, _) => s.(phase := Recovering(items, AtDecide))
    case ScanDecide(cutoff, now, fault) => DecideStep(s, cutoff, now, fault)
    case ScanEnqueue =>
      if CanEnqueue(c, s) then Enqueue(s, s.phase.items[0].id).(phase := Rest(s))
      else s.(phase := s.phase.(pc := AtRefused))
    case ScanRefuse(now, fault) =>
      var id := s.phase.items[0].id;
      var db := FinishFailed(s.db, id, Recovery.QUEUE_FULL_CODE, Recovery.QUEUE_FULL_MESSAGE, now);
      AfterScanStatement(s, db, fault, Rest(s))
    case ScanDone => s.(phase := Serving, workers := seq(c.workerCount, _ => Idle))
    case Admit => s.(admitted := s.admitted + 1)
    case Submit(id, request, payload, now, fault) => SubmitStep(s, id, request, payload, now, fault)
    case SubmitMarkQueued(id, fault) => MarkQueuedStep(s, id, fault)
    case SubmitEnqueue(id) =>
      if CanEnqueue(c, s) then RemoveHandler(Enqueue(s, id), id) else s.(handlers := s.handlers[id := QueueRefused])
    case SubmitRefuse(id, now, fault) => RefuseStep(s, id, now, fault)
    case Dequeue(w) => DequeueStep(s, w)
    case WorkerExit(w) => SetWorker(s, w, Exited)
    case LoadTask(w, fault) => LoadTaskStep(s, w, fault)
    case LoadPayload(w, fault) => LoadPayloadStep(s, w, fault)
    case BeginForward(w, workerId, now, fault) => BeginStep(s, w, workerId, now, fault)
    case BeginWrite(w) => s.(wire := s.wire.(inflight := s.wire.inflight + {s.workers[w].id}))
    case EndWrite(id, whole) => EndWriteStep(s, id, whole)
    case WroteRequest(id) => WroteStep(s, id)
    case StoreMark(id, now, fault) => MarkStep(s, id, now, fault)
    case EndForward(w, result) => EndStep(s, w, result)
    case Finish(w, now, fault) => FinishStep(s, w, now, fault)
    case Heartbeat(w, now, fault) => StatementStep(s, fault, UpdateHeartbeat(s.db, s.workers[w].id, now))
    case CleanTasks(victims, _, fault) => StatementStep(s, fault, DeleteTasks(s.db, victims))
    case CleanPayloads(victims, _, fault) => StatementStep(s, fault, DeletePayloads(s.db, victims))
    case StartDraining => s.(draining := true)
    case CloseQueue => s.(closed := true)
    case ForceUncertain(now, fault) =>
      StatementStep(s, fault, MarkDispatchedRunningUncertain(s.db, FORCED_CODE, FORCED_MESSAGE, now))
    case Crash => Stop(s)
  }

  ghost predicate IsRun(c: Config, s: State, es: seq<Event>)
    decreases |es|
  {
    es == [] || (Enabled(c, s, es[0]) && IsRun(c, Step(c, s, es[0]), es[1..]))
  }

  ghost function After(c: Config, s: State, es: seq<Event>): State
    requires IsRun(c, s, es)
    decreases |es|
  {
    if es == [] then s else After(c, Step(c, s, es[0]), es[1..])
  }
}
