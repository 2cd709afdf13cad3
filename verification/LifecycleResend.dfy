/** Exactly when a request can be sent once more. */
module LifecycleResend {
  import opened Wrappers
  import opened TaskStore
  import opened Lifecycle
  import opened LifecycleInvariant
  import opened LifecycleSteps
  import opened LifecycleTheorems
  import opened LifecycleReach
  import opened LifecycleWitnesses
  import Forwarder
  import Recovery
  import Repository

  // ----- Never again -----

  ghost predicate Forwards(workers: seq<WorkerPc>, id: TaskId) {
    exists w :: 0 <= w < |workers| && workers[w].Forwarding? && workers[w].id == id
  }

  /** The transport has nothing to write for it, no forward of it is under way, and its row is
      finished, dispatched or gone. */
  ghost predicate Spent(s: State, id: TaskId) {
    id in s.used && id !in s.wire.inflight && !Forwards(s.workers, id) && (Sealed(s.db, id) || Settled(s.db, id))
  }

  /** Nothing is written for the task, and nothing comes closer to it. */
  ghost predicate StaysQuiet(s: State, t: State, id: TaskId) {
    id !in t.wire.inflight && !Forwards(t.workers, id) && t.wire.sent[id] == s.wire.sent[id]
  }

  lemma KeepsSpent(a: Db, b: Db, used: set<TaskId>, id: TaskId)
    requires Keeps(a, b, used) && id in used && (Sealed(a, id) || Settled(a, id))
    ensures Sealed(b, id) || Settled(b, id)
  {
  }

  lemma MoveForwards(workers: seq<WorkerPc>, w: nat, pc: WorkerPc, id: TaskId)
    requires w < |workers| && !Forwards(workers, id) && !(pc.Forwarding? && pc.id == id)
    ensures !Forwards(workers[w := pc], id)
  {
    var after := workers[w := pc];
    forall v | 0 <= v < |after|
      ensures !(after[v].Forwarding? && after[v].id == id)
    {
      assert v != w ==> after[v] == workers[v];
    }
  }

  lemma WroteForwards(workers: seq<WorkerPc>, hook: TaskId, id: TaskId)
    requires !Forwards(workers, id)
    ensures !Forwards(SetWrote(workers, hook), id)
  {
    var after := SetWrote(workers, hook);
    forall v | 0 <= v < |after|
      ensures !(after[v].Forwarding? && after[v].id == id)
    {
      assert !(workers[v].Forwarding? && workers[v].id == id);
    }
  }

  /** Only a task that is neither finished nor dispatched is forwarded. */
  lemma BeginQuiet(s: State, w: nat, workerId: string, now: int, fault: Fault, id: TaskId)
    requires Spent(s, id) && w < |s.workers| && s.workers[w].PayloadLoaded? && s.workers[w].id != id
    ensures StaysQuiet(s, BeginStep(s, w, workerId, now, fault), id)
  {
    MoveForwards(s.workers, w, Forwarding(s.workers[w].id, false), id);
    MoveForwards(s.workers, w, Idle, id);
  }

  lemma WriteQuiet(c: Config, s: State, e: Event, id: TaskId)
    requires Enabled(c, s, e) && Spent(s, id) && IsWriteEvent(e)
    ensures StaysQuiet(s, Step(c, s, e), id)
  {
    if e.WroteRequest? { WroteForwards(s.workers, e.id, id); }
  }

  lemma LoadTaskQuiet(s: State, w: nat, fault: Fault, id: TaskId)
    requires Spent(s, id) && w < |s.workers| && s.workers[w].Dequeued?
    ensures StaysQuiet(s, LoadTaskStep(s, w, fault), id)
  {
    MoveForwards(s.workers, w, TaskLoaded(s.workers[w].id), id);
    MoveForwards(s.workers, w, Idle, id);
  }

  lemma LoadPayloadQuiet(s: State, w: nat, fault: Fault, id: TaskId)
    requires Spent(s, id) && w < |s.workers| && s.workers[w].TaskLoaded?
    ensures StaysQuiet(s, LoadPayloadStep(s, w, fault), id)
  {
    MoveForwards(s.workers, w, PayloadLoaded(s.workers[w].id), id);
    MoveForwards(s.workers, w, Idle, id);
  }

  lemma EndQuiet(s: State, w: nat, result: Forwarder.UpstreamResult, id: TaskId)
    requires Spent(s, id) && w < |s.workers| && s.workers[w].Forwarding?
    ensures StaysQuiet(s, EndStep(s, w, result), id)
  {
    MoveForwards(s.workers, w, Finishing(s.workers[w].id, Forwarder.Classify(result, s.workers[w].wrote)), id);
  }

  lemma FinishQuiet(s: State, w: nat, now: int, fault: Fault, id: TaskId)
    requires Spent(s, id) && w < |s.workers| && s.workers[w].Finishing?
    ensures StaysQuiet(s, FinishStep(s, w, now, fault), id)
  {
    MoveForwards(s.workers, w, Idle, id);
  }

  lemma IdleQuiet(c: Config, s: State, e: Event, id: TaskId)
    requires Enabled(c, s, e) && Spent(s, id) && (e.Dequeue? || e.WorkerExit? || e.Heartbeat?)
    ensures StaysQuiet(s, Step(c, s, e), id)
  {
    if e.Dequeue? {
      MoveForwards(s.workers, e.w, Dequeued(s.queue[0]), id);
    } else if e.WorkerExit? {
      MoveForwards(s.workers, e.w, Exited, id);
    }
  }

  /** What a worker may do next besides forwarding. */
  lemma WorkerQuiet(c: Config, s: State, e: Event, id: TaskId)
    requires Enabled(c, s, e) && Spent(s, id) && IsWorkerEvent(e) && !IsWriteEvent(e) && !e.BeginForward?
    ensures StaysQuiet(s, Step(c, s, e), id)
  {
    match e
    case LoadTask(w, fault) => LoadTaskQuiet(s, w, fault, id);
    case LoadPayload(w, fault) => LoadPayloadQuiet(s, w, fault, id);
    case EndForward(w, result) => EndQuiet(s, w, result, id);
    case Finish(w, now, fault) => FinishQuiet(s, w, now, fault, id);
    case _ => IdleQuiet(c, s, e, id);
  }

  lemma DecideQuiet(s: State, cutoff: int, now: int, fault: Fault, id: TaskId)
    requires Scanning(s, AtDecide) && Spent(s, id)
    ensures StaysQuiet(s, DecideStep(s, cutoff, now, fault), id)
  {
  }

  lemma ScanQuiet(c: Config, s: State, e: Event, id: TaskId)
    requires Enabled(c, s, e) && Spent(s, id) && IsScanEvent(e)
    ensures StaysQuiet(s, Step(c, s, e), id)
  {
    if e.ScanDecide? { DecideQuiet(s, e.cutoff, e.now, e.fault, id); }
  }

  lemma OtherQuiet(c: Config, s: State, e: Event, id: TaskId)
    requires Enabled(c, s, e) && Spent(s, id) && !IsWorkerEvent(e) && !IsScanEvent(e)
    ensures StaysQuiet(s, Step(c, s, e), id)
  {
  }

  lemma BeginEventQuiet(c: Config, s: State, e: Event, id: TaskId)
    requires Inv(s) && Enabled(c, s, e) && Spent(s, id) && e.BeginForward?
    ensures StaysQuiet(s, Step(c, s, e), id)
  {
    assert s.workers[e.w].Preparing(s.workers[e.w].id);
    HolderUnfinished(s, s.workers[e.w].id);
    BeginQuiet(s, e.w, e.workerId, e.now, e.fault, id);
  }

  lemma StepSpent(c: Config, s: State, e: Event, id: TaskId)
    requires Inv(s) && Enabled(c, s, e) && Spent(s, id)
    ensures Spent(Step(c, s, e), id) && Step(c, s, e).wire.sent[id] == s.wire.sent[id]
  {
    StepKeeps(c, s, e);
    KeepsSpent(s.db, Step(c, s, e).db, s.used, id);
    if e.BeginForward? {
      BeginEventQuiet(c, s, e, id);
    } else if IsWriteEvent(e) {
      WriteQuiet(c, s, e, id);
    } else if IsWorkerEvent(e) {
      WorkerQuiet(c, s, e, id);
    } else if IsScanEvent(e) {
      ScanQuiet(c, s, e, id);
    } else {
      OtherQuiet(c, s, e, id);
    }
  }

  lemma {:induction false} SpentForGood(c: Config, s: State, es: seq<Event>, id: TaskId)
    requires Inv(s) && IsRun(c, s, es) && Spent(s, id)
    ensures After(c, s, es).wire.sent[id] == s.wire.sent[id]
    decreases |es|
  {
    if es != [] {
      StepInv(c, s, es[0]);
      StepSpent(c, s, es[0], id);
      SpentForGood(c, Step(c, s, es[0]), es[1..], id);
    }
  }

  // ----- Once more -----

  /** A scan that returns every recoverable row. */
  lemma ScanAll(db: Db, staleBefore: int, limit: nat) returns (items: seq<ScanItem>)
    requires |db.tasks| <= limit
    ensures IsScanResult(db, staleBefore, limit, items) && |items| <= |db.tasks|
    ensures forall id :: id in db.tasks && Recoverable(db.tasks[id], staleBefore) ==> Repository.Listed(items, id)
  {
    items := [];
    var rest := set id | id in db.tasks && Recoverable(db.tasks[id], staleBefore);
    SubsetBound(rest, db.tasks.Keys);
    while rest != {}
      invariant |items| + |rest| <= |db.tasks| && Repository.Selected(db, staleBefore, items, rest)
      decreases |rest|
    {
      Repository.OldestExists(db.tasks, rest);
      var id :| id in rest && forall x :: x in rest ==> db.tasks[id].createdAt <= db.tasks[x].createdAt;
      Repository.SelectOne(db, staleBefore, items, rest, id);
      items := items + [ScanItem(id, db.tasks[id], id in db.payloads)];
      rest := rest - {id};
    }
  }

  lemma {:induction false} SubsetBound(a: set<TaskId>, b: set<TaskId>)
    requires a <= b
    ensures |a| <= |b|
  {
    assert b == a + (b - a);
  }

  /** A cutoff later than every heartbeat. */
  lemma {:induction false} LateCutoff(tasks: map<TaskId, Row>) returns (cutoff: int)
    ensures forall id :: id in tasks && tasks[id].heartbeatAt.Some? ==> tasks[id].heartbeatAt.value < cutoff
    decreases |tasks|
  {
    if tasks == map[] {
      cutoff := 0;
    } else {
      var id :| id in tasks;
      var others := tasks - {id};
      cutoff := LateCutoff(others);
      assert forall other :: other in tasks && other != id ==> other in others && others[other] == tasks[other];
      if tasks[id].heartbeatAt.Some? && tasks[id].heartbeatAt.value >= cutoff {
        cutoff := tasks[id].heartbeatAt.value + 1;
      }
    }
  }

  /** The scan will requeue `id`. */
  predicate Awaits(items: seq<ScanItem>, cutoff: int, id: TaskId) {
    exists i :: 0 <= i < |items| && items[i].id == id && Recovery.Decide(items[i], cutoff).Requeue?
  }

  /** One item of the scan, with a queue slot to spare. */
  lemma ScanItemThrough(c: Config, from: State, s: State, cutoff: int, id: TaskId) returns (t: State)
    requires Leads(c, from, s) && Scanning(s, AtDecide) && !s.closed && |s.queue| < c.capacity
    ensures Leads(c, from, t) && t.phase == Rest(s) && !t.closed && t.wire == s.wire && |t.queue| <= |s.queue| + 1
    ensures id in s.queue || Awaits(s.phase.items, cutoff, id) ==>
              id in t.queue || Awaits(s.phase.items[1..], cutoff, id)
  {
    ByDecide(c, from, s, cutoff, 0);
    t := DecideStep(s, cutoff, 0, NoFault);
    if Recovery.Decide(s.phase.items[0], cutoff).Requeue? {
      var mid := t;
      ByScanEnqueue(c, from, mid);
      t := Enqueue(mid, mid.phase.items[0].id).(phase := Rest(mid));
      assert s.phase.items[0].id in t.queue;
    }
    AwaitsNext(s.phase.items, cutoff, id);
  }

  lemma AwaitsNext(items: seq<ScanItem>, cutoff: int, id: TaskId)
    requires items != []
    ensures Awaits(items, cutoff, id) ==>
              Awaits(items[1..], cutoff, id) || (items[0].id == id && Recovery.Decide(items[0], cutoff).Requeue?)
  {
    if i :| 0 < i < |items| && items[i].id == id && Recovery.Decide(items[i], cutoff).Requeue? {
      assert items[1..][i - 1] == items[i];
    }
  }

  /** The whole scan, with room for all its items. */
  lemma {:induction false} ScanThrough(c: Config, from: State, s: State, cutoff: int, id: TaskId) returns (t: State)
    requires Leads(c, from, s) && s.phase.Recovering? && s.phase.pc == AtDecide && !s.closed
    requires |s.queue| + |s.phase.items| <= c.capacity && (id in s.queue || Awaits(s.phase.items, cutoff, id))
    ensures Leads(c, from, t) && t.phase == Recovering([], AtDecide) && id in t.queue && t.wire == s.wire
    decreases |s.phase.items|
  {
    t := s;
    if s.phase.items != [] {
      t := ScanItemThrough(c, from, s, cutoff, id);
      t := ScanThrough(c, from, t, cutoff, id);
    }
  }

  /** A worker whose calls fail gives up task after task, until `id` is next. */
  lemma {:induction false} NextInQueue(c: Config, from: State, s: State, id: TaskId) returns (t: State)
    requires Leads(c, from, s) && s.phase.Serving? && s.workers != [] && s.workers[0].Idle? && id in s.queue
    ensures Leads(c, from, t) && t.phase.Serving? && t.workers != [] && t.workers[0].Idle?
    ensures t.queue != [] && t.queue[0] == id && t.wire == s.wire
    decreases |s.queue|
  {
    t := s;
    if s.queue[0] != id {
      ByDequeue(c, from, s, 0);
      var s1 := DequeueStep(s, 0);
      ByLoadTask(c, from, s1, 0, Lost);
      t := NextInQueue(c, from, LoadTaskStep(s1, 0, Lost), id);
    }
  }

  /** From a restart whose scan requeues `id`, the request is sent again. */
  lemma SendAfterScan(c: Config, from: State, s: State, cutoff: int, id: TaskId) returns (t: State)
    requires c.Valid() && Inv(from) && Leads(c, from, s) && s.phase.Recovering? && s.phase.pc == AtDecide && !s.closed
    requires s.queue == [] && |s.phase.items| <= c.capacity && Awaits(s.phase.items, cutoff, id)
    ensures Leads(c, from, t) && t.wire.sent[id] == s.wire.sent[id] + 1
  {
    var s1 := ScanThrough(c, from, s, cutoff, id);
    ByScanDone(c, from, s1);
    var s2 := s1.(phase := Serving, workers := seq(c.workerCount, _ => Idle));
    var s3 := NextInQueue(c, from, s2, id);
    LeadsInv(c, from, s3);
    assert id in s3.queue;
    var s4 := TakeQueued(c, from, s3, id);
    LeadsInv(c, from, s4);
    t := WriteLoaded(c, from, s4, id, true);
  }

  /** A row that is neither finished nor dispatched is one the scan requeues. */
  lemma ReplayableIsRequeued(db: Db, used: set<TaskId>, id: TaskId, cutoff: int)
    requires DbOk(db, used) && id in db.tasks && Replayable(db.tasks[id])
    requires db.tasks[id].heartbeatAt.Some? ==> db.tasks[id].heartbeatAt.value < cutoff
    ensures Recoverable(db.tasks[id], cutoff)
    ensures Recovery.Decide(ScanItem(id, db.tasks[id], id in db.payloads), cutoff).Requeue?
  {
    assert RowOk(db.tasks[id]);
  }

  lemma ReplayableCanBeSent(c: Config, s: State, id: TaskId) returns (t: State)
    requires c.Valid() && Inv(s) && |s.db.tasks| <= c.scanLimit && |s.db.tasks| <= c.capacity
    requires id in s.db.tasks && Replayable(s.db.tasks[id])
    ensures Leads(c, s, t) && t.wire.sent[id] == s.wire.sent[id] + 1
  {
    var cutoff := LateCutoff(s.db.tasks);
    var items := ScanAll(s.db, cutoff, c.scanLimit);
    ReplayableIsRequeued(s.db, s.used, id, cutoff);
    LeadsNowhere(c, s);
    ByCrash(c, s, s);
    ByStart(c, s, Stop(s), items, cutoff);
    var i :| 0 <= i < |items| && items[i].id == id;
    assert IsCurrent(s.db, items[i]);
    t := SendAfterScan(c, s, Stop(s).(phase := Recovering(items, AtDecide)), cutoff, id);
  }

  lemma InflightCanBeSent(c: Config, from: State, s: State, id: TaskId)
    requires Leads(c, from, s) && s.phase.Serving? && id in s.wire.inflight
    ensures exists t :: Leads(c, from, t) && t.wire.sent[id] > s.wire.sent[id]
  {
    ByEndWrite(c, from, s, id, true);
    assert EndWriteStep(s, id, true).wire.sent[id] > s.wire.sent[id];
  }

  lemma OpenCanBeSent(c: Config, s: State, id: TaskId)
    requires s.phase.Serving? && (id in s.wire.inflight || Forwards(s.workers, id))
    ensures exists t :: Leads(c, s, t) && t.wire.sent[id] > s.wire.sent[id]
  {
    LeadsNowhere(c, s);
    if id in s.wire.inflight {
      InflightCanBeSent(c, s, s, id);
    } else {
      var w :| 0 <= w < |s.workers| && s.workers[w].Forwarding? && s.workers[w].id == id;
      ByBeginWrite(c, s, s, w);
      InflightCanBeSent(c, s, s.(wire := s.wire.(inflight := s.wire.inflight + {id})), id);
    }
  }

  lemma OpenIsServing(s: State, id: TaskId)
    requires Inv(s) && (id in s.wire.inflight || Forwards(s.workers, id))
    ensures s.phase.Serving?
  {
  }

  /** The exact condition: with room in the scan and the queue, some run puts the request of a
      known task on the wire once more exactly when an attempt to write it is under way, its
      forward has not returned, or its row is neither finished nor dispatched. */
  lemma CanBeSentAgainExactly(c: Config, s: State, id: TaskId)
    requires c.Valid() && Reachable(c, s) && id in s.used && |s.db.tasks| <= c.scanLimit && |s.db.tasks| <= c.capacity
    ensures (exists t :: Leads(c, s, t) && t.wire.sent[id] > s.wire.sent[id]) <==>
              || id in s.wire.inflight || Forwards(s.workers, id)
              || (id in s.db.tasks && Replayable(s.db.tasks[id]))
  {
    ReachableInv(c, s);
    if id in s.wire.inflight || Forwards(s.workers, id) {
      OpenIsServing(s, id);
      OpenCanBeSent(c, s, id);
    } else if id in s.db.tasks && Replayable(s.db.tasks[id]) {
      var t := ReplayableCanBeSent(c, s, id);
    } else {
      forall t | Leads(c, s, t)
        ensures t.wire.sent[id] == s.wire.sent[id]
      {
        var es :| IsRun(c, s, es) && After(c, s, es) == t;
        SpentForGood(c, s, es, id);
      }
    }
  }
}
