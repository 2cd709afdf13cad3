/** Where the tasks of a process are: each in one place, and none given up unless a repository
    call of its own worker failed. */
module LifecyclePlaces {
  import opened Wrappers
  import opened TaskStore
  import opened Lifecycle
  import opened LifecycleInvariant
  import opened LifecycleSteps
  import opened LifecycleTheorems
  import opened LifecycleHeld

  // ----- Nothing is dropped without a fault -----

  /** A repository call of the worker holding `id` fails. */
  predicate FailsWorkerOf(s: State, e: Event, id: TaskId) {
    && (e.LoadTask? || e.LoadPayload? || e.BeginForward? || e.Finish?)
    && e.w < |s.workers| && s.workers[e.w].Holds(id) && !e.fault.NoFault?
  }

  lemma LoadTaskDrops(s: State, w: nat, fault: Fault, id: TaskId)
    requires w < |s.workers| && s.workers[w].Dequeued? && s.workers[w].id in s.db.tasks
    ensures id in LoadTaskStep(s, w, fault).dropped ==> id in s.dropped || (s.workers[w].id == id && !fault.NoFault?)
  {
  }

  /** A worker finds the task it holds, and its payload: it gives the task up only if its call fails. */
  lemma LoadKeepsTask(c: Config, s: State, e: Event, id: TaskId)
    requires Inv(s) && Enabled(c, s, e) && e.LoadTask?
    ensures id in Step(c, s, e).dropped ==> id in s.dropped || FailsWorkerOf(s, e, id)
  {
    FindsItsTask(s, e.w);
    LoadTaskDrops(s, e.w, e.fault, id);
  }

  lemma FindsItsTask(s: State, w: nat)
    requires Inv(s) && w < |s.workers|
    requires s.workers[w].Dequeued? || s.workers[w].TaskLoaded? || s.workers[w].PayloadLoaded?
    ensures s.workers[w].id in s.db.tasks && s.workers[w].id in s.db.payloads
  {
    var id := s.workers[w].id;
    assert WorkerOk(s.db, s.unwritten, s.workers[w]);
    assert RowOk(s.db.tasks[id]) && Replayable(s.db.tasks[id]);
  }

  lemma LoadPayloadDrops(s: State, w: nat, fault: Fault, id: TaskId)
    requires w < |s.workers| && s.workers[w].TaskLoaded? && s.workers[w].id in s.db.payloads
    ensures id in LoadPayloadStep(s, w, fault).dropped ==> id in s.dropped || (s.workers[w].id == id && !fault.NoFault?)
  {
  }

  lemma LoadPayloadKeepsTask(c: Config, s: State, e: Event, id: TaskId)
    requires Inv(s) && Enabled(c, s, e) && e.LoadPayload?
    ensures id in Step(c, s, e).dropped ==> id in s.dropped || FailsWorkerOf(s, e, id)
  {
    FindsItsTask(s, e.w);
    LoadPayloadDrops(s, e.w, e.fault, id);
  }

  lemma BeginDrops(s: State, w: nat, workerId: string, now: int, fault: Fault, id: TaskId)
    requires w < |s.workers| && s.workers[w].PayloadLoaded? && s.workers[w].id in s.db.tasks
    ensures id in BeginStep(s, w, workerId, now, fault).dropped ==>
              id in s.dropped || (s.workers[w].id == id && !fault.NoFault?)
  {
  }

  lemma BeginKeepsTask(c: Config, s: State, e: Event, id: TaskId)
    requires Inv(s) && Enabled(c, s, e) && e.BeginForward?
    ensures id in Step(c, s, e).dropped ==> id in s.dropped || FailsWorkerOf(s, e, id)
  {
    FindsItsTask(s, e.w);
    BeginDrops(s, e.w, e.workerId, e.now, e.fault, id);
  }

  lemma FinishKeepsTask(c: Config, s: State, e: Event, id: TaskId)
    requires Enabled(c, s, e) && e.Finish?
    ensures id in Step(c, s, e).dropped ==> id in s.dropped || FailsWorkerOf(s, e, id)
  {
  }

  lemma ScanDropsNothing(c: Config, s: State, e: Event)
    requires Enabled(c, s, e) && IsScanEvent(e)
    ensures Step(c, s, e).dropped <= s.dropped
  {
  }

  lemma OthersDropNothing(c: Config, s: State, e: Event)
    requires Enabled(c, s, e) && !IsScanEvent(e) && !(e.LoadTask? || e.LoadPayload? || e.BeginForward? || e.Finish?)
    ensures Step(c, s, e).dropped <= s.dropped
  {
  }

  lemma DropsOnlyOnFault(c: Config, s: State, e: Event, id: TaskId)
    requires Inv(s) && Enabled(c, s, e)
    ensures id in Step(c, s, e).dropped ==> id in s.dropped || FailsWorkerOf(s, e, id)
  {
    if e.LoadTask? {
      LoadKeepsTask(c, s, e, id);
    } else if e.LoadPayload? {
      LoadPayloadKeepsTask(c, s, e, id);
    } else if e.BeginForward? {
      BeginKeepsTask(c, s, e, id);
    } else if e.Finish? {
      FinishKeepsTask(c, s, e, id);
    } else if IsScanEvent(e) {
      ScanDropsNothing(c, s, e);
    } else {
      OthersDropNothing(c, s, e);
    }
  }

  /** In this run no repository call of a worker holding `id` fails. */
  ghost predicate SparesWorkerOf(c: Config, s: State, es: seq<Event>, id: TaskId)
    requires IsRun(c, s, es)
    decreases |es|
  {
    es == [] || (!FailsWorkerOf(s, es[0], id) && SparesWorkerOf(c, Step(c, s, es[0]), es[1..], id))
  }

  lemma {:induction false} NeverDropped(c: Config, s: State, es: seq<Event>, id: TaskId)
    requires Inv(s) && IsRun(c, s, es) && SparesWorkerOf(c, s, es, id) && id !in s.dropped
    ensures id !in After(c, s, es).dropped
    decreases |es|
  {
    if es != [] {
      StepInv(c, s, es[0]);
      DropsOnlyOnFault(c, s, es[0], id);
      NeverDropped(c, Step(c, s, es[0]), es[1..], id);
    }
  }

  /** A state reached by a run in which the workers of `id` see no repository failure. Any
      other call may fail, and the process may crash, at any moment. */
  ghost predicate ReachableSparing(c: Config, s: State, id: TaskId) {
    exists es :: IsRun(c, INITIAL, es) && After(c, INITIAL, es) == s && SparesWorkerOf(c, INITIAL, es, id)
  }

  lemma SparedIsNotDropped(c: Config, s: State, id: TaskId)
    requires ReachableSparing(c, s, id)
    ensures Reachable(c, s) && id !in s.dropped
  {
    var es :| IsRun(c, INITIAL, es) && After(c, INITIAL, es) == s && SparesWorkerOf(c, INITIAL, es, id);
    InitialInv();
    NeverDropped(c, INITIAL, es, id);
  }

  // ----- Every served task is in one place -----

  ghost predicate HeldOnce(workers: seq<WorkerPc>, id: TaskId) {
    exists w ::
      0 <= w < |workers| && workers[w].Holds(id) && forall v :: 0 <= v < |workers| && v != w ==> !workers[v].Holds(id)
  }

  /** Every task this process answered with 202, or requeued, and whose workers saw no
      repository failure, is in exactly one place: once in the queue, with one worker, or
      out of both and finished. Only the forced shutdown finishes it in a worker's hands. */
  lemma ExactlyOnePlace(c: Config, s: State, id: TaskId)
    requires ReachableSparing(c, s, id) && id in s.served
    ensures id in s.queue ==> !Held(s.workers, id) && NoDuplicates(s.queue) && Unfinished(s.db, id)
    ensures Held(s.workers, id) ==> HeldOnce(s.workers, id)
    ensures Held(s.workers, id) ==> (Unfinished(s.db, id) <==> !Overtaken(s.db, s.closed, id))
    ensures id !in s.queue && !Held(s.workers, id) ==> Settled(s.db, id)
  {
    SparedIsNotDropped(c, s, id);
    ReachableInv(c, s);
    assert Placed(id, s.queue, s.workers, s.dropped, s.db);
    if id in s.dequeued { HeldApart(s, id); }
    if Held(s.workers, id) {
      HeldIsFinishedExactly(c, s, id);
      var w :| 0 <= w < |s.workers| && s.workers[w].Holds(id);
      assert forall v :: 0 <= v < |s.workers| && v != w ==> !s.workers[v].Holds(id);
    }
    if id in s.queue {
      assert Fresh(s.db, id) && RowOk(s.db.tasks[id]);
      forall i, j | 0 <= i < j < |s.queue|
        ensures s.queue[i] != s.queue[j]
      {
        assert s.enqueued[|s.dequeued| + i] == s.queue[i] && s.enqueued[|s.dequeued| + j] == s.queue[j];
      }
    }
  }

  // ----- The queue over a run -----

  function EntersBy(c: Config, s: State, e: Event): seq<TaskId> {
    if e.SubmitEnqueue? && CanEnqueue(c, s) then [e.id]
    else if e.ScanEnqueue? && s.phase.Recovering? && s.phase.items != [] && CanEnqueue(c, s) then [s.phase.items[0].id]
    else []
  }

  function LeavesBy(s: State, e: Event): seq<TaskId> {
    if e.Dequeue? && s.queue != [] then [s.queue[0]] else []
  }

  /** The tasks put into the queue in a run, in order. */
  ghost function Entered(c: Config, s: State, es: seq<Event>): seq<TaskId>
    requires IsRun(c, s, es)
    decreases |es|
  {
    if es == [] then [] else EntersBy(c, s, es[0]) + Entered(c, Step(c, s, es[0]), es[1..])
  }

  /** The tasks handed to workers in a run, in order. */
  ghost function Delivered(c: Config, s: State, es: seq<Event>): seq<TaskId>
    requires IsRun(c, s, es)
    decreases |es|
  {
    if es == [] then [] else LeavesBy(s, es[0]) + Delivered(c, Step(c, s, es[0]), es[1..])
  }

  /** The process does not stop in this run. */
  ghost predicate Lives(c: Config, s: State, es: seq<Event>)
    requires IsRun(c, s, es)
    decreases |es|
  {
    es == [] || (!Step(c, s, es[0]).phase.Down? && Lives(c, Step(c, s, es[0]), es[1..]))
  }

  lemma ScanStepQueue(c: Config, s: State, e: Event)
    requires Enabled(c, s, e) && IsScanEvent(e) && !Step(c, s, e).phase.Down?
    ensures s.queue + EntersBy(c, s, e) == LeavesBy(s, e) + Step(c, s, e).queue
  {
  }

  lemma ForwardStepQueue(c: Config, s: State, e: Event)
    requires Enabled(c, s, e) && (e.BeginForward? || e.EndForward? || e.Finish? || e.Heartbeat?)
    ensures s.queue + EntersBy(c, s, e) == LeavesBy(s, e) + Step(c, s, e).queue
  {
  }

  lemma WorkerStepQueue(c: Config, s: State, e: Event)
    requires Enabled(c, s, e) && IsWorkerEvent(e) && !IsWriteEvent(e)
    ensures s.queue + EntersBy(c, s, e) == LeavesBy(s, e) + Step(c, s, e).queue
  {
    if e.BeginForward? || e.EndForward? || e.Finish? || e.Heartbeat? { ForwardStepQueue(c, s, e); }
  }

  lemma OtherStepQueue(c: Config, s: State, e: Event)
    requires Enabled(c, s, e) && (IsWriteEvent(e) || (!IsScanEvent(e) && !IsWorkerEvent(e) && !e.Crash?))
    ensures s.queue + EntersBy(c, s, e) == LeavesBy(s, e) + Step(c, s, e).queue
  {
  }

  lemma Chain(q: seq<TaskId>, a: seq<TaskId>, b: seq<TaskId>, q1: seq<TaskId>, more: seq<TaskId>, bs: seq<TaskId>,
              q2: seq<TaskId>)
    requires q + a == b + q1 && q1 + more == bs + q2
    ensures q + (a + more) == (b + bs) + q2
  {
    assert q + (a + more) == (q + a) + more;
    assert (b + q1) + more == b + (q1 + more);
  }

  /** First in, first out, over any run in which the process lives: what was queued and what
      was put in is, in this order, what was handed out and what is queued now. */
  lemma {:induction false} QueueIsFifo(c: Config, s: State, es: seq<Event>)
    requires IsRun(c, s, es) && Lives(c, s, es)
    ensures s.queue + Entered(c, s, es) == Delivered(c, s, es) + After(c, s, es).queue
    decreases |es|
  {
    if es != [] {
      var e, t := es[0], Step(c, s, es[0]);
      if IsScanEvent(e) {
        ScanStepQueue(c, s, e);
      } else if IsWorkerEvent(e) && !IsWriteEvent(e) {
        WorkerStepQueue(c, s, e);
      } else {
        OtherStepQueue(c, s, e);
      }
      QueueIsFifo(c, t, es[1..]);
      Chain(s.queue, EntersBy(c, s, e), LeavesBy(s, e), t.queue, Entered(c, t, es[1..]), Delivered(c, t, es[1..]),
            After(c, t, es[1..]).queue);
    }
  }

  /** And no task is handed out twice by one process. */
  lemma DeliveryIsFifo(c: Config, s: State)
    requires Reachable(c, s)
    ensures s.dequeued <= s.enqueued && NoDuplicates(s.dequeued) && s.enqueued == s.dequeued + s.queue
  {
    ReachableInv(c, s);
    forall i, j | 0 <= i < j < |s.dequeued|
      ensures s.dequeued[i] != s.dequeued[j]
    {
      assert s.enqueued[i] == s.dequeued[i] && s.enqueued[j] == s.dequeued[j];
    }
  }

  predicate CountOk(c: Config, s: State) {
    s.phase.Serving? ==> |s.workers| == c.workerCount
  }

  lemma WriteStepCount(c: Config, s: State, e: Event)
    requires Enabled(c, s, e) && CountOk(c, s) && IsWriteEvent(e)
    ensures CountOk(c, Step(c, s, e))
  {
  }

  lemma ForwardStepCount(c: Config, s: State, e: Event)
    requires Enabled(c, s, e) && CountOk(c, s) && (e.BeginForward? || e.EndForward? || e.Finish? || e.Heartbeat?)
    ensures CountOk(c, Step(c, s, e))
  {
  }

  lemma WorkerStepCount(c: Config, s: State, e: Event)
    requires Enabled(c, s, e) && CountOk(c, s) && IsWorkerEvent(e)
    ensures CountOk(c, Step(c, s, e))
  {
    if IsWriteEvent(e) {
      WriteStepCount(c, s, e);
    } else if e.BeginForward? || e.EndForward? || e.Finish? || e.Heartbeat? {
      ForwardStepCount(c, s, e);
    }
  }

  lemma ScanStepCount(c: Config, s: State, e: Event)
    requires Enabled(c, s, e) && CountOk(c, s) && IsScanEvent(e)
    ensures CountOk(c, Step(c, s, e))
  {
  }

  lemma OtherStepCount(c: Config, s: State, e: Event)
    requires Enabled(c, s, e) && CountOk(c, s) && !IsWorkerEvent(e) && !IsScanEvent(e) && !e.Crash?
    ensures CountOk(c, Step(c, s, e))
  {
    assert Step(c, s, e).workers == s.workers && Step(c, s, e).phase == s.phase;
  }

  lemma StepWorkerCount(c: Config, s: State, e: Event)
    requires Enabled(c, s, e) && CountOk(c, s)
    ensures CountOk(c, Step(c, s, e))
  {
    if IsWorkerEvent(e) {
      WorkerStepCount(c, s, e);
    } else if IsScanEvent(e) {
      ScanStepCount(c, s, e);
    } else if !e.Crash? {
      OtherStepCount(c, s, e);
    }
  }

  lemma {:induction false} RunWorkerCount(c: Config, s: State, es: seq<Event>)
    requires IsRun(c, s, es) && CountOk(c, s)
    ensures CountOk(c, After(c, s, es))
    decreases |es|
  {
    if es != [] {
      StepWorkerCount(c, s, es[0]);
      RunWorkerCount(c, Step(c, s, es[0]), es[1..]);
    }
  }

  /** When every worker has left, the queue is closed and empty and every task the process took
      on is finished, if its workers saw no repository failure. */
  lemma DrainedMeansFinished(c: Config, s: State, id: TaskId)
    requires c.Valid() && ReachableSparing(c, s, id) && s.phase.Serving?
    requires forall w :: 0 <= w < |s.workers| ==> s.workers[w].Exited?
    requires id in s.served
    ensures s.closed && s.queue == [] && Settled(s.db, id)
  {
    SparedIsNotDropped(c, s, id);
    ReachableInv(c, s);
    var es :| IsRun(c, INITIAL, es) && After(c, INITIAL, es) == s;
    RunWorkerCount(c, INITIAL, es);
    assert s.workers[0].Exited?;
    assert Placed(id, s.queue, s.workers, s.dropped, s.db);
  }
}
