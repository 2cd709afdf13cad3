/** When the row of a task that a worker still holds can be finished behind the worker's back. */
module LifecycleHeld {
  import opened Wrappers
  import opened TaskStore
  import opened Lifecycle
  import opened LifecycleInvariant
  import opened LifecycleSteps
  import opened LifecycleTheorems
  import Recovery
  import Forwarder

  /** The verdict a forced shutdown leaves. */
  predicate Forced(row: Row) {
    row.finishedAt.Some? && row.status.Uncertain? && row.errorCode == FORCED_CODE
  }

  /** The shutdown has finished the task; the cleaner may have deleted its row since. */
  predicate Overtaken(db: Db, closed: bool, id: TaskId) {
    closed && (id in db.tasks ==> Forced(db.tasks[id]))
  }

  ghost predicate HeldOk(s: State) {
    forall id :: Held(s.workers, id) ==> id in s.used && (Unfinished(s.db, id) || Overtaken(s.db, s.closed, id))
  }

  // ----- Who holds a task after a step held it before -----

  lemma LoadTaskHeld(s: State, w: nat, fault: Fault, id: TaskId)
    requires w < |s.workers| && s.workers[w].Dequeued? && Held(LoadTaskStep(s, w, fault).workers, id)
    ensures Held(s.workers, id)
  {
    HeldInPlace(s.workers, w, TaskLoaded(s.workers[w].id), id);
    HeldInPlace(s.workers, w, Idle, id);
    assert s.workers[w].Holds(s.workers[w].id);
  }

  lemma LoadPayloadHeld(s: State, w: nat, fault: Fault, id: TaskId)
    requires w < |s.workers| && s.workers[w].TaskLoaded? && Held(LoadPayloadStep(s, w, fault).workers, id)
    ensures Held(s.workers, id)
  {
    HeldInPlace(s.workers, w, PayloadLoaded(s.workers[w].id), id);
    HeldInPlace(s.workers, w, Idle, id);
    assert s.workers[w].Holds(s.workers[w].id);
  }

  lemma BeginHeld(s: State, w: nat, workerId: string, now: int, fault: Fault, id: TaskId)
    requires w < |s.workers| && s.workers[w].PayloadLoaded? && Held(BeginStep(s, w, workerId, now, fault).workers, id)
    ensures Held(s.workers, id)
  {
    HeldInPlace(s.workers, w, Forwarding(s.workers[w].id, false), id);
    HeldInPlace(s.workers, w, Idle, id);
    assert s.workers[w].Holds(s.workers[w].id);
  }

  lemma EndHeld(s: State, w: nat, result: Forwarder.UpstreamResult, id: TaskId)
    requires w < |s.workers| && s.workers[w].Forwarding? && Held(EndStep(s, w, result).workers, id)
    ensures Held(s.workers, id)
  {
    HeldInPlace(s.workers, w, EndStep(s, w, result).workers[w], id);
    assert s.workers[w].Holds(s.workers[w].id);
  }

  /** Who finishes its own task lets go of it. */
  lemma FinishHeld(s: State, w: nat, now: int, fault: Fault, id: TaskId)
    requires WorkersDistinct(s.workers, s.dequeued) && w < |s.workers| && s.workers[w].Finishing?
    requires Held(FinishStep(s, w, now, fault).workers, id)
    ensures Held(s.workers, id) && id != s.workers[w].id
  {
    HeldInPlace(s.workers, w, Idle, id);
    var after := s.workers[w := Idle];
    var v :| 0 <= v < |after| && after[v].Holds(id);
    assert s.workers[v].Holds(id) && v != w;
  }

  lemma DequeueHeld(s: State, w: nat, id: TaskId)
    requires w < |s.workers| && s.queue != [] && Held(DequeueStep(s, w).workers, id)
    ensures Held(s.workers, id) || id == s.queue[0]
  {
    HeldInPlace(s.workers, w, Dequeued(s.queue[0]), id);
  }

  lemma IdleHeld(c: Config, s: State, e: Event, id: TaskId)
    requires Enabled(c, s, e) && (e.WorkerExit? || e.Heartbeat?) && Held(Step(c, s, e).workers, id)
    ensures Held(s.workers, id)
  {
    if e.WorkerExit? { HeldInPlace(s.workers, e.w, Exited, id); }
  }

  lemma WriteHeld(c: Config, s: State, e: Event, id: TaskId)
    requires Enabled(c, s, e) && IsWriteEvent(e) && Held(Step(c, s, e).workers, id)
    ensures Held(s.workers, id)
  {
    if e.WroteRequest? { SetWroteHolds(s.workers, e.id); }
  }

  lemma DecideHeld(s: State, cutoff: int, now: int, fault: Fault)
    requires Scanning(s, AtDecide) && s.workers == []
    ensures DecideStep(s, cutoff, now, fault).workers == []
  {
  }

  lemma ScanHeld(c: Config, s: State, e: Event, id: TaskId)
    requires s.workers == [] && Enabled(c, s, e) && IsScanEvent(e)
    ensures !Held(Step(c, s, e).workers, id)
  {
    if e.ScanDecide? { DecideHeld(s, e.cutoff, e.now, e.fault); }
  }

  lemma OtherHeld(c: Config, s: State, e: Event, id: TaskId)
    requires Enabled(c, s, e) && !IsScanEvent(e) && !IsWorkerEvent(e)
    ensures Step(c, s, e).workers == s.workers || Step(c, s, e).workers == []
  {
  }

  // ----- What becomes of its row -----

  lemma FinishSpares(s: State, w: nat, now: int, fault: Fault, id: TaskId)
    requires w < |s.workers| && s.workers[w].Finishing? && id != s.workers[w].id && Unfinished(s.db, id)
    ensures Unfinished(FinishStep(s, w, now, fault).db, id)
  {
  }

  lemma BeginSpares(s: State, w: nat, workerId: string, now: int, fault: Fault, id: TaskId)
    requires w < |s.workers| && s.workers[w].PayloadLoaded? && Unfinished(s.db, id)
    ensures Unfinished(BeginStep(s, w, workerId, now, fault).db, id)
  {
  }

  lemma MarkSpares(s: State, marked: TaskId, now: int, fault: Fault, id: TaskId)
    requires Unfinished(s.db, id)
    ensures Unfinished(MarkStep(s, marked, now, fault).db, id)
    ensures Unfinished(StatementStep(s, fault, UpdateHeartbeat(s.db, marked, now)).db, id)
  {
  }

  lemma WorkerSpares(c: Config, s: State, e: Event, id: TaskId)
    requires Enabled(c, s, e) && IsWorkerEvent(e) && !e.Finish? && Unfinished(s.db, id)
    ensures Unfinished(Step(c, s, e).db, id)
  {
    if e.BeginForward? {
      BeginSpares(s, e.w, e.workerId, e.now, e.fault, id);
    } else if e.StoreMark? {
      MarkSpares(s, e.id, e.now, e.fault, id);
    } else if e.Heartbeat? {
      MarkSpares(s, s.workers[e.w].id, e.now, e.fault, id);
    } else if IsWriteEvent(e) {
      QuietWriteStep(c, s, e);
    } else {
      QuietWorkerStep(c, s, e);
    }
  }

  lemma SubmitSpares(c: Config, s: State, e: Event, id: TaskId)
    requires Enabled(c, s, e) && IsSubmitEvent(e) && Unfinished(s.db, id) && (e.SubmitRefuse? ==> e.id != id)
    ensures Unfinished(Step(c, s, e).db, id)
  {
  }

  lemma CleanSpares(c: Config, s: State, e: Event, id: TaskId)
    requires Enabled(c, s, e) && (e.CleanTasks? || e.CleanPayloads? || e.StartDraining? || e.CloseQueue?)
    requires Unfinished(s.db, id)
    ensures Unfinished(Step(c, s, e).db, id)
  {
  }

  lemma ForceOvertakes(c: Config, s: State, e: Event, id: TaskId)
    requires Enabled(c, s, e) && e.ForceUncertain? && Unfinished(s.db, id)
    ensures Unfinished(Step(c, s, e).db, id) || Overtaken(Step(c, s, e).db, s.closed, id)
  {
  }

  lemma StaysOvertaken(a: Db, b: Db, used: set<TaskId>, id: TaskId)
    requires Keeps(a, b, used) && id in used && Overtaken(a, true, id)
    ensures Overtaken(b, true, id)
  {
  }

  // ----- The invariant -----

  lemma WorkerHeld(c: Config, s: State, e: Event, id: TaskId)
    requires WorkersDistinct(s.workers, s.dequeued)
    requires Enabled(c, s, e) && IsWorkerEvent(e) && !IsWriteEvent(e) && !e.Dequeue?
    requires Held(Step(c, s, e).workers, id)
    ensures Held(s.workers, id) && (e.Finish? ==> s.workers[e.w].id != id)
  {
    match e
    case LoadTask(w, fault) => LoadTaskHeld(s, w, fault, id);
    case LoadPayload(w, fault) => LoadPayloadHeld(s, w, fault, id);
    case BeginForward(w, workerId, now, fault) => BeginHeld(s, w, workerId, now, fault, id);
    case EndForward(w, result) => EndHeld(s, w, result, id);
    case Finish(w, now, fault) => FinishHeld(s, w, now, fault, id);
    case _ => IdleHeld(c, s, e, id);
  }

  lemma HeldWasHeld(c: Config, s: State, e: Event, id: TaskId)
    requires Inv(s) && Enabled(c, s, e) && !e.Dequeue? && Held(Step(c, s, e).workers, id)
    ensures Held(s.workers, id) && !e.Crash? && !IsScanEvent(e) && (e.Finish? ==> s.workers[e.w].id != id)
  {
    if IsWriteEvent(e) {
      WriteHeld(c, s, e, id);
    } else if IsWorkerEvent(e) {
      WorkerHeld(c, s, e, id);
    } else if IsScanEvent(e) {
      ScanHeld(c, s, e, id);
    } else {
      OtherHeld(c, s, e, id);
    }
  }

  lemma NeverReopens(c: Config, s: State, e: Event)
    requires Enabled(c, s, e) && s.closed && !e.Crash? && !IsScanEvent(e)
    ensures Step(c, s, e).closed
  {
  }

  lemma StaysUnfinished(c: Config, s: State, e: Event, id: TaskId)
    requires Inv(s) && Enabled(c, s, e) && Held(s.workers, id) && Unfinished(s.db, id) && !e.Crash? && !IsScanEvent(e)
    requires e.Finish? ==> s.workers[e.w].id != id
    ensures Unfinished(Step(c, s, e).db, id) || (e.ForceUncertain? && Overtaken(Step(c, s, e).db, s.closed, id))
  {
    HeldApart(s, id);
    if e.Finish? {
      FinishSpares(s, e.w, e.now, e.fault, id);
    } else if IsWorkerEvent(e) {
      WorkerSpares(c, s, e, id);
    } else if IsSubmitEvent(e) {
      SubmitSpares(c, s, e, id);
    } else if e.ForceUncertain? {
      ForceOvertakes(c, s, e, id);
    } else {
      CleanSpares(c, s, e, id);
    }
  }

  lemma DequeuedUnfinished(s: State, w: nat)
    requires Inv(s) && w < |s.workers| && s.queue != []
    ensures s.queue[0] in s.used && Unfinished(DequeueStep(s, w).db, s.queue[0])
  {
    assert s.queue[0] in s.queue;
    assert RowOk(s.db.tasks[s.queue[0]]);
  }

  lemma StepHeldOk(c: Config, s: State, e: Event)
    requires Inv(s) && HeldOk(s) && Enabled(c, s, e)
    ensures HeldOk(Step(c, s, e))
  {
    StepKeeps(c, s, e);
    var t := Step(c, s, e);
    forall id | Held(t.workers, id)
      ensures id in t.used && (Unfinished(t.db, id) || Overtaken(t.db, t.closed, id))
    {
      if e.Dequeue? {
        DequeueHeld(s, e.w, id);
        DequeuedUnfinished(s, e.w);
      } else {
        HeldWasHeld(c, s, e, id);
        if s.closed { NeverReopens(c, s, e); }
        if Unfinished(s.db, id) {
          StaysUnfinished(c, s, e, id);
        } else {
          StaysOvertaken(s.db, t.db, s.used, id);
        }
      }
    }
  }

  lemma {:induction false} RunHeldOk(c: Config, s: State, es: seq<Event>)
    requires Inv(s) && HeldOk(s) && IsRun(c, s, es)
    ensures HeldOk(After(c, s, es))
    decreases |es|
  {
    if es != [] {
      StepInv(c, s, es[0]);
      StepHeldOk(c, s, es[0]);
      RunHeldOk(c, Step(c, s, es[0]), es[1..]);
    }
  }

  /** The exact condition: the task a worker holds is finished only by the forced shutdown, so
      before the queue is closed never, and afterwards exactly if its row carries the forced
      verdict or, finished with it, has been deleted. */
  lemma HeldIsFinishedExactly(c: Config, s: State, id: TaskId)
    requires Reachable(c, s) && Held(s.workers, id)
    ensures !Unfinished(s.db, id) <==> s.closed && (id in s.db.tasks ==> Forced(s.db.tasks[id]))
  {
    var es :| IsRun(c, INITIAL, es) && After(c, INITIAL, es) == s;
    InitialInv();
    RunHeldOk(c, INITIAL, es);
  }
}
