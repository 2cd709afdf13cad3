/** Every event keeps the invariant. */
module LifecycleSteps {
  import opened Wrappers
  import opened TaskStore
  import opened Lifecycle
  import opened LifecycleInvariant
  import Forwarder
  import Recovery

  // ----- Statements on the tables -----

  lemma FinishSucceededMoves(db: Db, used: set<TaskId>, id: TaskId, result: string, now: int)
    requires DbOk(db, used)
    ensures var b := FinishSucceeded(db, id, result, now); DbOk(b, used) && Moves(db, b, {id}) && Settled(b, id)
  {
  }

  lemma MarkUncertainMoves(db: Db, used: set<TaskId>, id: TaskId, code: string, message: string, now: int)
    requires DbOk(db, used)
    ensures var b := MarkUncertain(db, id, code, message, now); DbOk(b, used) && Moves(db, b, {id}) && Settled(b, id)
  {
  }

  /** Whatever a worker finishes its task with, only a task still waiting would be moved by it. */
  lemma FinishStatementMoves(db: Db, used: set<TaskId>, id: TaskId, o: Forwarder.ForwardOutcome, now: int, fault: Fault)
    requires DbOk(db, used)
    ensures var b := Outcome(fault, db, FinishStatement(db, id, o, now));
            DbOk(b, used) && Moves(db, b, {id}) && (!fault.Lost? ==> Settled(b, id))
    ensures Begun(db, id) ==> Moves(db, Outcome(fault, db, FinishStatement(db, id, o, now)), {})
  {
    if o.transportUncertain {
      MarkUncertainMoves(db, used, id, o.errorCode, o.errorMessage, now);
    } else if o.errorCode != "" {
      FinishFailedMoves(db, used, id, o.errorCode, o.errorMessage, now, NoFault);
    } else {
      FinishSucceededMoves(db, used, id, o.summary, now);
    }
  }

  lemma FinishFailedMoves(db: Db, used: set<TaskId>, id: TaskId, code: string, message: string, now: int, fault: Fault)
    requires DbOk(db, used)
    ensures var b := Outcome(fault, db, FinishFailed(db, id, code, message, now));
            DbOk(b, used) && Moves(db, b, {id}) && (!fault.Lost? ==> Settled(b, id))
  {
  }

  lemma MarkRunningMoves(db: Db, used: set<TaskId>, id: TaskId, workerId: string, now: int, fault: Fault)
    requires DbOk(db, used) && Fresh(db, id)
    ensures var b := Outcome(fault, db, MarkRunning(db, id, workerId, now));
            DbOk(b, used) && Moves(db, b, {id}) && !Sealed(b, id) && id in b.tasks && (!fault.Lost? ==> Begun(b, id))
  {
  }

  lemma DispatchMoves(db: Db, used: set<TaskId>, id: TaskId, now: int, fault: Fault)
    requires DbOk(db, used) && Begun(db, id)
    ensures var b := Outcome(fault, db, MarkRequestDispatched(db, id, now));
            DbOk(b, used) && Moves(db, b, {}) && (!fault.Lost? ==> Sealed(b, id))
  {
  }

  lemma HeartbeatMoves(db: Db, used: set<TaskId>, id: TaskId, now: int, fault: Fault)
    requires DbOk(db, used)
    ensures var b := Outcome(fault, db, UpdateHeartbeat(db, id, now)); DbOk(b, used) && Moves(db, b, {})
  {
  }

  lemma CleanMoves(db: Db, used: set<TaskId>, victims: set<TaskId>, before: int, fault: Fault)
    requires DbOk(db, used)
    ensures (forall id :: id in victims ==> ExpiredTask(db, id, before)) ==>
              var b := Outcome(fault, db, DeleteTasks(db, victims)); DbOk(b, used) && Moves(db, b, {})
    ensures (forall id :: id in victims ==> ExpiredPayload(db, id, before)) ==>
              var b := Outcome(fault, db, DeletePayloads(db, victims)); DbOk(b, used) && Moves(db, b, {})
  {
  }

  lemma ForcedMoves(db: Db, used: set<TaskId>, code: string, message: string, now: int, fault: Fault)
    requires DbOk(db, used)
    ensures var b := Outcome(fault, db, MarkDispatchedRunningUncertain(db, code, message, now));
            DbOk(b, used) && Moves(db, b, {})
  {
  }

  // ----- Workers -----

  lemma HeldInPlace(workers: seq<WorkerPc>, w: nat, pc: WorkerPc, id: TaskId)
    requires w < |workers|
    ensures Held(workers[w := pc], id) ==> Held(workers, id) || pc.Holds(id)
    ensures Held(workers, id) ==> Held(workers[w := pc], id) || workers[w].Holds(id)
    ensures pc.Holds(id) ==> Held(workers[w := pc], id)
  {
    var after := workers[w := pc];
    if v :| 0 <= v < |after| && after[v].Holds(id) && v != w {
      assert workers[v].Holds(id);
    }
    if v :| 0 <= v < |workers| && workers[v].Holds(id) && v != w {
      assert after[v].Holds(id);
    }
    assert after[w] == pc;
  }

  /** Replacing one worker's state keeps the workers apart if nobody else holds its new task. */
  lemma SetWorkerOk(s: State, w: nat, pc: WorkerPc)
    requires w < |s.workers| && WorkersDistinct(s.workers, s.dequeued) && WorkersOk(s.workers, s.db, s.unwritten)
    requires WorkerOk(s.db, s.unwritten, pc)
    requires forall id :: pc.Holds(id) ==> id in s.dequeued && (s.workers[w].Holds(id) || !Held(s.workers, id))
    ensures WorkersDistinct(s.workers[w := pc], s.dequeued) && WorkersOk(s.workers[w := pc], s.db, s.unwritten)
  {
    var after := s.workers[w := pc];
    forall id | Held(after, id)
      ensures id in s.dequeued
    {
      HeldInPlace(s.workers, w, pc, id);
    }
    forall i, j, id | 0 <= i < j < |after| && after[i].Holds(id)
      ensures !after[j].Holds(id)
    {
      assert i != w ==> after[i] == s.workers[i];
      assert j != w ==> after[j] == s.workers[j];
    }
  }

  lemma StillServed(s: State, w: nat, pc: WorkerPc, dropped: set<TaskId>)
    requires w < |s.workers| && ServedOk(s.served, s.queue, s.workers, s.dropped, s.db) && s.dropped <= dropped
    requires forall id :: s.workers[w].Holds(id) ==> pc.Holds(id) || id in dropped || Settled(s.db, id)
    ensures ServedOk(s.served, s.queue, s.workers[w := pc], dropped, s.db)
  {
    forall id | id in s.served
      ensures Placed(id, s.queue, s.workers[w := pc], dropped, s.db)
    {
      HeldInPlace(s.workers, w, pc, id);
    }
  }

  /** A worker goes on with its task. */
  lemma AdvanceInv(s: State, w: nat, pc: WorkerPc)
    requires Inv(s) && At(s, w) && !s.workers[w].Idle? && !s.workers[w].Exited?
    requires pc.Holds(s.workers[w].id) && WorkerOk(s.db, s.unwritten, pc)
    ensures Inv(SetWorker(s, w, pc))
  {
    SetWorkerOk(s, w, pc);
    StillServed(s, w, pc, s.dropped);
  }

  lemma DropInv(s: State, w: nat)
    requires Inv(s) && At(s, w) && !s.workers[w].Idle? && !s.workers[w].Exited?
    ensures Inv(Drop(s, w))
  {
    SetWorkerOk(s, w, Idle);
    StillServed(s, w, Idle, s.dropped + {s.workers[w].id});
  }

  lemma ReleaseInv(s: State, w: nat)
    requires Inv(s) && At(s, w) && !s.workers[w].Idle? && !s.workers[w].Exited? && Settled(s.db, s.workers[w].id)
    ensures Inv(SetWorker(s, w, Idle))
  {
    SetWorkerOk(s, w, Idle);
    StillServed(s, w, Idle, s.dropped);
  }

  lemma WorkerExitInv(s: State, w: nat)
    requires Inv(s) && At(s, w) && s.workers[w].Idle? && s.closed && s.queue == []
    ensures Inv(SetWorker(s, w, Exited))
  {
    SetWorkerOk(s, w, Exited);
    StillServed(s, w, Exited, s.dropped);
  }

  /** No two places hold one task, because every task is enqueued at most once. */
  lemma HeldApart(s: State, id: TaskId)
    requires Inv(s) && id in s.dequeued
    ensures id !in s.queue && id !in s.handlers && id in s.enqueued && id in s.used
  {
    assert id in s.enqueued;
    var i :| 0 <= i < |s.dequeued| && s.dequeued[i] == id;
    forall j | 0 <= j < |s.queue|
      ensures s.queue[j] != id
    {
      assert s.enqueued[i] == id && s.enqueued[|s.dequeued| + j] == s.queue[j];
    }
  }

  lemma DequeueInv(s: State, w: nat)
    requires Inv(s) && At(s, w) && s.workers[w].Idle? && s.queue != []
    ensures Inv(SetWorker(s.(queue := s.queue[1..], dequeued := s.dequeued + [s.queue[0]]), w, Dequeued(s.queue[0])))
  {
    var id := s.queue[0];
    var pc := Dequeued(id);
    var m := s.(queue := s.queue[1..], dequeued := s.dequeued + [id]);
    assert id in s.queue;
    if id in s.dequeued { HeldApart(s, id); }
    assert m.dequeued + m.queue == s.enqueued;
    assert WorkersDistinct(m.workers, m.dequeued);
    assert id !in s.unwritten;
    SetWorkerOk(m, w, pc);
    forall x | x in s.served
      ensures Placed(x, m.queue, m.workers[w := pc], m.dropped, m.db)
    {
      HeldInPlace(s.workers, w, pc, x);
      assert x in s.queue ==> x == id || x in m.queue;
    }
  }

  /** The worker's own statement, seen with the task already out of the worker's hands. */
  lemma MarkRunningInv(s: State, w: nat, workerId: string, now: int, fault: Fault)
    requires Inv(s) && At(s, w) && s.workers[w].PayloadLoaded?
    ensures var id := s.workers[w].id;
            var t := s.(db := Outcome(fault, s.db, MarkRunning(s.db, id, workerId, now)));
            && id in s.db.tasks && id in s.dequeued && Inv(Drop(t, w)) && !Sealed(t.db, id)
            && (fault.NoFault? ==> Begun(t.db, id))
            && !Held(Drop(t, w).workers, id) && id !in s.hooks && id !in s.marking
  {
    var id := s.workers[w].id;
    assert WorkerOk(s.db, s.unwritten, s.workers[w]);
    assert s.workers[w].Holds(id) && Held(s.workers, id);
    HeldApart(s, id);
    MarkRunningMoves(s.db, s.used, id, workerId, now, fault);
    var parked := Drop(s, w);
    DropInv(s, w);
    forall i | 0 <= i < |parked.workers|
      ensures !parked.workers[i].Holds(id)
    {
      assert i != w ==> parked.workers[i] == s.workers[i];
    }
    var db := Outcome(fault, s.db, MarkRunning(s.db, id, workerId, now));
    MovesInv(parked, db, {id});
    assert Drop(s.(db := db), w) == parked.(db := db);
  }

  lemma BeginForwardInv(s: State, w: nat, workerId: string, now: int)
    requires Inv(s) && At(s, w) && s.workers[w].PayloadLoaded?
    ensures var id := s.workers[w].id;
            var t := s.(db := MarkRunning(s.db, id, workerId, now));
            Inv(SetWorker(t.(unwritten := t.unwritten + {id}), w, Forwarding(id, false)))
  {
    MarkRunningInv(s, w, workerId, now, NoFault);
    var id := s.workers[w].id;
    var t := s.(db := MarkRunning(s.db, id, workerId, now));
    var parked := Drop(t, w);
    LaunchInv(parked, w, id, s.dropped);
    assert parked.workers[w := Forwarding(id, false)] == s.workers[w := Forwarding(id, false)];
    assert SetWorker(t.(unwritten := t.unwritten + {id}), w, Forwarding(id, false))
        == parked.(unwritten := parked.unwritten + {id}, workers := parked.workers[w := Forwarding(id, false)],
                   dropped := s.dropped);
  }

  lemma LaunchInv(s: State, w: nat, id: TaskId, dropped: set<TaskId>)
    requires Inv(s) && At(s, w) && s.workers[w].Idle? && s.dropped == dropped + {id}
    requires id in s.dequeued && id !in s.hooks && id !in s.marking && !Held(s.workers, id)
    requires Begun(s.db, id) && !Sealed(s.db, id)
    ensures Inv(s.(unwritten := s.unwritten + {id}, workers := s.workers[w := Forwarding(id, false)],
                   dropped := dropped))
  {
    var pc := Forwarding(id, false);
    var m := s.(unwritten := s.unwritten + {id});
    forall i | 0 <= i < |m.workers|
      ensures WorkerOk(m.db, m.unwritten, m.workers[i])
    {
      assert WorkerOk(s.db, s.unwritten, s.workers[i]);
      if s.workers[i].Dequeued? || s.workers[i].TaskLoaded? || s.workers[i].PayloadLoaded? {
        assert s.workers[i].Holds(s.workers[i].id);
      }
    }
    SetWorkerOk(m, w, pc);
    forall x | x in s.served
      ensures Placed(x, s.queue, s.workers[w := pc], dropped, s.db)
    {
      HeldInPlace(s.workers, w, pc, x);
    }
  }

  // ----- Forwarding -----

  lemma SetWroteHolds(workers: seq<WorkerPc>, id: TaskId)
    ensures forall x :: Held(SetWrote(workers, id), x) <==> Held(workers, x)
  {
    var after := SetWrote(workers, id);
    forall x
      ensures Held(after, x) <==> Held(workers, x)
    {
      assert forall i :: 0 <= i < |workers| ==> (after[i].Holds(x) <==> workers[i].Holds(x));
    }
  }

  lemma SetWroteInv(s: State, id: TaskId)
    requires Inv(s)
    ensures Inv(s.(workers := SetWrote(s.workers, id)))
  {
    var after := SetWrote(s.workers, id);
    SetWroteHolds(s.workers, id);
    assert forall i, x :: 0 <= i < |after| ==> (after[i].Holds(x) <==> s.workers[i].Holds(x));
    assert forall i :: 0 <= i < |after| && after[i].Exited? ==> s.workers[i].Exited?;
    forall i | 0 <= i < |after|
      ensures WorkerOk(s.db, s.unwritten, after[i])
    {
      assert WorkerOk(s.db, s.unwritten, s.workers[i]);
    }
    forall x | x in s.served
      ensures Placed(x, s.queue, after, s.dropped, s.db)
    {
      assert Placed(x, s.queue, s.workers, s.dropped, s.db);
    }
    assert s.phase.Serving? || after == [];
  }

  lemma ForgetWriteInv(s: State, id: TaskId)
    requires Inv(s)
    ensures Inv(s.(unwritten := s.unwritten - {id}))
  {
    forall i | 0 <= i < |s.workers|
      ensures WorkerOk(s.db, s.unwritten - {id}, s.workers[i])
    {
      assert WorkerOk(s.db, s.unwritten, s.workers[i]);
    }
  }

  lemma BeginWriteInv(s: State, w: nat)
    requires Inv(s) && At(s, w) && s.workers[w].Forwarding?
    ensures Inv(s.(wire := s.wire.(inflight := s.wire.inflight + {s.workers[w].id})))
  {
    assert WorkerOk(s.db, s.unwritten, s.workers[w]);
    assert s.workers[w].Holds(s.workers[w].id) && Held(s.workers, s.workers[w].id);
  }

  lemma EndWriteInv(s: State, id: TaskId, whole: bool)
    requires Inv(s) && s.phase.Serving? && id in s.wire.inflight
    ensures Inv(EndWriteStep(s, id, whole))
  {
    if id in s.unwritten {
      ForgetWriteInv(s, id);
      HeldApart(s, id);
      assert s.writes[id] == s.lostMarks[id];
    }
  }

  lemma WroteInv(s: State, id: TaskId)
    requires Inv(s) && s.phase.Serving? && id in s.hooks
    ensures Inv(WroteStep(s, id))
  {
    SetWroteInv(s, id);
  }

  lemma MarkInv(s: State, id: TaskId, now: int, fault: Fault)
    requires Inv(s) && s.phase.Serving? && id in s.marking
    ensures Inv(MarkStep(s, id, now, fault))
  {
    DispatchMoves(s.db, s.used, id, now, fault);
    var t := MarkStep(s, id, now, fault);
    MovesInv(s, t.db, {});
    assert s.writes[id] == s.lostMarks[id] + 1;
  }

  lemma FinishInv(s: State, w: nat, now: int, fault: Fault)
    requires Inv(s) && At(s, w) && s.workers[w].Finishing?
    ensures var t := s.(db := Outcome(fault, s.db, FinishStatement(s.db, s.workers[w].id, s.workers[w].outcome, now)));
            Inv(Drop(t, w)) && (fault.NoFault? ==> Inv(SetWorker(t, w, Idle)))
  {
    var id, o := s.workers[w].id, s.workers[w].outcome;
    assert WorkerOk(s.db, s.unwritten, s.workers[w]);
    FinishStatementMoves(s.db, s.used, id, o, now, fault);
    var t := s.(db := Outcome(fault, s.db, FinishStatement(s.db, id, o, now)));
    MovesInv(s, t.db, {});
    DropInv(t, w);
    if fault.NoFault? {
      ReleaseInv(t, w);
    }
  }

  // ----- Submit handlers -----

  lemma CreateOk(db: Db, used: set<TaskId>, id: TaskId, request: string, payload: Payload, now: int)
    requires DbOk(db, used) && id !in used
    ensures var b := CreateAccepted(db, id, request, payload, now);
            && DbOk(b, used + {id}) && Fresh(b, id)
            && (forall x ::
                  x != id ==> (x in b.tasks <==> x in db.tasks) && (x in b.tasks ==> b.tasks[x] == db.tasks[x]))
  {
  }

  ghost predicate SameRows(a: Db, b: Db, id: TaskId) {
    forall x :: x != id ==> (x in b.tasks <==> x in a.tasks) && (x in b.tasks ==> b.tasks[x] == a.tasks[x])
  }

  lemma CreateWorkersOk(s: State, db: Db, id: TaskId)
    requires SameRows(s.db, db, id) && WorkersDistinct(s.workers, s.dequeued) && WorkersOk(s.workers, s.db, s.unwritten)
    requires id !in s.dequeued
    ensures WorkersOk(s.workers, db, s.unwritten)
  {
    forall i | 0 <= i < |s.workers|
      ensures WorkerOk(db, s.unwritten, s.workers[i])
    {
      assert WorkerOk(s.db, s.unwritten, s.workers[i]);
      assert s.workers[i].Idle? || s.workers[i].Exited? || s.workers[i].Holds(s.workers[i].id);
    }
  }

  lemma CreateServedOk(s: State, db: Db, id: TaskId)
    requires SameRows(s.db, db, id) && ServedOk(s.served, s.queue, s.workers, s.dropped, s.db) && id !in s.served
    ensures ServedOk(s.served, s.queue, s.workers, s.dropped, db)
  {
    forall x | x in s.served
      ensures Placed(x, s.queue, s.workers, s.dropped, db)
    {
      assert Placed(x, s.queue, s.workers, s.dropped, s.db);
    }
  }

  /** What the handlers, the queue and the transport say of other rows still holds. */
  lemma CreateOthersOk(s: State, db: Db, id: TaskId)
    requires Inv(s) && SameRows(s.db, db, id) && id !in s.used && id !in s.enqueued
    ensures HandlersOk(s.handlers, db, s.enqueued) && AllFresh(s.queue, db)
    ensures DueOk(s.unwritten, s.dequeued, db) && DueOk(s.hooks, s.dequeued, db)
    ensures DueOk(s.marking, s.dequeued, db) && DueOk(s.wire.inflight, s.dequeued, db)
    ensures WritesOk(s.writes, s.lostMarks, s.used + {id}, db, s.unwritten, s.hooks, s.marking)
  {
    assert forall x :: x in s.queue || x in s.dequeued ==> x in s.enqueued;
  }

  /** A row created under an unused id disturbs nothing. */
  lemma CreateInv(s: State, id: TaskId, request: string, payload: Payload, now: int)
    requires Inv(s) && s.phase.Serving? && id !in s.used
    ensures Inv(s.(db := CreateAccepted(s.db, id, request, payload, now), used := s.used + {id}))
    ensures id !in s.enqueued
  {
    assert id !in s.enqueued;
    assert id !in s.dequeued;
    var db := CreateAccepted(s.db, id, request, payload, now);
    CreateOk(s.db, s.used, id, request, payload, now);
    CreateWorkersOk(s, db, id);
    CreateServedOk(s, db, id);
    CreateOthersOk(s, db, id);
  }

  lemma SubmitInv(s: State, id: TaskId, db: Db, fault: Fault)
    requires Inv(s.(used := s.used + {id})) && Inv(s.(db := db, used := s.used + {id})) && s.phase.Serving?
    requires s.admitted > 0
    requires id !in s.enqueued && Fresh(db, id)
    ensures var t := s.(admitted := s.admitted - 1, db := Outcome(fault, s.db, db), used := s.used + {id});
            Inv(t) && (fault.NoFault? ==> Inv(t.(handlers := t.handlers[id := RowCreated])))
  {
  }

  lemma UseInv(s: State, id: TaskId)
    requires Inv(s)
    ensures Inv(s.(used := s.used + {id}))
  {
  }

  lemma HandlerMoveInv(s: State, id: TaskId, pc: HandlerPc)
    requires Inv(s) && id in s.handlers
    ensures Inv(s.(handlers := s.handlers[id := pc])) && Inv(RemoveHandler(s, id))
  {
  }

  lemma MarkQueuedMoves(db: Db, used: set<TaskId>, id: TaskId, fault: Fault)
    requires DbOk(db, used) && Fresh(db, id)
    ensures var b := Outcome(fault, db, MarkQueued(db, id)); DbOk(b, used) && Moves(db, b, {})
  {
  }

  lemma SubmitMarkQueuedInv(s: State, id: TaskId, fault: Fault)
    requires Inv(s) && s.phase.Serving? && id in s.handlers
    ensures Inv(MarkQueuedStep(s, id, fault))
  {
    MarkQueuedMoves(s.db, s.used, id, fault);
    var t := s.(db := Outcome(fault, s.db, MarkQueued(s.db, id)));
    MovesInv(s, t.db, {});
    HandlerMoveInv(t, id, RowQueued);
  }

  lemma SubmitRefuseInv(s: State, id: TaskId, now: int, fault: Fault)
    requires Inv(s) && s.phase.Serving? && id in s.handlers
    ensures Inv(RefuseStep(s, id, now, fault))
  {
    var db := Outcome(fault, s.db, FinishFailed(s.db, id, Recovery.QUEUE_FULL_CODE, Recovery.QUEUE_FULL_MESSAGE, now));
    FinishFailedMoves(s.db, s.used, id, Recovery.QUEUE_FULL_CODE, Recovery.QUEUE_FULL_MESSAGE, now, fault);
    HandlerMoveInv(s, id, QueueRefused);
    var m := RemoveHandler(s, id);
    assert id !in s.dequeued && !Held(s.workers, id);
    forall i | 0 <= i < |s.workers|
      ensures !s.workers[i].Preparing(id)
    {
      assert !s.workers[i].Holds(id);
    }
    assert id in s.queue ==> id in s.enqueued;
    MovesInv(m, db, {id});
    assert RemoveHandler(s.(db := db), id) == m.(db := db);
  }

  /** A task nobody has enqueued before enters an open queue. */
  lemma EnqueueInv(s: State, id: TaskId)
    requires Inv(s) && !s.closed && id !in s.enqueued && Fresh(s.db, id) && !s.phase.Down?
    requires forall x :: x in s.handlers ==> x != id
    requires s.phase.Recovering? ==> forall i :: 0 <= i < |s.phase.items| ==> s.phase.items[i].id != id
    ensures Inv(Enqueue(s, id))
  {
    var t := Enqueue(s, id);
    assert t.enqueued == t.dequeued + t.queue;
    assert forall x :: x in t.queue <==> x in s.queue || x == id;
    assert forall x :: x in t.enqueued <==> x in s.enqueued || x == id;
    forall x | x in t.served
      ensures Placed(x, t.queue, t.workers, t.dropped, t.db)
    {
      assert x != id ==> Placed(x, s.queue, s.workers, s.dropped, s.db);
    }
  }

  lemma SubmitEnqueueInv(s: State, id: TaskId)
    requires Inv(s) && s.phase.Serving? && id in s.handlers && !s.closed
    ensures Inv(RemoveHandler(Enqueue(s, id), id))
  {
    HandlerMoveInv(s, id, QueueRefused);
    EnqueueInv(RemoveHandler(s, id), id);
    assert RemoveHandler(Enqueue(s, id), id) == Enqueue(RemoveHandler(s, id), id);
  }

  // ----- The recovery scan -----

  lemma StopInv(s: State)
    requires DbOk(s.db, s.used) && WritesOk(s.writes, s.lostMarks, s.used, s.db, s.unwritten, s.hooks, s.marking)
    requires WireOk(s.wire, s.writes)
    ensures Inv(Stop(s))
  {
  }

  lemma CrashInv(s: State)
    requires Inv(s)
    ensures Inv(Stop(s))
  {
    StopInv(s);
  }

  lemma StartInv(c: Config, s: State, items: seq<ScanItem>, staleBefore: int)
    requires Inv(s) && s.phase.Down? && IsScanResult(s.db, staleBefore, c.scanLimit, items)
    ensures Inv(s.(phase := Recovering(items, AtDecide)))
  {
    forall i | 0 <= i < |items|
      ensures ItemOk(s.db, s.enqueued, items[i], false)
    {
      assert Recoverable(items[i].row, staleBefore) && RowOk(s.db.tasks[items[i].id]);
    }
  }

  /** The scan moves on to its next item after a statement that touched only this one. */
  lemma ScanNextInv(s: State, db: Db, enqueued: seq<TaskId>)
    requires s.phase.Recovering? && s.phase.items != [] && ItemsOk(s.phase.items, s.phase.pc, s.db, s.enqueued)
    requires forall x :: x != s.phase.items[0].id ==>
               && (x in db.tasks <==> x in s.db.tasks) && (x in db.tasks ==> db.tasks[x] == s.db.tasks[x])
               && (x in db.payloads <==> x in s.db.payloads) && (x in enqueued ==> x in s.enqueued)
    ensures ItemsOk(s.phase.items[1..], AtDecide, db, enqueued)
  {
    var rest := s.phase.items[1..];
    forall i | 0 <= i < |rest|
      ensures ItemOk(db, enqueued, rest[i], false)
    {
      assert rest[i] == s.phase.items[i + 1];
      assert ItemOk(s.db, s.enqueued, s.phase.items[i + 1], false);
    }
  }

  /** After any statement on the first item the process goes on or stops, in order either way. */
  lemma ScanStatementInv(s: State, db: Db, fault: Fault, next: Phase)
    requires Inv(s) && s.phase.Recovering? && next.Recovering? && DbOk(db, s.used)
    requires forall id :: (Sealed(s.db, id) ==> Sealed(db, id)) && (Settled(s.db, id) ==> Settled(db, id))
    requires forall id :: id in s.queue ==> Fresh(db, id)
    requires ItemsOk(next.items, next.pc, db, s.enqueued)
    ensures Inv(AfterScanStatement(s, db, fault, next))
  {
    StopInv(s.(db := Outcome(fault, s.db, db)));
    forall x | x in s.served
      ensures Placed(x, s.queue, s.workers, s.dropped, db)
    {
      assert Placed(x, s.queue, s.workers, s.dropped, s.db);
    }
  }

  lemma ScanFinishMoves(db: Db, used: set<TaskId>, id: TaskId, code: string, message: string, now: int)
    requires DbOk(db, used)
    ensures DbOk(FinishFailed(db, id, code, message, now), used)
    ensures Moves(db, FinishFailed(db, id, code, message, now), {id})
    ensures DbOk(MarkUncertain(db, id, code, message, now), used)
    ensures Moves(db, MarkUncertain(db, id, code, message, now), {id})
  {
    FinishFailedMoves(db, used, id, code, message, now, NoFault);
    MarkUncertainMoves(db, used, id, code, message, now);
  }

  /** The first item's task is finished by the scan. */
  lemma ScanFinishInv(s: State, db: Db, fault: Fault)
    requires Inv(s) && Scanning(s, AtDecide) && DbOk(db, s.used) && Moves(s.db, db, {s.phase.items[0].id})
    requires db.payloads == s.db.payloads && db.tasks.Keys == s.db.tasks.Keys
    requires forall x :: x in db.tasks && x != s.phase.items[0].id ==> db.tasks[x] == s.db.tasks[x]
    ensures Inv(AfterScanStatement(s, db, fault, Rest(s)))
  {
    assert ItemOk(s.db, s.enqueued, s.phase.items[0], false);
    assert forall x :: x in s.queue ==> x in s.enqueued;
    ScanNextInv(s, db, s.enqueued);
    ScanStatementInv(s, db, fault, Rest(s));
  }

  lemma ScanRequeueInv(s: State, cutoff: int, fault: Fault)
    requires Inv(s) && Scanning(s, AtDecide) && Recovery.Decide(s.phase.items[0], cutoff).Requeue?
    ensures Inv(AfterScanStatement(s, MarkQueued(s.db, s.phase.items[0].id), fault, s.phase.(pc := AtEnqueue)))
  {
    var item := s.phase.items[0];
    assert ItemOk(s.db, s.enqueued, item, false) && RowOk(item.row);
    assert forall x :: x in s.queue ==> x in s.enqueued;
    var db := MarkQueued(s.db, item.id);
    assert DbOk(db, s.used);
    forall i | 1 <= i < |s.phase.items|
      ensures ItemOk(db, s.enqueued, s.phase.items[i], false)
    {
      assert ItemOk(s.db, s.enqueued, s.phase.items[i], false);
    }
    ScanStatementInv(s, db, fault, s.phase.(pc := AtEnqueue));
  }

  lemma ScanPayloadMissingInv(s: State, now: int, fault: Fault)
    requires Inv(s) && Scanning(s, AtDecide)
    ensures var id := s.phase.items[0].id;
            var db := FinishFailed(s.db, id, Recovery.PAYLOAD_MISSING_CODE, Recovery.PAYLOAD_MISSING_MESSAGE, now);
            Inv(AfterScanStatement(s, db, fault, Rest(s)))
  {
    var id := s.phase.items[0].id;
    ScanFinishMoves(s.db, s.used, id, Recovery.PAYLOAD_MISSING_CODE, Recovery.PAYLOAD_MISSING_MESSAGE, now);
    ScanFinishInv(s, FinishFailed(s.db, id, Recovery.PAYLOAD_MISSING_CODE, Recovery.PAYLOAD_MISSING_MESSAGE, now),
                  fault);
  }

  lemma ScanUncertainInv(s: State, now: int, fault: Fault)
    requires Inv(s) && Scanning(s, AtDecide)
    ensures var id := s.phase.items[0].id;
            var db := MarkUncertain(s.db, id, Recovery.UNCERTAIN_CODE, Recovery.UNCERTAIN_MESSAGE, now);
            Inv(AfterScanStatement(s, db, fault, Rest(s)))
  {
    var id := s.phase.items[0].id;
    ScanFinishMoves(s.db, s.used, id, Recovery.UNCERTAIN_CODE, Recovery.UNCERTAIN_MESSAGE, now);
    ScanFinishInv(s, MarkUncertain(s.db, id, Recovery.UNCERTAIN_CODE, Recovery.UNCERTAIN_MESSAGE, now), fault);
  }

  lemma ScanSkipInv(s: State)
    requires Inv(s) && Scanning(s, AtDecide)
    ensures Inv(s.(phase := Rest(s)))
  {
    ScanNextInv(s, s.db, s.enqueued);
  }

  lemma ScanDecideInv(s: State, cutoff: int, now: int, fault: Fault)
    requires Inv(s) && Scanning(s, AtDecide)
    ensures Inv(DecideStep(s, cutoff, now, fault))
  {
    match Recovery.Decide(s.phase.items[0], cutoff)
    case SkipFresh => ScanSkipInv(s);
    case FailPayloadMissing => ScanPayloadMissingInv(s, now, fault);
    case LeaveUncertain => ScanUncertainInv(s, now, fault);
    case Requeue => ScanRequeueInv(s, cutoff, fault);
  }

  lemma ScanRefuseInv(s: State, now: int, fault: Fault)
    requires Inv(s) && Scanning(s, AtRefused)
    ensures var id := s.phase.items[0].id;
            var db := FinishFailed(s.db, id, Recovery.QUEUE_FULL_CODE, Recovery.QUEUE_FULL_MESSAGE, now);
            Inv(AfterScanStatement(s, db, fault, Rest(s)))
  {
    var item := s.phase.items[0];
    assert ItemOk(s.db, s.enqueued, item, true);
    assert forall x :: x in s.queue ==> x in s.enqueued;
    var db := FinishFailed(s.db, item.id, Recovery.QUEUE_FULL_CODE, Recovery.QUEUE_FULL_MESSAGE, now);
    FinishFailedMoves(s.db, s.used, item.id, Recovery.QUEUE_FULL_CODE, Recovery.QUEUE_FULL_MESSAGE, now, NoFault);
    ScanNextInv(s, db, s.enqueued);
    ScanStatementInv(s, db, fault, Rest(s));
  }

  lemma ScanEnqueueInv(c: Config, s: State)
    requires Inv(s) && Scanning(s, AtEnqueue)
    ensures Inv(s.(phase := s.phase.(pc := AtRefused)))
    ensures CanEnqueue(c, s) ==> Inv(Enqueue(s, s.phase.items[0].id).(phase := Rest(s)))
  {
    var id := s.phase.items[0].id;
    assert ItemOk(s.db, s.enqueued, s.phase.items[0], true);
    if CanEnqueue(c, s) {
      ScanNextInv(s, s.db, s.enqueued + [id]);
      var m := s.(phase := Recovering(s.phase.items[1..], AtDecide));
      ScanNextInv(s, s.db, s.enqueued);
      EnqueueInv(m, id);
      assert Enqueue(s, id).(phase := Rest(s)) == Enqueue(m, id);
    }
  }

  lemma ScanDoneInv(s: State, n: nat)
    requires Inv(s) && s.phase == Recovering([], AtDecide)
    ensures Inv(s.(phase := Serving, workers := seq(n, _ => Idle)))
  {
    var t := s.(phase := Serving, workers := seq(n, _ => Idle));
    forall x | x in s.served
      ensures Placed(x, t.queue, t.workers, t.dropped, t.db)
    {
      assert Placed(x, s.queue, s.workers, s.dropped, s.db);
    }
  }

  // ----- Any event -----

  lemma LoadStepInv(c: Config, s: State, e: Event)
    requires Inv(s) && (e.LoadTask? || e.LoadPayload?) && Enabled(c, s, e)
    ensures Inv(Step(c, s, e))
  {
    assert WorkerOk(s.db, s.unwritten, s.workers[e.w]);
    DropInv(s, e.w);
    AdvanceInv(s, e.w, if e.LoadTask? then TaskLoaded(s.workers[e.w].id) else PayloadLoaded(s.workers[e.w].id));
  }

  lemma EndForwardInv(s: State, w: nat, result: Forwarder.UpstreamResult)
    requires Inv(s) && At(s, w) && s.workers[w].Forwarding?
    ensures var id := s.workers[w].id;
            var t := if result.NotSent? then s.(unwritten := s.unwritten - {id}) else s;
            Inv(SetWorker(t, w, Finishing(id, Forwarder.Classify(result, s.workers[w].wrote))))
  {
    assert WorkerOk(s.db, s.unwritten, s.workers[w]);
    var t := if result.NotSent? then s.(unwritten := s.unwritten - {s.workers[w].id}) else s;
    ForgetWriteInv(s, s.workers[w].id);
    AdvanceInv(t, w, Finishing(s.workers[w].id, Forwarder.Classify(result, s.workers[w].wrote)));
  }

  lemma IdleStepInv(c: Config, s: State, e: Event)
    requires Inv(s) && (e.Dequeue? || e.WorkerExit?) && Enabled(c, s, e)
    ensures Inv(Step(c, s, e))
  {
    if e.Dequeue? {
      DequeueInv(s, e.w);
    } else {
      WorkerExitInv(s, e.w);
    }
  }

  lemma BeginStepInv(c: Config, s: State, e: Event)
    requires Inv(s) && e.BeginForward? && Enabled(c, s, e)
    ensures Inv(Step(c, s, e))
  {
    MarkRunningInv(s, e.w, e.workerId, e.now, e.fault);
    if e.fault.NoFault? { BeginForwardInv(s, e.w, e.workerId, e.now); }
  }

  lemma EndStepInv(c: Config, s: State, e: Event)
    requires Inv(s) && (e.EndForward? || e.Finish?) && Enabled(c, s, e)
    ensures Inv(Step(c, s, e))
  {
    if e.EndForward? {
      EndForwardInv(s, e.w, e.result);
    } else {
      FinishInv(s, e.w, e.now, e.fault);
    }
  }

  lemma ScanStepInv(c: Config, s: State, e: Event)
    requires Inv(s) && (e.Start? || e.ScanDecide? || e.ScanEnqueue? || e.ScanRefuse? || e.ScanDone? || e.Crash?)
    requires Enabled(c, s, e)
    ensures Inv(Step(c, s, e))
  {
    match e
    case Start(items, staleBefore) => StartInv(c, s, items, staleBefore);
    case ScanDecide(cutoff, now, fault) => ScanDecideInv(s, cutoff, now, fault);
    case ScanEnqueue => ScanEnqueueInv(c, s);
    case ScanRefuse(now, fault) => ScanRefuseInv(s, now, fault);
    case ScanDone => ScanDoneInv(s, c.workerCount);
    case Crash => CrashInv(s);
  }

  lemma CreateStepInv(s: State, id: TaskId, request: string, payload: Payload, now: int, fault: Fault)
    requires Inv(s) && s.phase.Serving? && s.admitted > 0 && id !in s.used
    ensures Inv(SubmitStep(s, id, request, payload, now, fault))
  {
    UseInv(s, id);
    CreateInv(s, id, request, payload, now);
    CreateOk(s.db, s.used, id, request, payload, now);
    SubmitInv(s, id, CreateAccepted(s.db, id, request, payload, now), fault);
  }

  lemma EnqueueStepInv(c: Config, s: State, id: TaskId)
    requires Inv(s) && s.phase.Serving? && id in s.handlers
    ensures Inv(if CanEnqueue(c, s) then RemoveHandler(Enqueue(s, id), id)
                else s.(handlers := s.handlers[id := QueueRefused]))
  {
    HandlerMoveInv(s, id, QueueRefused);
    if CanEnqueue(c, s) { SubmitEnqueueInv(s, id); }
  }

  lemma SubmitStepInv(c: Config, s: State, e: Event)
    requires Inv(s) && (e.Submit? || e.SubmitMarkQueued? || e.SubmitEnqueue? || e.SubmitRefuse?) && Enabled(c, s, e)
    ensures Inv(Step(c, s, e))
  {
    match e
    case Submit(id, request, payload, now, fault) => CreateStepInv(s, id, request, payload, now, fault);
    case SubmitMarkQueued(id, fault) => SubmitMarkQueuedInv(s, id, fault);
    case SubmitEnqueue(id) => EnqueueStepInv(c, s, id);
    case SubmitRefuse(id, now, fault) => SubmitRefuseInv(s, id, now, fault);
  }

  lemma CleanStepInv(c: Config, s: State, e: Event)
    requires Inv(s) && (e.CleanTasks? || e.CleanPayloads?) && Enabled(c, s, e)
    ensures Inv(Step(c, s, e))
  {
    CleanMoves(s.db, s.used, e.victims, if e.CleanTasks? then e.finishedBefore else e.expiresBefore, e.fault);
    MovesInv(s, Step(c, s, e).db, {});
  }

  lemma HeartbeatInv(s: State, id: TaskId, now: int, fault: Fault)
    requires Inv(s) && s.phase.Serving?
    ensures Inv(s.(db := Outcome(fault, s.db, UpdateHeartbeat(s.db, id, now))))
  {
    HeartbeatMoves(s.db, s.used, id, now, fault);
    MovesInv(s, Outcome(fault, s.db, UpdateHeartbeat(s.db, id, now)), {});
  }

  lemma ForceInv(s: State, code: string, message: string, now: int, fault: Fault)
    requires Inv(s) && s.phase.Serving?
    ensures Inv(s.(db := Outcome(fault, s.db, MarkDispatchedRunningUncertain(s.db, code, message, now))))
  {
    ForcedMoves(s.db, s.used, code, message, now, fault);
    MovesInv(s, Outcome(fault, s.db, MarkDispatchedRunningUncertain(s.db, code, message, now)), {});
  }

  lemma WriteStepInv(c: Config, s: State, e: Event)
    requires Inv(s) && IsWriteEvent(e) && Enabled(c, s, e)
    ensures Inv(Step(c, s, e))
  {
    match e
    case BeginWrite(w) => BeginWriteInv(s, w);
    case EndWrite(id, whole) => EndWriteInv(s, id, whole);
    case WroteRequest(id) => WroteInv(s, id);
    case StoreMark(id, now, fault) => MarkInv(s, id, now, fault);
  }

  lemma FlagStepInv(s: State)
    requires Inv(s)
    ensures s.phase.Serving? ==>
              Inv(s.(closed := true)) && Inv(s.(draining := true)) && Inv(s.(admitted := s.admitted + 1))
  {
  }

  lemma StepInv(c: Config, s: State, e: Event)
    requires Inv(s) && Enabled(c, s, e)
    ensures Inv(Step(c, s, e))
  {
    if e.LoadTask? || e.LoadPayload? {
      LoadStepInv(c, s, e);
    } else if e.Dequeue? || e.WorkerExit? {
      IdleStepInv(c, s, e);
    } else if e.BeginForward? {
      BeginStepInv(c, s, e);
    } else if e.EndForward? || e.Finish? {
      EndStepInv(c, s, e);
    } else if e.Start? || e.ScanDecide? || e.ScanEnqueue? || e.ScanRefuse? || e.ScanDone? || e.Crash? {
      ScanStepInv(c, s, e);
    } else if e.Submit? || e.SubmitMarkQueued? || e.SubmitEnqueue? || e.SubmitRefuse? {
      SubmitStepInv(c, s, e);
    } else if IsWriteEvent(e) {
      WriteStepInv(c, s, e);
    } else if e.Admit? || e.StartDraining? || e.CloseQueue? {
      FlagStepInv(s);
    } else if e.Heartbeat? {
      HeartbeatInv(s, s.workers[e.w].id, e.now, e.fault);
    } else if e.ForceUncertain? {
      ForceInv(s, FORCED_CODE, FORCED_MESSAGE, e.now, e.fault);
    } else {
      CleanStepInv(c, s, e);
    }
  }

  /** The invariant holds in every state a run reaches. */
  lemma {:induction false} RunInv(c: Config, s: State, es: seq<Event>)
    requires Inv(s) && IsRun(c, s, es)
    ensures Inv(After(c, s, es))
    decreases |es|
  {
    if es != [] {
      StepInv(c, s, es[0]);
      RunInv(c, Step(c, s, es[0]), es[1..]);
    }
  }
}
