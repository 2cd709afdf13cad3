/** Runs that show what the gateway does not promise: one request sent twice, by two forwards
    or by one; a task left uncertain whose request was never sent; and a dispatched task
    reported as failed. */
module LifecycleWitnesses {
  import opened TaskStore
  import opened Lifecycle
  import opened LifecycleInvariant
  import opened LifecycleTheorems
  import opened LifecycleReach
  import opened Wrappers
  import Forwarder
  import Recovery

  lemma FreshHasPayload(s: State, id: TaskId)
    requires Inv(s) && Fresh(s.db, id)
    ensures id in s.db.payloads
  {
    assert RowOk(s.db.tasks[id]) && Replayable(s.db.tasks[id]);
  }

  /** The first worker takes the next queued task and loads it. */
  lemma TakeQueued(c: Config, from: State, s: State, id: TaskId) returns (t: State)
    requires Inv(s) && Leads(c, from, s) && s.phase.Serving? && s.queue != [] && s.queue[0] == id
    requires s.workers != [] && s.workers[0].Idle? && Fresh(s.db, id)
    ensures Leads(c, from, t)
    ensures t == s.(queue := s.queue[1..], dequeued := s.dequeued + [id], workers := s.workers[0 := PayloadLoaded(id)])
  {
    FreshHasPayload(s, id);
    ByDequeue(c, from, s, 0);
    var s1 := DequeueStep(s, 0);
    ByLoadTask(c, from, s1, 0, NoFault);
    var s2 := LoadTaskStep(s1, 0, NoFault);
    assert s2.workers == s.workers[0 := TaskLoaded(id)];
    ByLoadPayload(c, from, s2, 0);
    t := LoadPayloadStep(s2, 0, NoFault);
    assert t.workers == s.workers[0 := PayloadLoaded(id)];
  }

  function Written(wire: Wire, id: TaskId, whole: bool): Wire {
    if whole then wire.(sent := wire.sent + multiset{id}) else wire.(broken := wire.broken + multiset{id})
  }

  lemma BeginLoaded(c: Config, from: State, s: State, id: TaskId) returns (t: State)
    requires Inv(s) && Leads(c, from, s) && s.phase.Serving? && s.workers != [] && s.workers[0] == PayloadLoaded(id)
    ensures Leads(c, from, t) && id !in s.wire.inflight
    ensures t == s.(db := MarkRunning(s.db, id, "w", 0), unwritten := s.unwritten + {id},
                    workers := s.workers[0 := Forwarding(id, false)])
  {
    assert WorkerOk(s.db, s.unwritten, s.workers[0]);
    ByBegin(c, from, s, 0, "w", 0);
    t := BeginStep(s, 0, "w", 0, NoFault);
  }

  /** One attempt to write the request of the first worker, whole or not. */
  lemma Attempt(c: Config, from: State, s: State, id: TaskId, whole: bool) returns (t: State)
    requires Leads(c, from, s) && At(s, 0) && s.workers[0].Forwarding? && s.workers[0].id == id
    requires id !in s.wire.inflight
    ensures Leads(c, from, t)
    ensures t == EndWriteStep(s.(wire := s.wire.(inflight := s.wire.inflight + {id})), id, whole)
  {
    ByBeginWrite(c, from, s, 0);
    var s1 := s.(wire := s.wire.(inflight := s.wire.inflight + {id}));
    ByEndWrite(c, from, s1, id, whole);
    t := EndWriteStep(s1, id, whole);
  }

  lemma FirstAttempt(c: Config, from: State, s: State, id: TaskId, whole: bool) returns (t: State)
    requires Leads(c, from, s) && At(s, 0) && s.workers[0].Forwarding? && s.workers[0].id == id
    requires id !in s.wire.inflight && id in s.unwritten
    ensures Leads(c, from, t)
    ensures t == s.(unwritten := s.unwritten - {id}, hooks := s.hooks + {id}, writes := s.writes + multiset{id},
                    wire := Written(s.wire, id, whole))
  {
    t := Attempt(c, from, s, id, whole);
    assert t.wire == Written(s.wire, id, whole);
  }

  lemma RunHook(c: Config, from: State, s: State, id: TaskId) returns (t: State)
    requires Leads(c, from, s) && At(s, 0) && s.workers[0] == Forwarding(id, false) && id in s.hooks
    ensures Leads(c, from, t) && t.workers != [] && t.workers[0] == Forwarding(id, true)
    ensures t == s.(hooks := s.hooks - {id}, marking := s.marking + {id}, workers := t.workers)
  {
    ByWrote(c, from, s, id);
    t := WroteStep(s, id);
  }

  /** The loaded task is forwarded, its request is written once, whole or not, and the hook runs. */
  lemma WriteLoaded(c: Config, from: State, s: State, id: TaskId, whole: bool) returns (t: State)
    requires Inv(s) && Leads(c, from, s) && s.phase.Serving? && s.workers != [] && s.workers[0] == PayloadLoaded(id)
    ensures Leads(c, from, t) && t.phase.Serving? && t.db == MarkRunning(s.db, id, "w", 0)
    ensures t.writes == s.writes + multiset{id} && t.marking == s.marking + {id} && t.lostMarks == s.lostMarks
    ensures t.wire == Written(s.wire, id, whole) && t.workers != [] && t.workers[0] == Forwarding(id, true)
    ensures t.hooks == s.hooks - {id}
  {
    var s1 := BeginLoaded(c, from, s, id);
    var s2 := FirstAttempt(c, from, s1, id, whole);
    t := RunHook(c, from, s2, id);
  }

  lemma FirstServing(c: Config) returns (s: State)
    requires c.Valid()
    ensures Reachable(c, s) && s == INITIAL.(phase := Serving, workers := seq(c.workerCount, _ => Idle))
  {
    LeadsNowhere(c, INITIAL);
    assert IsScanResult(INITIAL.db, 0, c.scanLimit, []);
    ByStart(c, INITIAL, INITIAL, [], 0);
    var s1 := INITIAL.(phase := Recovering([], AtDecide));
    ByScanDone(c, INITIAL, s1);
    s := s1.(phase := Serving, workers := seq(c.workerCount, _ => Idle));
  }

  /** The database after the first submission: one queued row whose payload expires at 9. */
  function FirstDb(id: TaskId): Db {
    Db(map[id := NewRow("r", 0).(status := Queued)], map[id := Payload("b", 9)])
  }

  predicate NothingTried(s: State) {
    && s.hooks == {} && s.marking == {} && s.wire == INITIAL.wire
    && s.writes == multiset{} && s.lostMarks == multiset{}
  }

  lemma CreateFirst(c: Config, id: TaskId) returns (t: State)
    requires c.Valid()
    ensures Reachable(c, t) && t.phase.Serving? && t.queue == [] && !t.closed && t.workers != [] && t.workers[0].Idle?
    ensures t.handlers == map[id := RowCreated] && t.db == Db(map[id := NewRow("r", 0)], map[id := Payload("b", 9)])
    ensures NothingTried(t)
  {
    var s := FirstServing(c);
    ByAdmit(c, INITIAL, s);
    var s1 := s.(admitted := 1);
    BySubmit(c, INITIAL, s1, id, "r", Payload("b", 9), 0);
    t := SubmitStep(s1, id, "r", Payload("b", 9), 0, NoFault);
  }

  lemma SubmitFirst(c: Config, id: TaskId) returns (t: State)
    requires c.Valid()
    ensures Reachable(c, t) && t.phase.Serving? && t.queue == [id] && t.workers != [] && t.workers[0].Idle?
    ensures t.db == FirstDb(id) && NothingTried(t)
  {
    var s := CreateFirst(c, id);
    ByMarkQueued(c, INITIAL, s, id);
    var s1 := MarkQueuedStep(s, id, NoFault);
    ByEnqueue(c, INITIAL, s1, id);
    t := RemoveHandler(Enqueue(s1, id), id);
  }

  /** The first task is running, and its request has been written once, whole or not. */
  lemma WriteFirst(c: Config, id: TaskId, whole: bool) returns (t: State)
    requires c.Valid()
    ensures Reachable(c, t) && t.phase.Serving? && t.db == MarkRunning(FirstDb(id), id, "w", 0) && t.marking == {id}
    ensures t.writes == multiset{id} && t.lostMarks == multiset{} && t.wire == Written(INITIAL.wire, id, whole)
    ensures t.workers != [] && t.workers[0] == Forwarding(id, true) && t.hooks == {}
  {
    var s := SubmitFirst(c, id);
    ReachableInv(c, s);
    var s1 := TakeQueued(c, INITIAL, s, id);
    ReachableInv(c, s1);
    t := WriteLoaded(c, INITIAL, s1, id, whole);
  }

  /** A process that starts over this one row, stale by now, decides about it. */
  lemma Restarted(c: Config, s: State, id: TaskId) returns (t: State)
    requires c.scanLimit >= 1 && Reachable(c, s) && s.db.tasks.Keys == {id}
    requires s.db.tasks[id].status.Running? && s.db.tasks[id].heartbeatAt == Some(0)
    ensures var item := ScanItem(id, s.db.tasks[id], id in s.db.payloads);
            Reachable(c, t) && t == DecideStep(Stop(s).(phase := Recovering([item], AtDecide)), 300, 300, NoFault)
  {
    ByCrash(c, INITIAL, s);
    var item := ScanItem(id, s.db.tasks[id], id in s.db.payloads);
    assert [item][0].id == id;
    assert IsScanResult(s.db, 300, c.scanLimit, [item]);
    ByStart(c, INITIAL, Stop(s), [item], 300);
    ByDecide(c, INITIAL, Stop(s).(phase := Recovering([item], AtDecide)), 300, 300);
    t := DecideStep(Stop(s).(phase := Recovering([item], AtDecide)), 300, 300, NoFault);
  }

  /** The requeued row is forwarded by the new process. */
  lemma WriteRequeued(c: Config, s: State, item: ScanItem) returns (t: State)
    requires c.Valid() && Reachable(c, s) && s.phase == Recovering([item], AtEnqueue) && !s.closed && s.queue == []
    ensures Reachable(c, t) && t.wire == Written(s.wire, item.id, true) && t.lostMarks == s.lostMarks
  {
    ByScanEnqueue(c, INITIAL, s);
    var s1 := Enqueue(s, item.id).(phase := Rest(s));
    assert s1.phase == Recovering([], AtDecide);
    ByScanDone(c, INITIAL, s1);
    var s2 := s1.(phase := Serving, workers := seq(c.workerCount, _ => Idle));
    ReachableInv(c, s2);
    assert item.id in s2.queue;
    var s3 := TakeQueued(c, INITIAL, s2, item.id);
    ReachableInv(c, s3);
    t := WriteLoaded(c, INITIAL, s3, item.id, true);
  }

  /** That no request is ever sent twice is false: if storing the mark fails, a crash and a
      scan later another forward sends the same request again. */
  lemma LostMarkCanMeanTwoWrites(c: Config, id: TaskId)
    requires c.Valid() && c.scanLimit >= 1
    ensures exists s :: Reachable(c, s) && s.wire.sent[id] == 2 && s.wire.again[id] == 0 && s.lostMarks[id] == 1
  {
    var s0 := WriteFirst(c, id, true);
    ByMark(c, INITIAL, s0, id, 1, Lost);
    var s1 := MarkStep(s0, id, 1, Lost);
    var s2 := Restarted(c, s1, id);
    var s3 := WriteRequeued(c, s2, ScanItem(id, s1.db.tasks[id], true));
    assert s2.wire == s1.wire && s2.lostMarks == multiset{id};
    assert s3.wire.sent[id] == 2 && s3.wire.again[id] == 0 && s3.lostMarks[id] == 1;
  }

  /** Nor does a stored mark prevent it: within one forward the transport may write the request
      once more, and the hook that would tell runs only once. */
  lemma OneForwardCanSendTwice(c: Config, id: TaskId)
    requires c.Valid()
    ensures exists s :: Reachable(c, s) && s.wire.sent[id] == 2 && s.writes[id] == 1 && s.lostMarks[id] == 0 &&
                        id in s.db.tasks && s.db.tasks[id].dispatchedAt.Some?
  {
    var s := WriteFirst(c, id, true);
    ByMark(c, INITIAL, s, id, 1, NoFault);
    var s1 := MarkStep(s, id, 1, NoFault);
    ReachableInv(c, s1);
    assert s1.writes[id] > s1.lostMarks[id];
    var s2 := Attempt(c, INITIAL, s1, id, true);
    assert s2.wire.sent[id] == 2 && s2.writes[id] == 1 && s2.lostMarks[id] == 0;
  }

  /** That an uncertain task's request was sent is false: the hook runs for a failed write as well. */
  lemma UncertainCanMeanUnsent(c: Config, id: TaskId)
    requires c.Valid()
    ensures exists s :: Reachable(c, s) && id in s.db.tasks && s.db.tasks[id].status.Uncertain? &&
                        s.db.tasks[id].dispatchedAt.Some? && s.wire.sent[id] == 0 && s.wire.broken[id] == 1
  {
    var s0 := WriteFirst(c, id, false);
    ByMark(c, INITIAL, s0, id, 1, NoFault);
    var s := MarkStep(s0, id, 1, NoFault);
    var result := Forwarder.CallFailed(false, "write: broken pipe");
    ByEnd(c, INITIAL, s, 0, result);
    var s1 := EndStep(s, 0, result);
    ByFinish(c, INITIAL, s1, 0, 1);
    var s2 := FinishStep(s1, 0, 1, NoFault);
    assert s2.db.tasks[id].status.Uncertain? && s2.db.tasks[id].dispatchedAt.Some?;
    assert s2.wire.sent[id] == 0 && s2.wire.broken[id] == 1;
  }

  /** The first task is dispatched, its mark is stored, and its payload has expired. */
  lemma ExpireFirst(c: Config, id: TaskId) returns (t: State)
    requires c.Valid()
    ensures Reachable(c, t) && t.wire.sent == multiset{id} && t.db.tasks.Keys == {id} && t.db.payloads == map[]
    ensures var row := t.db.tasks[id];
            row.status.Running? && row.heartbeatAt == Some(0) && row.dispatchedAt == Some(1) && row.finishedAt.None?
  {
    var s := WriteFirst(c, id, true);
    ByMark(c, INITIAL, s, id, 1, NoFault);
    var s1 := MarkStep(s, id, 1, NoFault);
    ByCleanPayload(c, INITIAL, s1, id, 10);
    t := s1.(db := DeletePayloads(s1.db, {id}));
  }

  /** A task whose request went out and whose dispatch mark is stored can end as failed: its
      payload expires, the process crashes, and the scan looks for the payload first. */
  lemma DispatchedCanEndFailed(c: Config, id: TaskId)
    requires c.Valid() && c.scanLimit >= 1
    ensures exists s ::
              Reachable(c, s) && s.wire.sent[id] == 1 && id in s.db.tasks && EndedPayloadMissing(s.db.tasks[id])
  {
    var s := ExpireFirst(c, id);
    var t := Restarted(c, s, id);
    assert t.db == FinishFailed(s.db, id, Recovery.PAYLOAD_MISSING_CODE, Recovery.PAYLOAD_MISSING_MESSAGE, 300);
    assert t.wire.sent[id] == 1 && EndedPayloadMissing(t.db.tasks[id]);
  }

  /** Dispatched, and yet failed for want of a payload. */
  predicate EndedPayloadMissing(row: Row) {
    row.dispatchedAt.Some? && row.status.Failed? && row.errorCode == Recovery.PAYLOAD_MISSING_CODE &&
    !row.transportUncertain
  }
}
