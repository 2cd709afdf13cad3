/** The inductive invariant behind the task lifecycle: what rows look like, and that the
    handlers, the queue, the workers and the scan each hold only tasks nobody else holds.
    Each part takes just the fields it speaks of. */
module LifecycleInvariant {
  import opened Wrappers
  import opened TaskStore
  import opened Lifecycle

  predicate RowOk(row: Row) {
    (row.finishedAt.Some? <==> Terminal(row.status)) && (Waiting(row.status) ==> row.dispatchedAt.None?)
  }

  predicate Replayable(row: Row) {
    row.finishedAt.None? && row.dispatchedAt.None?
  }

  /** Finished and waiting agree with the status; only started tasks are dispatched; a task
      that could still be replayed has its payload; payloads belong to tasks. */
  ghost predicate DbOk(db: Db, used: set<TaskId>) {
    && (forall id :: id in db.tasks ==> id in used && RowOk(db.tasks[id]))
    && (forall id :: id in db.tasks && Replayable(db.tasks[id]) ==> id in db.payloads)
    && (forall id :: id in db.payloads ==> id in db.tasks)
  }

  /** Waiting to be forwarded. */
  predicate Fresh(db: Db, id: TaskId) {
    id in db.tasks && Waiting(db.tasks[id].status)
  }

  /** No longer waiting; its finished row may have been deleted. */
  predicate Begun(db: Db, id: TaskId) {
    id in db.tasks ==> !Waiting(db.tasks[id].status)
  }

  /** The dispatch mark of the task is stored, or was until its finished row was deleted. */
  predicate Sealed(db: Db, id: TaskId) {
    id in db.tasks ==> db.tasks[id].dispatchedAt.Some?
  }

  predicate Settled(db: Db, id: TaskId) {
    id in db.tasks ==> db.tasks[id].finishedAt.Some?
  }

  ghost predicate HandlersOk(handlers: map<TaskId, HandlerPc>, db: Db, enqueued: seq<TaskId>) {
    forall id :: id in handlers ==> Fresh(db, id) && id !in enqueued
  }

  ghost predicate QueueOk(queue: seq<TaskId>, enqueued: seq<TaskId>, dequeued: seq<TaskId>) {
    enqueued == dequeued + queue && NoDuplicates(enqueued)
  }

  ghost predicate AllFresh(ids: seq<TaskId>, db: Db) {
    forall id :: id in ids ==> Fresh(db, id)
  }

  ghost predicate Held(workers: seq<WorkerPc>, id: TaskId) {
    exists w :: 0 <= w < |workers| && workers[w].Holds(id)
  }

  ghost predicate WorkersDistinct(workers: seq<WorkerPc>, dequeued: seq<TaskId>) {
    && (forall id :: Held(workers, id) ==> id in dequeued)
    && (forall i, j, id :: 0 <= i < j < |workers| && workers[i].Holds(id) ==> !workers[j].Holds(id))
  }

  predicate WorkerOk(db: Db, unwritten: set<TaskId>, w: WorkerPc) {
    match w
    case Idle => true
    case Exited => true
    case Forwarding(id, _) => Begun(db, id)
    case Finishing(id, _) => Begun(db, id)
    case _ => Fresh(db, w.id) && w.id !in unwritten
  }

  ghost predicate WorkersOk(workers: seq<WorkerPc>, db: Db, unwritten: set<TaskId>) {
    forall i :: 0 <= i < |workers| ==> WorkerOk(db, unwritten, workers[i])
  }

  /** Workers leave only an exhausted, closed queue. */
  ghost predicate ExitsOk(workers: seq<WorkerPc>, closed: bool, queue: seq<TaskId>) {
    (exists i :: 0 <= i < |workers| && workers[i].Exited?) ==> closed && queue == []
  }

  /** What the transport still has to do concerns tasks this process has begun. */
  ghost predicate DueOk(ids: set<TaskId>, dequeued: seq<TaskId>, db: Db) {
    forall id :: id in ids ==> id in dequeued && Begun(db, id)
  }

  /** What an item still to be decided, or already requeued, has to do with the tables. */
  predicate ItemOk(db: Db, enqueued: seq<TaskId>, item: ScanItem, requeued: bool) {
    && item.id !in enqueued
    && (if requeued then Fresh(db, item.id) else IsCurrent(db, item) && item.row.finishedAt.None?)
  }

  ghost predicate ItemsOk(items: seq<ScanItem>, pc: ScanPc, db: Db, enqueued: seq<TaskId>) {
    && (pc != AtDecide ==> items != [])
    && (forall i, j :: 0 <= i < j < |items| ==> items[i].id != items[j].id)
    && (forall i :: 0 <= i < |items| ==> ItemOk(db, enqueued, items[i], i == 0 && pc != AtDecide))
  }

  ghost predicate PhaseOk(s: State) {
    && (!s.phase.Serving? ==>
          && s.handlers == map[] && s.workers == [] && s.dequeued == []
          && s.unwritten == {} && s.hooks == {} && s.marking == {} && s.wire.inflight == {})
    && (s.phase.Down? ==> s.enqueued == [])
  }

  ghost predicate ScanOk(phase: Phase, db: Db, enqueued: seq<TaskId>) {
    phase.Recovering? ==> ItemsOk(phase.items, phase.pc, db, enqueued)
  }

  /** At most one forward that tried to write a request has its mark stored or still to store,
      and once there is one no other forward can follow. */
  ghost predicate WritesOk(writes: multiset<TaskId>, lost: multiset<TaskId>, used: set<TaskId>, db: Db,
                           unwritten: set<TaskId>, hooks: set<TaskId>, marking: set<TaskId>) {
    forall id ::
      && lost[id] <= writes[id] <= lost[id] + 1
      && (writes[id] > lost[id] ==> id in used && id !in unwritten)
      && (writes[id] > lost[id] ==> Sealed(db, id) || id in hooks || id in marking)
      && (id in hooks ==> writes[id] > lost[id] && id !in marking)
      && (id in marking ==> writes[id] > lost[id])
  }

  /** Every attempt is counted once as sent or broken, and once as first or repeated. */
  ghost predicate WireOk(wire: Wire, writes: multiset<TaskId>) {
    forall id :: wire.sent[id] + wire.broken[id] == writes[id] + wire.again[id]
  }

  ghost predicate HistoryOk(served: set<TaskId>, enqueued: seq<TaskId>, used: set<TaskId>) {
    forall id :: (id in enqueued <==> id in served) && (id in served ==> id in used)
  }

  ghost predicate Placed(id: TaskId, queue: seq<TaskId>, workers: seq<WorkerPc>, dropped: set<TaskId>, db: Db) {
    id in queue || Held(workers, id) || id in dropped || Settled(db, id)
  }

  ghost predicate ServedOk(served: set<TaskId>, queue: seq<TaskId>, workers: seq<WorkerPc>, dropped: set<TaskId>,
                           db: Db) {
    forall id :: id in served ==> Placed(id, queue, workers, dropped, db)
  }

  ghost predicate Inv(s: State) {
    && DbOk(s.db, s.used)
    && HandlersOk(s.handlers, s.db, s.enqueued)
    && QueueOk(s.queue, s.enqueued, s.dequeued)
    && AllFresh(s.queue, s.db)
    && WorkersDistinct(s.workers, s.dequeued)
    && WorkersOk(s.workers, s.db, s.unwritten)
    && ExitsOk(s.workers, s.closed, s.queue)
    && DueOk(s.unwritten, s.dequeued, s.db)
    && DueOk(s.hooks, s.dequeued, s.db)
    && DueOk(s.marking, s.dequeued, s.db)
    && DueOk(s.wire.inflight, s.dequeued, s.db)
    && PhaseOk(s)
    && ScanOk(s.phase, s.db, s.enqueued)
    && WritesOk(s.writes, s.lostMarks, s.used, s.db, s.unwritten, s.hooks, s.marking)
    && WireOk(s.wire, s.writes)
    && HistoryOk(s.served, s.enqueued, s.used)
    && ServedOk(s.served, s.queue, s.workers, s.dropped, s.db)
  }

  lemma InitialInv()
    ensures Inv(INITIAL)
  {
  }

  /** What every statement keeps, except that the tasks in `moved` may stop waiting:
      begun tasks stay begun, dispatch marks and finishes are never taken back. */
  ghost predicate Moves(a: Db, b: Db, moved: set<TaskId>) {
    && (forall id :: Fresh(a, id) && id !in moved ==> Fresh(b, id))
    && (forall id :: Begun(a, id) ==> Begun(b, id))
    && (forall id :: Sealed(a, id) ==> Sealed(b, id))
    && (forall id :: Settled(a, id) ==> Settled(b, id))
  }

  /** A serving process keeps the invariant when a statement moves only tasks that no
      handler, queue slot or preparing worker holds. */
  lemma MovesInv(s: State, db: Db, moved: set<TaskId>)
    requires Inv(s) && s.phase.Serving? && DbOk(db, s.used) && Moves(s.db, db, moved)
    requires forall id :: id in moved ==> id !in s.handlers && id !in s.queue
    requires forall i, id :: 0 <= i < |s.workers| && id in moved ==> !s.workers[i].Preparing(id)
    ensures Inv(s.(db := db))
  {
    assert WorkersOk(s.workers, db, s.unwritten) by {
      forall i | 0 <= i < |s.workers|
        ensures WorkerOk(db, s.unwritten, s.workers[i])
      {
        assert WorkerOk(s.db, s.unwritten, s.workers[i]);
        if s.workers[i].Dequeued? || s.workers[i].TaskLoaded? || s.workers[i].PayloadLoaded? {
          assert s.workers[i].Preparing(s.workers[i].id);
        }
      }
    }
  }
}
