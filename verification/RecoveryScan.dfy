/** The recovery scan as it runs at startup, before workers and listener. */
module RecoveryScan {
  import opened Wrappers
  import opened TaskStore
  import opened Recovery
  import LifecycleInvariant
  import MemoryQueue
  import Repository

  /** A clock that never goes back. */
  class Clock {
    var last: int

    method Now() returns (t: int)
      modifies this
      ensures last == t && t >= old(last)
    {
      var reading: int := *;
      last := if reading < last then last else reading;
      t := last;
    }
  }

  /** With its payload and, if running, without a dispatch mark: the scan can replay it. */
  predicate CanReplay(item: ScanItem) {
    item.hasPayload && !(item.row.status.Running? && item.row.dispatchedAt.Some?)
  }

  function Replays(items: seq<ScanItem>): seq<TaskId> {
    if items == [] then []
    else Replays(items[..|items| - 1]) + if CanReplay(items[|items| - 1]) then [items[|items| - 1].id] else []
  }

  /** `row` is `expected`, at whatever time the database finished it. */
  predicate FinishedAs(row: Row, expected: Row) {
    row.finishedAt.Some? && row == expected.(finishedAt := row.finishedAt)
  }

  /** What the scan must leave of a row it does not skip, given whether a queue slot is free. */
  predicate Handled(item: ScanItem, slotFree: bool, row: Row) {
    if !item.hasPayload then FinishedAs(row, FailedRow(item.row, PAYLOAD_MISSING_CODE, PAYLOAD_MISSING_MESSAGE, 0))
    else if !CanReplay(item) then FinishedAs(row, UncertainRow(item.row, UNCERTAIN_CODE, UNCERTAIN_MESSAGE, 0))
    else if slotFree then row == item.row.(status := Queued)
    else FinishedAs(row, FailedRow(item.row.(status := Queued), QUEUE_FULL_CODE, QUEUE_FULL_MESSAGE, 0))
  }

  /** Item `i` of a scan that started with `free` free queue slots: the slots go to the
      replayable items in scan order. */
  predicate ItemDone(items: seq<ScanItem>, i: nat, free: nat, row: Row)
    requires i < |items|
  {
    Handled(items[i], |Replays(items[..i])| < free, row)
  }

  /** The first `n` items are done, the others and all rows outside the scan are untouched. */
  ghost predicate Partition(before: Db, items: seq<ScanItem>, n: nat, free: nat, after: Db)
    requires n <= |items|
  {
    && after.payloads == before.payloads && after.tasks.Keys == before.tasks.Keys
    && (forall i :: 0 <= i < n ==> items[i].id in after.tasks && ItemDone(items, i, free, after.tasks[items[i].id]))
    && (forall id ::
          id in before.tasks && (forall i :: 0 <= i < n ==> items[i].id != id) ==> after.tasks[id] == before.tasks[id])
  }

  function Take(ids: seq<TaskId>, n: nat): seq<TaskId> {
    if |ids| <= n then ids else ids[..n]
  }

  /** As the scan finds the row of an item when its turn comes. */
  predicate ReadyFor(db: Db, item: ScanItem, staleBefore: int) {
    IsCurrent(db, item) && item.row.finishedAt.None? && Recoverable(item.row, staleBefore)
  }

  ghost predicate AllReady(db: Db, items: seq<ScanItem>, staleBefore: int) {
    forall i :: 0 <= i < |items| ==> ReadyFor(db, items[i], staleBefore)
  }

  ghost predicate Distinct(items: seq<ScanItem>) {
    forall j, k :: 0 <= j < k < |items| ==> items[j].id != items[k].id
  }

  /** When its turn comes, a scanned row is still as the query saw it. */
  lemma StillCurrent(before: Db, items: seq<ScanItem>, i: nat, free: nat, staleBefore: int, mid: Db)
    requires i < |items| && Distinct(items) && AllReady(before, items, staleBefore)
    requires Partition(before, items, i, free, mid)
    ensures items[i].id in before.tasks && ReadyFor(mid, items[i], staleBefore)
  {
    assert ReadyFor(before, items[i], staleBefore);
  }

  /** What the query returns is unfinished. */
  lemma ScanIsReady(db: Db, staleBefore: int, limit: nat, items: seq<ScanItem>)
    requires RowsOk(db) && IsScanResult(db, staleBefore, limit, items)
    ensures Distinct(items) && AllReady(db, items, staleBefore)
  {
    forall i | 0 <= i < |items|
      ensures ReadyFor(db, items[i], staleBefore)
    {
      assert LifecycleInvariant.RowOk(items[i].row);
    }
  }

  lemma TakeGrows(queued: seq<TaskId>, items: seq<ScanItem>, i: nat, free: nat)
    requires i < |items|
    ensures queued + Take(Replays(items[..i + 1]), free)
         == queued + Take(Replays(items[..i]), free) +
           if CanReplay(items[i]) && |Replays(items[..i])| < free then [items[i].id] else []
    ensures |Take(Replays(items[..i]), free)| <= free
    ensures |Take(Replays(items[..i]), free)| < free <==> |Replays(items[..i])| < free
  {
    assert items[..i + 1][..i] == items[..i];
    assert Take(Replays(items[..i + 1]), free)
        == Take(Replays(items[..i]), free) +
           if CanReplay(items[i]) && |Replays(items[..i])| < free then [items[i].id] else [];
  }

  lemma SlotLeft(closed: bool, capacity: nat, queued: seq<TaskId>, taken: seq<TaskId>, free: nat)
    requires free == if closed || |queued| >= capacity then 0 else capacity - |queued|
    requires |taken| <= free
    ensures |taken| < free <==> !closed && |queued + taken| < capacity
  {
  }

  lemma NothingDone(before: Db, items: seq<ScanItem>, free: nat, queued: seq<TaskId>)
    ensures Partition(before, items, 0, free, before) && queued + Take(Replays(items[..0]), free) == queued
  {
    assert items[..0] == [];
  }

  lemma WholeScan(items: seq<ScanItem>)
    ensures items[..|items|] == items
  {
  }

  /** One more item handled: the partition grows by it. */
  lemma PartitionGrows(before: Db, items: seq<ScanItem>, i: nat, free: nat, mid: Db, after: Db)
    requires i < |items| && Partition(before, items, i, free, mid)
    requires Distinct(items) && items[i].id in before.tasks
    requires after.payloads == mid.payloads && after.tasks.Keys == mid.tasks.Keys
    requires forall id :: id in mid.tasks && id != items[i].id ==> after.tasks[id] == mid.tasks[id]
    requires ItemDone(items, i, free, after.tasks[items[i].id])
    ensures Partition(before, items, i + 1, free, after)
  {
    forall j | 0 <= j < i + 1
      ensures items[j].id in after.tasks && ItemDone(items, j, free, after.tasks[items[j].id])
    {
      if j < i { assert items[j].id != items[i].id; }
    }
  }

  /** A row the query returned is not fresh to a clock that has not gone back. */
  lemma NotFresh(item: ScanItem, staleBefore: int, cutoff: int)
    requires Recoverable(item.row, staleBefore) && staleBefore <= cutoff
    ensures !Decide(item, cutoff).SkipFresh?
  {
  }

  ghost predicate RowsOk(db: Db) {
    forall id :: id in db.tasks ==> LifecycleInvariant.RowOk(db.tasks[id])
  }

  // ----- What a scan leaves, spelled out -----

  /** Its payload is there, and it is not a running task with a dispatch mark. */
  predicate MayBeReplayed(db: Db, id: TaskId) {
    id in db.tasks && id in db.payloads && !(db.tasks[id].status == Running && db.tasks[id].dispatchedAt.Some?)
  }

  /** How many of the first `n` scanned tasks may be replayed. */
  function Replayed(db: Db, items: seq<ScanItem>, n: nat): nat
    requires n <= |items|
  {
    if n == 0 then 0 else Replayed(db, items, n - 1) + if MayBeReplayed(db, items[n - 1].id) then 1 else 0
  }

  predicate EndsAs(was: Row, row: Row, status: Status, code: string, message: string, uncertain: bool) {
    && row.finishedAt.Some?
    && row == was.(status := status, errorCode := code, errorMessage := message, transportUncertain := uncertain,
                   finishedAt := row.finishedAt)
  }

  /** What becomes of a scanned row. */
  predicate Leaves(was: Row, hasPayload: bool, slotFree: bool, row: Row) {
    if !hasPayload then
      EndsAs(was, row, Failed, "recovery_payload_missing",
             "recovery scan could not replay task because task payload is missing", false)
    else if was.status == Running && was.dispatchedAt.Some? then
      EndsAs(was, row, Uncertain, "upstream_transport_uncertain",
             "connection to newapi broke after request dispatch; task result may be uncertain", true)
    else if slotFree then row == was.(status := Queued)
    else EndsAs(was, row, Failed, "queue_full", "local task queue is full", false)
  }

  lemma HandledMeans(item: ScanItem, slotFree: bool, row: Row)
    requires Handled(item, slotFree, row)
    ensures Leaves(item.row, item.hasPayload, slotFree, row)
  {
  }

  lemma {:induction false} ReplayedCounts(db: Db, items: seq<ScanItem>, staleBefore: int, n: nat)
    requires n <= |items| && AllReady(db, items, staleBefore)
    ensures Replayed(db, items, n) == |Replays(items[..n])|
    decreases n
  {
    if n > 0 {
      ReplayedCounts(db, items, staleBefore, n - 1);
      assert items[..n][..n - 1] == items[..n - 1];
      assert ReadyFor(db, items[n - 1], staleBefore);
    }
  }

  /** Scanned are the accepted and queued tasks and the running ones without a heartbeat since the
      threshold, all of them unless the limit cuts in. Of these a task without payload ends failed,
      one that was running and dispatched ends uncertain, and of the rest as many as there are
      free slots are queued, the oldest first, and the others fail. */
  lemma ScanLeaves(before: Db, items: seq<ScanItem>, staleBefore: int, limit: nat, free: nat, after: Db, i: nat)
    requires RowsOk(before) && IsScanResult(before, staleBefore, limit, items) && i < |items|
    requires Partition(before, items, |items|, free, after)
    ensures var id := items[i].id;
            && id in before.tasks && id in after.tasks
            && var was := before.tasks[id];
               && (was.status in {Accepted, Queued} ||
                   (was.status == Running && (was.heartbeatAt.None? || was.heartbeatAt.value < staleBefore)))
               && Leaves(was, id in before.payloads, Replayed(before, items, i) < free, after.tasks[id])
  {
    ScanIsReady(before, staleBefore, limit, items);
    ReplayedCounts(before, items, staleBefore, i);
    assert ReadyFor(before, items[i], staleBefore);
    assert ItemDone(items, i, free, after.tasks[items[i].id]);
    HandledMeans(items[i], |Replays(items[..i])| < free, after.tasks[items[i].id]);
  }

  /** And no such task is left out, unless the limit is used up by older ones. */
  lemma ScanLeavesNoneOut(before: Db, items: seq<ScanItem>, staleBefore: int, limit: nat, id: TaskId)
    requires IsScanResult(before, staleBefore, limit, items) && id in before.tasks
    requires var row := before.tasks[id];
             || row.status in {Accepted, Queued}
             || (row.status == Running && (row.heartbeatAt.None? || row.heartbeatAt.value < staleBefore))
    ensures (exists i :: 0 <= i < |items| && items[i].id == id) ||
            (|items| == limit && forall i :: 0 <= i < |items| ==> items[i].row.createdAt <= before.tasks[id].createdAt)
  {
    assert Recoverable(before.tasks[id], staleBefore);
  }

  class Scanner {
    const repo: Repository.TaskRepository
    const queue: MemoryQueue.Queue
    const clock: Clock
    const staleThreshold: int
    const scanLimit: nat

    constructor (repo: Repository.TaskRepository, queue: MemoryQueue.Queue, clock: Clock, staleThreshold: int,
                 scanLimit: int)
      ensures this.repo == repo && this.queue == queue && this.clock == clock
      ensures this.staleThreshold == if staleThreshold <= 0 then 300 else staleThreshold
      ensures this.scanLimit == if scanLimit <= 0 then 1000 else scanLimit
    {
      this.repo, this.queue, this.clock := repo, queue, clock;
      this.staleThreshold := if staleThreshold <= 0 then 300 else staleThreshold;
      this.scanLimit := if scanLimit <= 0 then 1000 else scanLimit;
    }

    method HandleTask(item: ScanItem) returns (ok: bool, ghost cutoff: int)
      requires queue.Valid() && IsCurrent(repo.Tables(), item) && item.row.finishedAt.None?
      modifies repo, queue, clock
      ensures queue.Valid() && queue.closed == old(queue.closed)
      ensures repo.faults >= old(repo.faults) && (ok <==> repo.faults == old(repo.faults))
      ensures clock.last >= old(clock.last) && cutoff == clock.last - staleThreshold
      ensures ok ==>
                repo.Tables().payloads == old(repo.Tables()).payloads &&
                repo.Tables().tasks.Keys == old(repo.Tables()).tasks.Keys
      ensures ok ==> forall id :: id in old(repo.tasks) && id != item.id ==> repo.tasks[id] == old(repo.tasks)[id]
      ensures ok ==>
                if Decide(item, cutoff).SkipFresh? then
                  repo.tasks[item.id] == item.row && queue.items == old(queue.items)
                else
                  Handled(item, old(queue.Free()) > 0, repo.tasks[item.id]) &&
                  queue.items
                    == old(queue.items) + if CanReplay(item) && old(queue.Free()) > 0 then [item.id] else []
    {
      var now := clock.Now();
      cutoff := now - staleThreshold;
      ok := true;
      if item.row.status.Running? && !IsRunningTaskStale(item.row, now - staleThreshold) {
        return;
      }
      ghost var t: int;
      if RequiresPayload(item.row.status) && !item.hasPayload {
        ok, t := repo.FinishFailed(item.id, PAYLOAD_MISSING_CODE, PAYLOAD_MISSING_MESSAGE);
        return;
      }
      if item.row.status.Running? && item.row.dispatchedAt.Some? {
        ok, t := repo.MarkUncertain(item.id, UNCERTAIN_CODE, UNCERTAIN_MESSAGE);
        return;
      }
      if !item.hasPayload {
        ok, t := repo.FinishFailed(item.id, PAYLOAD_MISSING_CODE, PAYLOAD_MISSING_MESSAGE);
        return;
      }
      ok := repo.MarkQueued(item.id);
      if !ok {
        return;
      }
      var enqueued := queue.TryEnqueue(item.id);
      if !enqueued {
        ok, t := repo.FinishFailed(item.id, QUEUE_FULL_CODE, QUEUE_FULL_MESSAGE);
      }
    }

    /** One round of the scan's loop. */
    method HandleNext(items: seq<ScanItem>, i: nat, ghost staleBefore: int, ghost before: Db, ghost queued: seq<TaskId>,
                      ghost free: nat)
      returns (ok: bool)
      requires i < |items| && queue.Valid() && clock.last - staleThreshold >= staleBefore
      requires Distinct(items) && AllReady(before, items, staleBefore)
      requires Partition(before, items, i, free, repo.Tables())
      requires queue.items == queued + Take(Replays(items[..i]), free)
      requires free == if queue.closed || |queued| >= queue.capacity then 0 else queue.capacity - |queued|
      modifies repo, queue, clock
      ensures queue.Valid() && queue.closed == old(queue.closed) && clock.last >= old(clock.last)
      ensures repo.faults >= old(repo.faults) && (ok <==> repo.faults == old(repo.faults))
      ensures ok ==> Partition(before, items, i + 1, free, repo.Tables())
      ensures ok ==> queue.items == queued + Take(Replays(items[..i + 1]), free)
    {
      ghost var mid := repo.Tables();
      StillCurrent(before, items, i, free, staleBefore, mid);
      TakeGrows(queued, items, i, free);
      SlotLeft(queue.closed, queue.capacity, queued, Take(Replays(items[..i]), free), free);
      ghost var cutoff: int;
      ok, cutoff := HandleTask(items[i]);
      if ok {
        NotFresh(items[i], staleBefore, cutoff);
        PartitionGrows(before, items, i, free, mid, repo.Tables());
      }
    }

    /** Unless a repository call fails, the scan succeeds and partitions the rows its query returned; none is skipped
        as fresh, because the clock has not gone back since the query. */
    method Run() returns (ok: bool, ghost items: seq<ScanItem>, ghost staleBefore: int)
      requires queue.Valid() && RowsOk(repo.Tables())
      modifies repo, queue, clock
      ensures queue.Valid()
      ensures repo.faults >= old(repo.faults) && (ok <==> repo.faults == old(repo.faults))
      ensures ok ==> IsScanResult(old(repo.Tables()), staleBefore, scanLimit, items)
      ensures ok ==> Partition(old(repo.Tables()), items, |items|, old(queue.Free()), repo.Tables())
      ensures ok ==> queue.items == old(queue.items) + Take(Replays(items), old(queue.Free()))
    {
      ghost var before, queued, free := repo.Tables(), queue.items, queue.Free();
      var start := clock.Now();
      staleBefore := start - staleThreshold;
      var found: seq<ScanItem>;
      ok, found := repo.FindRecoverableTasks(start - staleThreshold, scanLimit);
      items := found;
      if ok {
        ScanIsReady(before, staleBefore, scanLimit, found);
        ok := HandleAll(found, staleBefore, before, queued, free);
      }
    }

    method HandleAll(items: seq<ScanItem>, ghost staleBefore: int, ghost before: Db, ghost queued: seq<TaskId>,
                     ghost free: nat)
      returns (ok: bool)
      requires queue.Valid() && Distinct(items) && AllReady(before, items, staleBefore)
      requires repo.Tables() == before && queue.items == queued && queue.Free() == free
      requires clock.last - staleThreshold >= staleBefore
      modifies repo, queue, clock
      ensures queue.Valid()
      ensures repo.faults >= old(repo.faults) && (ok <==> repo.faults == old(repo.faults))
      ensures ok ==> Partition(before, items, |items|, free, repo.Tables())
      ensures ok ==> queue.items == queued + Take(Replays(items), free)
    {
      NothingDone(before, items, free, queued);
      var i := 0;
      while i < |items|
        invariant 0 <= i <= |items| && queue.Valid() && queue.closed == old(queue.closed)
        invariant clock.last - staleThreshold >= staleBefore && repo.faults == old(repo.faults)
        invariant Partition(before, items, i, free, repo.Tables())
        invariant queue.items == queued + Take(Replays(items[..i]), free)
      {
        ok := HandleNext(items, i, staleBefore, before, queued, free);
        if !ok {
          return;
        }
        i := i + 1;
      }
      WholeScan(items);
      ok := true;
    }
  }
}
