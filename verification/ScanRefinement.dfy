/** The scan as the program runs it, and the scan steps of the state machine: whatever a
    successful scan may leave behind, a run of the state machine leaves behind. */
module ScanRefinement {
  import opened Wrappers
  import opened TaskStore
  import opened Lifecycle
  import opened LifecycleTheorems
  import opened LifecycleReach
  import Recovery
  import RecoveryScan

  function SetRow(db: Db, id: TaskId, row: Row): Db {
    db.(tasks := db.tasks[id := row])
  }

  function Queued(item: ScanItem, slotFree: bool): seq<TaskId> {
    if RecoveryScan.CanReplay(item) && slotFree then [item.id] else []
  }

  /** After one item: its row is `row`, and it is queued if it can be and there is a slot. */
  ghost predicate AfterItem(s: State, t: State, item: ScanItem, slotFree: bool, row: Row)
    requires s.phase.Recovering? && s.phase.items != []
  {
    && t.phase == Rest(s) && t.closed == s.closed && t.workers == s.workers
    && t.db == SetRow(s.db, item.id, row) && t.queue == s.queue + Queued(item, slotFree)
  }

  lemma FinishRun(c: Config, from: State, s: State, staleBefore: int, slotFree: bool, row: Row) returns (t: State)
    requires Leads(c, from, s) && Scanning(s, AtDecide) && RecoveryScan.ReadyFor(s.db, s.phase.items[0], staleBefore)
    requires !RecoveryScan.CanReplay(s.phase.items[0]) && RecoveryScan.Handled(s.phase.items[0], slotFree, row)
    ensures Leads(c, from, t) && AfterItem(s, t, s.phase.items[0], slotFree, row)
  {
    var item, now := s.phase.items[0], row.finishedAt.value;
    RecoveryScan.NotFresh(item, staleBefore, staleBefore);
    Take(c, from, s, ScanDecide(staleBefore, now, NoFault));
    t := DecideStep(s, staleBefore, now, NoFault);
  }

  lemma RequeueRun(c: Config, from: State, s: State, staleBefore: int, row: Row) returns (t: State)
    requires Leads(c, from, s) && Scanning(s, AtDecide) && RecoveryScan.ReadyFor(s.db, s.phase.items[0], staleBefore)
    requires RecoveryScan.CanReplay(s.phase.items[0]) && CanEnqueue(c, s)
    requires RecoveryScan.Handled(s.phase.items[0], true, row)
    ensures Leads(c, from, t) && AfterItem(s, t, s.phase.items[0], true, row)
  {
    RecoveryScan.NotFresh(s.phase.items[0], staleBefore, staleBefore);
    ByDecide(c, from, s, staleBefore, 0);
    var mid := DecideStep(s, staleBefore, 0, NoFault);
    ByScanEnqueue(c, from, mid);
    t := Enqueue(mid, mid.phase.items[0].id).(phase := Rest(mid));
  }

  lemma RefuseRun(c: Config, from: State, s: State, staleBefore: int, row: Row) returns (t: State)
    requires Leads(c, from, s) && Scanning(s, AtDecide) && RecoveryScan.ReadyFor(s.db, s.phase.items[0], staleBefore)
    requires RecoveryScan.CanReplay(s.phase.items[0]) && !CanEnqueue(c, s)
    requires RecoveryScan.Handled(s.phase.items[0], false, row)
    ensures Leads(c, from, t) && AfterItem(s, t, s.phase.items[0], false, row)
  {
    var item, now := s.phase.items[0], row.finishedAt.value;
    RecoveryScan.NotFresh(item, staleBefore, staleBefore);
    ByDecide(c, from, s, staleBefore, 0);
    var mid := DecideStep(s, staleBefore, 0, NoFault);
    ByScanRefused(c, from, mid, now);
    var db := FinishFailed(mid.db, item.id, Recovery.QUEUE_FULL_CODE, Recovery.QUEUE_FULL_MESSAGE, now);
    t := mid.(db := db, phase := Rest(mid));
  }

  /** Whatever `HandleTask` may make of a row and the queue, one to three steps make of them. */
  lemma ItemRun(c: Config, from: State, s: State, staleBefore: int, row: Row) returns (t: State)
    requires Leads(c, from, s) && Scanning(s, AtDecide) && RecoveryScan.ReadyFor(s.db, s.phase.items[0], staleBefore)
    requires RecoveryScan.Handled(s.phase.items[0], CanEnqueue(c, s), row)
    ensures Leads(c, from, t) && AfterItem(s, t, s.phase.items[0], CanEnqueue(c, s), row)
  {
    if !RecoveryScan.CanReplay(s.phase.items[0]) {
      t := FinishRun(c, from, s, staleBefore, CanEnqueue(c, s), row);
    } else if CanEnqueue(c, s) {
      t := RequeueRun(c, from, s, staleBefore, row);
    } else {
      t := RefuseRun(c, from, s, staleBefore, row);
    }
  }

  // ----- The whole scan -----

  function Free(c: Config, s: State): nat {
    if s.closed || |s.queue| >= c.capacity then 0 else c.capacity - |s.queue|
  }

  function FreeAfter(item: ScanItem, free: nat): nat {
    if RecoveryScan.CanReplay(item) && free > 0 then free - 1 else free
  }

  lemma {:induction false} ReplaysHead(items: seq<ScanItem>)
    requires items != []
    ensures RecoveryScan.Replays(items)
         == (if RecoveryScan.CanReplay(items[0]) then [items[0].id] else []) + RecoveryScan.Replays(items[1..])
    decreases |items|
  {
    if |items| > 1 {
      var front := items[..|items| - 1];
      ReplaysHead(front);
      assert front[1..] == items[1..][..|items| - 2];
      assert items[1..][|items| - 2] == items[|items| - 1];
    } else {
      assert items[..0] == [] && items[1..] == [];
    }
  }

  lemma TailDone(items: seq<ScanItem>, i: nat, free: nat, row: Row)
    requires i + 1 < |items| && RecoveryScan.ItemDone(items, i + 1, free, row)
    ensures RecoveryScan.ItemDone(items[1..], i, FreeAfter(items[0], free), row)
  {
    ReplaysHead(items[..i + 1]);
    assert items[..i + 1][1..] == items[1..][..i];
  }

  lemma TakeHead(items: seq<ScanItem>, free: nat)
    requires items != []
    ensures Queued(items[0], free > 0) + RecoveryScan.Take(RecoveryScan.Replays(items[1..]), FreeAfter(items[0], free))
         == RecoveryScan.Take(RecoveryScan.Replays(items), free)
  {
    ReplaysHead(items);
  }

  lemma RestReady(before: Db, items: seq<ScanItem>, row: Row, staleBefore: int)
    requires items != [] && RecoveryScan.Distinct(items) && RecoveryScan.AllReady(before, items, staleBefore)
    ensures RecoveryScan.Distinct(items[1..])
    ensures RecoveryScan.AllReady(SetRow(before, items[0].id, row), items[1..], staleBefore)
  {
    forall i | 0 <= i < |items| - 1
      ensures RecoveryScan.ReadyFor(SetRow(before, items[0].id, row), items[1..][i], staleBefore)
    {
      assert RecoveryScan.ReadyFor(before, items[i + 1], staleBefore) && items[i + 1].id != items[0].id;
    }
  }

  lemma NotInScan(items: seq<ScanItem>, id: TaskId)
    requires items != [] && id != items[0].id && forall i :: 0 <= i < |items| - 1 ==> items[1..][i].id != id
    ensures forall i :: 0 <= i < |items| ==> items[i].id != id
  {
    forall i | 0 <= i < |items|
      ensures items[i].id != id
    {
      assert i > 0 ==> items[1..][i - 1] == items[i];
    }
  }

  /** The rest of a scan whose first item has been handled. */
  lemma RestPartition(before: Db, items: seq<ScanItem>, free: nat, after: Db)
    requires items != [] && items[0].id in before.tasks
    requires RecoveryScan.Partition(before, items, |items|, free, after)
    ensures var mid := SetRow(before, items[0].id, after.tasks[items[0].id]);
            RecoveryScan.Partition(mid, items[1..], |items| - 1, FreeAfter(items[0], free), after)
  {
    var mid, rest := SetRow(before, items[0].id, after.tasks[items[0].id]), items[1..];
    forall i | 0 <= i < |rest|
      ensures rest[i].id in after.tasks
      ensures RecoveryScan.ItemDone(rest, i, FreeAfter(items[0], free), after.tasks[rest[i].id])
    {
      assert rest[i] == items[i + 1];
      TailDone(items, i, free, after.tasks[rest[i].id]);
    }
    forall id | id in mid.tasks && forall i :: 0 <= i < |rest| ==> rest[i].id != id
      ensures after.tasks[id] == mid.tasks[id]
    {
      if id != items[0].id { NotInScan(items, id); }
    }
  }

  lemma FirstDone(before: Db, items: seq<ScanItem>, free: nat, after: Db)
    requires items != [] && RecoveryScan.Partition(before, items, |items|, free, after)
    ensures items[0].id in after.tasks && RecoveryScan.Handled(items[0], free > 0, after.tasks[items[0].id])
  {
    assert RecoveryScan.ItemDone(items, 0, free, after.tasks[items[0].id]) && items[..0] == [];
  }

  lemma SlotsAfter(c: Config, s: State, t: State, item: ScanItem)
    requires t.closed == s.closed && t.queue == s.queue + Queued(item, CanEnqueue(c, s))
    ensures Free(c, t) == FreeAfter(item, Free(c, s)) && (CanEnqueue(c, s) <==> Free(c, s) > 0)
  {
  }

  ghost predicate ScanAhead(c: Config, s: State, staleBefore: int, after: Db) {
    && s.phase.Recovering? && s.phase.pc == AtDecide
    && RecoveryScan.Distinct(s.phase.items) && RecoveryScan.AllReady(s.db, s.phase.items, staleBefore)
    && RecoveryScan.Partition(s.db, s.phase.items, |s.phase.items|, Free(c, s), after)
  }

  lemma FirstItemRun(c: Config, from: State, s: State, staleBefore: int, after: Db) returns (t: State)
    requires Leads(c, from, s) && ScanAhead(c, s, staleBefore, after) && s.phase.items != []
    ensures Leads(c, from, t) && ScanAhead(c, t, staleBefore, after) && t.phase.items == s.phase.items[1..]
    ensures t.queue == s.queue + Queued(s.phase.items[0], Free(c, s) > 0)
    ensures Free(c, t) == FreeAfter(s.phase.items[0], Free(c, s))
  {
    var items, free := s.phase.items, Free(c, s);
    FirstDone(s.db, items, free, after);
    var row := after.tasks[items[0].id];
    assert RecoveryScan.ReadyFor(s.db, items[0], staleBefore);
    t := ItemRun(c, from, s, staleBefore, row);
    SlotsAfter(c, s, t, items[0]);
    RestReady(s.db, items, row, staleBefore);
    RestPartition(s.db, items, free, after);
  }

  lemma NothingAhead(db: Db, items: seq<ScanItem>, free: nat, after: Db, queue: seq<TaskId>)
    requires items == [] && RecoveryScan.Partition(db, items, |items|, free, after)
    ensures after == db && queue == queue + RecoveryScan.Take(RecoveryScan.Replays(items), free)
  {
    assert after.tasks == db.tasks;
  }

  lemma QueueAfter(q: seq<TaskId>, mid: seq<TaskId>, end: seq<TaskId>, items: seq<ScanItem>, free: nat)
    requires items != [] && mid == q + Queued(items[0], free > 0)
    requires end == mid + RecoveryScan.Take(RecoveryScan.Replays(items[1..]), FreeAfter(items[0], free))
    ensures end == q + RecoveryScan.Take(RecoveryScan.Replays(items), free)
  {
    TakeHead(items, free);
  }

  lemma {:induction false} ItemsRun(c: Config, from: State, s: State, staleBefore: int, after: Db) returns (t: State)
    requires Leads(c, from, s) && ScanAhead(c, s, staleBefore, after)
    ensures Leads(c, from, t) && t.phase == Recovering([], AtDecide) && t.db == after
    ensures t.queue == s.queue + RecoveryScan.Take(RecoveryScan.Replays(s.phase.items), Free(c, s))
    decreases |s.phase.items|
  {
    if s.phase.items == [] {
      t := s;
      NothingAhead(s.db, s.phase.items, Free(c, s), after, s.queue);
    } else {
      var u := FirstItemRun(c, from, s, staleBefore, after);
      t := ItemsRun(c, from, u, staleBefore, after);
      QueueAfter(s.queue, u.queue, t.queue, s.phase.items, Free(c, s));
    }
  }

  lemma ScanBegins(c: Config, s: State, staleBefore: int, items: seq<ScanItem>, after: Db)
    requires !s.closed && s.queue == [] && RecoveryScan.RowsOk(s.db)
    requires IsScanResult(s.db, staleBefore, c.scanLimit, items)
    requires RecoveryScan.Partition(s.db, items, |items|, c.capacity, after)
    ensures ScanAhead(c, s.(phase := Recovering(items, AtDecide)), staleBefore, after) && Free(c, s) == c.capacity
  {
    RecoveryScan.ScanIsReady(s.db, staleBefore, c.scanLimit, items);
  }

  lemma StartRun(c: Config, s: State, staleBefore: int, items: seq<ScanItem>, after: Db) returns (t: State)
    requires s.phase.Down? && !s.closed && s.queue == [] && RecoveryScan.RowsOk(s.db)
    requires IsScanResult(s.db, staleBefore, c.scanLimit, items)
    requires RecoveryScan.Partition(s.db, items, |items|, c.capacity, after)
    ensures Leads(c, s, t) && ScanAhead(c, t, staleBefore, after)
    ensures t.queue == [] && t.phase.items == items && Free(c, t) == c.capacity
  {
    ScanBegins(c, s, staleBefore, items, after);
    LeadsNowhere(c, s);
    ByStart(c, s, s, items, staleBefore);
    t := s.(phase := Recovering(items, AtDecide));
  }

  /** For every outcome the contract of `Scanner.Run` allows on success, over the queue of a new
      process, the state machine has a run from the start to the end of its scan with the same
      tables and the same queue. */
  lemma ScannerRunIsRun(c: Config, s: State, staleBefore: int, items: seq<ScanItem>, after: Db) returns (t: State)
    requires s.phase.Down? && !s.closed && s.queue == [] && RecoveryScan.RowsOk(s.db)
    requires IsScanResult(s.db, staleBefore, c.scanLimit, items)
    requires RecoveryScan.Partition(s.db, items, |items|, c.capacity, after)
    ensures Leads(c, s, t) && t.phase == Recovering([], AtDecide) && t.db == after
    ensures t.queue == RecoveryScan.Take(RecoveryScan.Replays(items), c.capacity)
  {
    var u := StartRun(c, s, staleBefore, items, after);
    t := ItemsRun(c, s, u, staleBefore, after);
  }
}
