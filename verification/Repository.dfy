/** The repository's calls used by the recovery scan. Any call may fail, before or after its
    statement took effect; a call that changed no row reports failure too. */
module Repository {
  import opened Wrappers
  import opened TaskStore

  /** What one call may leave behind: on success the statement's effect; on failure either
      the effect or nothing. */
  ghost predicate CallResult(before: Db, after: Db, effect: Db, affected: bool, ok: bool) {
    if ok then affected && after == effect else after == before || after == effect
  }

  class TaskRepository {
    var tasks: map<TaskId, Row>
    var payloads: map<TaskId, Payload>
    /** How many calls the database has failed. */
    ghost var faults: nat

    function Tables(): Db
      reads this
    {
      Db(tasks, payloads)
    }

    constructor (db: Db)
      ensures Tables() == db && faults == 0
    {
      tasks := db.tasks;
      payloads := db.payloads;
      faults := 0;
    }

    method Exec(effect: Db, affected: bool) returns (ok: bool)
      modifies this
      ensures CallResult(old(Tables()), Tables(), effect, affected, ok)
      ensures faults >= old(faults) && (ok <==> affected && faults == old(faults))
    {
      var fault: Fault := *;
      if !fault.NoFault? {
        faults := faults + 1;
      }
      if !fault.Lost? {
        tasks := effect.tasks;
        payloads := effect.payloads;
      }
      ok := fault.NoFault? && affected;
    }

    method MarkQueued(id: TaskId) returns (ok: bool)
      modifies this
      ensures CallResult(old(Tables()), Tables(), TaskStore.MarkQueued(old(Tables()), id), id in old(tasks), ok)
      ensures faults >= old(faults) && (ok <==> id in old(tasks) && faults == old(faults))
    {
      ok := Exec(TaskStore.MarkQueued(Tables(), id), id in tasks);
    }

    method FinishFailed(id: TaskId, code: string, message: string) returns (ok: bool, ghost now: int)
      modifies this
      ensures CallResult(old(Tables()), Tables(), TaskStore.FinishFailed(old(Tables()), id, code, message, now),
                         old(Unfinished(Tables(), id)), ok)
      ensures faults >= old(faults) && (ok <==> old(Unfinished(Tables(), id)) && faults == old(faults))
    {
      var databaseTime: int := *;
      now := databaseTime;
      ok := Exec(TaskStore.FinishFailed(Tables(), id, code, message, databaseTime), Unfinished(Tables(), id));
    }

    method MarkUncertain(id: TaskId, code: string, message: string) returns (ok: bool, ghost now: int)
      modifies this
      ensures CallResult(old(Tables()), Tables(), TaskStore.MarkUncertain(old(Tables()), id, code, message, now),
                         old(Unfinished(Tables(), id)), ok)
      ensures faults >= old(faults) && (ok <==> old(Unfinished(Tables(), id)) && faults == old(faults))
    {
      var databaseTime: int := *;
      now := databaseTime;
      ok := Exec(TaskStore.MarkUncertain(Tables(), id, code, message, databaseTime), Unfinished(Tables(), id));
    }

    /** The recovery query: the recoverable rows, oldest first, at most `limit` of them. */
    method FindRecoverableTasks(staleBefore: int, limit: nat) returns (ok: bool, items: seq<ScanItem>)
      modifies `faults
      ensures faults >= old(faults) && (ok <==> faults == old(faults))
      ensures ok ==> IsScanResult(Tables(), staleBefore, limit, items)
    {
      items := [];
      var rest := set id | id in tasks && Recoverable(tasks[id], staleBefore);
      while |items| < limit && rest != {}
        invariant faults == old(faults) && |items| <= limit && Selected(Tables(), staleBefore, items, rest)
        decreases |rest|
      {
        OldestExists(tasks, rest);
        var id :| id in rest && forall x :: x in rest ==> tasks[id].createdAt <= tasks[x].createdAt;
        SelectOne(Tables(), staleBefore, items, rest, id);
        items := items + [ScanItem(id, tasks[id], id in payloads)];
        rest := rest - {id};
      }
      var fails: bool := *;
      if fails {
        faults := faults + 1;
      }
      ok := !fails;
    }
  }

  predicate Listed(items: seq<ScanItem>, id: TaskId) {
    exists i :: 0 <= i < |items| && items[i].id == id
  }

  /** The oldest recoverable rows are in `items`, in order; the others are in `rest`. */
  ghost predicate Selected(db: Db, staleBefore: int, items: seq<ScanItem>, rest: set<TaskId>) {
    && (forall id :: id in rest ==> id in db.tasks && Recoverable(db.tasks[id], staleBefore))
    && (forall id :: id in db.tasks && Recoverable(db.tasks[id], staleBefore) ==> id in rest || Listed(items, id))
    && (forall i ::
          0 <= i < |items| ==>
            items[i].id !in rest && IsCurrent(db, items[i]) && Recoverable(items[i].row, staleBefore))
    && (forall i, j ::
          0 <= i < j < |items| ==> items[i].id != items[j].id && items[i].row.createdAt <= items[j].row.createdAt)
    && (forall i, id :: 0 <= i < |items| && id in rest ==> items[i].row.createdAt <= db.tasks[id].createdAt)
  }

  lemma SelectOne(db: Db, staleBefore: int, items: seq<ScanItem>, rest: set<TaskId>, id: TaskId)
    requires Selected(db, staleBefore, items, rest) && id in rest
    requires forall x :: x in rest ==> db.tasks[id].createdAt <= db.tasks[x].createdAt
    ensures Selected(db, staleBefore, items + [ScanItem(id, db.tasks[id], id in db.payloads)], rest - {id})
  {
    var after := items + [ScanItem(id, db.tasks[id], id in db.payloads)];
    forall x | x in db.tasks && Recoverable(db.tasks[x], staleBefore)
      ensures x in rest - {id} || Listed(after, x)
    {
      if x == id {
        assert after[|items|].id == x;
      } else if x !in rest {
        var i :| 0 <= i < |items| && items[i].id == x;
        assert after[i].id == x;
      }
    }
  }

  lemma OldestExists(tasks: map<TaskId, Row>, ids: set<TaskId>)
    requires ids != {} && forall id :: id in ids ==> id in tasks
    ensures exists id :: id in ids && forall x :: x in ids ==> tasks[id].createdAt <= tasks[x].createdAt
    decreases |ids|
  {
    var id :| id in ids;
    if ids != {id} {
      OldestExists(tasks, ids - {id});
      var m :| m in ids - {id} && forall x :: x in ids - {id} ==> tasks[m].createdAt <= tasks[x].createdAt;
      var least := if tasks[id].createdAt <= tasks[m].createdAt then id else m;
      assert forall x :: x in ids ==> tasks[least].createdAt <= tasks[x].createdAt;
    }
  }
}
