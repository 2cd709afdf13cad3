/** The two tables of the async gateway and the SQL statements that change them,
    as functions from a database value to a database value. Every statement is one
    atomic step. Columns no statement changes after the insert (model, owner hash,
    request path, query and protocol) are one opaque `request` column; `updated_at`
    is not modelled. Times are integers. */
module TaskStore {
  import opened Wrappers

  type TaskId = string

  datatype Status = Accepted | Queued | Running | Succeeded | Failed | Uncertain

  datatype Row = Row(
    request: string,
    status: Status,
    workerId: string,
    heartbeatAt: Option<int>,
    dispatchedAt: Option<int>,
    result: string,
    errorCode: string,
    errorMessage: string,
    transportUncertain: bool,
    createdAt: int,
    finishedAt: Option<int>)

  datatype Payload = Payload(body: string, expiresAt: int)

  datatype Db = Db(tasks: map<TaskId, Row>, payloads: map<TaskId, Payload>)

  /** How one repository call fares: it works, it fails and changes nothing, or it
      takes effect but its caller is told it failed (a lost acknowledgement). */
  datatype Fault = NoFault | Lost | AckLost

  function Outcome(fault: Fault, before: Db, after: Db): Db {
    if fault.Lost? then before else after
  }

  predicate Terminal(status: Status) {
    status.Succeeded? || status.Failed? || status.Uncertain?
  }

  predicate Waiting(status: Status) {
    status.Accepted? || status.Queued?
  }

  predicate Unfinished(db: Db, id: TaskId) {
    id in db.tasks && db.tasks[id].finishedAt.None?
  }

  function NewRow(request: string, now: int): Row {
    Row(request, Accepted, "", None, None, "{}", "", "", false, now, None)
  }

  /** Both inserts of the creating transaction; a primary key clash rolls both back. */
  function CreateAccepted(db: Db, id: TaskId, request: string, payload: Payload, now: int): Db {
    if id in db.tasks || id in db.payloads then db
    else Db(db.tasks[id := NewRow(request, now)], db.payloads[id := payload])
  }

  function MarkQueued(db: Db, id: TaskId): Db {
    if id !in db.tasks then db
    else db.(tasks := db.tasks[id := db.tasks[id].(status := Queued)])
  }

  function MarkRunning(db: Db, id: TaskId, workerId: string, now: int): Db {
    if id !in db.tasks then db
    else db.(tasks := db.tasks[id := db.tasks[id].(status := Running, workerId := workerId, heartbeatAt := Some(now))])
  }

  function MarkRequestDispatched(db: Db, id: TaskId, now: int): Db {
    if id !in db.tasks then db
    else db.(tasks := db.tasks[id := db.tasks[id].(dispatchedAt := Some(now))])
  }

  function UpdateHeartbeat(db: Db, id: TaskId, now: int): Db {
    if !(Unfinished(db, id) && db.tasks[id].status.Running?) then db
    else db.(tasks := db.tasks[id := db.tasks[id].(heartbeatAt := Some(now))])
  }

  function FinishSucceeded(db: Db, id: TaskId, result: string, now: int): Db {
    if !Unfinished(db, id) then db
    else db.(tasks := db.tasks[id := db.tasks[id].(
      status := Succeeded, result := result, errorCode := "", errorMessage := "",
      transportUncertain := false, finishedAt := Some(now))])
  }

  function FailedRow(row: Row, code: string, message: string, now: int): Row {
    row.(status := Failed, errorCode := code, errorMessage := message,
    transportUncertain := false, finishedAt := Some(now))
  }

  function UncertainRow(row: Row, code: string, message: string, now: int): Row {
    row.(status := Uncertain, errorCode := code, errorMessage := message,
    transportUncertain := true, finishedAt := Some(now))
  }

  function FinishFailed(db: Db, id: TaskId, code: string, message: string, now: int): Db {
    if !Unfinished(db, id) then db
    else db.(tasks := db.tasks[id := FailedRow(db.tasks[id], code, message, now)])
  }

  function MarkUncertain(db: Db, id: TaskId, code: string, message: string, now: int): Db {
    if !Unfinished(db, id) then db
    else db.(tasks := db.tasks[id := UncertainRow(db.tasks[id], code, message, now)])
  }

  predicate ForcedTarget(row: Row) {
    row.status.Running? && row.finishedAt.None? && row.dispatchedAt.Some?
  }

  function MarkDispatchedRunningUncertain(db: Db, code: string, message: string, now: int): Db {
    db.(tasks := map id | id in db.tasks ::
      if ForcedTarget(db.tasks[id]) then UncertainRow(db.tasks[id], code, message, now) else db.tasks[id])
  }

  predicate ExpiredTask(db: Db, id: TaskId, finishedBefore: int) {
    id in db.tasks && db.tasks[id].finishedAt.Some? && db.tasks[id].finishedAt.value < finishedBefore
    && Terminal(db.tasks[id].status)
  }

  predicate ExpiredPayload(db: Db, id: TaskId, expiresBefore: int) {
    id in db.payloads && id in db.tasks && db.payloads[id].expiresAt < expiresBefore
    && (db.tasks[id].finishedAt.Some? || db.tasks[id].dispatchedAt.Some?)
  }

  /** Deletes one batch of finished rows; the payload rows go with them (ON DELETE CASCADE).
      The batch limit and SKIP LOCKED make the victims any set of expired rows. */
  function DeleteTasks(db: Db, victims: set<TaskId>): Db {
    Db(db.tasks - victims, db.payloads - victims)
  }

  function DeletePayloads(db: Db, victims: set<TaskId>): Db {
    db.(payloads := db.payloads - victims)
  }

  /** One row of the recovery query: the row as read, and whether its payload row exists. */
  datatype ScanItem = ScanItem(id: TaskId, row: Row, hasPayload: bool)

  predicate Recoverable(row: Row, staleBefore: int) {
    Waiting(row.status)
    || (row.status.Running? && (row.heartbeatAt.None? || row.heartbeatAt.value < staleBefore))
  }

  /** What `ORDER BY created_at ASC LIMIT n` promises about the rows it returns: they are
      current, distinct, recoverable, oldest first, and nothing older than a returned row
      is missing. Ties in `created_at` may come in any order. */
  ghost predicate IsScanResult(db: Db, staleBefore: int, limit: nat, items: seq<ScanItem>) {
    && |items| <= limit
    && (forall i, j :: 0 <= i < j < |items| ==>
          items[i].id != items[j].id && items[i].row.createdAt <= items[j].row.createdAt)
    && (forall i :: 0 <= i < |items| ==> IsCurrent(db, items[i]) && Recoverable(items[i].row, staleBefore))
    && (forall id ::
          id in db.tasks && Recoverable(db.tasks[id], staleBefore) &&
          (forall i :: 0 <= i < |items| ==> items[i].id != id) ==>
          |items| == limit && forall i :: 0 <= i < |items| ==> items[i].row.createdAt <= db.tasks[id].createdAt)
  }

  predicate IsCurrent(db: Db, item: ScanItem) {
    item.id in db.tasks && item.row == db.tasks[item.id] && item.hasPayload == (item.id in db.payloads)
  }
}
