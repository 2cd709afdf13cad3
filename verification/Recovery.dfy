/** The startup recovery scan's decision for one row. */
module Recovery {
  import opened TaskStore

  const PAYLOAD_MISSING_CODE := "recovery_payload_missing"
  const PAYLOAD_MISSING_MESSAGE := "recovery scan could not replay task because task payload is missing"
  const UNCERTAIN_CODE := "upstream_transport_uncertain"
  const UNCERTAIN_MESSAGE := "connection to newapi broke after request dispatch; task result may be uncertain"
  const QUEUE_FULL_CODE := "queue_full"
  const QUEUE_FULL_MESSAGE := "local task queue is full"

  datatype Verdict = SkipFresh | FailPayloadMissing | LeaveUncertain | Requeue

  predicate IsRunningTaskStale(row: Row, cutoff: int) {
    row.status.Running? && (row.heartbeatAt.None? || row.heartbeatAt.value < cutoff)
  }

  predicate RequiresPayload(status: Status) {
    status.Accepted? || status.Queued? || status.Running?
  }

  /** The checks in the order the scan makes them: payload before dispatch. */
  function Decide(item: ScanItem, cutoff: int): Verdict {
    if item.row.status.Running? && !IsRunningTaskStale(item.row, cutoff) then SkipFresh
    else if RequiresPayload(item.row.status) && !item.hasPayload then FailPayloadMissing
    else if item.row.status.Running? && item.row.dispatchedAt.Some? then LeaveUncertain
    else if !item.hasPayload then FailPayloadMissing
    else Requeue
  }
}
