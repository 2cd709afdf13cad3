/** Which verdict a task gets, and where every verdict, request and payload in the tables comes
    from. The statements spell out codes, messages and statuses. */
module LifecycleVerdicts {
  import opened Wrappers
  import opened TaskStore
  import opened Lifecycle
  import opened LifecycleInvariant
  import opened LifecycleSteps
  import opened LifecycleTheorems
  import Forwarder
  import Recovery

  // ----- The verdict for one answer -----

  /** The upstream answered 200 and the answer carried this summary. */
  predicate Delivers(r: Forwarder.UpstreamResult, text: string) {
    r.Response? && r.status == 200 && r.summary == Forwarder.Summary(text)
  }

  /** The write hook had run and no complete answer came: the call or its body failed, or the
      JSON of a 200 answer stopped short. */
  predicate Breaks(r: Forwarder.UpstreamResult, wrote: bool) {
    && wrote
    && (r.CallFailed? || r.BodyFailed? || (r.Response? && r.status == 200 && r.summary.SummaryError? &&
                                           r.summary.truncatedJson))
  }

  /** Any other answer fails the task, with this code and message. */
  predicate Fails(r: Forwarder.UpstreamResult, wrote: bool, code: string, message: string) {
    match r
    case NotSent(text) => code == "unknown_error" && message == text
    case CallFailed(timeout, text) =>
      && !wrote
      && (timeout ==> code == "upstream_timeout" && message == "upstream request timed out")
      && (!timeout ==> code == "upstream_error" && message == text)
    case BodyFailed(text) => !wrote && code == "upstream_error" && message == text
    case Response(status, text, summary) =>
      if status == 200 then
        && summary.SummaryError? && !(wrote && summary.truncatedJson)
        && code == "upstream_error" && message == summary.message
      else if status == 408 then code == "upstream_timeout" && message == "upstream request timed out"
      else
        && message == text
        && (status in {401, 403} ==> code == "auth_failed")
        && (status == 402 ==> code == "insufficient_balance")
        && (status == 429 ==> code == "upstream_rate_limited")
        && (status in {400, 404, 422} ==> code == "invalid_request")
        && (status !in {400, 401, 402, 403, 404, 422, 429} ==> code == "upstream_error")
  }

  const BROKEN_MESSAGE := "connection to newapi broke after request dispatch; task result may be uncertain"

  /** The row a forward leaves: the row it found, finished as the answer demands. */
  predicate Finished(before: Row, r: Forwarder.UpstreamResult, wrote: bool, now: int, after: Row) {
    if Breaks(r, wrote) then
      after == before.(status := Uncertain, errorCode := "upstream_transport_uncertain",
                       errorMessage := BROKEN_MESSAGE, transportUncertain := true, finishedAt := Some(now))
    else if r.Response? && r.status == 200 && r.summary.Summary? then
      after == before.(status := Succeeded, result := r.summary.text, errorCode := "", errorMessage := "",
                       transportUncertain := false, finishedAt := Some(now))
    else
      && Fails(r, wrote, after.errorCode, after.errorMessage)
      && after == before.(status := Failed, errorCode := after.errorCode, errorMessage := after.errorMessage,
                          transportUncertain := false, finishedAt := Some(now))
  }

  lemma FinishStatementMeans(db: Db, id: TaskId, r: Forwarder.UpstreamResult, wrote: bool, now: int)
    requires Unfinished(db, id)
    ensures var after := FinishStatement(db, id, Forwarder.Classify(r, wrote), now);
            && after.payloads == db.payloads && after.tasks.Keys == db.tasks.Keys
            && Finished(db.tasks[id], r, wrote, now, after.tasks[id])
            && forall x <- db.tasks :: x != id ==> after.tasks[x] == db.tasks[x]
  {
  }

  /** When the forward of an unfinished task returns and its finish statement works, the task ends
      `succeeded` with the summary exactly for a 200 answer that carries one, `uncertain` exactly
      if the hook had run and the answer broke off, and otherwise `failed` with the code and
      message of the answer. No other row changes. */
  lemma ForwardVerdict(c: Config, s: State, w: nat, r: Forwarder.UpstreamResult, now: int)
    requires Enabled(c, s, EndForward(w, r)) && Unfinished(s.db, s.workers[w].id)
    ensures var id, wrote := s.workers[w].id, s.workers[w].wrote;
            var es := [EndForward(w, r), Finish(w, now, NoFault)];
            && IsRun(c, s, es)
            && var t := After(c, s, es);
               && t.db.payloads == s.db.payloads && t.db.tasks.Keys == s.db.tasks.Keys
               && (forall x <- s.db.tasks :: x != id ==> t.db.tasks[x] == s.db.tasks[x])
               && Finished(s.db.tasks[id], r, wrote, now, t.db.tasks[id])
               && (t.db.tasks[id].status.Succeeded? <==> exists text :: Delivers(r, text))
               && (t.db.tasks[id].status.Uncertain? <==> Breaks(r, wrote))
  {
    FinishStatementMeans(s.db, s.workers[w].id, r, s.workers[w].wrote, now);
    ForwardRun(c, s, w, r, now);
    if r.Response? && r.summary.Summary? { assert r.status == 200 ==> Delivers(r, r.summary.text); }
  }

  lemma ForwardRun(c: Config, s: State, w: nat, r: Forwarder.UpstreamResult, now: int)
    requires Enabled(c, s, EndForward(w, r))
    ensures var es := [EndForward(w, r), Finish(w, now, NoFault)];
            && IsRun(c, s, es)
            && var outcome := Forwarder.Classify(r, s.workers[w].wrote);
               After(c, s, es).db == FinishStatement(s.db, s.workers[w].id, outcome, now)
  {
    var mid := EndStep(s, w, r);
    TwoSteps(c, s, EndForward(w, r), Finish(w, now, NoFault), mid, FinishStep(mid, w, now, NoFault));
  }

  lemma TwoSteps(c: Config, s: State, e: Event, f: Event, mid: State, t: State)
    requires Enabled(c, s, e) && Step(c, s, e) == mid && Enabled(c, mid, f) && Step(c, mid, f) == t
    ensures IsRun(c, s, [e, f]) && After(c, s, [e, f]) == t
  {
    assert [e, f][1..] == [f] && [f][1..] == [];
    assert IsRun(c, t, []) && After(c, t, []) == t;
    assert IsRun(c, mid, [f]) && After(c, mid, [f]) == t;
  }

  // ----- What removes rows and payloads -----

  predicate Stays(a: Db, b: Db, id: TaskId) {
    (id in a.tasks ==> id in b.tasks) && (id in a.payloads ==> id in b.payloads)
  }

  lemma StatementKeeps(db: Db, x: TaskId, code: string, message: string, now: int, id: TaskId)
    ensures Stays(db, MarkQueued(db, x), id) && Stays(db, MarkRunning(db, x, code, now), id)
    ensures Stays(db, MarkRequestDispatched(db, x, now), id) && Stays(db, UpdateHeartbeat(db, x, now), id)
    ensures Stays(db, FinishSucceeded(db, x, code, now), id) && Stays(db, FinishFailed(db, x, code, message, now), id)
    ensures Stays(db, MarkUncertain(db, x, code, message, now), id)
    ensures Stays(db, MarkDispatchedRunningUncertain(db, code, message, now), id)
  {
  }

  lemma BeginStays(s: State, w: nat, workerId: string, now: int, fault: Fault, id: TaskId)
    requires w < |s.workers| && s.workers[w].PayloadLoaded?
    ensures Stays(s.db, BeginStep(s, w, workerId, now, fault).db, id)
  {
    StatementKeeps(s.db, s.workers[w].id, workerId, "", now, id);
  }

  lemma FinishStays(s: State, w: nat, now: int, fault: Fault, id: TaskId)
    requires w < |s.workers| && s.workers[w].Finishing?
    ensures Stays(s.db, FinishStep(s, w, now, fault).db, id)
  {
    var x, o := s.workers[w].id, s.workers[w].outcome;
    StatementKeeps(s.db, x, o.errorCode, o.errorMessage, now, id);
    StatementKeeps(s.db, x, o.summary, o.errorMessage, now, id);
  }

  lemma MarkStays(c: Config, s: State, e: Event, id: TaskId)
    requires Enabled(c, s, e) && (e.Heartbeat? || e.StoreMark?)
    ensures Stays(s.db, Step(c, s, e).db, id)
  {
    StatementKeeps(s.db, if e.Heartbeat? then s.workers[e.w].id else e.id, "", "", e.now, id);
  }

  lemma WorkerStays(c: Config, s: State, e: Event, id: TaskId)
    requires Enabled(c, s, e) && IsWorkerEvent(e)
    ensures Stays(s.db, Step(c, s, e).db, id)
  {
    if e.BeginForward? {
      BeginStays(s, e.w, e.workerId, e.now, e.fault, id);
    } else if e.Finish? {
      FinishStays(s, e.w, e.now, e.fault, id);
    } else if e.Heartbeat? || e.StoreMark? {
      MarkStays(c, s, e, id);
    } else if IsWriteEvent(e) {
      QuietWriteStep(c, s, e);
    } else {
      QuietWorkerStep(c, s, e);
    }
  }

  lemma ScanStatementStays(s: State, db: Db, fault: Fault, next: Phase, id: TaskId)
    requires Stays(s.db, db, id)
    ensures Stays(s.db, AfterScanStatement(s, db, fault, next).db, id)
  {
  }

  lemma DecideStays(s: State, cutoff: int, now: int, fault: Fault, id: TaskId)
    requires Scanning(s, AtDecide)
    ensures Stays(s.db, DecideStep(s, cutoff, now, fault).db, id)
  {
    var x := s.phase.items[0].id;
    match Recovery.Decide(s.phase.items[0], cutoff) {
      case SkipFresh => {}
      case FailPayloadMissing => {
        StatementKeeps(s.db, x, Recovery.PAYLOAD_MISSING_CODE, Recovery.PAYLOAD_MISSING_MESSAGE, now, id);
        var db := FinishFailed(s.db, x, Recovery.PAYLOAD_MISSING_CODE, Recovery.PAYLOAD_MISSING_MESSAGE, now);
        ScanStatementStays(s, db, fault, Rest(s), id);
      }
      case LeaveUncertain => {
        StatementKeeps(s.db, x, Recovery.UNCERTAIN_CODE, Recovery.UNCERTAIN_MESSAGE, now, id);
        var db := MarkUncertain(s.db, x, Recovery.UNCERTAIN_CODE, Recovery.UNCERTAIN_MESSAGE, now);
        ScanStatementStays(s, db, fault, Rest(s), id);
      }
      case Requeue => {
        StatementKeeps(s.db, x, "", "", now, id);
        ScanStatementStays(s, MarkQueued(s.db, x), fault, s.phase.(pc := AtEnqueue), id);
      }
    }
  }

  lemma ScanStays(c: Config, s: State, e: Event, id: TaskId)
    requires Enabled(c, s, e) && IsScanEvent(e)
    ensures Stays(s.db, Step(c, s, e).db, id)
  {
    if e.ScanDecide? {
      DecideStays(s, e.cutoff, e.now, e.fault, id);
    } else if e.ScanRefuse? {
      StatementKeeps(s.db, s.phase.items[0].id, Recovery.QUEUE_FULL_CODE, Recovery.QUEUE_FULL_MESSAGE, e.now, id);
    } else {
      QuietScanStep(c, s, e);
    }
  }

  lemma OthersStay(c: Config, s: State, e: Event, id: TaskId)
    requires Enabled(c, s, e) && !IsWorkerEvent(e) && !IsScanEvent(e) && !e.CleanTasks? && !e.CleanPayloads?
    ensures Stays(s.db, Step(c, s, e).db, id)
  {
    if e.ForceUncertain? { StatementKeeps(s.db, id, FORCED_CODE, FORCED_MESSAGE, e.now, id); }
  }

  lemma CleanTakesExpired(c: Config, s: State, e: Event, id: TaskId)
    requires Enabled(c, s, e) && (e.CleanTasks? || e.CleanPayloads?)
    ensures id in s.db.tasks && id !in Step(c, s, e).db.tasks ==> TaskMayGo(s.db, e, id)
    ensures id in s.db.payloads && id !in Step(c, s, e).db.payloads ==>
              TaskMayGo(s.db, e, id) || PayloadMayGo(s.db, e, id)
  {
  }

  /** Its verdict is older than the cleaner's limit. */
  predicate TaskMayGo(db: Db, e: Event, id: TaskId) {
    && e.CleanTasks? && id in db.tasks && db.tasks[id].status in {Succeeded, Failed, Uncertain}
    && db.tasks[id].finishedAt.Some? && db.tasks[id].finishedAt.value < e.finishedBefore
  }

  /** It has expired, and its task is finished or dispatched. */
  predicate PayloadMayGo(db: Db, e: Event, id: TaskId) {
    && e.CleanPayloads? && id in db.payloads && db.payloads[id].expiresAt < e.expiresBefore
    && id in db.tasks && (db.tasks[id].finishedAt.Some? || db.tasks[id].dispatchedAt.Some?)
  }

  /** A row or a payload is deleted only by the cleaner, and only once its time has come. */
  lemma DeletedOnlyWhenExpired(c: Config, s: State, e: Event, id: TaskId)
    requires Enabled(c, s, e)
    ensures id in s.db.tasks && id !in Step(c, s, e).db.tasks ==> TaskMayGo(s.db, e, id)
    ensures id in s.db.payloads && id !in Step(c, s, e).db.payloads ==>
              TaskMayGo(s.db, e, id) || PayloadMayGo(s.db, e, id)
  {
    if IsWorkerEvent(e) {
      WorkerStays(c, s, e, id);
    } else if IsScanEvent(e) {
      ScanStays(c, s, e, id);
    } else if e.CleanTasks? || e.CleanPayloads? {
      CleanTakesExpired(c, s, e, id);
    } else {
      OthersStay(c, s, e, id);
    }
  }

  /** What the statements around a forward write: who runs the task since when, when its request was
      on the wire, and that its worker is alive. */
  lemma BeginMarks(c: Config, s: State, w: nat, workerId: string, now: int)
    requires Enabled(c, s, BeginForward(w, workerId, now, NoFault)) && s.workers[w].id in s.db.tasks
    ensures var id, t := s.workers[w].id, Step(c, s, BeginForward(w, workerId, now, NoFault));
            && t.db.tasks == s.db.tasks[id := s.db.tasks[id].(status := Running, workerId := workerId,
                                                              heartbeatAt := Some(now))]
            && t.workers[w] == Forwarding(id, false)
  {
  }

  lemma DispatchMarks(c: Config, s: State, id: TaskId, now: int)
    requires Enabled(c, s, StoreMark(id, now, NoFault)) && id in s.db.tasks
    ensures Step(c, s, StoreMark(id, now, NoFault)).db.tasks
              == s.db.tasks[id := s.db.tasks[id].(dispatchedAt := Some(now))]
  {
  }

  lemma HeartbeatMarks(c: Config, s: State, w: nat, now: int)
    requires Enabled(c, s, Heartbeat(w, now, NoFault)) && Unfinished(s.db, s.workers[w].id)
    requires s.db.tasks[s.workers[w].id].status == Running
    ensures var id := s.workers[w].id;
            Step(c, s, Heartbeat(w, now, NoFault)).db.tasks
              == s.db.tasks[id := s.db.tasks[id].(heartbeatAt := Some(now))]
  {
  }

  /** A submission leaves an accepted row with nothing but its request, and its payload. */
  lemma SubmissionMarks(c: Config, s: State, id: TaskId, request: string, payload: Payload, now: int)
    ensures var e := Submit(id, request, payload, now, NoFault);
            Enabled(c, s, e) && id !in s.db.tasks && id !in s.db.payloads ==>
              var row := Row(request, Accepted, "", None, None, "{}", "", "", false, now, None);
              Step(c, s, e).db == Db(s.db.tasks[id := row], s.db.payloads[id := payload])
  {
  }

  /** The forced shutdown ends exactly the running, dispatched, unfinished tasks, as uncertain. */
  lemma ForcedVerdict(c: Config, s: State, now: int, id: TaskId)
    requires Enabled(c, s, ForceUncertain(now, NoFault)) && id in s.db.tasks
    ensures var was, db := s.db.tasks[id], Step(c, s, ForceUncertain(now, NoFault)).db;
            && db.payloads == s.db.payloads && id in db.tasks
            && db.tasks[id] ==
               if was.status == Running && was.finishedAt.None? && was.dispatchedAt.Some? then
                 was.(status := Uncertain, errorCode := "gateway_shutdown_uncertain",
                      errorMessage := "gateway shutdown grace period elapsed before task completion",
                      transportUncertain := true, finishedAt := Some(now))
               else was
  {
  }
}
