/** Runs built event by event: how a state reached so far leads to the next. */
module LifecycleReach {
  import opened Wrappers
  import opened TaskStore
  import opened Lifecycle
  import opened LifecycleTheorems
  import Forwarder
  import Recovery

  lemma {:induction false} ExtendRun(c: Config, s: State, es: seq<Event>, e: Event)
    requires IsRun(c, s, es) && Enabled(c, After(c, s, es), e)
    ensures IsRun(c, s, es + [e]) && After(c, s, es + [e]) == Step(c, After(c, s, es), e)
    decreases |es|
  {
    if es == [] {
      assert (es + [e])[1..] == [];
    } else {
      ExtendRun(c, Step(c, s, es[0]), es[1..], e);
      assert (es + [e])[1..] == es[1..] + [e];
    }
  }

  lemma LeadsNowhere(c: Config, s: State)
    ensures Leads(c, s, s)
  {
    assert IsRun(c, s, []) && After(c, s, []) == s;
  }

  lemma Take(c: Config, from: State, s: State, e: Event)
    requires Leads(c, from, s) && Enabled(c, s, e)
    ensures Leads(c, from, Step(c, s, e))
  {
    var es :| IsRun(c, from, es) && After(c, from, es) == s;
    ExtendRun(c, from, es, e);
  }

  // ----- One lemma an event -----

  lemma ByCrash(c: Config, from: State, s: State)
    requires Leads(c, from, s)
    ensures Leads(c, from, Stop(s))
  {
    Take(c, from, s, Crash);
  }

  lemma ByStart(c: Config, from: State, s: State, items: seq<ScanItem>, staleBefore: int)
    requires Leads(c, from, s) && s.phase.Down? && IsScanResult(s.db, staleBefore, c.scanLimit, items)
    ensures Leads(c, from, s.(phase := Recovering(items, AtDecide)))
  {
    Take(c, from, s, Start(items, staleBefore));
  }

  lemma ByDecide(c: Config, from: State, s: State, cutoff: int, now: int)
    requires Leads(c, from, s) && Scanning(s, AtDecide)
    ensures Leads(c, from, DecideStep(s, cutoff, now, NoFault))
  {
    Take(c, from, s, ScanDecide(cutoff, now, NoFault));
  }

  lemma ByScanEnqueue(c: Config, from: State, s: State)
    requires Leads(c, from, s) && Scanning(s, AtEnqueue) && CanEnqueue(c, s)
    ensures Leads(c, from, Enqueue(s, s.phase.items[0].id).(phase := Rest(s)))
  {
    Take(c, from, s, ScanEnqueue);
  }

  lemma ByScanRefused(c: Config, from: State, s: State, now: int)
    requires Leads(c, from, s) && Scanning(s, AtEnqueue) && !CanEnqueue(c, s)
    ensures var id := s.phase.items[0].id;
            var db := FinishFailed(s.db, id, Recovery.QUEUE_FULL_CODE, Recovery.QUEUE_FULL_MESSAGE, now);
            Leads(c, from, s.(db := db, phase := Rest(s)))
  {
    Take(c, from, s, ScanEnqueue);
    Take(c, from, s.(phase := s.phase.(pc := AtRefused)), ScanRefuse(now, NoFault));
  }

  lemma ByScanDone(c: Config, from: State, s: State)
    requires Leads(c, from, s) && s.phase == Recovering([], AtDecide)
    ensures Leads(c, from, s.(phase := Serving, workers := seq(c.workerCount, _ => Idle)))
  {
    Take(c, from, s, ScanDone);
  }

  lemma ByAdmit(c: Config, from: State, s: State)
    requires Leads(c, from, s) && s.phase.Serving? && !s.draining
    ensures Leads(c, from, s.(admitted := s.admitted + 1))
  {
    Take(c, from, s, Admit);
  }

  lemma BySubmit(c: Config, from: State, s: State, id: TaskId, request: string, payload: Payload, now: int)
    requires Leads(c, from, s) && s.phase.Serving? && s.admitted > 0 && id !in s.used
    ensures Leads(c, from, SubmitStep(s, id, request, payload, now, NoFault))
  {
    Take(c, from, s, Submit(id, request, payload, now, NoFault));
  }

  lemma ByMarkQueued(c: Config, from: State, s: State, id: TaskId)
    requires Leads(c, from, s) && s.phase.Serving? && id in s.handlers && s.handlers[id] == RowCreated
    ensures Leads(c, from, MarkQueuedStep(s, id, NoFault))
  {
    Take(c, from, s, SubmitMarkQueued(id, NoFault));
  }

  lemma ByEnqueue(c: Config, from: State, s: State, id: TaskId)
    requires Leads(c, from, s) && s.phase.Serving? && id in s.handlers && s.handlers[id] == RowQueued
    requires CanEnqueue(c, s)
    ensures Leads(c, from, RemoveHandler(Enqueue(s, id), id))
  {
    Take(c, from, s, SubmitEnqueue(id));
  }

  lemma ByDequeue(c: Config, from: State, s: State, w: nat)
    requires Leads(c, from, s) && At(s, w) && s.workers[w].Idle? && s.queue != []
    ensures Leads(c, from, DequeueStep(s, w))
  {
    Take(c, from, s, Dequeue(w));
  }

  lemma ByLoadTask(c: Config, from: State, s: State, w: nat, fault: Fault)
    requires Leads(c, from, s) && At(s, w) && s.workers[w].Dequeued?
    ensures Leads(c, from, LoadTaskStep(s, w, fault))
  {
    Take(c, from, s, LoadTask(w, fault));
  }

  lemma ByLoadPayload(c: Config, from: State, s: State, w: nat)
    requires Leads(c, from, s) && At(s, w) && s.workers[w].TaskLoaded?
    ensures Leads(c, from, LoadPayloadStep(s, w, NoFault))
  {
    Take(c, from, s, LoadPayload(w, NoFault));
  }

  lemma ByBegin(c: Config, from: State, s: State, w: nat, workerId: string, now: int)
    requires Leads(c, from, s) && At(s, w) && s.workers[w].PayloadLoaded?
    ensures Leads(c, from, BeginStep(s, w, workerId, now, NoFault))
  {
    Take(c, from, s, BeginForward(w, workerId, now, NoFault));
  }

  lemma ByBeginWrite(c: Config, from: State, s: State, w: nat)
    requires Leads(c, from, s) && At(s, w) && s.workers[w].Forwarding? && s.workers[w].id !in s.wire.inflight
    ensures Leads(c, from, s.(wire := s.wire.(inflight := s.wire.inflight + {s.workers[w].id})))
  {
    Take(c, from, s, BeginWrite(w));
  }

  lemma ByEndWrite(c: Config, from: State, s: State, id: TaskId, whole: bool)
    requires Leads(c, from, s) && s.phase.Serving? && id in s.wire.inflight
    ensures Leads(c, from, EndWriteStep(s, id, whole))
  {
    Take(c, from, s, EndWrite(id, whole));
  }

  lemma ByWrote(c: Config, from: State, s: State, id: TaskId)
    requires Leads(c, from, s) && s.phase.Serving? && id in s.hooks
    ensures Leads(c, from, WroteStep(s, id))
  {
    Take(c, from, s, WroteRequest(id));
  }

  lemma ByEnd(c: Config, from: State, s: State, w: nat, result: Forwarder.UpstreamResult)
    requires Leads(c, from, s) && At(s, w) && s.workers[w].Forwarding? && !result.NotSent?
    ensures Leads(c, from, EndStep(s, w, result))
  {
    Take(c, from, s, EndForward(w, result));
  }

  lemma ByFinish(c: Config, from: State, s: State, w: nat, now: int)
    requires Leads(c, from, s) && At(s, w) && s.workers[w].Finishing?
    ensures Leads(c, from, FinishStep(s, w, now, NoFault))
  {
    Take(c, from, s, Finish(w, now, NoFault));
  }

  lemma ByMark(c: Config, from: State, s: State, id: TaskId, now: int, fault: Fault)
    requires Leads(c, from, s) && s.phase.Serving? && id in s.marking
    ensures Leads(c, from, MarkStep(s, id, now, fault))
  {
    Take(c, from, s, StoreMark(id, now, fault));
  }

  lemma ByCleanPayload(c: Config, from: State, s: State, id: TaskId, before: int)
    requires Leads(c, from, s) && s.phase.Serving? && ExpiredPayload(s.db, id, before)
    ensures Leads(c, from, s.(db := DeletePayloads(s.db, {id})))
  {
    Take(c, from, s, CleanPayloads({id}, before, NoFault));
  }
}
