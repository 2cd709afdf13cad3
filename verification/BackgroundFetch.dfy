/** The background fetcher: callers asking for one URL share one fetch, fetches go on after
    their callers give up, and their number is limited. A state machine over the atomic steps
    of callers and fetch goroutines; the fetcher's mutex makes each map access one step. */
module BackgroundFetch {
  import opened Wrappers
  import opened Bytes

  /** The result fields of a task, as its goroutine has written them so far. */
  datatype Fields = Fields(mime: string, data: bytes, err: Option<string>)

  /** Where a goroutine stands. After a success with a callback it publishes and removes
      early, before the callback, and does both again when it returns. */
  datatype Pc = Fetching | Stored | AtEarlyRemove | InCallback | AtMarkDone | AtRemove | Ended

  datatype Task = Task(url: string, hasCallback: bool, fields: Fields, done: bool, pc: Pc)

  /** A caller waits for its task, and ends with the task's fields, a timeout or a refusal. */
  datatype Caller = Waiting(task: nat) | Answered(task: nat, fields: Fields) | TimedOut(task: nat) | Refused

  /** `started` holds every task ever started; its index stands for the task's identity. */
  datatype State = State(tasks: map<string, nat>, started: seq<Task>, callers: map<nat, (string, Caller)>)

  const INITIAL := State(map[], [], map[])

  datatype Event =
    | Call(caller: nat, url: string, hasCallback: bool)
    | FetchReturns(task: nat, mime: string, data: bytes, err: Option<string>)
    | FetchPanics(task: nat, message: string)
    | Publish(task: nat)
    | EarlyRemove(task: nat)
    | CallbackReturns(task: nat)
    | MarkDone(task: nat)
    | Remove(task: nat)
    | Wake(caller: nat)
    | TimeOut(caller: nat)

  predicate At(s: State, task: nat, pc: Pc) {
    task < |s.started| && s.started[task].pc == pc
  }

  predicate IsWaiting(s: State, caller: nat) {
    caller in s.callers && s.callers[caller].1.Waiting?
  }

  predicate Enabled(s: State, e: Event) {
    match e
    case Call(caller, _, _) => caller !in s.callers
    case FetchReturns(task, _, _, _) => At(s, task, Fetching)
    case FetchPanics(task, _) => At(s, task, Fetching)
    case Publish(task) => At(s, task, Stored)
    case EarlyRemove(task) => At(s, task, AtEarlyRemove)
    case CallbackReturns(task) => At(s, task, InCallback)
    case MarkDone(task) => At(s, task, AtMarkDone)
    case Remove(task) => At(s, task, AtRemove)
    case Wake(caller) =>
      IsWaiting(s, caller) && s.callers[caller].1.task < |s.started| && s.started[s.callers[caller].1.task].done
    case TimeOut(caller) => IsWaiting(s, caller)
  }

  /** The URLs whose current task is not done; `inflightCountLocked` counts them. */
  function Pending(s: State): set<string> {
    set url | url in s.tasks && s.tasks[url] < |s.started| && !s.started[s.tasks[url]].done
  }

  function SetTask(s: State, task: nat, t: Task): State
    requires task < |s.started|
  {
    s.(started := s.started[task := t])
  }

  function SetCaller(s: State, caller: nat, url: string, c: Caller): State {
    s.(callers := s.callers[caller := (url, c)])
  }

  function GetOrStart(maxInflight: nat, s: State, caller: nat, url: string, hasCallback: bool): State {
    if url in s.tasks then SetCaller(s, caller, url, Waiting(s.tasks[url]))
    else if |Pending(s)| >= maxInflight then SetCaller(s, caller, url, Refused)
    else
      var t :=
        s.(tasks := s.tasks[url := |s.started|],
           started := s.started + [Task(url, hasCallback, Fields("", [], None), false, Fetching)]);
      SetCaller(t, caller, url, Waiting(|s.started|))
  }

  function RemoveIfCurrent(s: State, task: nat): State
    requires task < |s.started|
  {
    var url := s.started[task].url;
    if url in s.tasks && s.tasks[url] == task then s.(tasks := s.tasks - {url}) else s
  }

  function Step(maxInflight: nat, s: State, e: Event): State
    requires Enabled(s, e)
  {
    match e
    case Call(caller, url, hasCallback) => GetOrStart(maxInflight, s, caller, url, hasCallback)
    case FetchReturns(task, mime, data, err) =>
      SetTask(s, task, s.started[task].(fields := Fields(mime, data, err), pc := Stored))
    case FetchPanics(task, message) =>
      SetTask(s, task, s.started[task].(fields := s.started[task].fields.(err := Some(message)), pc := AtMarkDone))
    case Publish(task) =>
      var t := s.started[task];
      var early := t.fields.err.None? && t.hasCallback;
      SetTask(s, task, if early then t.(done := true, pc := AtEarlyRemove) else t.(pc := AtMarkDone))
    case EarlyRemove(task) => RemoveIfCurrent(SetTask(s, task, s.started[task].(pc := InCallback)), task)
    case CallbackReturns(task) => SetTask(s, task, s.started[task].(pc := AtMarkDone))
    case MarkDone(task) => SetTask(s, task, s.started[task].(done := true, pc := AtRemove))
    case Remove(task) => RemoveIfCurrent(SetTask(s, task, s.started[task].(pc := Ended)), task)
    case Wake(caller) =>
      var (url, c) := s.callers[caller];
      SetCaller(s, caller, url, Answered(c.task, s.started[c.task].fields))
    case TimeOut(caller) =>
      var (url, c) := s.callers[caller];
      SetCaller(s, caller, url, TimedOut(c.task))
  }

  predicate IsRun(maxInflight: nat, s: State, es: seq<Event>)
    decreases |es|
  {
    es == [] || (Enabled(s, es[0]) && IsRun(maxInflight, Step(maxInflight, s, es[0]), es[1..]))
  }

  function After(maxInflight: nat, s: State, es: seq<Event>): State
    requires IsRun(maxInflight, s, es)
    decreases |es|
  {
    if es == [] then s else After(maxInflight, Step(maxInflight, s, es[0]), es[1..])
  }

  // ----- The invariant -----

  predicate TaskOk(t: Task) {
    && (t.pc.Fetching? || t.pc.Stored? ==> !t.done)
    && (t.pc.AtEarlyRemove? || t.pc.InCallback? || t.pc.AtRemove? || t.pc.Ended? ==> t.done)
  }

  predicate CallerOk(started: seq<Task>, url: string, c: Caller) {
    match c
    case Waiting(task) => task < |started| && started[task].url == url
    case Answered(task, fields) =>
      task < |started| && started[task].url == url && started[task].done && fields == started[task].fields
    case TimedOut(task) => task < |started| && started[task].url == url
    case Refused => true
  }

  /** A task that is not done is the current task of its URL; no current task has ended. */
  ghost predicate Inv(s: State) {
    && (forall url ::
          url in s.tasks ==>
            s.tasks[url] < |s.started| && s.started[s.tasks[url]].url == url && !s.started[s.tasks[url]].pc.Ended?)
    && (forall i :: 0 <= i < |s.started| ==> TaskOk(s.started[i]))
    && (forall i ::
          0 <= i < |s.started| && !s.started[i].done ==> s.started[i].url in s.tasks && s.tasks[s.started[i].url] == i)
    && (forall k :: k in s.callers ==> CallerOk(s.started, s.callers[k].0, s.callers[k].1))
  }

  /** A started task keeps its URL, and keeps its fields once it is done. */
  ghost predicate Published(a: seq<Task>, b: seq<Task>) {
    && |a| <= |b|
    && (forall i :: 0 <= i < |a| ==> a[i].url == b[i].url)
    && (forall i :: 0 <= i < |a| && a[i].done ==> b[i].done && b[i].fields == a[i].fields)
  }

  lemma CallersStay(a: seq<Task>, b: seq<Task>, callers: map<nat, (string, Caller)>)
    requires Published(a, b) && forall k :: k in callers ==> CallerOk(a, callers[k].0, callers[k].1)
    ensures forall k :: k in callers ==> CallerOk(b, callers[k].0, callers[k].1)
  {
    forall k | k in callers
      ensures CallerOk(b, callers[k].0, callers[k].1)
    {
      assert CallerOk(a, callers[k].0, callers[k].1);
    }
  }

  /** A goroutine's own progress; ending is left to its removal. */
  lemma SetTaskInv(s: State, task: nat, t: Task)
    requires Inv(s) && task < |s.started| && t.url == s.started[task].url && TaskOk(t) && !t.pc.Ended?
    requires s.started[task].done ==> t.done && t.fields == s.started[task].fields
    ensures Inv(SetTask(s, task, t)) && Published(s.started, SetTask(s, task, t).started)
  {
    CallersStay(s.started, SetTask(s, task, t).started, s.callers);
  }

  /** Removing a done task from the map, whether or not it ends with that. */
  lemma RemoveInv(s: State, task: nat, pc: Pc)
    requires Inv(s) && task < |s.started| && s.started[task].done && (pc.InCallback? || pc.Ended?)
    ensures var t := RemoveIfCurrent(SetTask(s, task, s.started[task].(pc := pc)), task);
            Inv(t) && Published(s.started, t.started)
  {
    CallersStay(s.started, s.started[task := s.started[task].(pc := pc)], s.callers);
  }

  lemma StartInv(s: State, t: Task)
    requires Inv(s) && t.url !in s.tasks && !t.done && t.pc.Fetching?
    ensures var started := s.started + [t];
            Published(s.started, started) && Inv(State(s.tasks[t.url := |s.started|], started, s.callers))
  {
    CallersStay(s.started, s.started + [t], s.callers);
  }

  lemma CallerInv(s: State, caller: nat, url: string, c: Caller)
    requires Inv(s) && CallerOk(s.started, url, c)
    ensures Inv(SetCaller(s, caller, url, c))
  {
  }

  lemma CallInv(maxInflight: nat, s: State, caller: nat, url: string, hasCallback: bool)
    requires Inv(s)
    ensures var t := GetOrStart(maxInflight, s, caller, url, hasCallback); Inv(t) && Published(s.started, t.started)
  {
    if url in s.tasks {
      CallerInv(s, caller, url, Waiting(s.tasks[url]));
    } else if |Pending(s)| >= maxInflight {
      CallerInv(s, caller, url, Refused);
    } else {
      var task := Task(url, hasCallback, Fields("", [], None), false, Fetching);
      StartInv(s, task);
      var t := State(s.tasks[url := |s.started|], s.started + [task], s.callers);
      CallerInv(t, caller, url, Waiting(|s.started|));
    }
  }

  lemma StepInv(maxInflight: nat, s: State, e: Event)
    requires Inv(s) && Enabled(s, e)
    ensures Inv(Step(maxInflight, s, e)) && Published(s.started, Step(maxInflight, s, e).started)
  {
    match e
    case Call(caller, url, hasCallback) => CallInv(maxInflight, s, caller, url, hasCallback);
    case EarlyRemove(task) => assert TaskOk(s.started[task]); RemoveInv(s, task, InCallback);
    case Remove(task) => assert TaskOk(s.started[task]); RemoveInv(s, task, Ended);
    case Wake(caller) => assert CallerOk(s.started, s.callers[caller].0, s.callers[caller].1);
    case TimeOut(caller) => assert CallerOk(s.started, s.callers[caller].0, s.callers[caller].1);
    case _ =>
      assert TaskOk(s.started[e.task]);
      SetTaskInv(s, e.task, Step(maxInflight, s, e).started[e.task]);
  }

  // ----- What every run keeps -----

  ghost function Unfinished(s: State): set<nat> {
    set i: nat | i < |s.started| && !s.started[i].done
  }

  lemma {:induction false} SameSize(s: State, ids: set<nat>, urls: set<string>)
    requires Inv(s)
    requires forall i :: i in ids ==> i < |s.started| && s.started[i].url in urls
    requires forall url :: url in urls ==> url in s.tasks && s.tasks[url] in ids
    requires forall i :: i in ids ==> !s.started[i].done
    ensures |ids| == |urls|
    decreases |ids|
  {
    if ids == {} {
      if url :| url in urls { assert s.tasks[url] in ids; }
      assert urls == {};
    } else {
      var i :| i in ids;
      SameSize(s, ids - {i}, urls - {s.started[i].url});
    }
  }

  /** The count taken under the lock, over the map, is the number of all unfinished fetches. */
  lemma CountIsExact(s: State)
    requires Inv(s)
    ensures |Pending(s)| == |Unfinished(s)|
  {
    SameSize(s, Unfinished(s), Pending(s));
  }

  lemma StartedOneMore(s: State, t: State, task: Task)
    requires t.started == s.started + [task]
    ensures |Unfinished(t)| <= |Unfinished(s)| + 1
  {
    assert Unfinished(t) <= Unfinished(s) + {|s.started|};
    SubsetSize(Unfinished(t), Unfinished(s) + {|s.started|});
  }

  lemma CallKeepsLimit(maxInflight: nat, s: State, caller: nat, url: string, hasCallback: bool)
    requires |Pending(s)| == |Unfinished(s)| <= maxInflight
    ensures |Unfinished(GetOrStart(maxInflight, s, caller, url, hasCallback))| <= maxInflight
  {
    var t := GetOrStart(maxInflight, s, caller, url, hasCallback);
    if url in s.tasks || |Pending(s)| >= maxInflight {
      assert Unfinished(t) == Unfinished(s);
    } else {
      StartedOneMore(s, t, Task(url, hasCallback, Fields("", [], None), false, Fetching));
    }
  }

  lemma PublishedKeepsLimit(s: State, t: State)
    requires Published(s.started, t.started) && |t.started| == |s.started|
    ensures |Unfinished(t)| <= |Unfinished(s)|
  {
    assert Unfinished(t) <= Unfinished(s);
    SubsetSize(Unfinished(t), Unfinished(s));
  }

  lemma StartsNothing(maxInflight: nat, s: State, e: Event)
    requires Enabled(s, e) && !e.Call?
    ensures |Step(maxInflight, s, e).started| == |s.started|
  {
  }

  /** Only a call starts a fetch, and it does so only below the limit. */
  lemma StepKeepsLimit(maxInflight: nat, s: State, e: Event)
    requires Inv(s) && Enabled(s, e) && |Unfinished(s)| <= maxInflight
    ensures |Unfinished(Step(maxInflight, s, e))| <= maxInflight
  {
    if e.Call? {
      CountIsExact(s);
      CallKeepsLimit(maxInflight, s, e.caller, e.url, e.hasCallback);
    } else {
      StepInv(maxInflight, s, e);
      StartsNothing(maxInflight, s, e);
      PublishedKeepsLimit(s, Step(maxInflight, s, e));
    }
  }

  lemma {:induction false} SubsetSize(a: set<nat>, b: set<nat>)
    requires a <= b
    ensures |a| <= |b|
  {
    assert b == a + (b - a);
  }

  lemma {:induction false} RunInv(maxInflight: nat, s: State, es: seq<Event>)
    requires Inv(s) && |Unfinished(s)| <= maxInflight && IsRun(maxInflight, s, es)
    ensures var t := After(maxInflight, s, es);
            Inv(t) && |Unfinished(t)| <= maxInflight && Published(s.started, t.started)
    decreases |es|
  {
    if es != [] {
      StepInv(maxInflight, s, es[0]);
      StepKeepsLimit(maxInflight, s, es[0]);
      RunInv(maxInflight, Step(maxInflight, s, es[0]), es[1..]);
    }
  }

  ghost predicate Reachable(maxInflight: nat, s: State) {
    exists es :: IsRun(maxInflight, INITIAL, es) && After(maxInflight, INITIAL, es) == s
  }

  lemma ReachableInv(maxInflight: nat, s: State)
    requires Reachable(maxInflight, s)
    ensures Inv(s) && |Unfinished(s)| <= maxInflight
  {
    var es :| IsRun(maxInflight, INITIAL, es) && After(maxInflight, INITIAL, es) == s;
    assert Unfinished(INITIAL) == {};
    RunInv(maxInflight, INITIAL, es);
  }

  /** At most one unfinished fetch per URL, and at most `maxInflight` in all. */
  lemma SingleFlight(maxInflight: nat, s: State)
    requires Reachable(maxInflight, s)
    ensures forall i, j ::
              0 <= i < j < |s.started| && !s.started[i].done && !s.started[j].done ==>
                s.started[i].url != s.started[j].url
    ensures |Unfinished(s)| <= maxInflight
  {
    ReachableInv(maxInflight, s);
  }

  /** An answered caller has the result its own task published, for the URL it asked for, and
      no later step changes that result. */
  lemma AnswersAreFinal(maxInflight: nat, s: State, es: seq<Event>, caller: nat)
    requires Reachable(maxInflight, s) && IsRun(maxInflight, s, es) && caller in s.callers
    requires s.callers[caller].1.Answered?
    ensures var t := After(maxInflight, s, es);
            var (url, c) := s.callers[caller];
            c.task < |t.started| && t.started[c.task].url == url && t.started[c.task].done &&
            t.started[c.task].fields == c.fields
  {
    ReachableInv(maxInflight, s);
    RunInv(maxInflight, s, es);
    assert CallerOk(s.started, s.callers[caller].0, s.callers[caller].1);
  }

  /** A task leaves the map only by its own removal, and only once it is done; so a second
      removal cannot take away a newer task for the same URL. */
  lemma RemovalIsOwn(maxInflight: nat, s: State, e: Event, url: string)
    requires Reachable(maxInflight, s) && Enabled(s, e) && url in s.tasks
    ensures var t := Step(maxInflight, s, e);
            if url in t.tasks then t.tasks[url] == s.tasks[url]
            else s.started[s.tasks[url]].done && (e.EarlyRemove? || e.Remove?) && e.task == s.tasks[url]
  {
    ReachableInv(maxInflight, s);
    if e.EarlyRemove? || e.Remove? { assert TaskOk(s.started[e.task]); }
  }

  /** Nothing is left behind: when every goroutine has ended, the map is empty. */
  lemma NothingLeftBehind(maxInflight: nat, s: State)
    requires Reachable(maxInflight, s) && forall i :: 0 <= i < |s.started| ==> s.started[i].pc.Ended?
    ensures s.tasks == map[] && Unfinished(s) == {}
  {
    ReachableInv(maxInflight, s);
    forall i | 0 <= i < |s.started|
      ensures s.started[i].done
    {
      assert TaskOk(s.started[i]);
    }
  }

  // ----- What the answers are -----

  /** What the fetch of each task came to, by the events of a run: what it returned, or for a panic
      nothing but the error. */
  function Came(s: State, e: Event, results: map<nat, Fields>): map<nat, Fields> {
    match e
    case FetchReturns(task, mime, data, err) => results[task := Fields(mime, data, err)]
    case FetchPanics(task, message) => results[task := Fields("", [], Some(message))]
    case _ => results
  }

  function Results(maxInflight: nat, s: State, es: seq<Event>, results: map<nat, Fields>): map<nat, Fields>
    requires IsRun(maxInflight, s, es)
    decreases |es|
  {
    if es == [] then results else Results(maxInflight, Step(maxInflight, s, es[0]), es[1..], Came(s, es[0], results))
  }

  /** A task still fetching has no result and empty fields; any other has its fetch's result. */
  ghost predicate Known(started: seq<Task>, results: map<nat, Fields>) {
    forall i :: 0 <= i < |started| ==>
      if started[i].pc.Fetching? then started[i].fields == Fields("", [], None)
      else i in results && started[i].fields == results[i]
  }

  lemma SetTaskKnown(s: State, task: nat, t: Task, results: map<nat, Fields>)
    requires Known(s.started, results) && task < |s.started| && !t.pc.Fetching?
    ensures Known(SetTask(s, task, t).started, results[task := t.fields])
    ensures task in results && results[task] == t.fields ==> Known(SetTask(s, task, t).started, results)
  {
  }

  lemma TaskStepKnown(maxInflight: nat, s: State, e: Event, results: map<nat, Fields>)
    requires Known(s.started, results) && Enabled(s, e) && !e.Call? && !e.Wake? && !e.TimeOut?
    ensures Known(Step(maxInflight, s, e).started, Came(s, e, results))
  {
    var t := Step(maxInflight, s, e).started[e.task];
    assert Step(maxInflight, s, e).started == s.started[e.task := t];
    SetTaskKnown(s, e.task, t, results);
  }

  lemma CallKnown(maxInflight: nat, s: State, e: Event, results: map<nat, Fields>)
    requires Known(s.started, results) && Enabled(s, e) && (e.Call? || e.Wake? || e.TimeOut?)
    ensures Known(Step(maxInflight, s, e).started, Came(s, e, results))
  {
  }

  lemma {:induction false} RunKnown(maxInflight: nat, s: State, es: seq<Event>, results: map<nat, Fields>)
    requires Known(s.started, results) && IsRun(maxInflight, s, es)
    ensures Known(After(maxInflight, s, es).started, Results(maxInflight, s, es, results))
    decreases |es|
  {
    if es != [] {
      if es[0].Call? || es[0].Wake? || es[0].TimeOut? {
        CallKnown(maxInflight, s, es[0], results);
      } else {
        TaskStepKnown(maxInflight, s, es[0], results);
      }
      RunKnown(maxInflight, Step(maxInflight, s, es[0]), es[1..], Came(s, es[0], results));
    }
  }

  /** In every run an answered caller has exactly what the fetch of its own task returned, for the
      URL it asked for: type, bytes and error, or the error of a panic and nothing else. */
  lemma AnswersAreResults(maxInflight: nat, es: seq<Event>, caller: nat)
    requires IsRun(maxInflight, INITIAL, es)
    ensures var s, results := After(maxInflight, INITIAL, es), Results(maxInflight, INITIAL, es, map[]);
            caller in s.callers && s.callers[caller].1.Answered? ==>
              var (url, c) := s.callers[caller];
              && c.task < |s.started| && s.started[c.task].url == url
              && c.task in results && c.fields == results[c.task]
  {
    var s := After(maxInflight, INITIAL, es);
    RunKnown(maxInflight, INITIAL, es, map[]);
    assert Reachable(maxInflight, s);
    ReachableInv(maxInflight, s);
    if caller in s.callers && s.callers[caller].1.Answered? {
      assert CallerOk(s.started, s.callers[caller].0, s.callers[caller].1);
      assert TaskOk(s.started[s.callers[caller].1.task]);
    }
  }

  /** A caller joins the unfinished fetch of its URL if there is one, and is refused exactly if there
      is no task of its URL in the map and as many fetches as allowed are unfinished; otherwise a
      new fetch starts and it waits for that. */
  lemma CallsJoinOrStart(maxInflight: nat, s: State, caller: nat, url: string, hasCallback: bool)
    requires Reachable(maxInflight, s) && caller !in s.callers
    ensures var t := Step(maxInflight, s, Call(caller, url, hasCallback));
            && caller in t.callers && t.callers[caller].0 == url
            && (forall i :: 0 <= i < |s.started| && s.started[i].url == url && !s.started[i].done ==>
                  t.callers[caller].1 == Waiting(i) && t.started == s.started)
            && (t.callers[caller].1.Refused? <==> url !in s.tasks && |Unfinished(s)| >= maxInflight)
            && (url !in s.tasks && |Unfinished(s)| < maxInflight ==>
                  && t.callers[caller].1 == Waiting(|s.started|) && |t.started| == |s.started| + 1
                  && t.started[|s.started|].url == url && t.started[|s.started|].pc.Fetching?)
  {
    ReachableInv(maxInflight, s);
    CountIsExact(s);
  }

  // ----- Progress -----

  /** Steps a goroutine has still to take, at most. */
  function StepsLeft(pc: Pc): nat {
    match pc
    case Fetching => 6
    case Stored => 5
    case AtEarlyRemove => 4
    case InCallback => 3
    case AtMarkDone => 2
    case AtRemove => 1
    case Ended => 0
  }

  function Work(started: seq<Task>): nat {
    if started == [] then 0 else StepsLeft(started[0].pc) + Work(started[1..])
  }

  function Waiters(s: State): set<nat> {
    set k | k in s.callers && s.callers[k].1.Waiting?
  }

  /** The steps left to take if nobody calls any more. */
  function Left(s: State): nat {
    Work(s.started) + |Waiters(s)|
  }

  lemma {:induction false} WorkOfSet(started: seq<Task>, i: nat, t: Task)
    requires i < |started|
    ensures Work(started[i := t]) == Work(started) - StepsLeft(started[i].pc) + StepsLeft(t.pc)
    decreases |started|
  {
    if i == 0 {
      assert started[0 := t][1..] == started[1..];
    } else {
      assert started[i := t][1..] == started[1..][i - 1 := t];
      WorkOfSet(started[1..], i - 1, t);
    }
  }

  lemma TaskStepShortens(maxInflight: nat, s: State, e: Event)
    requires Enabled(s, e) && !e.Call? && !e.Wake? && !e.TimeOut?
    ensures Left(Step(maxInflight, s, e)) < Left(s)
  {
    var t := Step(maxInflight, s, e);
    assert t.started == s.started[e.task := t.started[e.task]] && t.callers == s.callers;
    assert Waiters(t) == Waiters(s);
    WorkOfSet(s.started, e.task, t.started[e.task]);
  }

  lemma CallerStepShortens(maxInflight: nat, s: State, e: Event)
    requires Enabled(s, e) && (e.Wake? || e.TimeOut?)
    ensures Left(Step(maxInflight, s, e)) < Left(s)
  {
    var t := Step(maxInflight, s, e);
    assert t.started == s.started;
    assert Waiters(t) == Waiters(s) - {e.caller};
  }

  predicate NoCalls(es: seq<Event>) {
    forall i :: 0 <= i < |es| ==> !es[i].Call?
  }

  /** Once nobody calls any more every run ends: the steps left are bounded from the start. */
  lemma {:induction false} RunsEnd(maxInflight: nat, s: State, es: seq<Event>)
    requires IsRun(maxInflight, s, es) && NoCalls(es)
    ensures |es| + Left(After(maxInflight, s, es)) <= Left(s)
    decreases |es|
  {
    if es != [] {
      if es[0].Wake? || es[0].TimeOut? {
        CallerStepShortens(maxInflight, s, es[0]);
      } else {
        TaskStepShortens(maxInflight, s, es[0]);
      }
      RunsEnd(maxInflight, Step(maxInflight, s, es[0]), es[1..]);
    }
  }

  /** What a goroutine that has not ended can do next. */
  function NextOf(task: nat, pc: Pc): Event
    requires !pc.Ended?
  {
    match pc
    case Fetching => FetchReturns(task, "", [], None)
    case Stored => Publish(task)
    case AtEarlyRemove => EarlyRemove(task)
    case InCallback => CallbackReturns(task)
    case AtMarkDone => MarkDone(task)
    case AtRemove => Remove(task)
  }

  /** And where it ends, or no goroutine and no waiter can take a step, nobody waits in vain:
      every caller has its answer, its timeout or its refusal, and nothing is left behind. */
  lemma NobodyWaitsInVain(maxInflight: nat, s: State)
    requires Reachable(maxInflight, s) && forall e :: Enabled(s, e) ==> e.Call? || e.TimeOut?
    ensures forall k :: k in s.callers ==> !s.callers[k].1.Waiting?
    ensures s.tasks == map[]
  {
    ReachableInv(maxInflight, s);
    forall i | 0 <= i < |s.started|
      ensures s.started[i].pc.Ended?
    {
      assert s.started[i].pc.Ended? || Enabled(s, NextOf(i, s.started[i].pc));
    }
    NothingLeftBehind(maxInflight, s);
    forall k | k in s.callers
      ensures !s.callers[k].1.Waiting?
    {
      assert CallerOk(s.started, s.callers[k].0, s.callers[k].1);
      if s.callers[k].1.Waiting? {
        assert TaskOk(s.started[s.callers[k].1.task]);
        assert Enabled(s, Wake(k));
      }
    }
  }
}
