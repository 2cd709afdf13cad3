/** The in-memory budget shared by all requests: threads reserve with a load and a compare-exchange
    that is retried, and give back with a swap of the blob's flag followed by a `fetch_sub`. A state
    machine over those atomic steps. */
module BlobBudget {
  import opened Tally

  datatype Limits = Limits(inlineMax: u64, requestHot: u64, globalHot: u64)

  /** Where a thread stands: about to load, about to compare `current` and exchange `next`, or
      past the swap and about to subtract. */
  datatype Pc =
    | Idle
    | Loading(id: nat, size: u64)
    | Comparing(id: nat, size: u64, current: u64, next: u64)
    | Releasing(id: nat, size: u64)

  /** `stored` holds every blob ever kept inline; `flags` the blobs whose removed flag is set;
      `released` those whose bytes were subtracted, and how often. */
  datatype State = State(
    hot: u64,
    nextId: nat,
    pcs: map<nat, Pc>,
    stored: map<nat, u64>,
    flags: set<nat>,
    released: map<nat, nat>
  )

  const INITIAL := State(0, 1, map[], map[], {}, map[])

  function At(s: State, t: nat): Pc {
    if t in s.pcs then s.pcs[t] else Idle
  }

  /** Any number of threads may remove the same blob, through clones of its handle. */
  datatype Event =
    | Begin(t: nat, size: u64)
    | Load(t: nat)
    | CompareExchange(t: nat)
    | Swap(t: nat, id: nat)
    | FetchSub(t: nat)

  predicate Enabled(s: State, e: Event) {
    match e
    case Begin(t, _) => At(s, t).Idle?
    case Load(t) => At(s, t).Loading?
    case CompareExchange(t) => At(s, t).Comparing?
    case Swap(t, id) => At(s, t).Idle? && id in s.stored
    case FetchSub(t) => At(s, t).Releasing?
  }

  function Go(s: State, t: nat, pc: Pc): State {
    s.(pcs := s.pcs[t := pc])
  }

  function Times(s: State, id: nat): nat {
    if id in s.released then s.released[id] else 0
  }

  function Step(l: Limits, s: State, e: Event): State
    requires Enabled(s, e)
  {
    match e
    case Begin(t, size) =>
      var taken := s.(nextId := s.nextId + 1);
      if size > l.inlineMax || size > l.requestHot then taken else Go(taken, t, Loading(s.nextId, size))
    case Load(t) =>
      var pc := s.pcs[t];
      var next: int := s.hot + pc.size;
      if next >= TWO_64 || next > l.globalHot then Go(s, t, Idle) else Go(s, t, Comparing(pc.id, pc.size, s.hot, next))
    case CompareExchange(t) =>
      var pc := s.pcs[t];
      if s.hot == pc.current then Go(s, t, Idle).(hot := pc.next, stored := s.stored[pc.id := pc.size])
      else Go(s, t, Loading(pc.id, pc.size))
    case Swap(t, id) =>
      if id in s.flags then s else Go(s, t, Releasing(id, s.stored[id])).(flags := s.flags + {id})
    case FetchSub(t) =>
      var pc := s.pcs[t];
      var left: int := s.hot - pc.size;
      Go(s, t, Idle).(hot := left % TWO_64, released := s.released[pc.id := Times(s, pc.id) + 1])
  }

  predicate IsRun(l: Limits, s: State, es: seq<Event>)
    decreases |es|
  {
    es == [] || (Enabled(s, es[0]) && IsRun(l, Step(l, s, es[0]), es[1..]))
  }

  function After(l: Limits, s: State, es: seq<Event>): State
    requires IsRun(l, s, es)
    decreases |es|
  {
    if es == [] then s else After(l, Step(l, s, es[0]), es[1..])
  }

  // ----- The invariant -----

  /** The blobs whose bytes are still reserved. */
  function Reserved(s: State): map<nat, nat> {
    map id | id in s.stored && id !in s.released :: s.stored[id]
  }

  ghost predicate PcOk(l: Limits, s: State, pc: Pc) {
    match pc
    case Idle => true
    case Loading(id, size) => id < s.nextId && id !in s.stored
    case Comparing(id, size, current, next) => id < s.nextId && id !in s.stored && next == current + size <= l.globalHot
    case Releasing(id, size) => id in s.flags && id !in s.released && id in s.stored && s.stored[id] == size
  }

  ghost predicate BlobsOk(s: State) {
    && (forall id <- s.stored :: id < s.nextId)
    && s.released.Keys <= s.flags <= s.stored.Keys
    && (forall id <- s.released :: s.released[id] == 1)
  }

  ghost predicate PcsOk(l: Limits, s: State) {
    forall t <- s.pcs :: PcOk(l, s, s.pcs[t])
  }

  predicate SameBlob(a: Pc, b: Pc) {
    !a.Idle? && !b.Idle? && a.id == b.id
  }

  /** No two threads work on the same blob. */
  ghost predicate Apart(pcs: map<nat, Pc>) {
    forall t, u :: t in pcs && u in pcs && t != u ==> !SameBlob(pcs[t], pcs[u])
  }

  ghost predicate Releases(pcs: map<nat, Pc>, id: nat) {
    exists t :: t in pcs && pcs[t].Releasing? && pcs[t].id == id
  }

  /** A blob that is flagged and not yet released is being released. */
  ghost predicate Owned(pcs: map<nat, Pc>, flags: set<nat>, released: map<nat, nat>) {
    forall id <- flags :: id !in released ==> Releases(pcs, id)
  }

  ghost predicate Inv(l: Limits, s: State) {
    && s.hot == Sum(Reserved(s)) <= l.globalHot
    && BlobsOk(s) && PcsOk(l, s) && Apart(s.pcs) && Owned(s.pcs, s.flags, s.released)
  }

  lemma InitialInv(l: Limits)
    ensures Inv(l, INITIAL)
  {
    assert Reserved(INITIAL) == map[];
  }

  lemma StillReleases(pcs: map<nat, Pc>, t: nat, pc: Pc, id: nat)
    requires Releases(pcs, id) && (t !in pcs || !pcs[t].Releasing? || pcs[t].id != id)
    ensures Releases(pcs[t := pc], id)
  {
    var u :| u in pcs && pcs[u].Releasing? && pcs[u].id == id;
    assert u in pcs[t := pc] && pcs[t := pc][u] == pcs[u];
  }

  lemma StillOwned(pcs: map<nat, Pc>, t: nat, pc: Pc, flags: set<nat>, released: map<nat, nat>)
    requires Owned(pcs, flags, released) && (t !in pcs || !pcs[t].Releasing?)
    ensures Owned(pcs[t := pc], flags, released)
  {
    forall id <- flags | id !in released
      ensures Releases(pcs[t := pc], id)
    {
      StillReleases(pcs, t, pc, id);
    }
  }

  lemma StillApart(pcs: map<nat, Pc>, t: nat, pc: Pc)
    requires Apart(pcs) && forall u <- pcs :: u != t ==> !SameBlob(pcs[u], pc)
    ensures Apart(pcs[t := pc])
  {
  }

  lemma BeginInv(l: Limits, s: State, t: nat, size: u64)
    requires Inv(l, s) && At(s, t).Idle?
    ensures Inv(l, Step(l, s, Begin(t, size)))
  {
    var taken := s.(nextId := s.nextId + 1);
    assert Reserved(taken) == Reserved(s);
    var pc := Loading(s.nextId, size);
    assert forall u <- s.pcs :: PcOk(l, s, s.pcs[u]) ==> !SameBlob(s.pcs[u], pc) && PcOk(l, taken, s.pcs[u]);
    assert Reserved(Go(taken, t, pc)) == Reserved(s);
    StillOwned(s.pcs, t, pc, s.flags, s.released);
    StillApart(s.pcs, t, pc);
  }

  /** A step of a thread that reserves, and does not complete the reservation. */
  lemma RetryInv(l: Limits, s: State, t: nat, pc: Pc)
    requires Inv(l, s) && t in s.pcs && (s.pcs[t].Loading? || s.pcs[t].Comparing?)
    requires PcOk(l, s, pc) && (pc.Idle? || ((pc.Loading? || pc.Comparing?) && pc.id == s.pcs[t].id))
    ensures Inv(l, Go(s, t, pc))
  {
    assert Reserved(Go(s, t, pc)) == Reserved(s);
    StillOwned(s.pcs, t, pc, s.flags, s.released);
    StillApart(s.pcs, t, pc);
  }

  lemma ReserveInv(l: Limits, s: State, t: nat)
    requires Inv(l, s) && At(s, t).Comparing? && s.hot == s.pcs[t].current
    ensures Inv(l, Step(l, s, CompareExchange(t)))
  {
    var pc := s.pcs[t];
    var s' := Step(l, s, CompareExchange(t));
    assert Reserved(s') == Reserved(s)[pc.id := pc.size];
    SumWith(Reserved(s), pc.id, pc.size);
    StillOwned(s.pcs, t, Idle, s.flags, s.released);
    StillApart(s.pcs, t, Idle);
    OthersKeepPc(l, s, t, s');
  }

  /** What a thread relies on survives the steps of threads at work on other blobs. */
  lemma OthersKeepPc(l: Limits, s: State, t: nat, s': State)
    requires PcsOk(l, s) && Apart(s.pcs) && t in s.pcs && !s.pcs[t].Idle? && s'.pcs == s.pcs[t := Idle]
    requires s'.nextId == s.nextId && s'.flags == s.flags
    requires forall id ::
               id != s.pcs[t].id ==> (id in s'.stored <==> id in s.stored) && (id in s'.released <==> id in s.released)
    requires forall id :: id != s.pcs[t].id && id in s.stored ==> s'.stored[id] == s.stored[id]
    ensures PcsOk(l, s')
  {
    forall u <- s'.pcs
      ensures PcOk(l, s', s'.pcs[u])
    {
      assert u != t ==> PcOk(l, s, s.pcs[u]) && !SameBlob(s.pcs[t], s.pcs[u]);
    }
  }

  lemma SwapInv(l: Limits, s: State, t: nat, id: nat)
    requires Inv(l, s) && At(s, t).Idle? && id in s.stored
    ensures Inv(l, Step(l, s, Swap(t, id)))
  {
    if id !in s.flags {
      var s' := Step(l, s, Swap(t, id));
      assert Reserved(s') == Reserved(s);
      assert forall u <- s.pcs :: PcOk(l, s, s.pcs[u]) ==> !SameBlob(s.pcs[u], s'.pcs[t]);
      StillApart(s.pcs, t, s'.pcs[t]);
      StillOwned(s.pcs, t, s'.pcs[t], s.flags, s.released);
      assert t in s'.pcs && s'.pcs[t].Releasing?;
      assert Releases(s'.pcs, id);
    }
  }

  /** What a release subtracts is still in the counter. */
  lemma NoUnderflow(l: Limits, s: State, t: nat)
    requires Inv(l, s) && At(s, t).Releasing?
    ensures s.pcs[t].size <= s.hot
    ensures Step(l, s, FetchSub(t)).hot == s.hot - s.pcs[t].size
  {
    assert PcOk(l, s, s.pcs[t]);
    SumWithout(Reserved(s), s.pcs[t].id);
  }

  lemma ReleaseInv(l: Limits, s: State, t: nat)
    requires Inv(l, s) && At(s, t).Releasing?
    ensures Inv(l, Step(l, s, FetchSub(t)))
  {
    var pc := s.pcs[t];
    var s' := Step(l, s, FetchSub(t));
    NoUnderflow(l, s, t);
    assert PcOk(l, s, pc);
    SumWithout(Reserved(s), pc.id);
    assert Reserved(s') == Reserved(s) - {pc.id};
    StillApart(s.pcs, t, Idle);
    OthersKeepPc(l, s, t, s');
    forall id <- s'.flags | id !in s'.released
      ensures Releases(s'.pcs, id)
    {
      StillReleases(s.pcs, t, Idle, id);
    }
  }

  lemma StepInv(l: Limits, s: State, e: Event)
    requires Inv(l, s) && Enabled(s, e)
    ensures Inv(l, Step(l, s, e))
  {
    match e {
      case Begin(t, size) => { BeginInv(l, s, t, size); }
      case Load(t) => { RetryInv(l, s, t, Step(l, s, e).pcs[t]); }
      case CompareExchange(t) => {
        if s.hot == s.pcs[t].current {
          ReserveInv(l, s, t);
        } else {
          RetryInv(l, s, t, Step(l, s, e).pcs[t]);
        }
      }
      case Swap(t, id) => { SwapInv(l, s, t, id); }
      case FetchSub(t) => { ReleaseInv(l, s, t); }
    }
  }

  lemma {:induction false} RunInv(l: Limits, s: State, es: seq<Event>)
    requires Inv(l, s) && IsRun(l, s, es)
    ensures Inv(l, After(l, s, es))
    decreases |es|
  {
    if es != [] {
      StepInv(l, s, es[0]);
      RunInv(l, Step(l, s, es[0]), es[1..]);
    }
  }

  // ----- What holds in every run -----

  /** In every state of every run the counter is the total of the blobs not yet released, it is
      within the budget, no blob is released twice, and a release about to happen cannot underflow. */
  lemma CounterIsExact(l: Limits, es: seq<Event>)
    requires IsRun(l, INITIAL, es)
    ensures var s := After(l, INITIAL, es);
            && s.hot == Sum(Reserved(s)) <= l.globalHot
            && (forall id <- s.released :: s.released[id] == 1)
            && (forall t :: At(s, t).Releasing? ==> s.pcs[t].size <= s.hot)
  {
    InitialInv(l);
    RunInv(l, INITIAL, es);
    var s := After(l, INITIAL, es);
    forall t | At(s, t).Releasing?
      ensures s.pcs[t].size <= s.hot
    {
      NoUnderflow(l, s, t);
    }
  }

  /** The blobs that were never removed. */
  function Live(s: State): map<nat, nat> {
    map id | id in s.stored && id !in s.flags :: s.stored[id]
  }

  /** When no thread is inside a removal, exactly those are counted. */
  lemma QuietCounter(l: Limits, es: seq<Event>)
    requires IsRun(l, INITIAL, es) && forall t <- After(l, INITIAL, es).pcs :: !After(l, INITIAL, es).pcs[t].Releasing?
    ensures After(l, INITIAL, es).hot == Sum(Live(After(l, INITIAL, es)))
  {
    InitialInv(l);
    RunInv(l, INITIAL, es);
    var s := After(l, INITIAL, es);
    forall id <- s.flags
      ensures id in s.released
    {
      assert !Releases(s.pcs, id);
    }
    assert Reserved(s) == Live(s);
  }
}
