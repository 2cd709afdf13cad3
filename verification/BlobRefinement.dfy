/** The lock-free budget and the runtime that uses it in whole calls say the same: every run of
    the atomic steps is, for the counter, a sequence of whole reservations and releases; and a
    call nobody interrupts has the result of the whole one. */
module BlobRefinement {
  import opened Tally
  import opened BlobBudget
  import opened BlobRuntime

  /** A whole reservation of `size` bytes for blob `id`. */
  ghost predicate Reserves(l: Limits, s: State, t: State, id: nat, size: u64) {
    && FitsInline(l, s.hot, size) && t.hot == s.hot + size
    && id !in Reserved(s) && Reserved(t) == Reserved(s)[id := size]
  }

  /** A whole release of what blob `id` holds. */
  ghost predicate Gives(s: State, t: State, id: nat) {
    id in Reserved(s) && t.hot == s.hot - Reserved(s)[id] && Reserved(t) == Reserved(s) - {id}
  }

  ghost predicate Stutters(s: State, t: State) {
    t.hot == s.hot && Reserved(t) == Reserved(s)
  }

  /** What a thread about to reserve was allowed to ask for: both size limits held at its call. */
  ghost predicate AsksWithin(l: Limits, pc: Pc) {
    pc.Loading? || pc.Comparing? ==> pc.size <= l.inlineMax && pc.size <= l.requestHot
  }

  ghost predicate AsksOk(l: Limits, s: State) {
    forall t <- s.pcs :: AsksWithin(l, s.pcs[t])
  }

  lemma StepAsks(l: Limits, s: State, e: Event)
    requires AsksOk(l, s) && Enabled(s, e)
    ensures AsksOk(l, Step(l, s, e))
  {
  }

  lemma {:induction false} RunAsks(l: Limits, s: State, es: seq<Event>)
    requires AsksOk(l, s) && IsRun(l, s, es)
    ensures AsksOk(l, After(l, s, es))
    decreases |es|
  {
    if es != [] {
      StepAsks(l, s, es[0]);
      RunAsks(l, Step(l, s, es[0]), es[1..]);
    }
  }

  lemma CompareIsWhole(l: Limits, s: State, t: nat)
    requires Inv(l, s) && AsksOk(l, s) && At(s, t).Comparing?
    ensures var pc, next := s.pcs[t], Step(l, s, CompareExchange(t));
            if s.hot == pc.current then Reserves(l, s, next, pc.id, pc.size) else Stutters(s, next)
  {
    assert PcOk(l, s, s.pcs[t]) && AsksWithin(l, s.pcs[t]);
    var pc, next := s.pcs[t], Step(l, s, CompareExchange(t));
    if s.hot == pc.current {
      assert pc.id !in s.released;
      assert Reserved(next) == Reserved(s)[pc.id := pc.size];
    }
  }

  lemma FetchSubIsWhole(l: Limits, s: State, t: nat)
    requires Inv(l, s) && At(s, t).Releasing?
    ensures Gives(s, Step(l, s, FetchSub(t)), s.pcs[t].id)
  {
    NoUnderflow(l, s, t);
    assert PcOk(l, s, s.pcs[t]);
    assert Reserved(Step(l, s, FetchSub(t))) == Reserved(s) - {s.pcs[t].id};
  }

  /** In every run each step is one whole reservation, one whole release, or nothing to the
      counter: a compare-exchange reserves only what fits at that very moment, whatever
      happened since the load. */
  lemma StepIsWhole(l: Limits, es: seq<Event>, e: Event)
    requires IsRun(l, INITIAL, es) && Enabled(After(l, INITIAL, es), e)
    ensures var s := After(l, INITIAL, es);
            var t := Step(l, s, e);
            match e
            case CompareExchange(k) =>
              if s.hot == s.pcs[k].current then Reserves(l, s, t, s.pcs[k].id, s.pcs[k].size) else Stutters(s, t)
            case FetchSub(k) => Gives(s, t, s.pcs[k].id)
            case _ => Stutters(s, t)
  {
    InitialInv(l);
    RunInv(l, INITIAL, es);
    RunAsks(l, INITIAL, es);
    match e
    case CompareExchange(k) => CompareIsWhole(l, After(l, INITIAL, es), k);
    case FetchSub(k) => FetchSubIsWhole(l, After(l, INITIAL, es), k);
    case _ =>
  }

  /** And a thread turned away was turned away rightly: the blob did not fit when it looked. */
  lemma RefusalIsWhole(l: Limits, es: seq<Event>, e: Event)
    requires IsRun(l, INITIAL, es) && Enabled(After(l, INITIAL, es), e)
    ensures var s := After(l, INITIAL, es);
            && (e.Begin? && At(Step(l, s, e), e.t).Idle? ==> !FitsInline(l, s.hot, e.size))
            && (e.Load? ==> (At(Step(l, s, e), e.t).Idle? <==> !FitsInline(l, s.hot, s.pcs[e.t].size)))
  {
    RunAsks(l, INITIAL, es);
    var s := After(l, INITIAL, es);
    if e.Load? { assert AsksWithin(l, s.pcs[e.t]); }
  }

  /** The steps of one call to reserve that nobody interrupts. */
  function ReserveAlone(l: Limits, s: State, t: nat, size: u64): seq<Event> {
    if size > l.inlineMax || size > l.requestHot then [Begin(t, size)]
    else if !FitsInline(l, s.hot, size) then [Begin(t, size), Load(t)]
    else [Begin(t, size), Load(t), CompareExchange(t)]
  }

  /** They are a run, and what it does is what `TryInlineReserve` promises. */
  lemma ReserveAloneIsWhole(l: Limits, s: State, t: nat, size: u64)
    requires At(s, t).Idle?
    ensures var es := ReserveAlone(l, s, t, size);
            && IsRun(l, s, es) && At(After(l, s, es), t).Idle?
            && After(l, s, es).hot == (if FitsInline(l, s.hot, size) then s.hot + size else s.hot)
            && After(l, s, es).stored == if FitsInline(l, s.hot, size) then s.stored[s.nextId := size] else s.stored
  {
    var s1 := Step(l, s, Begin(t, size));
    if size <= l.inlineMax && size <= l.requestHot {
      var s2 := Step(l, s1, Load(t));
      if FitsInline(l, s.hot, size) {
        var s3 := Step(l, s2, CompareExchange(t));
        assert IsRun(l, s3, []) && After(l, s3, []) == s3;
        assert [Load(t), CompareExchange(t)][1..] == [CompareExchange(t)];
        assert IsRun(l, s2, [CompareExchange(t)]) && After(l, s2, [CompareExchange(t)]) == s3;
        RunTwo(l, s1, Load(t), CompareExchange(t), s3);
        RunHead(l, s, Begin(t, size), [Load(t), CompareExchange(t)], s3);
        assert ReserveAlone(l, s, t, size) == [Begin(t, size)] + [Load(t), CompareExchange(t)];
      } else {
        RunTwo(l, s, Begin(t, size), Load(t), s2);
      }
    } else {
      RunHead(l, s, Begin(t, size), [], s1);
      assert [Begin(t, size)] + [] == [Begin(t, size)];
    }
  }

  lemma RunHead(l: Limits, s: State, e: Event, es: seq<Event>, t: State)
    requires Enabled(s, e) && IsRun(l, Step(l, s, e), es) && After(l, Step(l, s, e), es) == t
    ensures IsRun(l, s, [e] + es) && After(l, s, [e] + es) == t
  {
    assert ([e] + es)[1..] == es;
  }

  lemma RunTwo(l: Limits, s: State, e: Event, f: Event, t: State)
    requires Enabled(s, e) && Enabled(Step(l, s, e), f) && Step(l, Step(l, s, e), f) == t
    ensures IsRun(l, s, [e, f]) && After(l, s, [e, f]) == t
  {
    RunHead(l, Step(l, s, e), f, [], t);
    assert [f] + [] == [f];
    RunHead(l, s, e, [f], t);
    assert [e] + [f] == [e, f];
  }

  /** A removal nobody interrupts subtracts the blob's bytes once, and nothing if it was removed. */
  lemma RemoveAloneIsWhole(l: Limits, s: State, t: nat, id: nat)
    requires Inv(l, s) && At(s, t).Idle? && id in s.stored
    ensures var es := if id in s.flags then [Swap(t, id)] else [Swap(t, id), FetchSub(t)];
            && IsRun(l, s, es) && At(After(l, s, es), t).Idle? && id in After(l, s, es).flags
            && After(l, s, es).hot == if id in s.flags then s.hot else s.hot - s.stored[id]
  {
    var s1 := Step(l, s, Swap(t, id));
    if id in s.flags {
      RunHead(l, s, Swap(t, id), [], s1);
      assert [Swap(t, id)] + [] == [Swap(t, id)];
    } else {
      StepInv(l, s, Swap(t, id));
      NoUnderflow(l, s1, t);
      RunTwo(l, s, Swap(t, id), FetchSub(t), Step(l, s1, FetchSub(t)));
    }
  }
}
