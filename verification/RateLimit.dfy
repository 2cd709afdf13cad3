/** The token bucket rate limiter. Times and the refill interval are whole nanoseconds;
    tokens are exact reals where the source uses float64. */
module RateLimit {
  import opened Wrappers

  const SECOND: int := 1_000_000_000
  const DEFAULT_REFILL: int := 3 * SECOND

  datatype Bucket = Bucket(tokens: real, updatedAt: int)

  datatype Config = Config(refillInterval: int, burst: int) {
    predicate Valid() { refillInterval > 0 && burst >= 1 }
  }

  function Refill(c: Config, elapsed: int): real
    requires c.Valid()
  {
    elapsed as real / c.refillInterval as real
  }

  function Min(a: real, b: real): real {
    if a <= b then a else b
  }

  /** The bucket as a call at `now` finds it, or none before the key's first call. */
  function Refilled(c: Config, b: Bucket, now: int): Bucket
    requires c.Valid()
  {
    if now - b.updatedAt > 0
    then Bucket(Min(c.burst as real, b.tokens + Refill(c, now - b.updatedAt)), now)
    else b
  }

  /** One call: the bucket it leaves, and whether it is allowed. */
  function Take(c: Config, b: Option<Bucket>, now: int): (Bucket, bool)
    requires c.Valid()
  {
    if b.None? then (Bucket((c.burst - 1) as real, now), true)
    else
      var r := Refilled(c, b.value, now);
      if r.tokens >= 1.0 then (r.(tokens := r.tokens - 1.0), true) else (r, false)
  }

  function Ceil(x: real): int {
    -((-x).Floor)
  }

  function RetryAfter(c: Config, b: Bucket): int {
    var wait := Ceil((1.0 - b.tokens) * c.refillInterval as real / SECOND as real) * SECOND;
    if wait <= 0 then SECOND else wait
  }

  function Lookup(buckets: Buckets, key: string): Option<Bucket> {
    if key in buckets then Some(buckets[key]) else None
  }

  datatype Call = Call(key: string, now: int)

  type Buckets = map<string, Bucket>

  /** One call on the whole limiter: the buckets it leaves, and whether it is allowed. */
  function Serve(c: Config, buckets: Buckets, call: Call): (Buckets, bool)
    requires c.Valid()
  {
    var (b, ok) := Take(c, Lookup(buckets, call.key), call.now);
    (buckets[call.key := b], ok)
  }

  class Limiter {
    const config: Config
    var buckets: Buckets

    ghost predicate Valid()
      reads this
    {
      config.Valid() && BucketsOk(config, buckets)
    }

    constructor (refillInterval: int, burst: int)
      ensures Valid() && buckets == map[]
      ensures config.burst == (if burst <= 0 then 1 else burst)
      ensures config.refillInterval == (if refillInterval <= 0 then 3_000_000_000 else refillInterval)
    {
      config := Config(if refillInterval <= 0 then DEFAULT_REFILL else refillInterval, if burst <= 0 then 1 else burst);
      buckets := map[];
    }

    /** One call, as `Serve` says, with a hint for a refused caller. */
    method Allow(key: string, now: int) returns (allowed: bool, retryAfter: int)
      requires Valid()
      modifies this
      ensures Valid()
      ensures (buckets, allowed) == Serve(config, old(buckets), Call(key, now))
      ensures retryAfter == if allowed then 0 else RetryAfter(config, buckets[key])
    {
      if key !in buckets {
        buckets := buckets[key := Bucket((config.burst - 1) as real, now)];
        return true, 0;
      }
      TakeOk(config, Some(buckets[key]), now);
      var tokens, updatedAt := buckets[key].tokens, buckets[key].updatedAt;
      var elapsed := now - updatedAt;
      if elapsed > 0 {
        tokens := Min(config.burst as real, tokens + Refill(config, elapsed));
        updatedAt := now;
      }
      allowed := tokens >= 1.0;
      if allowed {
        tokens := tokens - 1.0;
        retryAfter := 0;
      } else {
        retryAfter := RetryAfter(config, Bucket(tokens, updatedAt));
      }
      buckets := buckets[key := Bucket(tokens, updatedAt)];
    }
  }

  predicate BucketOk(c: Config, b: Bucket) {
    0.0 <= b.tokens <= c.burst as real
  }

  predicate BucketsOk(c: Config, buckets: Buckets) {
    forall k :: k in buckets ==> BucketOk(c, buckets[k])
  }

  lemma RefillPositive(c: Config, elapsed: int)
    requires c.Valid()
    ensures elapsed > 0 ==> Refill(c, elapsed) > 0.0
  {
  }

  // ----- Runs -----

  /** A run of the limiter: the buckets after the calls, and the answers they got. */
  function Run(c: Config, buckets: Buckets, calls: seq<Call>): (r: (Buckets, seq<bool>))
    requires c.Valid()
    ensures |r.1| == |calls|
    decreases |calls|
  {
    if calls == [] then (buckets, [])
    else
      var (next, ok) := Serve(c, buckets, calls[0]);
      var (last, answers) := Run(c, next, calls[1..]);
      (last, [ok] + answers)
  }

  /** How many of the calls on `key` got the answer yes. */
  function Granted(key: string, calls: seq<Call>, answers: seq<bool>): nat
    requires |calls| == |answers|
    decreases |calls|
  {
    if calls == [] then 0
    else (if calls[0].key == key && answers[0] then 1 else 0) + Granted(key, calls[1..], answers[1..])
  }

  /** The answers to the calls on `key`, in order. */
  function AnswersTo(key: string, calls: seq<Call>, answers: seq<bool>): seq<bool>
    requires |calls| == |answers|
    decreases |calls|
  {
    if calls == [] then []
    else (if calls[0].key == key then [answers[0]] else []) + AnswersTo(key, calls[1..], answers[1..])
  }

  // ----- One key's share of a run -----

  /** The bucket `b` of `key` after its own calls among `calls`. */
  function After(c: Config, b: Option<Bucket>, key: string, calls: seq<Call>): Option<Bucket>
    requires c.Valid()
    decreases |calls|
  {
    if calls == [] then b
    else After(c, if calls[0].key == key then Some(Take(c, b, calls[0].now).0) else b, key, calls[1..])
  }

  /** How many of its own calls among `calls` are allowed. */
  function Allowed(c: Config, b: Option<Bucket>, key: string, calls: seq<Call>): nat
    requires c.Valid()
    decreases |calls|
  {
    if calls == [] then 0
    else if calls[0].key != key then Allowed(c, b, key, calls[1..])
    else
      var (after, ok) := Take(c, b, calls[0].now);
      (if ok then 1 else 0) + Allowed(c, Some(after), key, calls[1..])
  }

  /** In a run over the shared buckets each key fares as if it were alone. */
  lemma {:induction false} RunSplitsByKey(c: Config, buckets: Buckets, key: string, calls: seq<Call>)
    requires c.Valid()
    ensures var (last, answers) := Run(c, buckets, calls);
            && Lookup(last, key) == After(c, Lookup(buckets, key), key, calls)
            && Granted(key, calls, answers) == Allowed(c, Lookup(buckets, key), key, calls)
    decreases |calls|
  {
    if calls != [] {
      var (next, ok) := Serve(c, buckets, calls[0]);
      var answers := Run(c, next, calls[1..]).1;
      RunSplitsByKey(c, next, key, calls[1..]);
      assert ([ok] + answers)[1..] == answers;
    }
  }

  predicate Within(calls: seq<Call>, first: int, last: int) {
    forall i :: 0 <= i < |calls| ==> first <= calls[i].now <= last
  }

  lemma RefillAdds(c: Config, a: int, b: int)
    requires c.Valid()
    ensures Refill(c, a) + Refill(c, b) == Refill(c, a + b)
    ensures a <= b ==> Refill(c, a) <= Refill(c, b)
    ensures a >= 0 ==> Refill(c, a) >= 0.0
  {
    var r := c.refillInterval as real;
    assert a as real / r + b as real / r == (a as real + b as real) / r;
    assert a as real + b as real == (a + b) as real;
    if a <= b {
      assert b as real / r - a as real / r == (b - a) as real / r;
    }
  }

  /** Tokens never exceed the burst and never go below zero. */
  lemma TakeOk(c: Config, b: Option<Bucket>, now: int)
    requires c.Valid() && (b.Some? ==> BucketOk(c, b.value))
    ensures BucketOk(c, Take(c, b, now).0)
  {
    if b.Some? { RefillPositive(c, now - b.value.updatedAt); }
  }

  /** What one call takes and leaves is at most what was there plus what time brought in. */
  lemma TakeConserves(c: Config, b: Bucket, now: int)
    requires c.Valid() && BucketOk(c, b)
    ensures var (after, ok) := Take(c, Some(b), now);
            && (if ok then 1.0 else 0.0) + after.tokens <= b.tokens + Refill(c, after.updatedAt - b.updatedAt)
            && (after.updatedAt == b.updatedAt || (after.updatedAt == now && now > b.updatedAt))
            && (if ok then 1.0 else 0.0) + after.tokens <= c.burst as real
  {
    RefillPositive(c, now - b.updatedAt);
    RefillAdds(c, 0, 0);
  }

  /** From a known bucket, later calls get at most its tokens plus the refill up to the latest call. */
  lemma {:induction false} AllowedFrom(c: Config, b: Bucket, key: string, calls: seq<Call>, last: int)
    requires c.Valid() && BucketOk(c, b) && (forall i :: 0 <= i < |calls| ==> calls[i].now <= last)
    ensures Allowed(c, Some(b), key, calls) as real
              <= b.tokens + Refill(c, if last > b.updatedAt then last - b.updatedAt else 0)
    decreases |calls|
  {
    if calls == [] {
      RefillAdds(c, if last > b.updatedAt then last - b.updatedAt else 0, 0);
    } else if calls[0].key != key {
      AllowedFrom(c, b, key, calls[1..], last);
    } else {
      var (after, ok) := Take(c, Some(b), calls[0].now);
      TakeConserves(c, b, calls[0].now);
      TakeOk(c, Some(b), calls[0].now);
      AllowedFrom(c, after, key, calls[1..], last);
      RefillAdds(c, after.updatedAt - b.updatedAt, if last > after.updatedAt then last - after.updatedAt else 0);
    }
  }

  /** In any window of any run, whatever happened before it and in whatever order its calls
      read the clock, a key gets at most `burst` plus one call per refill interval. */
  lemma {:induction false} WindowBound(c: Config, before: Option<Bucket>, key: string, calls: seq<Call>, first: int,
                                       last: int)
    requires c.Valid() && (before.Some? ==> BucketOk(c, before.value)) && Within(calls, first, last) && first <= last
    ensures Allowed(c, before, key, calls) as real <= c.burst as real + Refill(c, last - first)
    decreases |calls|
  {
    RefillAdds(c, last - first, 0);
    if calls != [] {
      var now := calls[0].now;
      if calls[0].key != key {
        WindowBound(c, before, key, calls[1..], first, last);
      } else {
        var (after, ok) := Take(c, before, now);
        TakeOk(c, before, now);
        if before.Some? { TakeConserves(c, before.value, now); }
        AllowedFrom(c, after, key, calls[1..], last);
        RefillAdds(c, if last > after.updatedAt then last - after.updatedAt else 0, last - first);
      }
    }
  }

  /** Every bucket of every run stays in range. */
  lemma {:induction false} RunOk(c: Config, buckets: Buckets, calls: seq<Call>)
    requires c.Valid() && BucketsOk(c, buckets)
    ensures BucketsOk(c, Run(c, buckets, calls).0)
    decreases |calls|
  {
    if calls != [] {
      TakeOk(c, Lookup(buckets, calls[0].key), calls[0].now);
      RunOk(c, Serve(c, buckets, calls[0]).0, calls[1..]);
    }
  }

  lemma {:induction false} RunJoins(c: Config, buckets: Buckets, head: seq<Call>, tail: seq<Call>)
    requires c.Valid()
    ensures var (mid, first) := Run(c, buckets, head);
            var (last, second) := Run(c, mid, tail);
            Run(c, buckets, head + tail) == (last, first + second)
    decreases |head|
  {
    if head == [] {
      assert head + tail == tail;
      var (last, second) := Run(c, buckets, tail);
      assert [] + second == second;
    } else {
      var (next, ok) := Serve(c, buckets, head[0]);
      assert (head + tail)[1..] == head[1..] + tail;
      RunJoins(c, next, head[1..], tail);
      var first := Run(c, next, head[1..]).1;
      var second := Run(c, Run(c, next, head[1..]).0, tail).1;
      assert [ok] + (first + second) == ([ok] + first) + second;
    }
  }

  /** The bound for the limiter: after any run of a fresh one, the calls of any window, on all
      keys mixed, get at most `burst` plus one per refill interval for each key. */
  lemma RunWindowBound(c: Config, key: string, before: seq<Call>, window: seq<Call>, first: int, last: int)
    requires c.Valid() && Within(window, first, last) && first <= last
    ensures var answers := Run(c, map[], before + window).1;
            Granted(key, window, answers[|before|..]) as real
              <= c.burst as real + (last - first) as real / c.refillInterval as real
  {
    var (mid, earlier) := Run(c, map[], before);
    var answers := Run(c, mid, window).1;
    RunJoins(c, map[], before, window);
    assert (earlier + answers)[|before|..] == answers;
    RunOk(c, map[], before);
    RunSplitsByKey(c, mid, key, window);
    WindowBound(c, Lookup(mid, key), key, window, first, last);
  }

  /** The calls on `key`. */
  function Own(key: string, calls: seq<Call>): seq<Call> {
    if calls == [] then [] else (if calls[0].key == key then [calls[0]] else []) + Own(key, calls[1..])
  }

  /** Other keys are unaffected: with all their calls taken out of a run, a key ends with the
      same bucket and gets the same answers. */
  lemma {:induction false} KeysAreIndependent(c: Config, buckets: Buckets, other: Buckets, key: string,
                                              calls: seq<Call>)
    requires c.Valid() && Lookup(buckets, key) == Lookup(other, key)
    ensures var (last, answers) := Run(c, buckets, calls);
            var (alone, own) := Run(c, other, Own(key, calls));
            Lookup(last, key) == Lookup(alone, key) && AnswersTo(key, calls, answers) == own
    decreases |calls|
  {
    if calls != [] {
      var (next, ok) := Serve(c, buckets, calls[0]);
      var answers := Run(c, next, calls[1..]).1;
      assert ([ok] + answers)[1..] == answers;
      if calls[0].key == key {
        var own := Own(key, calls);
        assert own[0] == calls[0] && own[1..] == Own(key, calls[1..]);
        KeysAreIndependent(c, next, Serve(c, other, calls[0]).0, key, calls[1..]);
      } else {
        assert Own(key, calls) == Own(key, calls[1..]);
        KeysAreIndependent(c, next, other, key, calls[1..]);
      }
    }
  }

  // ----- Exactly when a call is refused -----

  predicate ForwardClock(calls: seq<Call>) {
    forall i, j :: 0 <= i < j < |calls| ==> calls[i].now <= calls[j].now
  }

  /** The calls of `key` from call `j` up to, and without, call `i` that were granted. */
  function GrantedBetween(key: string, calls: seq<Call>, answers: seq<bool>, j: nat, i: nat): nat
    requires |calls| == |answers| && j <= i <= |calls|
  {
    Granted(key, calls[j..i], answers[j..i])
  }

  /** One more grant would break the bound for the window from `first` to `now`. */
  predicate Exceeds(c: Config, granted: nat, first: int, now: int)
    requires c.Valid()
  {
    granted as real + 1.0 > c.burst as real + (now - first) as real / c.refillInterval as real
  }

  /** An earlier call of the key from which on the bound leaves no room for call `i`. */
  ghost predicate Spent(c: Config, key: string, calls: seq<Call>, answers: seq<bool>, i: nat)
    requires c.Valid() && |calls| == |answers| && i < |calls|
  {
    exists j :: 0 <= j < i && calls[j].key == key &&
                Exceeds(c, GrantedBetween(key, calls, answers, j, i), calls[j].now, calls[i].now)
  }

  /** The bucket is at most what `granted` calls since `first` have left of a full one. */
  predicate Credit(c: Config, b: Bucket, first: int, granted: nat)
    requires c.Valid()
  {
    first <= b.updatedAt && b.tokens + granted as real >= c.burst as real + Refill(c, b.updatedAt - first)
  }

  /** One own call: either the window goes on, or the bucket was full and a new one begins. */
  lemma CreditKept(c: Config, b: Bucket, now: int, first: int, granted: nat)
    requires c.Valid() && BucketOk(c, b) && b.updatedAt <= now && Credit(c, b, first, granted)
    ensures var (after, ok) := Take(c, Some(b), now);
            && after.updatedAt == now
            && (Credit(c, after, first, granted + if ok then 1 else 0) || (ok && Credit(c, after, now, 1)))
            && (!ok ==> Exceeds(c, granted, first, now))
  {
    RefillAdds(c, b.updatedAt - first, now - b.updatedAt);
    RefillAdds(c, 0, 0);
  }

  lemma NextGranted(key: string, calls: seq<Call>, answers: seq<bool>, i: nat)
    requires |calls| == |answers| && 0 < i <= |calls|
    ensures GrantedBetween(key, calls, answers, 0, i)
         == (if calls[0].key == key && answers[0] then 1 else 0) +
            GrantedBetween(key, calls[1..], answers[1..], 0, i - 1)
  {
    assert calls[0..i][1..] == calls[1..][0..i - 1] && answers[0..i][1..] == answers[1..][0..i - 1];
  }

  lemma SpentLater(c: Config, key: string, calls: seq<Call>, answers: seq<bool>, i: nat)
    requires c.Valid() && |calls| == |answers| && 0 < i < |calls| && Spent(c, key, calls[1..], answers[1..], i - 1)
    ensures Spent(c, key, calls, answers, i)
  {
    var j :| 0 <= j < i - 1 && calls[1..][j].key == key &&
             Exceeds(c, GrantedBetween(key, calls[1..], answers[1..], j, i - 1), calls[1..][j].now,
                     calls[1..][i - 1].now);
    assert calls[1..][j..i - 1] == calls[j + 1..i] && answers[1..][j..i - 1] == answers[j + 1..i];
    assert calls[1..][j] == calls[j + 1];
  }

  lemma TailForward(calls: seq<Call>)
    requires ForwardClock(calls) && calls != []
    ensures ForwardClock(calls[1..]) && forall i :: 0 <= i < |calls[1..]| ==> calls[0].now <= calls[1..][i].now
  {
    forall i | 0 <= i < |calls[1..]|
      ensures calls[0].now <= calls[1..][i].now
    {
      assert calls[1..][i] == calls[i + 1];
    }
  }

  /** From a bucket that `granted` calls since `first` have drained, a refused call is explained by
      them and the grants since, or by a window that begins later. */
  lemma {:induction false} RefusedFrom(c: Config, buckets: Buckets, key: string, calls: seq<Call>, i: nat, first: int,
                                       granted: nat)
    requires c.Valid() && BucketsOk(c, buckets) && key in buckets && Credit(c, buckets[key], first, granted)
    requires ForwardClock(calls) && (forall k :: 0 <= k < |calls| ==> buckets[key].updatedAt <= calls[k].now)
    requires i < |calls| && calls[i].key == key && !Run(c, buckets, calls).1[i]
    ensures var answers := Run(c, buckets, calls).1;
            || Exceeds(c, granted + GrantedBetween(key, calls, answers, 0, i), first, calls[i].now)
            || Spent(c, key, calls, answers, i)
    decreases |calls|
  {
    var (next, ok) := Serve(c, buckets, calls[0]);
    var answers := Run(c, buckets, calls).1;
    TakeOk(c, Lookup(buckets, calls[0].key), calls[0].now);
    TailForward(calls);
    if calls[0].key == key { CreditKept(c, buckets[key], calls[0].now, first, granted); }
    if i > 0 {
      assert answers[1..] == Run(c, next, calls[1..]).1;
      NextGranted(key, calls, answers, i);
      if calls[0].key != key {
        RefusedFrom(c, next, key, calls[1..], i - 1, first, granted);
      } else if Credit(c, next[key], first, granted + if ok then 1 else 0) {
        RefusedFrom(c, next, key, calls[1..], i - 1, first, granted + if ok then 1 else 0);
      } else {
        RefusedFrom(c, next, key, calls[1..], i - 1, calls[0].now, 1);
        FirstSpends(c, key, calls, answers, i);
      }
      if Spent(c, key, calls[1..], answers[1..], i - 1) { SpentLater(c, key, calls, answers, i); }
    }
  }

  lemma FirstSpends(c: Config, key: string, calls: seq<Call>, answers: seq<bool>, i: nat)
    requires c.Valid() && |calls| == |answers| && 0 < i < |calls| && calls[0].key == key && answers[0]
    ensures Exceeds(c, 1 + GrantedBetween(key, calls[1..], answers[1..], 0, i - 1), calls[0].now, calls[i].now) ==>
              Spent(c, key, calls, answers, i)
  {
    NextGranted(key, calls, answers, i);
  }

  /** The same from a state in which the key has not called yet. */
  lemma {:induction false} RefusedFresh(c: Config, buckets: Buckets, key: string, calls: seq<Call>, i: nat)
    requires c.Valid() && BucketsOk(c, buckets) && key !in buckets && ForwardClock(calls)
    requires i < |calls| && calls[i].key == key && !Run(c, buckets, calls).1[i]
    ensures Spent(c, key, calls, Run(c, buckets, calls).1, i)
    decreases |calls|
  {
    var (next, ok) := Serve(c, buckets, calls[0]);
    var answers := Run(c, buckets, calls).1;
    TakeOk(c, Lookup(buckets, calls[0].key), calls[0].now);
    TailForward(calls);
    assert i > 0;
    assert answers[1..] == Run(c, next, calls[1..]).1;
    if calls[0].key == key {
      RefillAdds(c, 0, 0);
      assert Credit(c, next[key], calls[0].now, 1);
      RefusedFrom(c, next, key, calls[1..], i - 1, calls[0].now, 1);
      FirstSpends(c, key, calls, answers, i);
    } else {
      RefusedFresh(c, next, key, calls[1..], i - 1);
    }
    if Spent(c, key, calls[1..], answers[1..], i - 1) { SpentLater(c, key, calls, answers, i); }
  }

  lemma GrantedOne(key: string, call: Call, answer: bool)
    ensures Granted(key, [call], [answer]) == if call.key == key && answer then 1 else 0
  {
    assert [call][1..] == [] && [answer][1..] == [];
  }

  lemma {:induction false} GrantedSnoc(key: string, calls: seq<Call>, answers: seq<bool>, j: nat, i: nat)
    requires |calls| == |answers| && j <= i < |calls|
    ensures GrantedBetween(key, calls, answers, j, i + 1)
         == GrantedBetween(key, calls, answers, j, i) + if calls[i].key == key && answers[i] then 1 else 0
    decreases i - j
  {
    if j < i {
      assert calls[j..i + 1][1..] == calls[j + 1..i + 1] && answers[j..i + 1][1..] == answers[j + 1..i + 1];
      assert calls[j..i][1..] == calls[j + 1..i] && answers[j..i][1..] == answers[j + 1..i];
      GrantedSnoc(key, calls, answers, j + 1, i);
    } else {
      assert calls[i..i + 1] == [calls[i]] && answers[i..i + 1] == [answers[i]];
      GrantedOne(key, calls[i], answers[i]);
    }
  }

  lemma GrantedWithin(c: Config, key: string, calls: seq<Call>, j: nat, i: nat)
    requires c.Valid() && ForwardClock(calls) && j <= i < |calls|
    ensures var answers := Run(c, map[], calls).1;
            GrantedBetween(key, calls, answers, j, i + 1) as real
              <= c.burst as real + (calls[i].now - calls[j].now) as real / c.refillInterval as real
  {
    InWindow(calls, j, i);
    RunWindowBound(c, key, calls[..j], calls[j..i + 1], calls[j].now, calls[i].now);
    WindowAnswers(c, calls, j, i + 1);
  }

  lemma WindowAnswers(c: Config, calls: seq<Call>, j: nat, i: nat)
    requires c.Valid() && j <= i <= |calls|
    ensures Run(c, map[], calls[..j] + calls[j..i]).1[|calls[..j]|..] == Run(c, map[], calls).1[j..i]
  {
    PrefixAnswers(c, calls, i);
    assert calls[..j] + calls[j..i] == calls[..i];
    var all := Run(c, map[], calls).1;
    assert all[..i][j..] == all[j..i];
  }

  lemma PrefixAnswers(c: Config, calls: seq<Call>, n: nat)
    requires c.Valid() && n <= |calls|
    ensures Run(c, map[], calls[..n]).1 == Run(c, map[], calls).1[..n]
  {
    assert calls == calls[..n] + calls[n..];
    RunJoins(c, map[], calls[..n], calls[n..]);
  }

  lemma InWindow(calls: seq<Call>, j: nat, i: nat)
    requires ForwardClock(calls) && j <= i < |calls|
    ensures Within(calls[j..i + 1], calls[j].now, calls[i].now) && calls[j].now <= calls[i].now
  {
    var window := calls[j..i + 1];
    forall k | 0 <= k < |window|
      ensures calls[j].now <= window[k].now <= calls[i].now
    {
      assert window[k] == calls[j + k];
    }
  }

  /** What the bound for every window rules out. */
  lemma GrantedIsNotSpent(c: Config, key: string, calls: seq<Call>, i: nat, j: nat)
    requires c.Valid() && ForwardClock(calls) && j < i < |calls| && calls[i].key == key
    ensures var answers := Run(c, map[], calls).1;
            answers[i] ==> !Exceeds(c, GrantedBetween(key, calls, answers, j, i), calls[j].now, calls[i].now)
  {
    GrantedWithin(c, key, calls, j, i);
    GrantedSnoc(key, calls, Run(c, map[], calls).1, j, i);
  }

  /** On a fresh limiter with a clock that does not go back, a call is refused exactly if granting it
      would give its key, since one of the key's own earlier calls, more than `burst` plus one call
      per refill interval. Nothing else is ever refused. */
  lemma RefusedExactly(c: Config, key: string, calls: seq<Call>, i: nat)
    requires c.Valid() && ForwardClock(calls) && i < |calls| && calls[i].key == key
    ensures var answers := Run(c, map[], calls).1; !answers[i] <==> Spent(c, key, calls, answers, i)
  {
    if !Run(c, map[], calls).1[i] {
      RefusedFresh(c, map[], key, calls, i);
    } else {
      forall j: nat | j < i
        ensures !Exceeds(c, GrantedBetween(key, calls, Run(c, map[], calls).1, j, i), calls[j].now, calls[i].now)
      {
        GrantedIsNotSpent(c, key, calls, i, j);
      }
    }
  }

  function CallsOf(key: string, calls: seq<Call>): nat {
    if calls == [] then 0 else (if calls[0].key == key then 1 else 0) + CallsOf(key, calls[1..])
  }

  lemma {:induction false} GrantsAreCalls(key: string, calls: seq<Call>, answers: seq<bool>)
    requires |calls| == |answers|
    ensures Granted(key, calls, answers) <= CallsOf(key, calls)
    decreases |calls|
  {
    if calls != [] { GrantsAreCalls(key, calls[1..], answers[1..]); }
  }

  lemma {:induction false} CallsOfTail(key: string, calls: seq<Call>, j: nat)
    requires j <= |calls|
    ensures CallsOf(key, calls[j..]) <= CallsOf(key, calls)
    decreases j
  {
    if j > 0 {
      CallsOfTail(key, calls[1..], j - 1);
      assert calls[1..][j - 1..] == calls[j..];
    }
  }

  /** In particular the first `burst` calls of every key are granted, however fast they come. */
  lemma FirstCallsAreGranted(c: Config, key: string, calls: seq<Call>, i: nat)
    requires c.Valid() && ForwardClock(calls) && i < |calls| && calls[i].key == key
    requires CallsOf(key, calls[..i]) < c.burst
    ensures Run(c, map[], calls).1[i]
  {
    var answers := Run(c, map[], calls).1;
    RefusedExactly(c, key, calls, i);
    forall j: nat | j < i
      ensures !Exceeds(c, GrantedBetween(key, calls, answers, j, i), calls[j].now, calls[i].now)
    {
      GrantsAreCalls(key, calls[j..i], answers[j..i]);
      CallsOfTail(key, calls[..i], j);
      assert calls[..i][j..] == calls[j..i];
      RefillAdds(c, calls[i].now - calls[j].now, 0);
    }
  }

  lemma CeilBounds(x: real)
    ensures x <= Ceil(x) as real < x + 1.0
  {
  }

  lemma DivMul(a: real, r: real)
    requires r > 0.0
    ensures a * r / r == a
  {
    var q := a * r / r;
    assert q * r == a * r;
    assert (q - a) * r == 0.0;
  }

  lemma DivLess(a: real, b: real, r: real)
    requires r > 0.0
    ensures a <= b ==> a / r <= b / r
    ensures a < b ==> a / r < b / r
  {
    assert b / r - a / r == (b - a) / r;
    if a < b { assert (b - a) / r > 0.0; }
  }

  /** The hint in exact arithmetic: at least what is missing, by less than a second. */
  lemma HintBounds(c: Config, b: Bucket)
    requires c.Valid() && b.tokens < 1.0
    ensures var hint, need := RetryAfter(c, b), (1.0 - b.tokens) * c.refillInterval as real;
            hint >= SECOND && hint % SECOND == 0 && hint as real >= need && (hint - SECOND) as real < need
  {
    var need := (1.0 - b.tokens) * c.refillInterval as real;
    assert need > 0.0;
    var x := need / SECOND as real;
    CeilBounds(x);
    assert x * SECOND as real == need;
    var n := Ceil(x);
    assert n >= 1;
    assert (n * SECOND) as real == n as real * SECOND as real;
    assert n * SECOND - SECOND == (n - 1) * SECOND;
  }

  lemma HintRefills(c: Config, b: Bucket)
    requires c.Valid() && b.tokens < 1.0
    ensures var hint := RetryAfter(c, b); b.tokens + Refill(c, hint) >= 1.0 && b.tokens + Refill(c, hint - SECOND) < 1.0
  {
    var r := c.refillInterval as real;
    var hint, need := RetryAfter(c, b), (1.0 - b.tokens) * r;
    HintBounds(c, b);
    DivMul(1.0 - b.tokens, r);
    DivLess(need, hint as real, r);
    DivLess((hint - SECOND) as real, need, r);
  }

  /** The retry hint is honest: a refused caller who waits that long and finds its bucket
      untouched is allowed; and the hint is a whole number of seconds, at least one and less
      than one second more than needed. */
  lemma RetryHintSuffices(c: Config, b: Bucket, now: int, later: int)
    requires c.Valid() && BucketOk(c, b) && b.updatedAt <= now && !Take(c, Some(b), now).1
    ensures var after := Take(c, Some(b), now).0;
            var hint := RetryAfter(c, after);
            && (later >= now + hint ==> Take(c, Some(after), later).1)
            && hint >= 1_000_000_000 && hint % 1_000_000_000 == 0
            && after.tokens + (hint - 1_000_000_000) as real / c.refillInterval as real < 1.0
  {
    var after := Take(c, Some(b), now).0;
    var hint := RetryAfter(c, after);
    HintBounds(c, after);
    HintRefills(c, after);
    if later >= now + hint {
      RefillAdds(c, hint, later - now);
    }
  }
}
