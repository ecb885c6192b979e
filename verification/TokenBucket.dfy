/**
 The token bucket and its two stores (src/shortener/limiter.py).

 `Consume` is the read-modify-write that SQLite runs in one IMMEDIATE transaction and Redis in one Lua
 script, so a run of the whole fleet against one key is a sequence of calls in the order in which the
 store executed them. Token counts are real numbers.
 */
module TokenBuckets {
  import opened Prelude

  datatype Bucket = Bucket(tokens: real, updatedMs: int)

  datatype Retry = After(seconds: real) | Never

  /** `tokens` is None for the NaN of a decision taken without the store. */
  datatype Decision = Decision(allowed: bool, tokens: Option<real>, retry: Retry)

  datatype Policy = Policy(capacity: real, rate: real)
  {
    predicate Sane() {
      capacity >= 0.0 && rate >= 0.0
    }
  }

  function Min(a: real, b: real): real {
    if a <= b then a else b
  }

  /** Tokens earned in `ms` milliseconds. */
  function Credit(rate: real, ms: int): real {
    ms as real / 1000.0 * rate
  }

  function Capped(p: Policy, tokens: real, ms: int): real {
    Min(p.capacity, tokens + Credit(p.rate, ms))
  }

  function Forward(from: int, to: int): nat {
    if to > from then to - from else 0
  }

  /** What the bucket holds at `now`, before the call is charged; an absent bucket is full. */
  function Refilled(p: Policy, b: Option<Bucket>, now: int): real {
    match b
    case None => Capped(p, p.capacity, 0)
    case Some(b) => Capped(p, b.tokens, Forward(b.updatedMs, now))
  }

  function RetryAfter(allowed: bool, cost: real, tokens: real, rate: real): Retry {
    if allowed then After(0.0)
    else if rate <= 0.0 then Never
    else After(if (cost - tokens) / rate >= 0.0 then (cost - tokens) / rate else 0.0)
  }

  function Consume(p: Policy, b: Option<Bucket>, cost: real, now: int): (Bucket, Decision) {
    var tokens := Refilled(p, b, now);
    var allowed := tokens >= cost;
    var left := if allowed then tokens - cost else tokens;
    (Bucket(left, now), Decision(allowed, Some(left), RetryAfter(allowed, cost, left, p.rate)))
  }

  /** Tokens earned from one time to another; none if the clock stepped back. */
  function Earned(p: Policy, from: int, to: int): real {
    if to > from then (to - from) as real / 1000.0 * p.rate else 0.0
  }

  /** What a bucket holds before a call is charged: its tokens and what was earned since, but no more than the
      capacity; a new bucket is full. */
  lemma {:induction false} RefilledTells(p: Policy, b: Option<Bucket>, now: int)
    ensures b.None? ==> Refilled(p, b, now) == p.capacity
    ensures b.Some? ==>
              var earned := Earned(p, b.value.updatedMs, now);
              && Refilled(p, b, now) <= p.capacity && Refilled(p, b, now) <= b.value.tokens + earned
              && (Refilled(p, b, now) == p.capacity || Refilled(p, b, now) == b.value.tokens + earned)
  {
    assert Credit(p.rate, 0) == 0.0;
  }

  /** A call is admitted exactly if its cost is there; then exactly the cost is taken, otherwise nothing. The
      decision reports what is left, and an admitted caller need not wait. */
  lemma {:induction false} ConsumeTells(p: Policy, b: Option<Bucket>, cost: real, now: int)
    ensures var (b', d) := Consume(p, b, cost, now);
      && (d.allowed <==> Refilled(p, b, now) >= cost)
      && b'.tokens == Refilled(p, b, now) - (if d.allowed then cost else 0.0)
      && b'.updatedMs == now && d.tokens == Some(b'.tokens)
      && (d.allowed ==> d.retry == After(0.0))
      && (!d.allowed && p.rate <= 0.0 ==> d.retry == Never)
      && (!d.allowed && p.rate > 0.0 ==> d.retry.After? && d.retry.seconds * p.rate == cost - b'.tokens)
  {
    var (b', d) := Consume(p, b, cost, now);
    if !d.allowed && p.rate > 0.0 { QuotientCompare(cost - b'.tokens, p.rate, 0.0); }
  }

  // ---------------------------------------------------------------- refilling

  lemma {:induction false} CreditAdds(rate: real, a: int, b: int)
    ensures Credit(rate, a) + Credit(rate, b) == Credit(rate, a + b)
  {
    var x, y := a as real / 1000.0, b as real / 1000.0;
    assert (a + b) as real / 1000.0 == x + y;
  }

  lemma {:induction false} CreditIsMonotone(rate: real, a: int, b: int)
    requires rate >= 0.0 && a <= b
    ensures Credit(rate, a) <= Credit(rate, b)
  {
    CreditAdds(rate, a, b - a);
    assert (b - a) as real / 1000.0 >= 0.0;
  }

  lemma {:induction false} RefillComposes(p: Policy, tokens: real, a: nat, b: nat)
    requires p.Sane()
    ensures Capped(p, Capped(p, tokens, a), b) == Capped(p, tokens, a + b)
  {
    CreditAdds(p.rate, a, b);
    CreditIsMonotone(p.rate, 0, b);
  }

  /** A timer that adds one millisecond's worth of tokens, capped, `n` times. */
  function Ticked(p: Policy, tokens: real, n: nat): real {
    if n == 0 then tokens else Capped(p, Ticked(p, tokens, n - 1), 1)
  }

  /** Lazy equals eager: one refill for the whole time away is what a millisecond timer would have done. */
  lemma {:induction false} LazyEqualsEager(p: Policy, b: Bucket, now: int)
    requires p.Sane() && b.tokens <= p.capacity && b.updatedMs <= now
    ensures Refilled(p, Some(b), now) == Ticked(p, b.tokens, now - b.updatedMs)
    decreases now - b.updatedMs
  {
    var n: nat := now - b.updatedMs;
    if n == 0 {
      assert Credit(p.rate, 0) == 0.0;
    } else {
      LazyEqualsEager(p, b, now - 1);
      RefillComposes(p, b.tokens, n - 1, 1);
    }
  }

  // ---------------------------------------------------------------- runs

  datatype Call = Call(cost: real, now: int)

  function Final(p: Policy, b: Option<Bucket>, calls: seq<Call>): Option<Bucket>
    decreases calls
  {
    if calls == [] then b
    else Final(p, Some(Consume(p, b, calls[0].cost, calls[0].now).0), calls[1..])
  }

  function Decisions(p: Policy, b: Option<Bucket>, calls: seq<Call>): (ds: seq<Decision>)
    ensures |ds| == |calls|
    decreases calls
  {
    if calls == [] then []
    else
      var (b', d) := Consume(p, b, calls[0].cost, calls[0].now);
      [d] + Decisions(p, Some(b'), calls[1..])
  }

  function Admitted(p: Policy, b: Option<Bucket>, calls: seq<Call>): real
    decreases calls
  {
    if calls == [] then 0.0
    else
      var (b', d) := Consume(p, b, calls[0].cost, calls[0].now);
      (if d.allowed then calls[0].cost else 0.0) + Admitted(p, Some(b'), calls[1..])
  }

  /** Sum of the forward movements of the clock between consecutive calls. */
  function Advances(calls: seq<Call>): nat {
    if |calls| <= 1 then 0 else Forward(calls[0].now, calls[1].now) + Advances(calls[1..])
  }

  ghost predicate NonDecreasing(calls: seq<Call>) {
    forall i, j | 0 <= i < j < |calls| :: calls[i].now <= calls[j].now
  }

  ghost predicate NonNegative(b: Option<Bucket>) {
    b.Some? ==> b.value.tokens >= 0.0
  }

  ghost predicate InRange(p: Policy, b: Option<Bucket>) {
    b.Some? ==> 0.0 <= b.value.tokens <= p.capacity
  }

  lemma {:induction false} ChargedStaysNonNegative(p: Policy, b: Option<Bucket>, cost: real, now: int)
    requires p.Sane() && NonNegative(b)
    ensures Consume(p, b, cost, now).0.tokens >= 0.0 && 0.0 <= Refilled(p, b, now) <= p.capacity
  {
    assert Credit(p.rate, 0) == 0.0;
    if b.Some? { CreditIsMonotone(p.rate, 0, Forward(b.value.updatedMs, now)); }
  }

  /** Tokens never leave [0, capacity]; a negative cost, which would add tokens, can only lift the upper bound. */
  lemma {:induction false} RunInRange(p: Policy, b: Option<Bucket>, calls: seq<Call>)
    requires p.Sane() && NonNegative(b)
    ensures NonNegative(Final(p, b, calls))
    ensures InRange(p, b) && (forall c | c in calls :: c.cost >= 0.0) ==> InRange(p, Final(p, b, calls))
    decreases calls
  {
    if calls != [] {
      ChargedStaysNonNegative(p, b, calls[0].cost, calls[0].now);
      RunInRange(p, Some(Consume(p, b, calls[0].cost, calls[0].now).0), calls[1..]);
    }
  }

  /** Tokens are conserved: what was admitted and what is left came from the first refill or the clock. */
  lemma {:induction false} Budget(p: Policy, b: Option<Bucket>, calls: seq<Call>)
    requires p.Sane() && NonNegative(b) && calls != []
    ensures Final(p, b, calls).Some?
    ensures Admitted(p, b, calls) + Final(p, b, calls).value.tokens
         <= Refilled(p, b, calls[0].now) + Credit(p.rate, Advances(calls))
    decreases calls
  {
    var b' := Consume(p, b, calls[0].cost, calls[0].now).0;
    ChargedStaysNonNegative(p, b, calls[0].cost, calls[0].now);
    if |calls| == 1 {
      assert calls[1..] == [] && Credit(p.rate, 0) == 0.0;
      assert Admitted(p, Some(b'), []) == 0.0 && Final(p, Some(b'), []) == Some(b');
    } else {
      Budget(p, Some(b'), calls[1..]);
      CreditAdds(p.rate, Forward(calls[0].now, calls[1].now), Advances(calls[1..]));
    }
  }

  /** Admission bound: in any window of any run, from any mix of instances, the admitted cost is at most
      the capacity plus what the clock's forward movements inside the window earn. */
  lemma {:induction false} AdmissionBound(p: Policy, calls: seq<Call>, i: nat, j: nat)
    requires p.Sane() && i < j <= |calls|
    ensures var window := calls[i..j];
      && Admitted(p, Final(p, None, calls[..i]), window) <= p.capacity + Credit(p.rate, Advances(window))
      && (NonDecreasing(calls) ==> Advances(window) == calls[j - 1].now - calls[i].now)
  {
    var window, b := calls[i..j], Final(p, None, calls[..i]);
    RunInRange(p, None, calls[..i]);
    Budget(p, b, window);
    ChargedStaysNonNegative(p, b, window[0].cost, window[0].now);
    RunInRange(p, b, window);
    if NonDecreasing(calls) { AdvancesTelescope(window); }
  }

  lemma {:induction false} AdvancesTelescope(calls: seq<Call>)
    requires calls != [] && NonDecreasing(calls)
    ensures Advances(calls) == calls[|calls| - 1].now - calls[0].now
  {
    if |calls| > 1 { AdvancesTelescope(calls[1..]); }
  }

  /** `n` simultaneous calls of cost 1. */
  function Burst(now: int, n: nat): seq<Call> {
    if n == 0 then [] else [Call(1.0, now)] + Burst(now, n - 1)
  }

  lemma {:induction false} OneOfABurst(p: Policy, tokens: real, now: int)
    requires 0.0 <= tokens <= p.capacity
    ensures var (b, d) := Consume(p, Some(Bucket(tokens, now)), 1.0, now);
      (d.allowed <==> tokens >= 1.0) && b == Bucket(if tokens >= 1.0 then tokens - 1.0 else tokens, now)
  {
    assert Credit(p.rate, 0) == 0.0;
  }

  /** A burst on a bucket with `tokens` admits exactly floor(tokens) calls, if there are that many. */
  lemma {:induction false} BurstIsExact(p: Policy, tokens: real, now: int, n: nat)
    requires 0.0 <= tokens <= p.capacity
    ensures Admitted(p, Some(Bucket(tokens, now)), Burst(now, n))
         == (if n <= tokens.Floor then n else tokens.Floor) as real
    decreases n
  {
    if n > 0 {
      OneOfABurst(p, tokens, now);
      assert Burst(now, n)[1..] == Burst(now, n - 1);
      if tokens >= 1.0 {
        BurstIsExact(p, tokens - 1.0, now, n - 1);
        assert (tokens - 1.0).Floor == tokens.Floor - 1;
      } else {
        BurstIsExact(p, tokens, now, n - 1);
      }
    }
  }

  /** The same on a bucket that was never used: exactly the capacity, rounded down. */
  lemma {:induction false} FreshBurstIsExact(p: Policy, now: int, n: nat)
    requires p.capacity >= 0.0
    ensures Admitted(p, None, Burst(now, n)) == (if n <= p.capacity.Floor then n else p.capacity.Floor) as real
  {
    assert Credit(p.rate, 0) == 0.0;
    assert Consume(p, None, 1.0, now) == Consume(p, Some(Bucket(p.capacity, now)), 1.0, now);
    BurstIsExact(p, p.capacity, now, n);
  }

  // ---------------------------------------------------------------- denials

  /** The calls of a run that were admitted, and their decisions. */
  function AdmittedCalls(p: Policy, b: Option<Bucket>, calls: seq<Call>): seq<Call>
    decreases calls
  {
    if calls == [] then []
    else
      var (b', d) := Consume(p, b, calls[0].cost, calls[0].now);
      (if d.allowed then [calls[0]] else []) + AdmittedCalls(p, Some(b'), calls[1..])
  }

  function Allowed(ds: seq<Decision>): seq<Decision> {
    if ds == [] then [] else (if ds[0].allowed then [ds[0]] else []) + Allowed(ds[1..])
  }

  ghost predicate Same(p: Policy, b: Option<Bucket>, b': Option<Bucket>, from: int) {
    forall now | now >= from :: Refilled(p, b, now) == Refilled(p, b', now)
  }

  lemma {:induction false} DenialKeepsFuture(p: Policy, b: Option<Bucket>, b': Option<Bucket>, from: int, now: int)
    requires p.Sane() && Same(p, b, b', from) && from <= now
    requires b.Some? ==> b.value.updatedMs <= from
    ensures Same(p, Some(Bucket(Refilled(p, b, now), now)), b', now)
  {
    forall later | later >= now
      ensures Refilled(p, Some(Bucket(Refilled(p, b, now), now)), later) == Refilled(p, b', later)
    {
      assert Credit(p.rate, 0) == 0.0;
      if b.Some? {
        RefillComposes(p, b.value.tokens, now - b.value.updatedMs, later - now);
      } else {
        CreditIsMonotone(p.rate, 0, later - now);
      }
      assert Refilled(p, b, later) == Refilled(p, b', later);
    }
  }

  lemma {:induction false} SameRefills(p: Policy, b: Option<Bucket>, b': Option<Bucket>, from: int, cost: real,
                                       now: int)
    requires Same(p, b, b', from) && from <= now
    ensures Consume(p, b, cost, now) == Consume(p, b', cost, now)
  {
    assert Refilled(p, b, now) == Refilled(p, b', now);
  }

  lemma {:induction false} DenialsInvisibleFrom(
    p: Policy, b: Option<Bucket>, b': Option<Bucket>, from: int, calls: seq<Call>)
    requires p.Sane() && Same(p, b, b', from)
    requires b.Some? ==> b.value.updatedMs <= from
    requires NonDecreasing(calls) && forall c | c in calls :: from <= c.now
    ensures Decisions(p, b', AdmittedCalls(p, b, calls)) == Allowed(Decisions(p, b, calls))
    decreases calls
  {
    if calls != [] {
      var c, rest := calls[0], calls[1..];
      var (b1, d) := Consume(p, b, c.cost, c.now);
      SameRefills(p, b, b', from, c.cost, c.now);
      assert NonDecreasing(rest) && forall x | x in rest :: c.now <= x.now;
      var kept, ds := AdmittedCalls(p, Some(b1), rest), Decisions(p, Some(b1), rest);
      assert Allowed([d] + ds) == (if d.allowed then [d] else []) + Allowed(ds) by { assert ([d] + ds)[1..] == ds; }
      if d.allowed {
        DenialsInvisibleFrom(p, Some(b1), Some(b1), c.now, rest);
        assert ([c] + kept)[1..] == kept;
      } else {
        DenialKeepsFuture(p, b, b', from, c.now);
        DenialsInvisibleFrom(p, Some(b1), b', c.now, rest);
        assert AdmittedCalls(p, b, calls) == kept;
      }
    }
  }

  /** Denials are invisible: with a clock that never steps back, removing every denied call from a run
      leaves every admitted call with the decision and the token count it had. */
  lemma {:induction false} DenialsInvisible(p: Policy, calls: seq<Call>)
    requires p.Sane() && NonDecreasing(calls)
    ensures Decisions(p, None, AdmittedCalls(p, None, calls)) == Allowed(Decisions(p, None, calls))
  {
    DenialsInvisibleFrom(p, None, None, if calls == [] then 0 else calls[0].now, calls);
  }

  lemma {:induction false} DecisionsSplit(p: Policy, b: Option<Bucket>, first: seq<Call>, more: seq<Call>)
    ensures Decisions(p, b, first + more) == Decisions(p, b, first) + Decisions(p, Final(p, b, first), more)
    decreases first
  {
    if first == [] {
      assert first + more == more;
    } else {
      assert (first + more)[1..] == first[1..] + more;
      DecisionsSplit(p, Some(Consume(p, b, first[0].cost, first[0].now).0), first[1..], more);
    }
  }

  /** Buckets that refill alike decide alike, and after one more call they are the same. */
  lemma {:induction false} SameDecisions(p: Policy, b: Option<Bucket>, b': Option<Bucket>, from: int, calls: seq<Call>)
    requires Same(p, b, b', from) && (calls != [] ==> from <= calls[0].now)
    ensures Decisions(p, b, calls) == Decisions(p, b', calls)
  {
    if calls != [] { SameRefills(p, b, b', from, calls[0].cost, calls[0].now); }
  }

  lemma {:induction false} FinalIsOfThePast(p: Policy, b: Option<Bucket>, calls: seq<Call>, latest: int)
    requires b.Some? ==> b.value.updatedMs <= latest
    requires forall c | c in calls :: c.now <= latest
    ensures Final(p, b, calls).Some? ==> Final(p, b, calls).value.updatedMs <= latest
    decreases calls
  {
    if calls != [] { FinalIsOfThePast(p, Some(Consume(p, b, calls[0].cost, calls[0].now).0), calls[1..], latest); }
  }

  lemma {:induction false} DenialDropsOut(p: Policy, b: Option<Bucket>, denied: Call, rest: seq<Call>)
    requires p.Sane() && (b.Some? ==> b.value.updatedMs <= denied.now)
    requires !Consume(p, b, denied.cost, denied.now).1.allowed && (rest != [] ==> denied.now <= rest[0].now)
    ensures Decisions(p, b, [denied] + rest) == [Consume(p, b, denied.cost, denied.now).1] + Decisions(p, b, rest)
  {
    assert ([denied] + rest)[1..] == rest;
    DenialKeepsFuture(p, b, b, denied.now, denied.now);
    SameDecisions(p, Some(Bucket(Refilled(p, b, denied.now), denied.now)), b, denied.now, rest);
  }

  lemma {:induction false} CutOut(calls: seq<Call>, ds: seq<Decision>, i: nat, front: seq<Decision>, d: Decision,
                                  back: seq<Decision>)
    requires i < |calls| && |front| == i && ds == front + ([d] + back)
    ensures ds[..i] + ds[i + 1..] == front + back && ds[i] == d
    ensures calls == calls[..i] + ([calls[i]] + calls[i + 1..])
  {
  }

  /** With a clock that never steps back, deleting any one denied call leaves every other call, admitted or
      denied, with the decision, the token count and the retry-after that it had. */
  lemma {:induction false} OneDenialInvisible(p: Policy, calls: seq<Call>, i: nat)
    requires p.Sane() && NonDecreasing(calls) && i < |calls| && !Decisions(p, None, calls)[i].allowed
    ensures var ds := Decisions(p, None, calls);
      Decisions(p, None, calls[..i] + calls[i + 1..]) == ds[..i] + ds[i + 1..]
  {
    var first, denied, rest := calls[..i], calls[i], calls[i + 1..];
    var b := Final(p, None, first);
    var d, ds := Consume(p, b, denied.cost, denied.now).1, Decisions(p, None, calls);
    var b' := Some(Consume(p, b, denied.cost, denied.now).0);
    assert calls == first + ([denied] + rest) && ([denied] + rest)[1..] == rest;
    DecisionsSplit(p, None, first, [denied] + rest);
    CutOut(calls, ds, i, Decisions(p, None, first), d, Decisions(p, b', rest));
    FinalIsOfThePast(p, None, first, denied.now);
    DenialDropsOut(p, b, denied, rest);
    DecisionsSplit(p, None, first, rest);
  }

  /** Time only adds tokens, and adds some to a bucket that is neither full nor without refill. */
  lemma {:induction false} RefillGrows(p: Policy, tokens: real, ms: nat)
    requires p.Sane() && 0.0 <= tokens <= p.capacity
    ensures Capped(p, tokens, ms) == tokens <==> ms == 0 || p.rate == 0.0 || tokens == p.capacity
  {
    if ms == 0 || p.rate == 0.0 {
      assert Credit(p.rate, ms) == 0.0;
    } else {
      assert ms as real / 1000.0 > 0.0;
      assert Credit(p.rate, ms) > 0.0;
    }
  }

  /** Buckets that refill alike from `from` on are alike for every run that starts then. */
  lemma {:induction false} AlwaysSame(p: Policy, b: Option<Bucket>, b': Option<Bucket>, from: int)
    requires Same(p, b, b', from)
    ensures forall calls: seq<Call> | calls != [] ==> calls[0].now >= from ::
              Decisions(p, b, calls) == Decisions(p, b', calls)
  {
    forall calls: seq<Call> | calls != [] ==> calls[0].now >= from
      ensures Decisions(p, b, calls) == Decisions(p, b', calls)
    {
      SameDecisions(p, b, b', from, calls);
    }
  }

  /** A bucket that time does not change refills to the same at all times, whatever its own time is. */
  lemma {:induction false} StandstillIsSame(p: Policy, b: Bucket, now: int, from: int)
    requires p.Sane() && 0.0 <= b.tokens <= p.capacity && (p.rate == 0.0 || b.tokens == p.capacity)
    ensures Same(p, Some(Bucket(b.tokens, now)), Some(b), from) && Refilled(p, Some(b), now) == b.tokens
  {
    forall later ensures Refilled(p, Some(Bucket(b.tokens, now)), later) == Refilled(p, Some(b), later) == b.tokens {
      RefillGrows(p, b.tokens, Forward(now, later));
      RefillGrows(p, b.tokens, Forward(b.updatedMs, later));
    }
  }

  /** At the bucket's own time a call of cost 0 tells a bucket that was denied at another time from one that
      was not: the denial moved the time forward with a refill, or back without taking one away. */
  lemma {:induction false} DenialShowsAtItsOwnTime(p: Policy, b: Bucket, now: int)
    requires p.Sane() && 0.0 <= b.tokens < p.capacity && p.rate > 0.0 && now != b.updatedMs
    ensures var after := Bucket(Refilled(p, Some(b), now), now); var call := [Call(0.0, b.updatedMs)];
      Decisions(p, Some(after), call) != Decisions(p, Some(b), call)
  {
    var after := Bucket(Refilled(p, Some(b), now), now);
    var call := [Call(0.0, b.updatedMs)];
    RefillGrows(p, b.tokens, 0);
    if now > b.updatedMs {
      RefillGrows(p, b.tokens, now - b.updatedMs);
      CreditIsMonotone(p.rate, 0, now - b.updatedMs);
      assert Credit(p.rate, 0) == 0.0;
      RefillGrows(p, after.tokens, 0);
    } else {
      RefillGrows(p, b.tokens, b.updatedMs - now);
    }
    assert Refilled(p, Some(after), b.updatedMs) != Refilled(p, Some(b), b.updatedMs) == b.tokens;
    assert Decisions(p, Some(after), call)[0].tokens == Some(Refilled(p, Some(after), b.updatedMs));
    assert Decisions(p, Some(b), call)[0].tokens == Some(b.tokens);
  }

  /** When a denied call is invisible: deleting it changes nothing in any continuation, at whatever times its
      calls come, exactly if it came at the bucket's own time, or nothing is ever refilled, or the bucket
      was full. */
  lemma {:induction false} DenialInvisibleIff(p: Policy, b: Bucket, cost: real, now: int)
    requires p.Sane() && 0.0 <= b.tokens <= p.capacity && !Consume(p, Some(b), cost, now).1.allowed
    ensures (forall calls: seq<Call> ::
               Decisions(p, Some(Consume(p, Some(b), cost, now).0), calls) == Decisions(p, Some(b), calls))
            <==> now == b.updatedMs || p.rate == 0.0 || b.tokens == p.capacity
  {
    var after := Consume(p, Some(b), cost, now).0;
    if now == b.updatedMs {
      RefillGrows(p, b.tokens, 0);
      assert after == b;
    } else if p.rate == 0.0 || b.tokens == p.capacity {
      forall calls: seq<Call> ensures Decisions(p, Some(after), calls) == Decisions(p, Some(b), calls) {
        var from := if calls == [] then 0 else calls[0].now;
        StandstillIsSame(p, b, now, from);
        SameDecisions(p, Some(after), Some(b), from, calls);
      }
    } else {
      DenialShowsAtItsOwnTime(p, b, now);
    }
  }

  /** A denied first call, one that costs more than the capacity, is always invisible. */
  lemma {:induction false} FirstDenialInvisible(p: Policy, cost: real, now: int, calls: seq<Call>)
    requires p.Sane() && !Consume(p, None, cost, now).1.allowed
    ensures Decisions(p, Some(Consume(p, None, cost, now).0), calls) == Decisions(p, None, calls)
  {
    var from := if calls == [] then 0 else calls[0].now;
    var after := Consume(p, None, cost, now).0;
    assert Credit(p.rate, 0) == 0.0;
    assert after == Bucket(p.capacity, now);
    forall later | later >= from ensures Refilled(p, Some(after), later) == Refilled(p, None, later) {
      RefillGrows(p, p.capacity, Forward(now, later));
    }
    SameDecisions(p, Some(after), None, from, calls);
  }

  /** If no later call comes before the denied one, it is also invisible when it came after the bucket's own
      time; a denial from before that time is visible even then. */
  lemma {:induction false} DenialInvisibleLaterIff(p: Policy, b: Bucket, cost: real, now: int)
    requires p.Sane() && 0.0 <= b.tokens <= p.capacity && !Consume(p, Some(b), cost, now).1.allowed
    ensures (forall calls: seq<Call> | calls != [] ==> calls[0].now >= now ::
               Decisions(p, Some(Consume(p, Some(b), cost, now).0), calls) == Decisions(p, Some(b), calls))
            <==> now >= b.updatedMs || p.rate == 0.0 || b.tokens == p.capacity
  {
    var after := Consume(p, Some(b), cost, now).0;
    if now >= b.updatedMs {
      DenialKeepsFuture(p, Some(b), Some(b), now, now);
      AlwaysSame(p, Some(after), Some(b), now);
    } else if p.rate == 0.0 || b.tokens == p.capacity {
      StandstillIsSame(p, b, now, now);
      AlwaysSame(p, Some(after), Some(b), now);
    } else {
      DenialShowsAtItsOwnTime(p, b, now);
    }
  }

  /** With a clock that stepped back to it, a denied call can cause a later admission. */
  lemma {:induction false} BackwardDenialIsVisible()
    ensures var p := Policy(1.0, 1.0);
      var b := Some(Bucket(0.0, 10_000));
      && !Consume(p, b, 1.0, 5_000).1.allowed
      && !Consume(p, b, 1.0, 10_000).1.allowed
      && Consume(p, Some(Consume(p, b, 1.0, 5_000).0), 1.0, 10_000).1.allowed
  {
    assert Credit(1.0, 0) == 0.0 && Credit(1.0, 5_000) == 5.0;
  }

  /** So can one at the latest time so far, if the clock steps back after it: with the denial at 400 the last of
      these unit calls is admitted, without it none is. */
  lemma {:induction false} DenialBeforeStepBackIsVisible()
    ensures var p, b := Policy(2.0, 2.0), Bucket(0.0, 0);
      var later := [Call(1.0, 100), Call(1.0, 400)];
      var denied := Consume(p, Some(b), 1.0, 400);
      && !denied.1.allowed
      && Decisions(p, Some(denied.0), later)[1].allowed
      && !Decisions(p, Some(b), later)[0].allowed && !Decisions(p, Some(b), later)[1].allowed
  {
    var p, b := Policy(2.0, 2.0), Bucket(0.0, 0);
    var later := [Call(1.0, 100), Call(1.0, 400)];
    assert later[1..] == [Call(1.0, 400)];
    assert Credit(2.0, 0) == 0.0 && Credit(2.0, 100) == 0.2 && Credit(2.0, 300) == 0.6 && Credit(2.0, 400) == 0.8;
    var denied := Consume(p, Some(b), 1.0, 400).0;
    assert denied == Bucket(0.8, 400);
    assert Consume(p, Some(denied), 1.0, 100).0 == Bucket(0.8, 100);
    assert Consume(p, Some(b), 1.0, 100).0 == Bucket(0.2, 100);
    assert Decisions(p, Some(denied), later)[1] == Consume(p, Some(Bucket(0.8, 100)), 1.0, 400).1;
    assert Decisions(p, Some(b), later)[1] == Consume(p, Some(Bucket(0.2, 100)), 1.0, 400).1;
  }

  // ---------------------------------------------------------------- retry-after

  /** `retry_after_s` is exact: if nobody else calls, the same cost is admitted at exactly the later times
      that are at least that far away; never, if it exceeds the capacity or nothing is ever refilled. */
  lemma {:induction false} RetryAfterIsExact(p: Policy, b: Option<Bucket>, cost: real, now: int, later: int)
    requires p.Sane() && now <= later && !Consume(p, b, cost, now).1.allowed
    ensures var (b', d) := Consume(p, b, cost, now);
      && (d.retry.Never? <==> p.rate == 0.0)
      && (Consume(p, Some(b'), cost, later).1.allowed <==>
            d.retry.After? && cost <= p.capacity && (later - now) as real / 1000.0 >= d.retry.seconds)
  {
    var (b', d) := Consume(p, b, cost, now);
    var waited := (later - now) as real / 1000.0;
    assert waited >= 0.0;
    if p.rate > 0.0 {
      var need := cost - b'.tokens;
      QuotientCompare(need, p.rate, 0.0);
      assert need > 0.0 && d.retry == After(need / p.rate);
      QuotientCompare(need, p.rate, waited);
    }
  }

  // ---------------------------------------------------------------- the store that forgets

  /** A Redis hash with its expiry on the server's own clock. */
  datatype Held = Held(bucket: Bucket, expiresAt: int)

  /** A call with the app's clock and the Redis server's clock. */
  datatype LuaCall = LuaCall(cost: real, now: int, server: int)

  function Ceil(x: real): int {
    -((-x).Floor)
  }

  function RefillMs(p: Policy): int
    requires p.rate > 0.0
  {
    Ceil(p.capacity / p.rate * 1000.0)
  }

  function Ttl(p: Policy): int {
    if p.rate > 0.0 then RefillMs(p) + 10_000 else 3_600_000
  }

  /** The bucket the script finds: none if the key was never written or has expired. */
  function Found(k: Option<Held>, server: int): Option<Bucket> {
    if k.Some? && server < k.value.expiresAt then Some(k.value.bucket) else None
  }

  function Lua(p: Policy, k: Option<Held>, c: LuaCall): (Held, Decision) {
    var (b, d) := Consume(p, Found(k, c.server), c.cost, c.now);
    (Held(b, c.server + Ttl(p)), d)
  }

  function LuaDecisions(p: Policy, k: Option<Held>, calls: seq<LuaCall>): seq<Decision>
    decreases calls
  {
    if calls == [] then []
    else
      var (k', d) := Lua(p, k, calls[0]);
      [d] + LuaDecisions(p, Some(k'), calls[1..])
  }

  function Plain(calls: seq<LuaCall>): (r: seq<Call>)
    ensures |r| == |calls|
  {
    if calls == [] then [] else [Call(calls[0].cost, calls[0].now)] + Plain(calls[1..])
  }

  /** The expiry: the whole milliseconds that a refill takes and ten seconds, or an hour if there is no refill. */
  lemma {:induction false} TtlTells(p: Policy)
    ensures p.rate <= 0.0 ==> Ttl(p) == 3_600_000
    ensures p.rate > 0.0 ==> (Ttl(p) - 10_000) as real >= p.capacity / p.rate * 1000.0 > (Ttl(p) - 10_001) as real
  {
    if p.rate > 0.0 {
      var x := p.capacity / p.rate * 1000.0;
      var n := (-x).Floor;
      assert n as real <= -x < n as real + 1.0;
      assert Ttl(p) - 10_000 == -n && Ttl(p) - 10_001 == -n - 1;
    }
  }

  /** What one run of the script does, told by the key, the call and the two clocks. */
  lemma {:induction false} LuaTells(p: Policy, k: Option<Held>, c: LuaCall)
    ensures var (k', d) := Lua(p, k, c);
      var there := if k.None? || c.server >= k.value.expiresAt then p.capacity
                   else Min(p.capacity, k.value.bucket.tokens + Earned(p, k.value.bucket.updatedMs, c.now));
      && (d.allowed <==> there >= c.cost)
      && k'.bucket == Bucket(if there >= c.cost then there - c.cost else there, c.now)
      && d.tokens == Some(k'.bucket.tokens) && (d.allowed ==> d.retry == After(0.0))
      && k'.expiresAt == c.server + Ttl(p)
  {
    RefilledTells(p, Found(k, c.server), c.now);
    ConsumeTells(p, Found(k, c.server), c.cost, c.now);
  }

  /** Whenever the server has let the key expire, the app's clock has moved by the refill time at least. */
  ghost predicate AppKeepsUp(p: Policy, last: LuaCall, calls: seq<LuaCall>)
    requires p.rate > 0.0
    decreases calls
  {
    calls != [] ==>
      && (calls[0].server - last.server >= Ttl(p) ==> calls[0].now - last.now >= RefillMs(p))
      && AppKeepsUp(p, calls[0], calls[1..])
  }

  lemma {:induction false} CeilBound(x: real)
    ensures Ceil(x) as real >= x
  {
  }

  /** After the refill time, a bucket is as full as one that was never written. */
  lemma {:induction false} FullAfterRefillMs(p: Policy, b: Bucket, now: int)
    requires p.rate > 0.0 && p.capacity >= 0.0 && b.tokens >= 0.0 && now - b.updatedMs >= RefillMs(p)
    ensures Refilled(p, Some(b), now) == p.capacity
  {
    var x := p.capacity / p.rate;
    assert x * p.rate == p.capacity;
    CeilBound(x * 1000.0);
    var s := (now - b.updatedMs) as real / 1000.0;
    assert s >= x;
    assert (s - x) * p.rate >= 0.0;
    assert x >= 0.0 && RefillMs(p) >= 0;
    assert Forward(b.updatedMs, now) == now - b.updatedMs;
    assert Credit(p.rate, now - b.updatedMs) == s * p.rate;
  }

  lemma {:induction false} FullWhenAbsent(p: Policy, now: int)
    ensures Refilled(p, None, now) == p.capacity
  {
    assert Credit(p.rate, 0) == 0.0;
  }

  /** At every call that finds its key expired, the bucket that never forgets refills to the capacity.
      `expiresAt` is when the key expires on the server (None: there is none), `b` that bucket. */
  ghost predicate FullAtExpiry(p: Policy, expiresAt: Option<int>, b: Option<Bucket>, calls: seq<LuaCall>)
    decreases calls
  {
    calls != [] ==>
      && (expiresAt.Some? && calls[0].server >= expiresAt.value ==> Refilled(p, b, calls[0].now) == p.capacity)
      && FullAtExpiry(p, Some(calls[0].server + Ttl(p)), Some(Consume(p, b, calls[0].cost, calls[0].now).0), calls[1..])
  }

  function BucketIn(k: Option<Held>): Option<Bucket> {
    if k.Some? then Some(k.value.bucket) else None
  }

  function ExpiryOf(k: Option<Held>): Option<int> {
    if k.Some? then Some(k.value.expiresAt) else None
  }

  /** A forgotten key changes nothing in one call exactly when the bucket would have been full anyway. */
  lemma {:induction false} ForgettingIsHarmlessIff(p: Policy, k: Option<Held>, c: LuaCall)
    ensures var (k', d) := Lua(p, k, c);
      && (d == Consume(p, BucketIn(k), c.cost, c.now).1 ==> k'.bucket == Consume(p, BucketIn(k), c.cost, c.now).0)
      && (d == Consume(p, BucketIn(k), c.cost, c.now).1 <==>
            (k.Some? && c.server >= k.value.expiresAt ==> Refilled(p, BucketIn(k), c.now) == p.capacity))
  {
    FullWhenAbsent(p, c.now);
    var (b, d) := Consume(p, BucketIn(k), c.cost, c.now);
    var (b', d') := Consume(p, None, c.cost, c.now);
    if Refilled(p, BucketIn(k), c.now) != p.capacity && d.allowed && d'.allowed {
      assert b.tokens == Refilled(p, BucketIn(k), c.now) - c.cost && b'.tokens == p.capacity - c.cost;
    }
  }

  /** When the two stores are equivalent, for every policy and every run: the bucket that Redis forgets takes
      the same decisions and reports the same tokens as the one that SQLite keeps, exactly if the kept one
      is full whenever a key is found expired. */
  lemma {:induction false} StoresAgreeIff(p: Policy, k: Option<Held>, calls: seq<LuaCall>)
    ensures LuaDecisions(p, k, calls) == Decisions(p, BucketIn(k), Plain(calls))
            <==> FullAtExpiry(p, ExpiryOf(k), BucketIn(k), calls)
    decreases calls
  {
    if calls != [] {
      var c, rest := calls[0], calls[1..];
      var (k', d) := Lua(p, k, c);
      var (b', e) := Consume(p, BucketIn(k), c.cost, c.now);
      ForgettingIsHarmlessIff(p, k, c);
      StoresAgreeIff(p, Some(k'), rest);
      assert Plain(calls)[0] == Call(c.cost, c.now) && Plain(calls)[1..] == Plain(rest);
      var lua, plain := LuaDecisions(p, Some(k'), rest), Decisions(p, Some(b'), Plain(rest));
      assert [d] + lua == [e] + plain <==> d == e && lua == plain by {
        assert ([d] + lua)[0] == d && ([d] + lua)[1..] == lua && ([e] + plain)[0] == e && ([e] + plain)[1..] == plain;
      }
    }
  }

  lemma {:induction false} KeepingUpMeansFull(p: Policy, b: Bucket, last: LuaCall, calls: seq<LuaCall>)
    requires p.rate > 0.0 && p.capacity >= 0.0 && AppKeepsUp(p, last, calls)
    requires b.tokens >= 0.0 && b.updatedMs == last.now
    ensures FullAtExpiry(p, Some(last.server + Ttl(p)), Some(b), calls)
    decreases calls
  {
    if calls != [] {
      var c := calls[0];
      if c.server - last.server >= Ttl(p) { FullAfterRefillMs(p, b, c.now); }
      ChargedStaysNonNegative(p, Some(b), c.cost, c.now);
      KeepingUpMeansFull(p, Consume(p, Some(b), c.cost, c.now).0, c, calls[1..]);
    }
  }

  /** Expiry refinement: for a positive rate the stores agree over every run in which the app's clock keeps up. */
  lemma {:induction false} ExpiryRefinement(p: Policy, calls: seq<LuaCall>)
    requires p.rate > 0.0 && p.capacity >= 0.0
    requires calls != [] ==> AppKeepsUp(p, calls[0], calls[1..])
    ensures LuaDecisions(p, None, calls) == Decisions(p, None, Plain(calls))
  {
    StoresAgreeIff(p, None, calls);
    if calls != [] {
      ChargedStaysNonNegative(p, None, calls[0].cost, calls[0].now);
      KeepingUpMeansFull(p, Consume(p, None, calls[0].cost, calls[0].now).0, calls[0], calls[1..]);
    }
  }

  /** Between two consecutive calls the app's clock falls behind the server's by 10 seconds at most. */
  ghost predicate SmallDrift(last: LuaCall, calls: seq<LuaCall>)
    decreases calls
  {
    calls != [] ==>
      && (calls[0].server - last.server) - (calls[0].now - last.now) <= 10_000
      && SmallDrift(calls[0], calls[1..])
  }

  /** The slack in the TTL is what makes a small drift harmless. */
  lemma {:induction false} SmallDriftKeepsUp(p: Policy, last: LuaCall, calls: seq<LuaCall>)
    requires p.rate > 0.0 && SmallDrift(last, calls)
    ensures AppKeepsUp(p, last, calls)
    decreases calls
  {
    if calls != [] {
      SmallDriftKeepsUp(p, calls[0], calls[1..]);
    }
  }

  /** No idle hour of the server's clock follows a charge. `charged` tells whether the calls before, of which
      the last came at `last`, were charged anything; the first charge is the first cost that fits. */
  predicate NoIdleHourAfterCharge(p: Policy, charged: bool, last: int, calls: seq<LuaCall>)
    decreases calls
  {
    calls != [] ==>
      && (charged ==> calls[0].server - last < 3_600_000)
      && NoIdleHourAfterCharge(p, charged || 0.0 < calls[0].cost <= p.capacity, calls[0].server, calls[1..])
  }

  /** At rate 0 a bucket is full exactly until the first charge. */
  lemma {:induction false} QuotaStep(p: Policy, b: Option<Bucket>, cost: real, now: int)
    requires p.rate == 0.0 && InRange(p, b) && p.capacity >= 0.0 && cost >= 0.0
    ensures var full := b.None? || b.value.tokens == p.capacity; var b' := Consume(p, b, cost, now).0;
      && InRange(p, Some(b'))
      && (full <==> Refilled(p, b, now) == p.capacity)
      && (b'.tokens == p.capacity <==> full && !(0.0 < cost <= p.capacity))
  {
    assert forall ms :: Credit(p.rate, ms) == 0.0;
  }

  lemma {:induction false} QuotaFullIff(p: Policy, b: Bucket, last: int, calls: seq<LuaCall>)
    requires p.rate == 0.0 && InRange(p, Some(b)) && forall c | c in calls :: c.cost >= 0.0
    ensures FullAtExpiry(p, Some(last + Ttl(p)), Some(b), calls)
            <==> NoIdleHourAfterCharge(p, b.tokens != p.capacity, last, calls)
    decreases calls
  {
    if calls != [] {
      var c := calls[0];
      QuotaStep(p, Some(b), c.cost, c.now);
      QuotaFullIff(p, Consume(p, Some(b), c.cost, c.now).0, c.server, calls[1..]);
    }
  }

  /** At rate 0, a hard quota, the two stores agree exactly over the runs in which no key is left idle for an
      hour once something was charged to it. */
  lemma {:induction false} HardQuotaAgreesIff(p: Policy, calls: seq<LuaCall>)
    requires p.rate == 0.0 && p.capacity >= 0.0 && calls != [] && forall c | c in calls :: c.cost >= 0.0
    ensures LuaDecisions(p, None, calls) == Decisions(p, None, Plain(calls))
            <==> NoIdleHourAfterCharge(p, 0.0 < calls[0].cost <= p.capacity, calls[0].server, calls[1..])
  {
    StoresAgreeIff(p, None, calls);
    QuotaStep(p, None, calls[0].cost, calls[0].now);
    QuotaFullIff(p, Consume(p, None, calls[0].cost, calls[0].now).0, calls[0].server, calls[1..]);
  }

  /** At rate 0 the two stores differ: after an idle hour Redis hands out a hard quota again. */
  lemma {:induction false} HardQuotaComesBack()
    ensures var p := Policy(1.0, 0.0);
      var calls := [LuaCall(1.0, 0, 0), LuaCall(1.0, 3_600_000, 3_600_000)];
      && LuaDecisions(p, None, calls)[1].allowed
      && !Decisions(p, None, Plain(calls))[1].allowed
  {
    var p := Policy(1.0, 0.0);
    var c0, c1 := LuaCall(1.0, 0, 0), LuaCall(1.0, 3_600_000, 3_600_000);
    var calls := [c0, c1];
    assert calls[1..] == [c1];
    FullWhenAbsent(p, 0);
    FullWhenAbsent(p, 3_600_000);
    assert LuaDecisions(p, Some(Lua(p, None, c0).0), [c1])[0].allowed;
    assert Plain(calls)[1..] == Plain([c1]) && Plain([c1])[0] == Call(1.0, 3_600_000);
    assert Consume(p, None, 1.0, 0).0 == Bucket(0.0, 0);
    assert Credit(0.0, 3_600_000) == 0.0;
  }
}
