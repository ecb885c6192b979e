/**
 The circuit breaker and the limiter it guards (src/shortener/breaker.py).

 Every method body runs under one lock, so the callers of all threads make one sequence of locked
 events. A caller that was admitted reports later, possibly after other callers moved the breaker.
 */
module CircuitBreakers {
  import opened Prelude
  import opened TokenBuckets

  datatype State = Closed | Open | HalfOpen

  datatype Settings = Settings(threshold: int, cooldown: real)

  datatype Breaker = Breaker(state: State, failures: nat, openedAt: Option<real>, shorted: nat, trips: nat, probes: nat)

  const NEW := Breaker(Closed, 0, None, 0, 0, 0)

  /** While open, the breaker knows since when. */
  predicate Valid(b: Breaker) {
    b.state.Open? ==> b.openedAt.Some?
  }

  /** Is this `allow` the one that starts a probe? */
  predicate StartsProbe(c: Settings, b: Breaker, now: real)
    requires Valid(b)
  {
    b.state.Open? && now - b.openedAt.value >= c.cooldown
  }

  function AllowStep(c: Settings, b: Breaker, now: real): (Breaker, bool)
    requires Valid(b)
  {
    if b.state.Closed? then (b, true)
    else if StartsProbe(c, b, now) then (b.(state := HalfOpen, probes := b.probes + 1), true)
    else (b.(shorted := b.shorted + 1), false)
  }

  function SuccessStep(b: Breaker): Breaker {
    b.(failures := 0, state := Closed, openedAt := None)
  }

  function FailureStep(c: Settings, b: Breaker, now: real): Breaker {
    var b' := b.(failures := b.failures + 1);
    if b.state.HalfOpen? then b'.(state := Open, openedAt := Some(now))
    else if b'.failures >= c.threshold then
      b'.(state := Open, openedAt := Some(now), trips := if b.state.Open? then b.trips else b.trips + 1)
    else b'
  }

  class CircuitBreaker {
    const settings: Settings
    var state: State
    var failures: nat
    var openedAt: Option<real>
    var shorted: nat
    var trips: nat
    var probes: nat

    ghost function View(): Breaker
      reads this
    {
      Breaker(state, failures, openedAt, shorted, trips, probes)
    }

    constructor (settings: Settings)
      ensures this.settings == settings && View() == NEW
    {
      this.settings := settings;
      state, failures, openedAt, shorted, trips, probes := Closed, 0, None, 0, 0, 0;
    }

    method Allow(now: real) returns (allowed: bool)
      requires Valid(View())
      modifies this
      ensures Valid(View()) && (View(), allowed) == AllowStep(settings, old(View()), now)
      ensures allowed <==>
                || old(state).Closed?
                || (old(state).Open? && now - old(openedAt).value >= settings.cooldown)
      ensures state == if old(state).Open? && allowed then HalfOpen else old(state)
      ensures probes == old(probes) + if old(state).Open? && allowed then 1 else 0
      ensures shorted == old(shorted) + if allowed then 0 else 1
      ensures failures == old(failures) && openedAt == old(openedAt) && trips == old(trips)
    {
      if state.Closed? {
        return true;
      }
      if state.Open? {
        if now - openedAt.value >= settings.cooldown {
          state := HalfOpen;
          probes := probes + 1;
          return true;
        }
        shorted := shorted + 1;
        return false;
      }
      shorted := shorted + 1;
      return false;
    }

    method RecordSuccess()
      modifies this
      ensures Valid(View()) && View() == SuccessStep(old(View()))
      ensures state == Closed && failures == 0 && openedAt == None
      ensures shorted == old(shorted) && trips == old(trips) && probes == old(probes)
    {
      failures := 0;
      state := Closed;
      openedAt := None;
    }

    method RecordFailure(now: real)
      requires Valid(View())
      modifies this
      ensures Valid(View()) && View() == FailureStep(settings, old(View()), now)
      ensures failures == old(failures) + 1 && shorted == old(shorted) && probes == old(probes)
      ensures old(state).HalfOpen? || failures >= settings.threshold ==> state == Open && openedAt == Some(now)
      ensures !old(state).HalfOpen? && failures < settings.threshold ==>
                state == old(state) && openedAt == old(openedAt)
      ensures trips == old(trips) + if old(state).Closed? && state.Open? then 1 else 0
    {
      failures := failures + 1;
      if state.HalfOpen? {
        state := Open;
        openedAt := Some(now);
        return;
      }
      if failures >= settings.threshold {
        if !state.Open? {
          trips := trips + 1;
        }
        state := Open;
        openedAt := Some(now);
      }
    }
  }

  // ---------------------------------------------------------------- all interleavings of callers

  /** `caller` tells apart the calls that go through the breaker; each asks once and reports later. */
  datatype Event =
    | Ask(caller: nat, now: real)
    | Success(caller: nat, now: real)
    | Failure(caller: nat, now: real)

  function Step(c: Settings, b: Breaker, e: Event): (b': Breaker)
    requires Valid(b)
    ensures Valid(b')
  {
    match e
    case Ask(_, now) => AllowStep(c, b, now).0
    case Success(_, _) => SuccessStep(b)
    case Failure(_, now) => FailureStep(c, b, now)
  }

  function Exec(c: Settings, events: seq<Event>): (b: Breaker)
    ensures Valid(b)
  {
    if events == [] then NEW else Step(c, Exec(c, events[..|events| - 1]), events[|events| - 1])
  }

  function FailuresSinceSuccess(events: seq<Event>): nat {
    if events == [] then 0
    else
      var before := FailuresSinceSuccess(events[..|events| - 1]);
      match events[|events| - 1]
      case Ask(_, _) => before
      case Success(_, _) => 0
      case Failure(_, _) => before + 1
  }

  /** The circuit is away from closed exactly while the unbroken run of failures is long enough. */
  lemma {:induction false} NotClosedIffEnoughFailures(c: Settings, events: seq<Event>)
    requires c.threshold >= 1
    ensures !Exec(c, events).state.Closed? <==> FailuresSinceSuccess(events) >= c.threshold
    ensures Exec(c, events).failures == FailuresSinceSuccess(events)
  {
    if events != [] { NotClosedIffEnoughFailures(c, events[..|events| - 1]); }
  }

  /** Times that the circuit went from closed to open. */
  function ClosedToOpen(c: Settings, events: seq<Event>): nat {
    if events == [] then 0
    else
      var front := events[..|events| - 1];
      ClosedToOpen(c, front) + if Exec(c, front).state.Closed? && Exec(c, events).state.Open? then 1 else 0
  }

  /** Callers that were told to wait. */
  function TurnedAway(c: Settings, events: seq<Event>): nat {
    if events == [] then 0
    else
      var front, e := events[..|events| - 1], events[|events| - 1];
      TurnedAway(c, front) + if e.Ask? && !AllowStep(c, Exec(c, front), e.now).1 then 1 else 0
  }

  /** The counters are true. */
  lemma {:induction false} CountersAreTrue(c: Settings, events: seq<Event>)
    ensures Exec(c, events).trips == ClosedToOpen(c, events) && Exec(c, events).shorted == TurnedAway(c, events)
  {
    if events != [] { CountersAreTrue(c, events[..|events| - 1]); }
  }

  function LastFailure(events: seq<Event>): Option<real> {
    if events == [] then None
    else if events[|events| - 1].Failure? then Some(events[|events| - 1].now)
    else LastFailure(events[..|events| - 1])
  }

  /** Has a caller asked a cooldown or more after the last failure of a long enough run? */
  predicate ProbeSinceFailure(c: Settings, events: seq<Event>) {
    events != [] &&
    var front := events[..|events| - 1];
    match events[|events| - 1]
    case Ask(_, now) =>
      ProbeSinceFailure(c, front) || (FailuresSinceSuccess(front) >= c.threshold && CooledDown(c, front, now))
    case _ => false
  }

  predicate CooledDown(c: Settings, events: seq<Event>, now: real) {
    LastFailure(events).Some? && now - LastFailure(events).value >= c.cooldown
  }

  /** Who is admitted, told by the history alone: everybody while the run of failures is short; otherwise
      the first to ask a cooldown after the last failure, and nobody else before the next report. */
  lemma {:induction false} AdmittedIff(c: Settings, events: seq<Event>, now: real)
    requires c.threshold >= 1
    ensures AllowStep(c, Exec(c, events), now).1 <==>
              || FailuresSinceSuccess(events) < c.threshold
              || (!ProbeSinceFailure(c, events) && CooledDown(c, events, now))
  {
    StateByHistory(c, events);
  }

  lemma {:induction false} StateByHistory(c: Settings, events: seq<Event>)
    requires c.threshold >= 1
    ensures var b := Exec(c, events);
      if FailuresSinceSuccess(events) < c.threshold then b.state.Closed? && !ProbeSinceFailure(c, events)
      else if ProbeSinceFailure(c, events) then b.state.HalfOpen?
      else b.state.Open? && b.openedAt == LastFailure(events)
    ensures Exec(c, events).failures == FailuresSinceSuccess(events)
  {
    if events != [] { StateByHistory(c, events[..|events| - 1]); }
  }

  function AdmittedBy(c: Settings, b: Breaker, asks: seq<real>): nat
    requires Valid(b)
    decreases asks
  {
    if asks == [] then 0
    else
      var (b', ok) := AllowStep(c, b, asks[0]);
      (if ok then 1 else 0) + AdmittedBy(c, b', asks[1..])
  }

  /** Until somebody reports, a circuit that is not closed admits one caller at most: none after the probe. */
  lemma {:induction false} OneCallerPerHalfOpen(c: Settings, b: Breaker, asks: seq<real>)
    requires Valid(b) && !b.state.Closed?
    ensures AdmittedBy(c, b, asks) <= if b.state.Open? then 1 else 0
    decreases asks
  {
    if asks != [] { OneCallerPerHalfOpen(c, AllowStep(c, b, asks[0]).0, asks[1..]); }
  }

  // ---------------------------------------------------------------- the callers

  /** The breaker and its callers: who has asked; who was admitted and has not reported yet; of those the
      probes, with the time of admission; the times of all probes, oldest first; how many callers were
      admitted; and when the circuit tripped first. */
  datatype Crowd = Crowd(
    breaker: Breaker, asked: set<nat>, outstanding: set<nat>, inFlight: map<nat, real>, probeTimes: seq<real>,
    calls: nat, trippedAt: Option<real>)

  const NOBODY := Crowd(NEW, {}, {}, map[], [], 0, None)

  function Moved(c: Settings, w: Crowd, e: Event): (w': Crowd)
    requires Valid(w.breaker)
    ensures Valid(w'.breaker)
  {
    var w' := w.(breaker := Step(c, w.breaker, e));
    var x := e.caller;
    if !e.Ask? then
      w'.(outstanding := w.outstanding - {x}, inFlight := w.inFlight - {x},
          trippedAt := if w.trippedAt.None? && !w'.breaker.state.Closed? then Some(e.now) else w.trippedAt)
    else
      var asked := w'.(asked := w.asked + {x});
      if !AllowStep(c, w.breaker, e.now).1 then asked
      else
        var admitted := asked.(outstanding := w.outstanding + {x}, calls := w.calls + 1);
        if StartsProbe(c, w.breaker, e.now) then
          admitted.(inFlight := w.inFlight[x := e.now], probeTimes := w.probeTimes + [e.now])
        else admitted
  }

  function Crowded(c: Settings, events: seq<Event>): (w: Crowd)
    ensures Valid(w.breaker)
  {
    if events == [] then NOBODY else Moved(c, Crowded(c, events[..|events| - 1]), events[|events| - 1])
  }

  /** The books on the callers: whoever asks is noted; whoever is admitted is outstanding until its report, and
      in flight too if the circuit was not closed; only that caller's own report takes it off. */
  lemma {:induction false} CrowdTells(c: Settings, w: Crowd, e: Event)
    requires Valid(w.breaker)
    ensures var w' := Moved(c, w, e); var x := e.caller;
      var admitted := e.Ask? && AllowStep(c, w.breaker, e.now).1;
      && w'.breaker == Step(c, w.breaker, e)
      && w'.asked == (if e.Ask? then w.asked + {x} else w.asked)
      && (admitted ==> w'.outstanding == w.outstanding + {x})
      && (e.Ask? && !admitted ==> w'.outstanding == w.outstanding)
      && (!e.Ask? ==> w'.outstanding == w.outstanding - {x})
      && w'.calls == w.calls + (if admitted then 1 else 0)
      && (!e.Ask? ==> w'.inFlight == w.inFlight - {x} && w'.probeTimes == w.probeTimes)
      && (admitted && !w.breaker.state.Closed? ==>
            w'.inFlight == w.inFlight[x := e.now] && w'.probeTimes == w.probeTimes + [e.now])
      && (e.Ask? && (!admitted || w.breaker.state.Closed?) ==>
            w'.inFlight == w.inFlight && w'.probeTimes == w.probeTimes)
      && (w.trippedAt.Some? ==> w'.trippedAt == w.trippedAt)
      && (w.trippedAt.None? && w'.trippedAt.Some? ==> w'.trippedAt == Some(e.now) && !w'.breaker.state.Closed?)
  {
  }

  /** Everybody asks once, and reports once if admitted. */
  predicate Fair(w: Crowd, e: Event) {
    if e.Ask? then e.caller !in w.asked else e.caller in w.outstanding
  }

  ghost predicate Honest(c: Settings, events: seq<Event>) {
    events != [] ==>
      Honest(c, events[..|events| - 1]) && Fair(Crowded(c, events[..|events| - 1]), events[|events| - 1])
  }

  /** The clock never steps back from one event to the next. */
  ghost predicate Monotone(events: seq<Event>) {
    |events| >= 2 ==>
      events[|events| - 2].now <= events[|events| - 1].now && Monotone(events[..|events| - 1])
  }

  lemma {:induction false} CrowdHasTheBreaker(c: Settings, events: seq<Event>)
    ensures Crowded(c, events).breaker == Exec(c, events)
  {
    if events != [] { CrowdHasTheBreaker(c, events[..|events| - 1]); }
  }

  // ---------------------------------------------------------------- probe spacing

  /** Neighbours are `gap` apart. */
  ghost predicate Spaced(times: seq<real>, gap: real) {
    forall i, j | 0 <= i < j < |times| && j == i + 1 :: times[j] - times[i] >= gap
  }

  /** Probes are a cooldown apart; an open circuit was opened after the latest one; `last` is the time of
      the last event. */
  ghost predicate Paced(c: Settings, w: Crowd, last: real)
    requires Valid(w.breaker)
  {
    var times := w.probeTimes;
    && Spaced(times, c.cooldown) && |times| == w.breaker.probes
    && (times != [] ==> times[|times| - 1] <= last)
    && (times != [] && w.breaker.state.Open? ==> w.breaker.openedAt.value >= times[|times| - 1])
    && (forall x | x in w.inFlight :: times != [] && w.inFlight[x] <= times[|times| - 1])
  }

  lemma {:induction false} MoveKeepsPace(c: Settings, w: Crowd, e: Event, last: real)
    requires c.cooldown >= 0.0 && Valid(w.breaker) && Paced(c, w, last) && last <= e.now
    ensures Paced(c, Moved(c, w, e), e.now)
  {
  }

  lemma {:induction false} AlwaysPaced(c: Settings, events: seq<Event>)
    requires c.cooldown >= 0.0 && Monotone(events) && events != []
    ensures Paced(c, Crowded(c, events), events[|events| - 1].now)
  {
    var front, e := events[..|events| - 1], events[|events| - 1];
    if front != [] { AlwaysPaced(c, front); }
    MoveKeepsPace(c, Crowded(c, front), e, if front == [] then e.now else front[|front| - 1].now);
  }

  function Times(n: int, x: real): real {
    n as real * x
  }

  lemma {:induction false} TimesNext(n: int, x: real)
    ensures Times(n + 1, x) == Times(n, x) + x && Times(0, x) == 0.0
  {
    assert (n + 1) as real == n as real + 1.0;
  }

  /** Whole cooldowns in a span of time. */
  function Cooldowns(span: real, cooldown: real): int
    requires cooldown > 0.0
  {
    (span / cooldown).Floor
  }

  lemma {:induction false} CooldownsBound(n: int, span: real, cooldown: real)
    requires cooldown > 0.0 && Times(n, cooldown) <= span
    ensures n <= Cooldowns(span, cooldown)
  {
    QuotientCompare(span, cooldown, n as real);
  }

  lemma {:induction false} SpacingAddsUp(times: seq<real>, gap: real, i: nat, j: nat)
    requires i <= j < |times| && Spaced(times, gap)
    ensures times[j] - times[i] >= Times(j - i, gap)
    decreases j - i
  {
    TimesNext(j - i - 1, gap);
    TimesNext(0, gap);
    if i < j { SpacingAddsUp(times, gap, i, j - 1); }
  }

  /** Any two probes are a cooldown apart, so a span of time sees at most 1 + floor(span / cooldown) of them. */
  lemma {:induction false} ProbesPerWindow(c: Settings, events: seq<Event>, i: nat, j: nat)
    requires c.cooldown > 0.0 && Monotone(events) && i <= j < |Crowded(c, events).probeTimes|
    ensures var times := Crowded(c, events).probeTimes;
      && |times| == Exec(c, events).probes
      && times[j] - times[i] >= Times(j - i, c.cooldown)
      && j - i <= Cooldowns(times[j] - times[i], c.cooldown)
  {
    AlwaysPaced(c, events);
    CrowdHasTheBreaker(c, events);
    var times := Crowded(c, events).probeTimes;
    SpacingAddsUp(times, c.cooldown, i, j);
    CooldownsBound(j - i, times[j] - times[i], c.cooldown);
  }

  // ---------------------------------------------------------------- probes in flight

  /** Whenever anything happens, the probes that were in flight until then are no older than `d`. */
  ghost predicate InTime(w: Crowd, e: Event, d: real) {
    forall x | x in w.inFlight :: e.now - w.inFlight[x] <= d
  }

  ghost predicate ReportsWithin(c: Settings, events: seq<Event>, d: real) {
    events != [] ==>
      ReportsWithin(c, events[..|events| - 1], d) && InTime(Crowded(c, events[..|events| - 1]), events[|events| - 1], d)
  }

  ghost predicate AtMostOne(probes: map<nat, real>) {
    forall x, y | x in probes && y in probes :: x == y
  }

  lemma {:induction false} PromptProbesAreSingle(c: Settings, events: seq<Event>, d: real)
    requires 0.0 <= c.cooldown && d < c.cooldown && Monotone(events) && ReportsWithin(c, events, d)
    ensures AtMostOne(Crowded(c, events).inFlight)
  {
    if events != [] {
      var front := events[..|events| - 1];
      PromptProbesAreSingle(c, front, d);
      if front != [] { AlwaysPaced(c, front); }
    }
  }

  /** Honest callers, of which those that probe report in time. */
  ghost predicate Fine(c: Settings, events: seq<Event>) {
    Honest(c, events) && ReportsWithin(c, events, c.cooldown)
  }

  ghost predicate Acceptable(c: Settings, w: Crowd, e: Event) {
    Fair(w, e) && InTime(w, e, c.cooldown)
  }

  lemma {:induction false} Snoc(c: Settings, events: seq<Event>, e: Event)
    requires Fine(c, events) && Acceptable(c, Crowded(c, events), e)
    ensures Fine(c, events + [e]) && Crowded(c, events + [e]) == Moved(c, Crowded(c, events), e)
  {
    assert (events + [e])[..|events|] == events;
  }

  lemma {:induction false} SnocTwo(c: Settings, events: seq<Event>, a: Event, b: Event)
    requires Fine(c, events)
    requires var w := Crowded(c, events); Acceptable(c, w, a) && Acceptable(c, Moved(c, w, a), b)
    ensures Fine(c, events + [a] + [b])
    ensures Crowded(c, events + [a] + [b]) == Moved(c, Moved(c, Crowded(c, events), a), b)
  {
    Snoc(c, events, a);
    Snoc(c, events + [a], b);
  }

  /** Caller 0 is admitted, and then `n` others ask and fail at once. */
  function Trip(n: nat): seq<Event> {
    if n == 0 then [] + [Ask(0, 0.0)] else Trip(n - 1) + [Ask(n, 0.0)] + [Failure(n, 0.0)]
  }

  /** What `n` failures leave behind: caller 0 still has to report. */
  ghost predicate Tripping(c: Settings, w: Crowd, n: nat) {
    && w.outstanding == {0} && w.inFlight == map[] && (forall x | x in w.asked :: x <= n)
    && w.breaker.failures == n && w.breaker.state == (if n == c.threshold then Open else Closed)
    && (n == c.threshold ==> w.breaker.openedAt == Some(0.0))
  }

  /** One more caller asks and fails. */
  lemma {:induction false} TripsOn(c: Settings, w: Crowd, n: nat)
    requires n < c.threshold && c.cooldown >= 0.0 && Valid(w.breaker) && Tripping(c, w, n)
    ensures var a, b := Ask(n + 1, 0.0), Failure(n + 1, 0.0);
      Acceptable(c, w, a) && Acceptable(c, Moved(c, w, a), b) && Tripping(c, Moved(c, Moved(c, w, a), b), n + 1)
  {
  }

  lemma {:induction false} OneMoreFails(c: Settings, events: seq<Event>, n: nat)
    requires n < c.threshold && c.cooldown >= 0.0 && Fine(c, events) && Tripping(c, Crowded(c, events), n)
    ensures var events' := events + [Ask(n + 1, 0.0)] + [Failure(n + 1, 0.0)];
      Fine(c, events') && Tripping(c, Crowded(c, events'), n + 1)
  {
    TripsOn(c, Crowded(c, events), n);
    SnocTwo(c, events, Ask(n + 1, 0.0), Failure(n + 1, 0.0));
  }

  lemma {:induction false} FirstAsks(c: Settings)
    requires 1 <= c.threshold && c.cooldown >= 0.0
    ensures Fine(c, Trip(0)) && Tripping(c, Crowded(c, Trip(0)), 0)
  {
    Snoc(c, [], Ask(0, 0.0));
  }

  lemma {:induction false} AfterTrip(c: Settings, events: seq<Event>, n: nat)
    requires 1 <= c.threshold && n <= c.threshold && c.cooldown >= 0.0 && events == Trip(n)
    ensures Fine(c, events) && Tripping(c, Crowded(c, events), n)
    decreases n
  {
    if n == 0 {
      FirstAsks(c);
    } else {
      var front := Trip(n - 1);
      AfterTrip(c, front, n - 1);
      OneMoreFails(c, front, n - 1);
    }
  }

  /** The late report of caller 0 reopens the circuit under a running probe ... */
  function Reopened(c: Settings): seq<Event>
    requires c.threshold >= 1
  {
    Trip(c.threshold) + [Ask(c.threshold + 1, c.cooldown)] + [Failure(0, c.cooldown)]
  }

  /** ... and a cooldown later there are two. */
  function TwoProbes(c: Settings): seq<Event>
    requires c.threshold >= 1
  {
    Reopened(c) + [Ask(c.threshold + 2, c.cooldown + c.cooldown)]
  }

  ghost predicate UnderProbe(c: Settings, w: Crowd, n: nat) {
    && w.inFlight == map[n + 1 := c.cooldown] && n + 2 !in w.asked
    && w.breaker.state == Open && w.breaker.openedAt == Some(c.cooldown)
  }

  /** From an open circuit with caller 0 outstanding: a probe, and the late report. */
  lemma {:induction false} LateReportReopens(c: Settings, w: Crowd, n: nat)
    requires n == c.threshold && c.cooldown >= 0.0 && Valid(w.breaker) && Tripping(c, w, n)
    ensures var t := c.cooldown; var a, b := Ask(n + 1, t), Failure(0, t);
      && Acceptable(c, w, a) && Acceptable(c, Moved(c, w, a), b)
      && UnderProbe(c, Moved(c, Moved(c, w, a), b), n)
  {
  }

  lemma {:induction false} Reopens(c: Settings, events: seq<Event>, n: nat)
    requires n == c.threshold && c.cooldown >= 0.0 && Fine(c, events) && Tripping(c, Crowded(c, events), n)
    ensures var events' := events + [Ask(n + 1, c.cooldown)] + [Failure(0, c.cooldown)];
      Fine(c, events') && UnderProbe(c, Crowded(c, events'), n)
  {
    LateReportReopens(c, Crowded(c, events), n);
    SnocTwo(c, events, Ask(n + 1, c.cooldown), Failure(0, c.cooldown));
  }

  lemma {:induction false} AfterReopening(c: Settings)
    requires c.threshold >= 1 && c.cooldown >= 0.0
    ensures Fine(c, Reopened(c)) && UnderProbe(c, Crowded(c, Reopened(c)), c.threshold)
  {
    var trip := Trip(c.threshold);
    AfterTrip(c, trip, c.threshold);
    Reopens(c, trip, c.threshold);
  }

  lemma {:induction false} SnocMonotone(events: seq<Event>, e: Event)
    requires Monotone(events) && (events != [] ==> events[|events| - 1].now <= e.now)
    ensures Monotone(events + [e])
  {
    assert (events + [e])[..|events|] == events;
  }

  lemma {:induction false} TripInOrder(n: nat)
    ensures Monotone(Trip(n)) && Trip(n)[|Trip(n)| - 1].now == 0.0
  {
    if n > 0 {
      TripInOrder(n - 1);
      SnocMonotone(Trip(n - 1), Ask(n, 0.0));
      SnocMonotone(Trip(n - 1) + [Ask(n, 0.0)], Failure(n, 0.0));
    }
  }

  lemma {:induction false} TwoProbesInOrder(c: Settings)
    requires c.threshold >= 1 && c.cooldown >= 0.0
    ensures Monotone(TwoProbes(c))
  {
    var events, a, b := Trip(c.threshold), Ask(c.threshold + 1, c.cooldown), Failure(0, c.cooldown);
    TripInOrder(c.threshold);
    SnocMonotone(events, a);
    SnocMonotone(events + [a], b);
    SnocMonotone(events + [a] + [b], Ask(c.threshold + 2, c.cooldown + c.cooldown));
  }

  /** The promise of a single probe, broken by callers that are honest and probes that report in time. */
  lemma {:induction false} TwoProbesInFlight(c: Settings)
    requires c.threshold >= 1 && c.cooldown >= 0.0
    ensures Honest(c, TwoProbes(c)) && Monotone(TwoProbes(c)) && ReportsWithin(c, TwoProbes(c), c.cooldown)
    ensures Crowded(c, TwoProbes(c)).inFlight
         == map[c.threshold + 1 := c.cooldown, c.threshold + 2 := c.cooldown + c.cooldown]
  {
    TwoProbesInOrder(c);
    AfterReopening(c);
    Snoc(c, Reopened(c), Ask(c.threshold + 2, c.cooldown + c.cooldown));
  }

  lemma {:induction false} ReportsSooner(c: Settings, events: seq<Event>, d: real, d': real)
    requires ReportsWithin(c, events, d) && d <= d'
    ensures ReportsWithin(c, events, d')
  {
    if events != [] { ReportsSooner(c, events[..|events| - 1], d, d'); }
  }

  /** When the promise of a single probe holds: over all schedules in which probes report within `d`, at
      most one is in flight, exactly if `d` is shorter than the cooldown. */
  lemma {:induction false} SingleProbeIff(c: Settings, d: real)
    requires c.threshold >= 1 && c.cooldown >= 0.0
    ensures (forall events | Honest(c, events) && Monotone(events) && ReportsWithin(c, events, d) ::
               AtMostOne(Crowded(c, events).inFlight))
            <==> d < c.cooldown
  {
    if d < c.cooldown {
      forall events | Honest(c, events) && Monotone(events) && ReportsWithin(c, events, d)
        ensures AtMostOne(Crowded(c, events).inFlight)
      {
        PromptProbesAreSingle(c, events, d);
      }
    } else {
      TwoProbesInFlight(c);
      ReportsSooner(c, TwoProbes(c), c.cooldown, d);
      var probes: map<nat, real> := Crowded(c, TwoProbes(c)).inFlight;
      assert c.threshold + 1 in probes && c.threshold + 2 in probes;
    }
  }

  // ---------------------------------------------------------------- a dead store under concurrency

  /** The store always fails, and never more than `n` callers wait for it. */
  ghost predicate DeadUnderLoad(c: Settings, events: seq<Event>, n: nat) {
    events != [] ==>
      && DeadUnderLoad(c, events[..|events| - 1], n)
      && !events[|events| - 1].Success? && |Crowded(c, events).outstanding| <= n
  }

  /** Before the trip every admitted caller has failed or is waiting; after it only probes are admitted, and
      each took a cooldown. `last` is the time of the last event. */
  ghost predicate Loaded(c: Settings, w: Crowd, n: nat, last: real)
    requires Valid(w.breaker)
  {
    var b := w.breaker;
    w.outstanding <= w.asked &&
    if b.state.Closed? then
      w.trippedAt.None? && b.probes == 0 && b.failures < c.threshold && w.calls == b.failures + |w.outstanding|
    else
      && w.trippedAt.Some? && b.failures >= c.threshold && w.calls < c.threshold + n + b.probes
      && w.trippedAt.value <= last && (b.state.Open? ==> b.openedAt.value <= last)
      && Times(b.probes, c.cooldown) <= (if b.state.Open? then b.openedAt.value else last) - w.trippedAt.value
  }

  lemma {:induction false} MoveKeepsLoaded(c: Settings, w: Crowd, e: Event, n: nat, last: real)
    requires c.threshold >= 1 && Valid(w.breaker) && Loaded(c, w, n, last) && last <= e.now && |w.outstanding| <= n
    requires !e.Success? && Fair(w, e)
    ensures Loaded(c, Moved(c, w, e), n, e.now)
  {
    TimesNext(w.breaker.probes, c.cooldown);
  }

  lemma {:induction false} LoadedAlways(c: Settings, events: seq<Event>, n: nat)
    requires c.threshold >= 1 && events != [] && Honest(c, events) && Monotone(events) && DeadUnderLoad(c, events, n)
    ensures Loaded(c, Crowded(c, events), n, events[|events| - 1].now)
  {
    var front, e := events[..|events| - 1], events[|events| - 1];
    if front != [] { LoadedAlways(c, front, n); }
    MoveKeepsLoaded(c, Crowded(c, front), e, n, if front == [] then e.now else front[|front| - 1].now);
  }

  ghost predicate WithinBudget(c: Settings, w: Crowd, n: nat, last: real)
    requires c.cooldown > 0.0
  {
    match w.trippedAt
    case None => w.calls < c.threshold + n
    case Some(trip) => w.calls < c.threshold + n + Cooldowns(last - trip, c.cooldown)
  }

  lemma {:induction false} LoadedIsWithinBudget(c: Settings, w: Crowd, n: nat, last: real)
    requires c.cooldown > 0.0 && Valid(w.breaker) && Loaded(c, w, n, last) && |w.outstanding| <= n
    ensures WithinBudget(c, w, n, last)
  {
    if w.trippedAt.Some? { CooldownsBound(w.breaker.probes, last - w.trippedAt.value, c.cooldown); }
  }

  /** A dead store whose callers overlap, at most `n` at a time: fewer than `threshold + n` calls before
      the circuit is open, and then one per cooldown. */
  lemma {:induction false} DeadStoreUnderLoad(c: Settings, events: seq<Event>, n: nat)
    requires c.threshold >= 1 && c.cooldown > 0.0 && events != []
    requires Honest(c, events) && Monotone(events) && DeadUnderLoad(c, events, n)
    ensures Crowded(c, events).breaker == Exec(c, events)
    ensures WithinBudget(c, Crowded(c, events), n, events[|events| - 1].now)
  {
    CrowdHasTheBreaker(c, events);
    LoadedAlways(c, events, n);
    LoadedIsWithinBudget(c, Crowded(c, events), n, events[|events| - 1].now);
  }

  // ---------------------------------------------------------------- the guarded limiter

  datatype Guard = Guard(breaker: Breaker, failOpenCount: nat, errorCount: nat, storeCalls: nat)

  const UNUSED := Guard(NEW, 0, 0, 0)

  /** One call of `check`: the clock when it asks and when it reports, and what the limiter does
      (None: it raises). */
  datatype Attempt = Attempt(askedAt: real, reportedAt: real, reply: Option<Decision>)

  /** What a caller is told when the store is skipped or fails. */
  function WithoutStore(failOpen: bool): Decision {
    Decision(failOpen, None, After(0.0))
  }

  function Checked(c: Settings, failOpen: bool, g: Guard, k: Attempt): (Guard, Decision)
    requires Valid(g.breaker)
  {
    var (b, ok) := AllowStep(c, g.breaker, k.askedAt);
    if !ok then (g.(breaker := b, failOpenCount := g.failOpenCount + 1), WithoutStore(failOpen))
    else
      match k.reply
      case None =>
        var g' := Guard(FailureStep(c, b, k.reportedAt), g.failOpenCount + 1, g.errorCount + 1, g.storeCalls + 1);
        (g', WithoutStore(failOpen))
      case Some(d) => (g.(breaker := SuccessStep(b), storeCalls := g.storeCalls + 1), d)
  }

  class BreakerGuardedLimiter {
    const failOpen: bool
    const breaker: CircuitBreaker
    var failOpenCount: nat
    var errorCount: nat
    ghost var storeCalls: nat

    ghost function View(): Guard
      reads this, breaker
    {
      Guard(breaker.View(), failOpenCount, errorCount, storeCalls)
    }

    constructor (failOpen: bool, settings: Settings)
      ensures View() == UNUSED && this.failOpen == failOpen && breaker.settings == settings
      ensures fresh(breaker)
    {
      this.failOpen := failOpen;
      breaker := new CircuitBreaker(settings);
      failOpenCount, errorCount, storeCalls := 0, 0, 0;
    }

    method Check(k: Attempt) returns (d: Decision)
      requires Valid(breaker.View())
      modifies this, breaker
      ensures Valid(breaker.View())
      ensures (View(), d) == Checked(breaker.settings, failOpen, old(View()), k)
      ensures var admitted := AllowStep(breaker.settings, old(breaker.View()), k.askedAt).1;
        && storeCalls == old(storeCalls) + (if admitted then 1 else 0)
        && (admitted && k.reply.Some? ==>
              && d == k.reply.value && breaker.state == Closed && breaker.failures == 0
              && failOpenCount == old(failOpenCount) && errorCount == old(errorCount))
        && (!admitted || k.reply.None? ==>
              && d.allowed == failOpen && d.tokens == None && d.retry == After(0.0)
              && failOpenCount == old(failOpenCount) + 1
              && errorCount == old(errorCount) + if admitted then 1 else 0)
    {
      var ok := breaker.Allow(k.askedAt);
      if !ok {
        failOpenCount := failOpenCount + 1;
        return Decision(failOpen, None, After(0.0));
      }
      storeCalls := storeCalls + 1;
      if k.reply.None? {
        breaker.RecordFailure(k.reportedAt);
        errorCount := errorCount + 1;
        failOpenCount := failOpenCount + 1;
        return Decision(failOpen, None, After(0.0));
      }
      breaker.RecordSuccess();
      return k.reply.value;
    }
  }

  function RunChecks(c: Settings, failOpen: bool, checks: seq<Attempt>): (g: Guard)
    ensures Valid(g.breaker)
  {
    if checks == [] then UNUSED
    else Checked(c, failOpen, RunChecks(c, failOpen, checks[..|checks| - 1]), checks[|checks| - 1]).0
  }

  /** Every fail-open answer is accounted for, whatever the store does; and a caller of a store that
      always fails is always told the configured answer. */
  lemma {:induction false} FailOpenIsAccounted(c: Settings, failOpen: bool, checks: seq<Attempt>, next: Attempt)
    ensures var g := RunChecks(c, failOpen, checks);
      && g.failOpenCount == g.breaker.shorted + g.errorCount
      && (next.reply.None? ==> Checked(c, failOpen, g, next).1 == WithoutStore(failOpen))
    decreases checks
  {
    if checks != [] { FailOpenIsAccounted(c, failOpen, checks[..|checks| - 1], next); }
  }

  /** What the callers of a run are told. */
  function Answers(c: Settings, failOpen: bool, checks: seq<Attempt>): (ds: seq<Decision>)
    ensures |ds| == |checks|
  {
    if checks == [] then []
    else
      var front := checks[..|checks| - 1];
      Answers(c, failOpen, front) + [Checked(c, failOpen, RunChecks(c, failOpen, front), checks[|checks| - 1]).1]
  }

  /** A store that always replies is always asked, and its replies reach the callers one by one. */
  lemma {:induction false} HealthyStoreDecides(c: Settings, failOpen: bool, checks: seq<Attempt>)
    requires forall i | 0 <= i < |checks| :: checks[i].reply.Some?
    ensures forall i | 0 <= i < |checks| :: Answers(c, failOpen, checks)[i] == checks[i].reply.value
    ensures var g := RunChecks(c, failOpen, checks);
      && g.storeCalls == |checks| && g.failOpenCount == 0 && g.errorCount == 0
      && g.breaker.state == Closed && g.breaker.failures == 0 && g.breaker.trips == 0
  {
    if checks != [] { HealthyStoreDecides(c, failOpen, checks[..|checks| - 1]); }
  }

  /** In every run, whatever the store did before: an attempt that the breaker admits and the store replies to is
      answered by that reply. */
  lemma {:induction false} RepliesReachCallers(c: Settings, failOpen: bool, checks: seq<Attempt>, next: Attempt)
    ensures var g := RunChecks(c, failOpen, checks); var (g', d) := Checked(c, failOpen, g, next);
      && (g'.storeCalls == g.storeCalls + 1 || g'.storeCalls == g.storeCalls)
      && (g'.storeCalls > g.storeCalls <==> AllowStep(c, g.breaker, next.askedAt).1)
      && (g'.storeCalls > g.storeCalls && next.reply.Some? ==> d == next.reply.value && g'.breaker.state == Closed)
      && (g'.storeCalls == g.storeCalls || next.reply.None? ==>
            d.allowed == failOpen && d.tokens == None && d.retry == After(0.0))
  {
  }

  ghost predicate DeadStore(checks: seq<Attempt>) {
    && (forall i | 0 <= i < |checks| :: checks[i].reply.None? && checks[i].askedAt <= checks[i].reportedAt)
    && (forall i, j | 0 <= i < j < |checks| :: checks[i].reportedAt <= checks[j].askedAt)
  }

  /** The time of the latest report. */
  function LastReport(checks: seq<Attempt>): real {
    if checks == [] then 0.0 else checks[|checks| - 1].reportedAt
  }

  /** After `n` checks against a dead store; the circuit tripped at `tripAt`, the last report was at `last`. */
  ghost predicate DeadState(c: Settings, g: Guard, n: nat, tripAt: real, last: real) {
    if n < c.threshold then g.breaker.state.Closed? && g.storeCalls == g.breaker.failures == n
    else
      && g.breaker.state.Open? && g.breaker.openedAt.Some? && g.storeCalls >= c.threshold
      && g.breaker.openedAt.value <= last
      && g.breaker.openedAt.value - tripAt >= Times(g.storeCalls - c.threshold, c.cooldown)
      && g.breaker.failures >= c.threshold
  }

  lemma {:induction false} DeadStep(c: Settings, failOpen: bool, g: Guard, n: nat, k: Attempt, tripAt: real, last: real)
    requires Valid(g.breaker) && c.threshold >= 1 && DeadState(c, g, n, tripAt, last)
    requires k.reply.None? && k.askedAt <= k.reportedAt && (n > 0 ==> last <= k.askedAt)
    requires n + 1 == c.threshold ==> tripAt == k.reportedAt
    ensures DeadState(c, Checked(c, failOpen, g, k).0, n + 1, tripAt, k.reportedAt)
  {
    TimesNext(g.storeCalls - c.threshold, c.cooldown);
  }

  lemma {:induction false} DeadStoreState(c: Settings, failOpen: bool, checks: seq<Attempt>, tripAt: real)
    requires c.threshold >= 1 && DeadStore(checks)
    requires |checks| >= c.threshold ==> tripAt == checks[c.threshold - 1].reportedAt
    ensures DeadState(c, RunChecks(c, failOpen, checks), |checks|, tripAt, LastReport(checks))
  {
    if checks != [] {
      var n := |checks| - 1;
      var front := checks[..n];
      DeadStoreState(c, failOpen, front, tripAt);
      DeadStep(c, failOpen, RunChecks(c, failOpen, front), n, checks[n], tripAt, LastReport(front));
    }
  }

  /** A dead store is called at most `threshold` times, and then once per cooldown. */
  lemma {:induction false} DeadStoreBound(c: Settings, failOpen: bool, checks: seq<Attempt>)
    requires c.threshold >= 1 && c.cooldown > 0.0 && DeadStore(checks)
    ensures var calls := RunChecks(c, failOpen, checks).storeCalls;
      && (|checks| <= c.threshold ==> calls == |checks|)
      && (|checks| >= c.threshold ==>
            var sinceTrip := checks[|checks| - 1].reportedAt - checks[c.threshold - 1].reportedAt;
            calls <= c.threshold + Cooldowns(sinceTrip, c.cooldown))
  {
    DeadStoreState(c, failOpen, checks, if |checks| >= c.threshold then checks[c.threshold - 1].reportedAt else 0.0);
    if |checks| >= c.threshold {
      var calls := RunChecks(c, failOpen, checks).storeCalls;
      CooldownsBound(calls - c.threshold, LastReport(checks) - checks[c.threshold - 1].reportedAt, c.cooldown);
    }
  }
}
