/**
 Snowflake ids (src/shortener/ids.py, `SnowflakeGenerator` and `decode_id`).

 Shifts are multiplication and floor division by powers of two; the fields of an id do not overlap, so
 the `|` of the fields is their sum and `&` with a mask is a remainder.
 */
module Snowflake {
  import opened Prelude
  import opened Base62

  const EPOCH_MS: int := 1_735_689_600_000
  const MAX_INSTANCE: nat := 1023
  const MAX_SEQUENCE: nat := 4095
  const SEQUENCE_SPAN: int := 4096        // 1 << SEQUENCE_BITS
  const TIME_UNIT: int := 4_194_304       // 1 << (INSTANCE_BITS + SEQUENCE_BITS)
  const MAX_DRIFT_MS: int := 5_000

  /** The fields of a generator; it has issued ids up to (`lastMs`, `sequence`). */
  datatype Gen = Gen(instance: nat, lastMs: int, sequence: nat)
  {
    predicate Valid() {
      instance <= MAX_INSTANCE && sequence <= MAX_SEQUENCE
    }
  }

  function Fresh(instance: nat): Gen {
    Gen(instance, -1, 0)
  }

  function Pack(g: Gen): int {
    (g.lastMs - EPOCH_MS) * TIME_UNIT + g.instance * SEQUENCE_SPAN + g.sequence
  }

  /** Can an id be issued at the clock reading `now` without waiting? */
  predicate CanIssue(g: Gen, now: int) {
    now > g.lastMs || (now == g.lastMs && g.sequence < MAX_SEQUENCE)
  }

  function Issue(g: Gen, now: int): Gen
    requires CanIssue(g, now)
  {
    if now == g.lastMs then g.(sequence := g.sequence + 1) else g.(lastMs := now, sequence := 0)
  }

  datatype IdError = ClockMovedBackwards(drift: int) | Codec(error: CodecError)

  ghost predicate Exceeds(readings: nat -> int, bound: int, from: nat) {
    exists i: nat :: i >= from && readings(i) > bound
  }

  /** However far the clock has been read, it will still pass every time. */
  ghost predicate Advances(readings: nat -> int) {
    forall bound, from :: Exceeds(readings, bound, from)
  }

  /** The first reading that can issue, counted from `from`, is number `i`. */
  ghost predicate IssuesAt(g: Gen, readings: nat -> int, from: nat, i: nat) {
    i >= from && CanIssue(g, readings(i)) && forall j: nat | from <= j < i :: !CanIssue(g, readings(j))
  }

  /** A call of `next_id` returns: it refuses at once, or some reading will do. A clock that stands still is
      enough as long as there are sequence numbers left. */
  ghost predicate Returns(g: Gen, readings: nat -> int, from: nat) {
    g.lastMs - readings(from) > MAX_DRIFT_MS || exists i: nat :: IssuesAt(g, readings, from, i)
  }

  lemma {:induction false} FirstThatIssues(g: Gen, readings: nat -> int, from: nat, i: nat)
    requires i >= from && CanIssue(g, readings(i))
    ensures exists k: nat :: IssuesAt(g, readings, from, k)
    decreases i - from
  {
    if CanIssue(g, readings(from)) {
      assert IssuesAt(g, readings, from, from);
    } else {
      FirstThatIssues(g, readings, from + 1, i);
      var k: nat :| IssuesAt(g, readings, from + 1, k);
      assert IssuesAt(g, readings, from, k);
    }
  }

  /** With a clock that advances every call returns. */
  lemma {:induction false} AdvancingClockReturns(g: Gen, readings: nat -> int, from: nat)
    requires Advances(readings)
    ensures exists i: nat :: IssuesAt(g, readings, from, i)
    ensures Returns(g, readings, from)
  {
    assert Exceeds(readings, g.lastMs, from);
    var i: nat :| i >= from && readings(i) > g.lastMs;
    FirstThatIssues(g, readings, from, i);
  }

  /** What one call of `next_code` does with a clock whose readings from number `from` on are still to come: its
      result, the generator after it, and the number of the next reading. */
  ghost function NextCodeOf(g: Gen, readings: nat -> int, from: nat): (Result<string, IdError>, Gen, nat)
    requires Returns(g, readings, from)
  {
    if g.lastMs - readings(from) > MAX_DRIFT_MS then
      (Err(ClockMovedBackwards(g.lastMs - readings(from))), g, from + 1)
    else
      var i: nat :| IssuesAt(g, readings, from, i);
      var next := Issue(g, readings(i));
      (if Pack(next) < 0 then Err(Codec(NegativeId)) else Ok(Encode(Pack(next))), next, i + 1)
  }

  // ---------------------------------------------------------------- the object

  /** A clock as the sequence of its readings. */
  class Clock {
    const readings: nat -> int
    var taken: nat

    constructor (readings: nat -> int)
      ensures this.readings == readings && taken == 0
    {
      this.readings, taken := readings, 0;
    }

    method Read() returns (now: int)
      modifies this
      ensures now == readings(old(taken)) && taken == old(taken) + 1
    {
      now := readings(taken);
      taken := taken + 1;
    }
  }

  class SnowflakeGenerator {
    const instance: nat
    const clock: Clock
    var lastMs: int
    var sequence: nat

    ghost predicate Valid()
      reads this
    {
      View().Valid()
    }

    ghost function View(): Gen
      reads this
    {
      Gen(instance, lastMs, sequence)
    }

    constructor (instance: nat, clock: Clock)
      requires instance <= MAX_INSTANCE
      ensures Valid() && View() == Fresh(instance) && this.clock == clock
    {
      this.instance, this.clock := instance, clock;
      lastMs, sequence := -1, 0;
    }

    /** Refuses if the first reading is more than five seconds behind; otherwise takes readings until the
        first one that can issue, and issues there. Both waiting loops end if there is such a reading. */
    method NextId() returns (r: Result<int, IdError>)
      requires Valid() && Returns(View(), clock.readings, clock.taken)
      modifies this, clock
      ensures Valid()
      ensures var first := clock.readings(old(clock.taken));
        r.Err? <==> old(lastMs) - first > MAX_DRIFT_MS
      ensures r.Err? ==> r.error == ClockMovedBackwards(old(lastMs) - clock.readings(old(clock.taken)))
      ensures r.Err? ==> View() == old(View()) && clock.taken == old(clock.taken) + 1
      ensures r.Ok? ==>
                && clock.taken > 0 && IssuesAt(old(View()), clock.readings, old(clock.taken), clock.taken - 1)
                && View() == Issue(old(View()), clock.readings(clock.taken - 1)) && r.value == Pack(View())
      ensures r.Err? <==> old(lastMs) - clock.readings(old(clock.taken)) > 5_000
      ensures r.Ok? ==>
                && clock.taken > 0 && lastMs == clock.readings(clock.taken - 1)
                && (lastMs == old(lastMs) ==> sequence == old(sequence) + 1 <= 4095)
                && (lastMs != old(lastMs) ==> lastMs > old(lastMs) && sequence == 0)
    {
      ghost var before := View();
      var now := clock.Read();
      if now < lastMs {
        if lastMs - now > MAX_DRIFT_MS {
          return Err(ClockMovedBackwards(lastMs - now));
        }
        now := SpinPast(lastMs - 1, now);
      }
      if now == lastMs {
        sequence := sequence + 1;
        if sequence > MAX_SEQUENCE {
          now := SpinPast(lastMs, now);
          sequence := 0;
        }
      } else {
        sequence := 0;
      }
      lastMs := now;
      return Ok((now - EPOCH_MS) * TIME_UNIT + instance * SEQUENCE_SPAN + sequence);
    }

    /** `while now <= bound: now = self._now()` */
    method SpinPast(bound: int, start: int) returns (now: int)
      requires Exceeds(clock.readings, bound, clock.taken)
      requires clock.taken > 0 && clock.readings(clock.taken - 1) == start
      modifies clock
      ensures now > bound && clock.taken >= old(clock.taken) && clock.readings(clock.taken - 1) == now
      ensures forall i: nat | old(clock.taken) - 1 <= i < clock.taken - 1 :: clock.readings(i) <= bound
    {
      now := start;
      ghost var stop: nat :| stop >= clock.taken && clock.readings(stop) > bound;
      while now <= bound
        invariant old(clock.taken) <= clock.taken <= stop + 1 && clock.readings(clock.taken - 1) == now
        invariant forall i: nat | old(clock.taken) - 1 <= i < clock.taken - 1 :: clock.readings(i) <= bound
        decreases stop + 1 - clock.taken
      {
        now := clock.Read();
      }
    }

    /** A refusal names its cause: the last reading was far behind, or the id issued there is negative. */
    ghost predicate FailureExplained(error: IdError)
      reads this, clock
    {
      match error
      case ClockMovedBackwards(drift) =>
        clock.taken > 0 && drift == lastMs - clock.readings(clock.taken - 1) && drift > MAX_DRIFT_MS
      case Codec(e) => e == NegativeId && Pack(View()) < 0
    }

    method NextCode() returns (r: Result<string, IdError>)
      requires Valid() && Returns(View(), clock.readings, clock.taken)
      modifies this, clock
      ensures Valid()
      ensures View() == old(View()) ==> r.Err? && r.error.ClockMovedBackwards?
      ensures r.Err? ==> FailureExplained(r.error)
      ensures View() != old(View()) ==>
                && clock.taken > 0 && IssuesAt(old(View()), clock.readings, old(clock.taken), clock.taken - 1)
                && lastMs == clock.readings(clock.taken - 1) && View() == Issue(old(View()), lastMs)
                && old(lastMs) - clock.readings(old(clock.taken)) <= MAX_DRIFT_MS
      ensures (r, View(), clock.taken) == NextCodeOf(old(View()), clock.readings, old(clock.taken))
      ensures View() != old(View()) ==>
                r == if Pack(View()) < 0 then Err(Codec(NegativeId)) else Ok(Encode(Pack(View())))
    {
      var id := NextId();
      if id.Err? {
        return Err(id.error);
      }
      var code := EncodeBase62(id.value);
      return if code.Ok? then Ok(code.value) else Err(Codec(code.error));
    }
  }

  // ---------------------------------------------------------------- one generator

  datatype Parts = Parts(timestampMs: int, instance: int, sequence: int)

  function DecodeId(id: int): Parts {
    Parts(id / TIME_UNIT + EPOCH_MS, id / SEQUENCE_SPAN % 1024, id % SEQUENCE_SPAN)
  }

  /** `decode_id` recovers what was packed, before the epoch as well. */
  lemma {:induction false} DecodeRecoversParts(g: Gen)
    requires g.Valid()
    ensures DecodeId(Pack(g)) == Parts(g.lastMs, g.instance, g.sequence)
  {
    var ms := g.lastMs - EPOCH_MS;
    var high := ms * 1024 + g.instance;
    assert Pack(g) == high * SEQUENCE_SPAN + g.sequence;
    assert Pack(g) / SEQUENCE_SPAN == high;
    assert high % 1024 == g.instance;
    assert Pack(g) / TIME_UNIT == ms;
  }

  lemma {:induction false} PackIsInjective(g: Gen, h: Gen)
    requires g.Valid() && h.Valid() && Pack(g) == Pack(h)
    ensures g == h
  {
    DecodeRecoversParts(g);
    DecodeRecoversParts(h);
  }

  lemma {:induction false} IssueIncreases(g: Gen, now: int)
    requires g.Valid() && CanIssue(g, now)
    ensures Issue(g, now).Valid() && Issue(g, now).instance == g.instance
    ensures Pack(Issue(g, now)) > Pack(g)
  {
  }

  /** An id tells the reading it was issued at; in a millisecond of its own it is number 0, in the one of the id
      before it the next number. */
  lemma {:induction false} IssueTells(g: Gen, now: int)
    requires g.Valid() && CanIssue(g, now)
    ensures DecodeId(Pack(Issue(g, now)))
         == Parts(now, g.instance, if now == g.lastMs then g.sequence + 1 else 0)
    ensures CanIssue(g, now) <==> now > g.lastMs || (now == g.lastMs && g.sequence < 4095)
  {
    IssueIncreases(g, now);
    DecodeRecoversParts(Issue(g, now));
  }

  /** The generator after `n` more ids at the time `now`. */
  function IssuedAt(g: Gen, now: int, n: nat): Option<Gen> {
    if n == 0 then Some(g)
    else
      var h := IssuedAt(g, now, n - 1);
      if h.Some? && CanIssue(h.value, now) then Some(Issue(h.value, now)) else None
  }

  /** A millisecond has exactly 4096 ids, numbered from 0. */
  lemma {:induction false} IdsPerMillisecond(g: Gen, now: int, n: nat)
    requires g.Valid() && now > g.lastMs
    ensures IssuedAt(g, now, n).Some? <==> n <= 4096
    ensures 0 < n <= 4096 ==> IssuedAt(g, now, n) == Some(Gen(g.instance, now, n - 1))
  {
    if n > 0 { IdsPerMillisecond(g, now, n - 1); }
  }

  /** A new generator issues number 0 at its first reading from time 0 on. */
  lemma {:induction false} FirstIdIsZero(instance: nat, now: int)
    requires instance <= MAX_INSTANCE && now >= 0
    ensures CanIssue(Fresh(instance), now) && Issue(Fresh(instance), now) == Gen(instance, now, 0)
  {
  }

  // ---------------------------------------------------------------- a fleet

  /** One call of `next_id` on generator `who`, which issues at reading `now` or raises. */
  datatype Event = Event(who: nat, now: int, raises: bool)

  /** Generators of a fleet and everything they issued, oldest first. */
  datatype Fleet = Fleet(gens: seq<Gen>, issued: seq<Gen>)

  function Step(f: Fleet, e: Event): Fleet {
    if e.who < |f.gens| && !e.raises && CanIssue(f.gens[e.who], e.now) then
      var g := Issue(f.gens[e.who], e.now);
      Fleet(f.gens[e.who := g], f.issued + [g])
    else f
  }

  function Exec(f: Fleet, events: seq<Event>): Fleet {
    if events == [] then f else Step(Exec(f, events[..|events| - 1]), events[|events| - 1])
  }

  ghost predicate DistinctInstances(gens: seq<Gen>) {
    forall i, j | 0 <= i < j < |gens| :: gens[i].instance != gens[j].instance
  }

  ghost predicate FleetOk(f: Fleet) {
    && DistinctInstances(f.gens)
    && (forall i | 0 <= i < |f.gens| :: f.gens[i].Valid())
    && (forall k | 0 <= k < |f.issued| :: f.issued[k].Valid())
    && (forall i, k | 0 <= i < |f.gens| && 0 <= k < |f.issued| && f.issued[k].instance == f.gens[i].instance ::
          Pack(f.issued[k]) <= Pack(f.gens[i]))
    && (forall j, k | 0 <= j < k < |f.issued| && f.issued[j].instance == f.issued[k].instance ::
          Pack(f.issued[j]) < Pack(f.issued[k]))
  }

  /** A call that does not raise and finds a reading that can issue does issue there, and moves no other
      generator. */
  lemma {:induction false} CallIssues(f: Fleet, e: Event)
    requires e.who < |f.gens| && f.gens[e.who].Valid()
    ensures var f' := Step(f, e);
      if !e.raises && CanIssue(f.gens[e.who], e.now) then
        && |f'.issued| == |f.issued| + 1 && f'.issued[..|f.issued|] == f.issued
        && DecodeId(Pack(f'.issued[|f.issued|])).timestampMs == e.now
        && f'.issued[|f.issued|].instance == f.gens[e.who].instance
        && f'.gens == f.gens[e.who := f'.issued[|f.issued|]]
      else f' == f
  {
    if CanIssue(f.gens[e.who], e.now) { IssueTells(f.gens[e.who], e.now); }
  }

  lemma {:induction false} StepKeepsFleet(f: Fleet, e: Event)
    requires FleetOk(f)
    ensures FleetOk(Step(f, e))
  {
    if e.who < |f.gens| && !e.raises && CanIssue(f.gens[e.who], e.now) {
      IssueIncreases(f.gens[e.who], e.now);
    }
  }

  lemma {:induction false} ExecKeepsFleet(f: Fleet, events: seq<Event>)
    requires FleetOk(f)
    ensures FleetOk(Exec(f, events))
  {
    if events != [] {
      ExecKeepsFleet(f, events[..|events| - 1]);
      StepKeepsFleet(Exec(f, events[..|events| - 1]), events[|events| - 1]);
    }
  }

  ghost predicate FreshFleet(f: Fleet) {
    && f.issued == [] && DistinctInstances(f.gens)
    && forall i | 0 <= i < |f.gens| :: f.gens[i] == Fresh(f.gens[i].instance) && f.gens[i].instance <= MAX_INSTANCE
  }

  /** Ids never repeat across the fleet, ids of one generator strictly increase, and every issued sequence
      number fits: for arbitrary clocks, stepping back or not, and calls that raise. */
  lemma {:induction false} IdsAreUnique(f: Fleet, events: seq<Event>)
    requires FreshFleet(f)
    ensures var issued := Exec(f, events).issued;
      && (forall k | 0 <= k < |issued| :: issued[k].Valid())
      && (forall j, k | 0 <= j < k < |issued| :: Pack(issued[j]) != Pack(issued[k]))
      && (forall j, k | 0 <= j < k < |issued| && issued[j].instance == issued[k].instance ::
            Pack(issued[j]) < Pack(issued[k]))
  {
    ExecKeepsFleet(f, events);
    var issued := Exec(f, events).issued;
    forall j, k | 0 <= j < k < |issued| ensures Pack(issued[j]) != Pack(issued[k]) {
      if Pack(issued[j]) == Pack(issued[k]) { PackIsInjective(issued[j], issued[k]); }
    }
  }

  // ---------------------------------------------------------------- code length

  /** Codes have at most 10 characters before this millisecond of May 2031 and at least 11 after it. */
  const LAST_TEN_MS: int := 1_935_794_162_251

  lemma {:induction false} Pow62Of10()
    ensures Pow62(10) == 839_299_365_868_340_224
  {
    assert Pow62(2) == 3844;
    assert Pow62(4) == 14_776_336;
    assert Pow62(6) == 56_800_235_584;
    assert Pow62(8) == 218_340_105_584_896;
  }

  lemma {:induction false} ElevenCharactersFrom2031(g: Gen)
    requires g.Valid() && g.lastMs >= EPOCH_MS
    ensures Pack(g) >= 0
    ensures g.lastMs < LAST_TEN_MS ==> |Encode(Pack(g))| <= 10
    ensures g.lastMs > LAST_TEN_MS ==> |Encode(Pack(g))| >= 11
  {
    var id: nat := Pack(g);
    Pow62Of10();
    assert g.lastMs > LAST_TEN_MS ==> id >= 200_104_562_252 * TIME_UNIT > Pow62(10);
    assert g.lastMs < LAST_TEN_MS ==> id < 200_104_562_251 * TIME_UNIT < Pow62(10);
    if id > 0 {
      DigitsBounds(id);
      var len := |Encode(id)|;
      if len >= 11 { Pow62Grows(10, len - 1); } else { Pow62Grows(len, 10); }
    }
  }
}
