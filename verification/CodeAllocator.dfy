/**
 Allocating codes for new links (src/shortener/ids.py, `CodeAllocator`), with either generator.
 */
module CodeAllocation {
  import opened Prelude
  import opened Base62
  import opened Snowflake
  import opened RandomCodes
  import opened LinkStores

  datatype AllocationError = Exhausted | Refused(error: IdError)

  /** Some row has the code of the id that `h` issued last. */
  predicate Stored(rows: Rows, h: Gen) {
    h.Valid() && Pack(h) >= 0 && Encode(Pack(h)) in rows
  }

  /** No row uses a code that `g` has yet to issue. */
  ghost predicate Behind(rows: Rows, g: Gen) {
    forall h: Gen | Stored(rows, h) && h.instance == g.instance :: Pack(h) <= Pack(g)
  }

  /** Then the next code is free, and stays behind its generator once it is used. */
  lemma {:induction false} NextCodeIsFree(rows: Rows, g: Gen, now: int, link: Link)
    requires g.Valid() && CanIssue(g, now) && Pack(Issue(g, now)) >= 0 && Behind(rows, g)
    ensures Encode(Pack(Issue(g, now))) !in rows
    ensures Behind(rows[Encode(Pack(Issue(g, now))) := link], Issue(g, now))
  {
    IssueIncreases(g, now);
    var next := Issue(g, now);
    var rows' := rows[Encode(Pack(next)) := link];
    assert !Stored(rows, next);
    forall h: Gen | Stored(rows', h) && h.instance == next.instance ensures Pack(h) <= Pack(next) {
      assert Stored(rows, h) || Encode(Pack(h)) == Encode(Pack(next));
      if Encode(Pack(h)) == Encode(Pack(next)) { EncodeIsInjective(Pack(h), Pack(next)); }
    }
  }

  /** Issuing an id whose code is not stored keeps the generator ahead of the store. */
  lemma {:induction false} IssueStaysAhead(rows: Rows, g: Gen, now: int)
    requires g.Valid() && CanIssue(g, now) && Behind(rows, g)
    ensures Behind(rows, Issue(g, now))
  {
    IssueIncreases(g, now);
  }

  // ---------------------------------------------------------------- generators as supplies of codes

  /** What a generator still has to give: a snowflake generator with the clock readings to come, or a random
      one with the picks to come. */
  datatype Supply =
    | Clocked(g: Gen, readings: nat -> int, from: nat)
    | Drawn(length: nat, picks: nat -> nat, from: nat)

  datatype Draw = Code(code: string) | Fails(error: IdError) | Hangs

  ghost predicate WellFormed(s: Supply) {
    match s
    case Clocked(g, _, _) => g.Valid()
    case Drawn(_, picks, _) => InAlphabet(picks)
  }

  /** One call of `next_code`. */
  ghost function Next(s: Supply): (Draw, Supply) {
    match s
    case Clocked(g, readings, from) =>
      if !Returns(g, readings, from) then (Hangs, s)
      else
        var (r, g', from') := NextCodeOf(g, readings, from);
        (if r.Ok? then Code(r.value) else Fails(r.error), Clocked(g', readings, from'))
    case Drawn(length, picks, from) =>
      if !InAlphabet(picks) then (Hangs, s)
      else (Code(Spelled(picks, from, length)), Drawn(length, picks, from + length))
  }

  /** `draws` is what all calls to come return, and `rests` what is left before each of them. */
  ghost predicate Runs(s: Supply, draws: nat -> Draw, rests: nat -> Supply) {
    rests(0) == s && forall n: nat {:trigger Next(rests(n))} :: Next(rests(n)) == (draws(n), rests(n + 1))
  }

  ghost function After(s: Supply, n: nat): Supply {
    if n == 0 then s else Next(After(s, n - 1)).1
  }

  /** Every generator has such a run. */
  lemma {:induction false} RunExists(s: Supply) returns (draws: nat -> Draw, rests: nat -> Supply)
    ensures Runs(s, draws, rests)
  {
    draws, rests := (n: nat) => Next(After(s, n)).0, (n: nat) => After(s, n);
  }

  // ---------------------------------------------------------------- attempts

  ghost predicate Taken(rows: Rows, d: Draw) {
    d.Code? && d.code in rows
  }

  /** Every attempt from the `i`th on, of `n`, returns: the next one is made only if the code was taken. */
  ghost predicate AllReturn(rows: Rows, draws: nat -> Draw, i: nat, n: nat)
    decreases n - i
  {
    i < n ==> !draws(i).Hangs? && (Taken(rows, draws(i)) ==> AllReturn(rows, draws, i + 1, n))
  }

  /** How drawing codes ended: with a free code or a refusal, or with neither (None); and after how many
      collisions. */
  datatype Trial = Trial(result: Option<Result<string, IdError>>, collisions: nat)

  ghost function Tried(rows: Rows, draws: nat -> Draw, i: nat, n: nat): Trial
    requires i <= n && AllReturn(rows, draws, i, n)
    decreases n - i
  {
    if i == n then Trial(None, n)
    else
      match draws(i)
      case Fails(e) => Trial(Some(Err(e)), i)
      case Code(c) => if c in rows then Tried(rows, draws, i + 1, n) else Trial(Some(Ok(c)), i)
  }

  /** The first free code among the first `n` is found, unless a refusal comes before it; and there is neither
      exactly if all `n` are taken. */
  lemma {:induction false} FindsFirstFree(rows: Rows, draws: nat -> Draw, i: nat, n: nat)
    requires i <= n && AllReturn(rows, draws, i, n) && forall j: nat | j < i :: Taken(rows, draws(j))
    ensures var t := Tried(rows, draws, i, n); var k := t.collisions;
      && k <= n && (forall j: nat | j < k :: Taken(rows, draws(j)))
      && (t.result.None? <==> k == n)
      && (t.result.None? <==> forall j: nat | j < n :: Taken(rows, draws(j)))
      && match t.result
         case None => true
         case Some(Ok(code)) => draws(k) == Code(code) && code !in rows
         case Some(Err(e)) => draws(k) == Fails(e)
    decreases n - i
  {
    if i < n && Taken(rows, draws(i)) { FindsFirstFree(rows, draws, i + 1, n); }
  }

  /** A search that has passed over the first `k` draws returns from the next one, and stops there unless it is
      taken too. */
  lemma {:induction false} StopsAt(rows: Rows, draws: nat -> Draw, i: nat, k: nat, n: nat)
    requires i <= k <= n && AllReturn(rows, draws, i, n) && forall j: nat | i <= j < k :: Taken(rows, draws(j))
    ensures k < n ==> !draws(k).Hangs?
    ensures k == n ==> Tried(rows, draws, i, n) == Trial(None, n)
    ensures k < n && draws(k).Fails? ==> Tried(rows, draws, i, n) == Trial(Some(Err(draws(k).error)), k)
    ensures k < n && draws(k).Code? && draws(k).code !in rows ==>
              Tried(rows, draws, i, n) == Trial(Some(Ok(draws(k).code)), k)
    decreases k - i
  {
    if i < k { StopsAt(rows, draws, i + 1, k, n); }
  }

  /** The first `k` draws are all taken. */
  ghost predicate AllTaken(rows: Rows, draws: nat -> Draw, k: nat) {
    k > 0 ==> AllTaken(rows, draws, k - 1) && Taken(rows, draws(k - 1))
  }

  lemma {:induction false} AllTakenEach(rows: Rows, draws: nat -> Draw, k: nat)
    requires AllTaken(rows, draws, k)
    ensures forall j: nat | j < k :: Taken(rows, draws(j))
  {
    if k > 0 { AllTakenEach(rows, draws, k - 1); }
  }

  lemma {:induction false} StopsAfter(rows: Rows, draws: nat -> Draw, k: nat, n: nat)
    requires k <= n && AllReturn(rows, draws, 0, n) && AllTaken(rows, draws, k)
    ensures k < n ==> !draws(k).Hangs?
    ensures k == n ==> Tried(rows, draws, 0, n) == Trial(None, n)
    ensures k < n && draws(k).Fails? ==> Tried(rows, draws, 0, n) == Trial(Some(Err(draws(k).error)), k)
    ensures k < n && draws(k).Code? && draws(k).code !in rows ==>
              Tried(rows, draws, 0, n) == Trial(Some(Ok(draws(k).code)), k)
  {
    AllTakenEach(rows, draws, k);
    StopsAt(rows, draws, 0, k, n);
  }

  lemma {:induction false} NeverHangs(rows: Rows, draws: nat -> Draw, i: nat, n: nat)
    requires forall j: nat :: !draws(j).Hangs?
    ensures AllReturn(rows, draws, i, n)
    decreases n - i
  {
    if i < n { NeverHangs(rows, draws, i + 1, n); }
  }

  lemma {:induction false} StaysClocked(s: Supply, draws: nat -> Draw, rests: nat -> Supply, n: nat)
    requires Runs(s, draws, rests) && s.Clocked? && Advances(s.readings)
    ensures rests(n).Clocked? && rests(n).readings == s.readings && !draws(n).Hangs?
  {
    if n > 0 {
      StaysClocked(s, draws, rests, n - 1);
      assert Next(rests(n - 1)) == (draws(n - 1), rests(n));
    }
    AdvancingClockReturns(rests(n).g, s.readings, rests(n).from);
    assert Next(rests(n)).0 == draws(n);
  }

  lemma {:induction false} DrawnStep(s: Supply)
    requires s.Drawn? && InAlphabet(s.picks)
    ensures Next(s) == (Code(Spelled(s.picks, s.from, s.length)), Drawn(s.length, s.picks, s.from + s.length))
  {
  }

  /** Random codes need no clock, and are spelled by consecutive picks. */
  lemma {:induction false} StaysDrawn(s: Supply, draws: nat -> Draw, rests: nat -> Supply, n: nat)
    requires Runs(s, draws, rests) && s.Drawn? && InAlphabet(s.picks)
    ensures rests(n).Drawn? && rests(n).length == s.length && rests(n).picks == s.picks
    ensures draws(n) == Code(Spelled(s.picks, rests(n).from, s.length))
    ensures rests(n + 1) == Drawn(s.length, s.picks, rests(n).from + s.length)
  {
    if n > 0 { StaysDrawn(s, draws, rests, n - 1); }
    DrawnStep(rests(n));
    assert Next(rests(n)) == (draws(n), rests(n + 1));
  }

  lemma {:induction false} AdvancingClockAllocates(
    rows: Rows, s: Supply, draws: nat -> Draw, rests: nat -> Supply, n: nat)
    requires Runs(s, draws, rests) && s.Clocked? && Advances(s.readings)
    ensures AllReturn(rows, draws, 0, n)
  {
    forall j: nat ensures !draws(j).Hangs? { StaysClocked(s, draws, rests, j); }
    NeverHangs(rows, draws, 0, n);
  }

  lemma {:induction false} RandomAllocates(rows: Rows, s: Supply, draws: nat -> Draw, rests: nat -> Supply, n: nat)
    requires Runs(s, draws, rests) && s.Drawn? && InAlphabet(s.picks)
    ensures AllReturn(rows, draws, 0, n)
  {
    forall j: nat ensures !draws(j).Hangs? { StaysDrawn(s, draws, rests, j); }
    NeverHangs(rows, draws, 0, n);
  }

  /** A snowflake generator that no row is ahead of. */
  ghost predicate Ahead(rows: Rows, s: Supply) {
    s.Clocked? && s.g.Valid() && Behind(rows, s.g)
  }

  /** Its next code is free, and it stays ahead, whether the code is used or not. */
  lemma {:induction false} AheadDrawsFree(rows: Rows, s: Supply, link: Link)
    requires Ahead(rows, s)
    ensures Ahead(rows, Next(s).1)
    ensures Next(s).0.Code? ==> Next(s).0.code !in rows && Ahead(rows[Next(s).0.code := link], Next(s).1)
  {
    if Returns(s.g, s.readings, s.from) && s.g.lastMs - s.readings(s.from) <= MAX_DRIFT_MS {
      var (_, g', from') := NextCodeOf(s.g, s.readings, s.from);
      var now := s.readings(from' - 1);
      IssueIncreases(s.g, now);
      IssueStaysAhead(rows, s.g, now);
      if Pack(g') >= 0 { NextCodeIsFree(rows, s.g, now, link); }
    }
  }

  /** A clock that stands still is enough for a generator that is ahead of the store and has numbers left. */
  lemma {:induction false} FrozenClockAllocates(rows: Rows, s: Supply, draws: nat -> Draw, rests: nat -> Supply, n: nat)
    requires Runs(s, draws, rests) && Ahead(rows, s)
    requires s.g.sequence < MAX_SEQUENCE && s.readings(s.from) == s.g.lastMs
    ensures AllReturn(rows, draws, 0, n)
  {
    assert IssuesAt(s.g, s.readings, s.from, s.from);
    assert Next(rests(0)).0 == draws(0);
    AheadDrawsFree(rows, s, Link("", "", 0, None));
  }

  /** A snowflake generator that is ahead of the store succeeds with its first code, or refuses; and stays ahead. */
  lemma {:induction false} AheadNeverCollides(
    rows: Rows, s: Supply, draws: nat -> Draw, rests: nat -> Supply, n: nat, link: Link)
    requires Runs(s, draws, rests) && Ahead(rows, s) && n >= 1 && AllReturn(rows, draws, 0, n)
    ensures var t := Tried(rows, draws, 0, n);
      && t.collisions == 0 && t.result.Some?
      && Ahead(if t.result.value.Ok? then rows[t.result.value.value := link] else rows, rests(1))
  {
    assert Next(rests(0)) == (draws(0), rests(1));
    AheadDrawsFree(rows, s, link);
  }

  // ---------------------------------------------------------------- the objects

  /** `build_generator`: either scheme. */
  datatype CodeGenerator = Sequential(snowflake: SnowflakeGenerator) | Random(random: RandomCodeGenerator)
  {
    function Repr(): set<object> {
      match this
      case Sequential(g) => {g, g.clock}
      case Random(g) => {g.rng}
    }

    ghost function View(): Supply
      reads Repr()
    {
      match this
      case Sequential(g) => Clocked(g.View(), g.clock.readings, g.clock.taken)
      case Random(g) => Drawn(g.length, g.rng.picks, g.rng.taken)
    }

    method NextCode() returns (r: Result<string, IdError>)
      requires WellFormed(View()) && !Next(View()).0.Hangs?
      modifies Repr()
      ensures WellFormed(View())
      ensures (if r.Ok? then Code(r.value) else Fails(r.error), View()) == Next(old(View()))
    {
      match this {
        case Sequential(g) => r := g.NextCode();
        case Random(g) =>
          var code := g.NextCode();
          r := Ok(code);
      }
    }
  }

  class CodeAllocator {
    const generator: CodeGenerator
    const maxAttempts: nat
    var created: nat
    var collisions: nat

    ghost predicate Valid()
      reads this, generator.Repr()
    {
      maxAttempts >= 1 && WellFormed(generator.View()) && this !in generator.Repr()
    }

    constructor (generator: CodeGenerator, maxAttempts: nat)
      requires maxAttempts >= 1 && WellFormed(generator.View())
      ensures Valid()
      ensures this.generator == generator && this.maxAttempts == maxAttempts && created == 0 && collisions == 0
    {
      this.generator, this.maxAttempts := generator, maxAttempts;
      created, collisions := 0, 0;
    }

    /** Draws codes until one is free, at most `maxAttempts`, and writes the link under it; otherwise the store
        stays as it was. `draws` and `rests` are the generator's run. */
    method Allocate(store: LinkStore, target: string, ttlSeconds: Option<int>, wallMs: int,
                    ghost draws: nat -> Draw, ghost rests: nat -> Supply)
      returns (r: Result<Link, AllocationError>)
      requires Valid() && store !in generator.Repr()
      requires Runs(generator.View(), draws, rests) && AllReturn(store.rows, draws, 0, maxAttempts)
      modifies this, generator.Repr(), store`rows
      ensures Valid()
      ensures var t := Tried(old(store.rows), draws, 0, maxAttempts);
        && collisions == old(collisions) + t.collisions
        && generator.View() == rests(t.collisions + if t.result.None? then 0 else 1)
        && match t.result
           case None => r == Err(Exhausted)
           case Some(Err(e)) => r == Err(Refused(e))
           case Some(Ok(code)) => r == Ok(NewLink(code, target, ttlSeconds, None, wallMs))
      ensures r.Ok? ==>
                && r.value.code !in old(store.rows)
                && store.rows == old(store.rows)[r.value.code := r.value]
                && created == old(created) + 1
      ensures r.Err? ==> store.rows == old(store.rows) && created == old(created)
    {
      ghost var rows := store.rows;
      for i := 0 to maxAttempts
        invariant Valid() && store.rows == rows && created == old(created) && collisions == old(collisions) + i
        invariant generator.View() == rests(i)
        invariant AllTaken(rows, draws, i)
      {
        StopsAfter(rows, draws, i, maxAttempts);
        var attempt := TryOnce(store, target, ttlSeconds, wallMs, draws(i), rests(i + 1));
        if attempt.Some? {
          return attempt.value;
        }
      }
      StopsAfter(rows, draws, maxAttempts, maxAttempts);
      return Err(Exhausted);
    }

    /** One turn of the loop, in which the generator's next call has outcome `d`; None is a collision. */
    method TryOnce(store: LinkStore, target: string, ttlSeconds: Option<int>, wallMs: int,
                   ghost d: Draw, ghost rest: Supply)
      returns (r: Option<Result<Link, AllocationError>>)
      requires Valid() && store !in generator.Repr() && !d.Hangs? && Next(generator.View()) == (d, rest)
      modifies this, generator.Repr(), store`rows
      ensures Valid() && generator.View() == rest
      ensures collisions == old(collisions) + if r.None? then 1 else 0
      ensures created == old(created) + if r.Some? && r.value.Ok? then 1 else 0
      ensures Taken(old(store.rows), d) ==> r == None && store.rows == old(store.rows)
      ensures d.Fails? ==> r == Some(Err(Refused(d.error))) && store.rows == old(store.rows)
      ensures d.Code? && d.code !in old(store.rows) ==>
                var link := NewLink(d.code, target, ttlSeconds, None, wallMs);
                r == Some(Ok(link)) && store.rows == old(store.rows)[d.code := link]
    {
      var code := generator.NextCode();
      if code.Err? {
        return Some(Err(Refused(code.error)));
      }
      var link := store.Create(code.value, target, ttlSeconds, None, wallMs);
      if link.Ok? {
        created := created + 1;
        return Some(Ok(link.value));
      }
      collisions := collisions + 1;
      return None;
    }
  }

  // ---------------------------------------------------------------- a fleet that shares a store

  /** An id that was issued, whose link is not in the store yet. */
  datatype Ticket = Ticket(g: Gen, target: string, ttlSeconds: Option<int>)
  {
    predicate Valid() {
      g.Valid() && Pack(g) >= 0
    }

    function Code(): string
      requires Valid()
    {
      Encode(Pack(g))
    }
  }

  /** Between `next_code` and `create` a code is pending; threads that share an allocator may insert their
      pending codes in any order, or die with them. */
  datatype World = World(rows: Rows, gens: seq<Gen>, pending: seq<Ticket>)

  datatype Event =
    | Issuing(who: nat, now: int, target: string, ttlSeconds: Option<int>)
    | Inserting(ticket: nat, wallMs: int)
    | Dying(ticket: nat)
    | Purging(sweep: int)

  datatype Outcome = Issued(code: string) | Created(code: string) | Collided | Raised | Idle

  function Drop(pending: seq<Ticket>, k: nat): seq<Ticket>
    requires k < |pending|
  {
    pending[..k] + pending[k + 1..]
  }

  ghost predicate TicketsValid(pending: seq<Ticket>) {
    forall k | 0 <= k < |pending| :: pending[k].Valid()
  }

  /** One locked region of a generator, or one statement of the store. */
  function Happen(w: World, e: Event): (World, Outcome)
    requires TicketsValid(w.pending)
  {
    match e
    case Issuing(who, now, target, ttl) =>
      if who >= |w.gens| || !CanIssue(w.gens[who], now) then (w, Raised)
      else
        var g := Issue(w.gens[who], now);
        var w' := w.(gens := w.gens[who := g]);
        if Pack(g) < 0 then (w', Raised)
        else (w'.(pending := w.pending + [Ticket(g, target, ttl)]), Issued(Encode(Pack(g))))
    case Inserting(k, wall) =>
      if k >= |w.pending| then (w, Idle)
      else
        var t := w.pending[k];
        var w' := w.(pending := Drop(w.pending, k));
        if t.Code() in w.rows then (w', Collided)
        else (w'.(rows := w.rows[t.Code() := NewLink(t.Code(), t.target, t.ttlSeconds, None, wall)]), Created(t.Code()))
    case Dying(k) => if k >= |w.pending| then (w, Idle) else (w.(pending := Drop(w.pending, k)), Idle)
    case Purging(sweep) => (w.(rows := Purged(w.rows, sweep)), Idle)
  }

  /** Pending codes are not stored, differ from each other, and were issued by generators that have moved on. */
  ghost predicate PendingOk(w: World) {
    && TicketsValid(w.pending)
    && (forall k | 0 <= k < |w.pending| :: !Stored(w.rows, w.pending[k].g))
    && (forall j, k | 0 <= j < k < |w.pending| :: w.pending[j].g != w.pending[k].g)
    && (forall i, k | 0 <= i < |w.gens| && 0 <= k < |w.pending| && w.pending[k].g.instance == w.gens[i].instance ::
          Pack(w.pending[k].g) <= Pack(w.gens[i]))
  }

  ghost predicate WorldOk(w: World) {
    && DistinctInstances(w.gens)
    && (forall i | 0 <= i < |w.gens| :: w.gens[i].Valid() && Behind(w.rows, w.gens[i]))
    && PendingOk(w)
  }

  lemma {:induction false} IssuingKeepsWorld(w: World, e: Event)
    requires WorldOk(w) && e.Issuing?
    ensures WorldOk(Happen(w, e).0)
  {
    if e.who < |w.gens| && CanIssue(w.gens[e.who], e.now) {
      IssueIncreases(w.gens[e.who], e.now);
      IssueStaysAhead(w.rows, w.gens[e.who], e.now);
    }
  }

  /** Storing one code stores no other id's code. */
  lemma {:induction false} OnlyThisIsStored(rows: Rows, t: Ticket, link: Link, h: Gen)
    requires t.Valid() && h.Valid() && h != t.g
    ensures Stored(rows[t.Code() := link], h) <==> Stored(rows, h)
  {
    if Pack(h) >= 0 && Encode(Pack(h)) == t.Code() {
      EncodeIsInjective(Pack(h), Pack(t.g));
      PackIsInjective(h, t.g);
    }
  }

  lemma {:induction false} InsertingKeepsWorld(w: World, e: Event)
    requires WorldOk(w) && e.Inserting?
    ensures WorldOk(Happen(w, e).0) && Happen(w, e).1 != Collided
  {
    if e.ticket < |w.pending| {
      var t := w.pending[e.ticket];
      var w' := Happen(w, e).0;
      var link := NewLink(t.Code(), t.target, t.ttlSeconds, None, e.wallMs);
      assert !Stored(w.rows, t.g);
      forall i | 0 <= i < |w.gens| ensures Behind(w'.rows, w.gens[i]) {
        forall h: Gen | Stored(w'.rows, h) && h.instance == w.gens[i].instance ensures Pack(h) <= Pack(w.gens[i]) {
          if h != t.g { OnlyThisIsStored(w.rows, t, link, h); }
        }
      }
      forall k | 0 <= k < |w'.pending| ensures !Stored(w'.rows, w'.pending[k].g) {
        OnlyThisIsStored(w.rows, t, link, w'.pending[k].g);
      }
    }
  }

  lemma {:induction false} HappenKeepsWorld(w: World, e: Event)
    requires WorldOk(w)
    ensures WorldOk(Happen(w, e).0) && Happen(w, e).1 != Collided
  {
    match e
    case Issuing(_, _, _, _) => IssuingKeepsWorld(w, e);
    case Inserting(_, _) => InsertingKeepsWorld(w, e);
    case Dying(_) =>
    case Purging(_) => assert forall h: Gen :: Stored(Purged(w.rows, e.sweep), h) ==> Stored(w.rows, h);
  }

  /** What each step does in a world that is in order: whoever can issue does, and its ticket waits; every ticket
      can be inserted, under its own code, with its own target and expiry; a sweep removes what has expired. */
  lemma {:induction false} HappenTells(w: World, e: Event)
    requires WorldOk(w)
    ensures var (w', o) := Happen(w, e);
      match e
      case Issuing(who, now, target, ttl) =>
        && w'.rows == w.rows
        && (who < |w.gens| && CanIssue(w.gens[who], now) && Pack(Issue(w.gens[who], now)) >= 0 ==>
              && o == Issued(Encode(Pack(Issue(w.gens[who], now))))
              && w'.pending == w.pending + [Ticket(Issue(w.gens[who], now), target, ttl)]
              && w'.gens == w.gens[who := Issue(w.gens[who], now)])
        && (who >= |w.gens| || !CanIssue(w.gens[who], now) ==> w' == w && o == Raised)
      case Inserting(k, wall) =>
        && w'.gens == w.gens
        && (k >= |w.pending| ==> w' == w)
        && (k < |w.pending| ==>
              var t := w.pending[k]; var code := t.Code();
              && o == Created(code) && code !in w.rows && w'.pending == w.pending[..k] + w.pending[k + 1..]
              && (forall c :: c in w'.rows <==> c in w.rows || c == code)
              && (forall c | c in w.rows :: w'.rows[c] == w.rows[c])
              && w'.rows[code].code == code && w'.rows[code].target == t.target && w'.rows[code].createdMs == wall
              && w'.rows[code].expires == if t.ttlSeconds.Some? && t.ttlSeconds.value != 0
                                          then Some(wall + 1000 * t.ttlSeconds.value) else None)
      case Dying(k) =>
        && w'.rows == w.rows && w'.gens == w.gens
        && w'.pending == if k < |w.pending| then w.pending[..k] + w.pending[k + 1..] else w.pending
      case Purging(sweep) =>
        && w'.gens == w.gens && w'.pending == w.pending
        && (forall c :: c in w'.rows <==> c in w.rows && (w.rows[c].expires.None? || sweep < w.rows[c].expires.value))
        && (forall c | c in w'.rows :: w'.rows[c] == w.rows[c])
  {
    if e.Inserting? { InsertingKeepsWorld(w, e); }
  }

  /** A fleet that starts with new generators and an empty store. */
  ghost predicate NewWorld(w: World) {
    && w.rows == map[] && w.pending == [] && DistinctInstances(w.gens)
    && forall g | g in w.gens :: g == Fresh(g.instance) && g.instance <= MAX_INSTANCE
  }

  ghost function Exec(w: World, events: seq<Event>): (w': World)
    requires NewWorld(w)
    ensures WorldOk(w')
  {
    if events == [] then w
    else
      var before := Exec(w, events[..|events| - 1]);
      HappenKeepsWorld(before, events[|events| - 1]);
      Happen(before, events[|events| - 1]).0
  }

  /** A fleet of allocators with distinct instance ids on a store that only they fill never collides, however
      their issuing, inserting and dying interleave; so every allocation ends with its first attempt. A link
      stays as it was created until a sweep. */
  lemma {:induction false} FleetNeverCollides(w: World, events: seq<Event>, e: Event)
    requires NewWorld(w)
    ensures var before := Exec(w, events); var (after, o) := Happen(before, e);
      && o != Collided
      && (o.Created? ==> o.code !in before.rows && o.code in after.rows)
      && (o.Issued? ==> o.code !in before.rows && forall t | t in before.pending :: t.Code() != o.code)
      && (!e.Purging? ==> forall k | k in before.rows :: k in after.rows && after.rows[k] == before.rows[k])
  {
    var before := Exec(w, events);
    HappenKeepsWorld(before, e);
    var (after, o) := Happen(before, e);
    if o.Issued? {
      var g := after.pending[|before.pending|].g;
      assert !Stored(after.rows, g);
      forall t | t in before.pending ensures t.Code() != o.code {
        var k :| 0 <= k < |before.pending| && before.pending[k] == t;
        assert after.pending[k].g != g;
        if t.Code() == o.code {
          EncodeIsInjective(Pack(t.g), Pack(g));
          PackIsInjective(t.g, g);
        }
      }
    }
  }
}
