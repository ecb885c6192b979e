/**
 The read path of one instance under every interleaving (src/shortener/app.py, `resolve` with its
 inner `load`; src/shortener/store.py, `SingleFlight.do` and `LruCache`).

 A request advances one atomic region at a time: a locked cache operation, a locked region of
 `SingleFlight.do`, one store read, or the event that wakes waiters. Between any two of them every
 other request may run, entries may be invalidated or flushed, codes withdrawn, links created by any
 instance and expired rows purged. Requests are numbered in order of arrival, and a `_Call` object is
 identified by the number of the request that created it, its leader.
 */
module ReadPath {
  import opened Prelude
  import opened LruCaches
  import opened LinkStores

  /** What `fn()` did: returned a target or None, or raised. */
  datatype Outcome = Value(target: Option<string>) | Raised

  datatype Source = FromTakedown | FromCache | Led | Followed(leader: nat)

  datatype Pc =
    | Arrived                       // before the takedown check
    | Probing                       // before the first cache lookup
    | Entering                      // missed; before the guarded region of `do`
    | Rechecking                    // leader, before the lookup inside `load`
    | Reading                       // leader, before the store read
    | Storing(link: Link)           // leader, before the cache put
    | Finishing(outcome: Outcome)   // leader, `fn` has ended; before the guarded pop
    | Signalling(outcome: Outcome)  // leader, popped; before `done.set()`
    | Waiting(leader: nat)          // waiter, in `done.wait()`
    | Done(answer: Answer, source: Source)
  {
    /** The leader runs `fn` or has not yet popped its call. */
    predicate Running() {
      Rechecking? || Reading? || Storing? || Finishing?
    }
  }

  /** What `SingleFlight` and its callers share: the registered calls, the published outcomes, each
      request's code and position, and the set of requests that ever ran `fn`. */
  datatype Flight = Flight(
    calls: map<string, nat>, done: map<nat, Outcome>, codes: seq<string>, pcs: seq<Pc>, runners: set<nat>)

  /** `truths` collects, from arrival until the request is done, every answer that an uncached lookup
      of its code at its own time `now` would have given; `punctual` says that no sweep before the
      arrival used a later time; `tooLate` that the code was already withdrawn at arrival. */
  datatype Client = Client(now: int, truths: set<Option<string>>, punctual: bool, tooLate: bool)

  /** The cache, with three counts per code: store reads, store reads that found no live link, and
      disappearances of the code's cache entry. */
  datatype Memory = Memory(
    capacity: nat, lru: Lru, loads: multiset<string>, fruitless: multiset<string>, removed: multiset<string>)

  datatype Sys = Sys(
    flight: Flight, memory: Memory, clients: seq<Client>, rows: Rows, withdrawn: set<string>, lastPurge: Option<int>)

  function Start(capacity: nat, rows: Rows, withdrawn: set<string>): Sys {
    Sys(Flight(map[], map[], [], [], {}), Memory(capacity, EMPTY, multiset{}, multiset{}, multiset{}),
        [], rows, withdrawn, None)
  }

  function AnswerOf(o: Outcome): Answer {
    match o
    case Value(Some(t)) => Redirect(t)
    case Value(None) => NotFound
    case Raised => Failed
  }

  datatype Action =
    | Arrive(code: string, now: int)
    | Advance(request: nat, raises: bool)
    | Invalidate(code: string)
    | Flush
    | Withdraw(code: string)
    | Create(link: Link)
    | Purge(now: int)

  predicate Ready(f: Flight, r: nat) {
    r < |f.pcs| && !f.pcs[r].Done? && (f.pcs[r].Waiting? ==> f.pcs[r].leader in f.done)
  }

  predicate Shaped(s: Sys) {
    |s.flight.codes| == |s.flight.pcs| == |s.clients|
  }

  predicate Enabled(s: Sys, a: Action) {
    match a
    case Advance(r, _) => Ready(s.flight, r)
    case Create(link) => link.code !in s.rows
    case _ => true
  }

  function Goto(f: Flight, r: nat, pc: Pc): Flight
    requires r < |f.pcs|
  {
    f.(pcs := f.pcs[r := pc])
  }

  /** Replaces the cache and counts the entries that disappeared; `written` is the code just put. */
  function Recached(m: Memory, lru: Lru, written: set<string>): Memory {
    m.(lru := lru, removed := m.removed + multiset(Keys(m.lru.entries) + written - Keys(lru.entries)))
  }

  /** The region that request `r` runs next, as it changes the cache; `now` is the request's time. */
  function MemoryAfter(m: Memory, pc: Pc, code: string, now: int, found: bool): Memory {
    match pc
    case Probing => Recached(m, GetStep(m.lru, code, now).0, {})
    case Rechecking => Recached(m, GetStep(m.lru, code, now).0, {})
    case Reading =>
      m.(loads := m.loads + multiset{code}, fruitless := if found then m.fruitless else m.fruitless + multiset{code})
    case Storing(link) =>
      Recached(m, PutStep(m.lru, m.capacity, Entry(code, link.target, link.expires)), {code})
    case _ => m
  }

  /** The same region, as it changes the registry of calls and the request's position. */
  function FlightAfter(f: Flight, r: nat, cached: Option<string>, link: Option<Link>, raises: bool, gone: bool): Flight
    requires Ready(f, r) && |f.codes| == |f.pcs|
  {
    var code := f.codes[r];
    match f.pcs[r]
    case Arrived => Goto(f, r, if gone then Done(Gone, FromTakedown) else Probing)
    case Probing => Goto(f, r, if cached.Some? then Done(Redirect(cached.value), FromCache) else Entering)
    case Entering =>
      if code in f.calls then Goto(f, r, Waiting(f.calls[code]))
      else Goto(f.(calls := f.calls[code := r], runners := f.runners + {r}), r, Rechecking)
    case Rechecking => Goto(f, r, if cached.Some? then Finishing(Value(cached)) else Reading)
    case Reading =>
      Goto(f, r, if raises then Finishing(Raised)
                 else if link.None? then Finishing(Value(None))
                 else Storing(link.value))
    case Storing(l) => Goto(f, r, Finishing(Value(Some(l.target))))
    case Finishing(o) => Goto(f.(calls := f.calls - {code}), r, Signalling(o))
    case Signalling(o) => Goto(f.(done := f.done[r := o]), r, Done(AnswerOf(o), Led))
    case Waiting(l) => Goto(f, r, Done(AnswerOf(f.done[l]), Followed(l)))
  }

  /** The row that a store read by `r` would find, if it is live at the request's time. */
  function LiveLink(s: Sys, r: nat): Option<Link>
    requires Shaped(s) && r < |s.clients|
  {
    var code := s.flight.codes[r];
    if code in s.rows && !s.rows[code].IsExpired(s.clients[r].now) then Some(s.rows[code]) else None
  }

  /** One atomic region of request `r`; a store read may raise. */
  function Advanced(s: Sys, r: nat, raises: bool): Sys
    requires Shaped(s) && Ready(s.flight, r)
  {
    var code, now, pc := s.flight.codes[r], s.clients[r].now, s.flight.pcs[r];
    var cached := GetStep(s.memory.lru, code, now).1;
    var link := LiveLink(s, r);
    s.(flight := FlightAfter(s.flight, r, cached, link, raises, code in s.withdrawn),
       memory := MemoryAfter(s.memory, pc, code, now, !raises && link.Some?))
  }

  function Observing(c: Client, code: string, pc: Pc, rows: Rows): Client {
    if pc.Done? then c else c.(truths := c.truths + {Resolved(rows, code, c.now)})
  }

  function WithRows(s: Sys, rows: Rows): Sys
    requires Shaped(s)
  {
    s.(rows := rows,
       clients := seq(|s.clients|, i requires 0 <= i < |s.clients| =>
         Observing(s.clients[i], s.flight.codes[i], s.flight.pcs[i], rows)))
  }

  function Apply(s: Sys, a: Action): Sys
    requires Shaped(s) && Enabled(s, a)
  {
    match a
    case Arrive(code, now) =>
      s.(flight := s.flight.(codes := s.flight.codes + [code], pcs := s.flight.pcs + [Arrived]),
         clients := s.clients + [Client(now, {Resolved(s.rows, code, now)},
                                        Later(s.lastPurge, now) == now, code in s.withdrawn)])
    case Advance(r, raises) => Advanced(s, r, raises)
    case Invalidate(code) => s.(memory := Recached(s.memory, InvalidateStep(s.memory.lru, code), {}))
    case Flush => s.(memory := Recached(s.memory, s.memory.lru.(entries := []), {}))
    case Withdraw(code) => s.(withdrawn := s.withdrawn + {code})
    case Create(link) => WithRows(s, s.rows[link.code := link])
    case Purge(now) => WithRows(s, Purged(s.rows, now)).(lastPurge := Some(Later(s.lastPurge, now)))
  }

  /** An action that is not enabled changes nothing, so every sequence of actions is a schedule. */
  function Step(s: Sys, a: Action): (s': Sys)
    requires Shaped(s)
    ensures Shaped(s')
  {
    if Enabled(s, a) then Apply(s, a) else s
  }

  function Exec(s: Sys, acts: seq<Action>): (s': Sys)
    requires Shaped(s)
    ensures Shaped(s')
  {
    if acts == [] then s else Step(Exec(s, acts[..|acts| - 1]), acts[|acts| - 1])
  }

  // ---------------------------------------------------------------- single flight

  /** `l` created a call whose outcome is published, or will be by `l` itself. */
  ghost predicate Leads(f: Flight, l: nat) {
    l < |f.pcs| &&
    (f.pcs[l].Running() || f.pcs[l].Signalling? || (l in f.done && f.pcs[l] == Done(AnswerOf(f.done[l]), Led)))
  }

  ghost predicate RequestOk(f: Flight, r: nat)
    requires r < |f.pcs| == |f.codes|
  {
    && (r in f.runners <==> f.pcs[r].Running() || f.pcs[r].Signalling? || (f.pcs[r].Done? && f.pcs[r].source.Led?))
    && match f.pcs[r]
    case Waiting(l) => Leads(f, l) && f.codes[l] == f.codes[r]
    case Done(a, Followed(l)) =>
      l in f.done && l < |f.codes| && f.codes[l] == f.codes[r] && a == AnswerOf(f.done[l])
    case _ => f.pcs[r].Running() ==> f.codes[r] in f.calls && f.calls[f.codes[r]] == r
  }

  ghost predicate CallOk(f: Flight, k: string)
    requires k in f.calls && |f.codes| == |f.pcs|
  {
    var l := f.calls[k];
    l < |f.pcs| && f.codes[l] == k && f.pcs[l].Running()
  }

  ghost predicate OutcomeOk(f: Flight, l: nat)
    requires l in f.done
  {
    l < |f.pcs| && f.pcs[l] == Done(AnswerOf(f.done[l]), Led)
  }

  ghost predicate FlightOk(f: Flight) {
    && |f.codes| == |f.pcs|
    && (forall r | r in f.runners :: r < |f.pcs|)
    && (forall k | k in f.calls :: CallOk(f, k))
    && (forall l | l in f.done :: OutcomeOk(f, l))
    && (forall r: nat | r < |f.pcs| :: RequestOk(f, r))
  }

  /** `r` moves without entering or leaving the registry of calls. */
  lemma {:induction false} LocalMoveKeepsFlight(f: Flight, r: nat, pc: Pc)
    requires FlightOk(f) && r < |f.pcs| && !f.pcs[r].Done? && !f.pcs[r].Signalling?
    requires pc.Running() <==> f.pcs[r].Running()
    requires !pc.Waiting? && !pc.Signalling? && !(pc.Done? && (pc.source.Followed? || pc.source.Led?))
    ensures FlightOk(f.(pcs := f.pcs[r := pc]))
  {
    var f' := f.(pcs := f.pcs[r := pc]);
    forall k | k in f'.calls ensures CallOk(f', k) { assert CallOk(f, k); }
    forall l | l in f'.done ensures OutcomeOk(f', l) { assert OutcomeOk(f, l); }
    forall i: nat | i < |f'.pcs| ensures RequestOk(f', i) { assert RequestOk(f, i); }
  }

  lemma {:induction false} EnterKeepsFlight(f: Flight, r: nat)
    requires FlightOk(f) && r < |f.pcs| && f.pcs[r].Entering?
    ensures f.codes[r] in f.calls ==> FlightOk(f.(pcs := f.pcs[r := Waiting(f.calls[f.codes[r]])]))
    ensures f.codes[r] !in f.calls ==>
              FlightOk(f.(pcs := f.pcs[r := Rechecking], calls := f.calls[f.codes[r] := r], runners := f.runners + {r}))
  {
    var k := f.codes[r];
    if k in f.calls {
      assert CallOk(f, k);
      var f' := f.(pcs := f.pcs[r := Waiting(f.calls[k])]);
      forall k' | k' in f'.calls ensures CallOk(f', k') { assert CallOk(f, k'); }
      forall l | l in f'.done ensures OutcomeOk(f', l) { assert OutcomeOk(f, l); }
      forall i: nat | i < |f'.pcs| ensures RequestOk(f', i) { assert RequestOk(f, i); }
    } else {
      var f' := f.(pcs := f.pcs[r := Rechecking], calls := f.calls[k := r], runners := f.runners + {r});
      forall k' | k' in f'.calls ensures CallOk(f', k') { if k' != k { assert CallOk(f, k'); } }
      forall l | l in f'.done ensures OutcomeOk(f', l) { assert OutcomeOk(f, l); }
      forall i: nat | i < |f'.pcs| ensures RequestOk(f', i) { assert RequestOk(f, i); }
    }
  }

  lemma {:induction false} LeaveKeepsFlight(f: Flight, r: nat)
    requires FlightOk(f) && r < |f.pcs| && f.pcs[r].Finishing?
    ensures FlightOk(f.(pcs := f.pcs[r := Signalling(f.pcs[r].outcome)], calls := f.calls - {f.codes[r]}))
  {
    var f' := f.(pcs := f.pcs[r := Signalling(f.pcs[r].outcome)], calls := f.calls - {f.codes[r]});
    assert RequestOk(f, r);
    forall k | k in f'.calls ensures CallOk(f', k) { assert CallOk(f, k); }
    forall l | l in f'.done ensures OutcomeOk(f', l) { assert OutcomeOk(f, l); }
    forall i: nat | i < |f'.pcs| ensures RequestOk(f', i) { assert RequestOk(f, i); }
  }

  lemma {:induction false} SignalKeepsFlight(f: Flight, r: nat)
    requires FlightOk(f) && r < |f.pcs| && f.pcs[r].Signalling?
    ensures var o := f.pcs[r].outcome;
      FlightOk(f.(pcs := f.pcs[r := Done(AnswerOf(o), Led)], done := f.done[r := o]))
  {
    var o := f.pcs[r].outcome;
    var f' := f.(pcs := f.pcs[r := Done(AnswerOf(o), Led)], done := f.done[r := o]);
    assert forall l | l in f.done :: OutcomeOk(f, l) && l != r;
    forall k | k in f'.calls ensures CallOk(f', k) { assert CallOk(f, k); }
    forall l | l in f'.done ensures OutcomeOk(f', l) { if l != r { assert OutcomeOk(f, l); } }
    forall i: nat | i < |f'.pcs| ensures RequestOk(f', i) { assert RequestOk(f, i); }
  }

  lemma {:induction false} WakeKeepsFlight(f: Flight, r: nat)
    requires FlightOk(f) && r < |f.pcs| && f.pcs[r].Waiting? && f.pcs[r].leader in f.done
    ensures var l := f.pcs[r].leader; FlightOk(f.(pcs := f.pcs[r := Done(AnswerOf(f.done[l]), Followed(l))]))
  {
    var l := f.pcs[r].leader;
    var f' := f.(pcs := f.pcs[r := Done(AnswerOf(f.done[l]), Followed(l))]);
    assert OutcomeOk(f, l) && RequestOk(f, r);
    forall k | k in f'.calls ensures CallOk(f', k) { assert CallOk(f, k); }
    forall j | j in f'.done ensures OutcomeOk(f', j) { assert OutcomeOk(f, j); }
    forall i: nat | i < |f'.pcs| ensures RequestOk(f', i) { assert RequestOk(f, i); }
  }

  lemma {:induction false} ArrivalKeepsFlight(f: Flight, code: string)
    requires FlightOk(f)
    ensures FlightOk(f.(codes := f.codes + [code], pcs := f.pcs + [Arrived]))
  {
    var f' := f.(codes := f.codes + [code], pcs := f.pcs + [Arrived]);
    forall k | k in f'.calls ensures CallOk(f', k) { assert CallOk(f, k); }
    forall l | l in f'.done ensures OutcomeOk(f', l) { assert OutcomeOk(f, l); }
    forall i: nat | i < |f'.pcs| ensures RequestOk(f', i) { if i < |f.pcs| { assert RequestOk(f, i); } }
  }

  lemma {:induction false} AdvanceKeepsFlight(f: Flight, r: nat, cached: Option<string>, link: Option<Link>,
                                              raises: bool, gone: bool)
    requires FlightOk(f) && Ready(f, r)
    ensures FlightOk(FlightAfter(f, r, cached, link, raises, gone))
  {
    var next := FlightAfter(f, r, cached, link, raises, gone).pcs[r];
    match f.pcs[r]
    case Entering => EnterKeepsFlight(f, r);
    case Finishing(_) => LeaveKeepsFlight(f, r);
    case Signalling(_) => SignalKeepsFlight(f, r);
    case Waiting(_) => WakeKeepsFlight(f, r);
    case _ => LocalMoveKeepsFlight(f, r, next);
  }

  lemma {:induction false} StepKeepsFlight(s: Sys, a: Action)
    requires Shaped(s) && FlightOk(s.flight)
    ensures FlightOk(Step(s, a).flight)
  {
    if Enabled(s, a) {
      match a
      case Advance(r, raises) =>
        var code, now := s.flight.codes[r], s.clients[r].now;
        var cached := GetStep(s.memory.lru, code, now).1;
        AdvanceKeepsFlight(s.flight, r, cached, LiveLink(s, r), raises, code in s.withdrawn);
      case Arrive(code, _) => ArrivalKeepsFlight(s.flight, code);
      case _ =>
    }
  }

  // ---------------------------------------------------------------- store reads

  function In(k: string, keys: set<string>): nat {
    if k in keys then 1 else 0
  }

  ghost predicate BeingStored(f: Flight, k: string)
    requires |f.codes| == |f.pcs|
  {
    exists r: nat :: r < |f.pcs| && f.codes[r] == k && f.pcs[r].Storing?
  }

  /** Every store read of `k` was fruitless, or its entry is gone, or cached, or about to be cached. */
  ghost predicate Balanced(f: Flight, m: Memory, k: string)
    requires |f.codes| == |f.pcs|
  {
    m.loads[k] == m.fruitless[k] + m.removed[k] + In(k, Keys(m.lru.entries)) + if BeingStored(f, k) then 1 else 0
  }

  ghost predicate LoadsOk(f: Flight, m: Memory) {
    && |f.codes| == |f.pcs|
    && Distinct(m.lru.entries)
    && (forall r: nat | r < |f.pcs| && (f.pcs[r].Reading? || f.pcs[r].Storing?) :: f.codes[r] !in Keys(m.lru.entries))
    && (forall k :: Balanced(f, m, k))
  }

  lemma {:induction false} KeysAfterGet(c: Lru, key: string, now: int)
    ensures var (c', v) := GetStep(c, key, now);
      Keys(c'.entries) == if v.Some? then Keys(c.entries) else Keys(c.entries) - {key}
  {
    var (c', v) := GetStep(c, key, now);
    assert forall e | e in Without(c.entries, key) :: e in c.entries && e.key in Keys(c.entries);
    forall k ensures k in Keys(c'.entries) <==> k in Keys(c.entries) && (v.Some? || k != key) {
      if k in Keys(c.entries) && k != key {
        var e :| e in c.entries && e.key == k;
        assert e in Without(c.entries, key) && e in c'.entries;
      }
    }
  }

  lemma {:induction false} KeysAfterPut(c: Lru, capacity: nat, e: Entry)
    ensures Keys(PutStep(c, capacity, e).entries) <= Keys(c.entries) + {e.key}
  {
    forall x | x in PutStep(c, capacity, e).entries ensures x.key in Keys(c.entries) + {e.key} {
      assert x in Without(c.entries, e.key) + [e];
    }
  }

  lemma {:induction false} RecachedCounts(m: Memory, lru: Lru, written: set<string>, k: string)
    requires Keys(lru.entries) <= Keys(m.lru.entries) + written
    ensures var m' := Recached(m, lru, written);
      m'.removed[k] + In(k, Keys(lru.entries)) == m.removed[k] + In(k, Keys(m.lru.entries) + written)
  {
  }

  /** A cache transition that writes nothing keeps every balance. */
  lemma {:induction false} RecachedKeepsLoads(f: Flight, m: Memory, lru: Lru)
    requires LoadsOk(f, m) && Distinct(lru.entries) && Keys(lru.entries) <= Keys(m.lru.entries)
    ensures LoadsOk(f, Recached(m, lru, {}))
  {
    forall k ensures Balanced(f, Recached(m, lru, {}), k) {
      assert Balanced(f, m, k);
      RecachedCounts(m, lru, {}, k);
      assert Keys(m.lru.entries) + {} == Keys(m.lru.entries);
    }
  }

  /** A move that neither starts nor ends a store keeps every balance. */
  lemma {:induction false} MoveKeepsLoads(f: Flight, f': Flight, m: Memory, r: nat)
    requires LoadsOk(f, m) && r < |f.pcs| == |f'.pcs| && f'.codes == f.codes && f'.pcs == f.pcs[r := f'.pcs[r]]
    requires !f.pcs[r].Storing? && !f'.pcs[r].Storing?
    requires f'.pcs[r].Reading? ==> f.codes[r] !in Keys(m.lru.entries)
    ensures LoadsOk(f', m)
  {
    forall k ensures Balanced(f', m, k) {
      assert Balanced(f, m, k);
      assert BeingStored(f', k) <==> BeingStored(f, k) by {
        forall i: nat | i < |f.pcs| ensures f'.pcs[i].Storing? <==> f.pcs[i].Storing? {}
      }
    }
  }

  /** Only the leader of a call runs `fn` for its key. */
  lemma {:induction false} OneLeaderPerKey(f: Flight, r: nat, i: nat)
    requires FlightOk(f) && r < |f.pcs| && i < |f.pcs| && f.codes[r] == f.codes[i]
    requires f.pcs[r].Running() && f.pcs[i].Running()
    ensures r == i && f.codes[r] in f.calls && f.calls[f.codes[r]] == r
  {
    assert RequestOk(f, r) && RequestOk(f, i);
  }

  lemma {:induction false} ReadKeepsLoads(f: Flight, m: Memory, r: nat, link: Option<Link>, raises: bool)
    requires FlightOk(f) && LoadsOk(f, m) && r < |f.pcs| && f.pcs[r].Reading?
    ensures LoadsOk(FlightAfter(f, r, None, link, raises, false),
                    MemoryAfter(m, f.pcs[r], f.codes[r], 0, !raises && link.Some?))
  {
    var f' := FlightAfter(f, r, None, link, raises, false);
    var m' := MemoryAfter(m, f.pcs[r], f.codes[r], 0, !raises && link.Some?);
    forall k ensures Balanced(f', m', k) {
      assert Balanced(f, m, k);
      if k == f.codes[r] && f'.pcs[r].Storing? {
        assert !BeingStored(f, k) by {
          if i: nat :| i < |f.pcs| && f.codes[i] == k && f.pcs[i].Storing? { OneLeaderPerKey(f, r, i); }
        }
      } else {
        forall i: nat | i < |f.pcs| && f.codes[i] == k ensures f'.pcs[i].Storing? <==> f.pcs[i].Storing? {}
      }
    }
  }

  /** Once `r` has moved on, nobody is about to store its code, and other codes are as before. */
  lemma {:induction false} StoreEnds(f: Flight, f': Flight, r: nat, k: string)
    requires FlightOk(f) && r < |f.pcs| && f.pcs[r].Storing?
    requires f'.codes == f.codes && |f'.pcs| == |f.pcs| && f'.pcs == f.pcs[r := f'.pcs[r]] && !f'.pcs[r].Storing?
    ensures BeingStored(f, f.codes[r]) && (BeingStored(f', k) <==> k != f.codes[r] && BeingStored(f, k))
  {
    if i: nat :| i < |f'.pcs| && f.codes[i] == f.codes[r] && f'.pcs[i].Storing? { OneLeaderPerKey(f, r, i); }
    forall i: nat | i < |f.pcs| && f.codes[i] == k && k != f.codes[r]
      ensures f'.pcs[i].Storing? <==> f.pcs[i].Storing? {}
  }

  lemma {:induction false} StoreKeepsLoads(f: Flight, m: Memory, r: nat)
    requires FlightOk(f) && LoadsOk(f, m) && r < |f.pcs| && f.pcs[r].Storing?
    ensures LoadsOk(FlightAfter(f, r, None, None, false, false), MemoryAfter(m, f.pcs[r], f.codes[r], 0, false))
  {
    var f' := FlightAfter(f, r, None, None, false, false);
    var lru := PutStep(m.lru, m.capacity, Entry(f.codes[r], f.pcs[r].link.target, f.pcs[r].link.expires));
    var m' := Recached(m, lru, {f.codes[r]});
    KeysAfterPut(m.lru, m.capacity, Entry(f.codes[r], f.pcs[r].link.target, f.pcs[r].link.expires));
    PutKeepsDistinct(m.lru, m.capacity, Entry(f.codes[r], f.pcs[r].link.target, f.pcs[r].link.expires));
    forall i: nat | i < |f'.pcs| && (f'.pcs[i].Reading? || f'.pcs[i].Storing?)
      ensures f.codes[i] !in Keys(lru.entries)
    {
      if f.codes[i] == f.codes[r] { OneLeaderPerKey(f, r, i); }
    }
    forall k ensures Balanced(f', m', k) {
      assert Balanced(f, m, k);
      RecachedCounts(m, lru, {f.codes[r]}, k);
      StoreEnds(f, f', r, k);
    }
  }

  lemma {:induction false} LookupKeepsLoads(f: Flight, m: Memory, r: nat, now: int)
    requires LoadsOk(f, m) && r < |f.pcs| && (f.pcs[r].Probing? || f.pcs[r].Rechecking?)
    ensures var m' := MemoryAfter(m, f.pcs[r], f.codes[r], now, false);
      LoadsOk(f, m') && (GetStep(m.lru, f.codes[r], now).1.None? ==> f.codes[r] !in Keys(m'.lru.entries))
  {
    KeysAfterGet(m.lru, f.codes[r], now);
    GetKeepsDistinct(m.lru, f.codes[r], now);
    RecachedKeepsLoads(f, m, GetStep(m.lru, f.codes[r], now).0);
  }

  /** What a region does to the positions, apart from the registry. */
  lemma {:induction false} RegionMoves(f: Flight, r: nat, cached: Option<string>, link: Option<Link>, raises: bool,
                                       gone: bool)
    requires Ready(f, r) && |f.codes| == |f.pcs|
    ensures var f' := FlightAfter(f, r, cached, link, raises, gone);
      && f'.codes == f.codes && |f'.pcs| == |f.pcs| && f'.pcs == f.pcs[r := f'.pcs[r]]
      && Rank(f'.pcs[r]) < Rank(f.pcs[r])
      && (f'.pcs[r].Storing? ==> f.pcs[r].Reading?)
      && (f'.pcs[r].Reading? ==> f.pcs[r].Rechecking? && cached.None?)
  {
  }

  lemma {:induction false} AdvanceKeepsLoads(f: Flight, m: Memory, r: nat, now: int, link: Option<Link>, raises: bool,
                                             gone: bool)
    requires FlightOk(f) && LoadsOk(f, m) && Ready(f, r)
    ensures LoadsOk(FlightAfter(f, r, GetStep(m.lru, f.codes[r], now).1, link, raises, gone),
                    MemoryAfter(m, f.pcs[r], f.codes[r], now, !raises && link.Some?))
  {
    var cached := GetStep(m.lru, f.codes[r], now).1;
    if f.pcs[r].Reading? {
      ReadKeepsLoads(f, m, r, link, raises);
    } else if f.pcs[r].Storing? {
      StoreKeepsLoads(f, m, r);
    } else {
      var m' := MemoryAfter(m, f.pcs[r], f.codes[r], now, !raises && link.Some?);
      if f.pcs[r].Probing? || f.pcs[r].Rechecking? {
        LookupKeepsLoads(f, m, r, now);
      } else {
        assert m' == m;
      }
      RegionMoves(f, r, cached, link, raises, gone);
      MoveKeepsLoads(f, FlightAfter(f, r, cached, link, raises, gone), m', r);
    }
  }

  lemma {:induction false} StepKeepsLoads(s: Sys, a: Action)
    requires Shaped(s) && FlightOk(s.flight) && LoadsOk(s.flight, s.memory)
    ensures LoadsOk(Step(s, a).flight, Step(s, a).memory)
  {
    if Enabled(s, a) {
      var lru := s.memory.lru;
      match a
      case Advance(r, raises) =>
        var now, gone := s.clients[r].now, s.flight.codes[r] in s.withdrawn;
        AdvanceKeepsLoads(s.flight, s.memory, r, now, LiveLink(s, r), raises, gone);
      case Invalidate(code) =>
        WithoutKeepsDistinct(lru.entries, code);
        assert Keys(Without(lru.entries, code)) <= Keys(lru.entries);
        RecachedKeepsLoads(s.flight, s.memory, InvalidateStep(lru, code));
      case Flush =>
        RecachedKeepsLoads(s.flight, s.memory, lru.(entries := []));
      case Arrive(_, _) =>
        forall k ensures Balanced(Step(s, a).flight, s.memory, k) {
          assert Balanced(s.flight, s.memory, k);
          assert BeingStored(Step(s, a).flight, k) <==> BeingStored(s.flight, k) by {
            forall i: nat | i < |s.flight.pcs| ensures Step(s, a).flight.pcs[i] == s.flight.pcs[i] {}
          }
        }
      case _ =>
    }
  }

  // ---------------------------------------------------------------- agreement with the store

  ghost predicate CopiesOk(s: Sys)
    requires Shaped(s)
  {
    && WellKeyed(s.rows)
    && (forall e | e in s.memory.lru.entries :: Current(s.rows, s.lastPurge, e.key, e.value, e.expires))
    && (forall i: nat | i < |s.clients| && s.flight.pcs[i].Storing? ::
          var link := s.flight.pcs[i].link;
          && Current(s.rows, s.lastPurge, s.flight.codes[i], link.target, link.expires)
          && !link.IsExpired(s.clients[i].now))
  }

  /** Whatever a request for `code` at time `now` can still be told is among the `truths`. */
  ghost predicate Foreseen(s: Sys, code: string, now: int, truths: set<Option<string>>)
    requires Shaped(s)
  {
    && Resolved(s.rows, code, now) in truths
    && (forall e | e in s.memory.lru.entries && e.key == code && e.LiveAt(now) :: Some(e.value) in truths)
    && (forall i: nat | i < |s.clients| && s.flight.pcs[i].Storing? && s.flight.codes[i] == code
                        && !s.flight.pcs[i].link.IsExpired(now) :: Some(s.flight.pcs[i].link.target) in truths)
  }

  ghost predicate Truthful(truths: set<Option<string>>, pc: Pc) {
    match pc
    case Finishing(Value(t)) => t in truths
    case Signalling(Value(t)) => t in truths
    case Done(Redirect(t), src) => src.FromCache? || src.Led? ==> Some(t) in truths
    case Done(NotFound, src) => src.FromCache? || src.Led? ==> None in truths
    case _ => true
  }

  ghost predicate ClientOk(s: Sys, i: nat)
    requires Shaped(s) && i < |s.clients|
  {
    var c, pc := s.clients[i], s.flight.pcs[i];
    c.punctual ==>
      && Truthful(c.truths, pc)
      && (!pc.Done? ==> Foreseen(s, s.flight.codes[i], c.now, c.truths))
  }

  ghost predicate TruthOk(s: Sys)
    requires Shaped(s)
  {
    CopiesOk(s) && forall i: nat | i < |s.clients| :: ClientOk(s, i)
  }

  lemma {:induction false} RowsKeepTruth(s: Sys, a: Action)
    requires Shaped(s) && TruthOk(s) && Enabled(s, a) && (a.Create? || a.Purge?)
    ensures TruthOk(Apply(s, a))
  {
    var s' := Apply(s, a);
    forall code, target, expires | Current(s.rows, s.lastPurge, code, target, expires)
      ensures Current(s'.rows, s'.lastPurge, code, target, expires) {}
    forall i: nat | i < |s'.clients| ensures ClientOk(s', i) {
      assert ClientOk(s, i);
      assert s'.clients[i] == Observing(s.clients[i], s.flight.codes[i], s.flight.pcs[i], s'.rows);
    }
  }

  lemma {:induction false} ArrivalKeepsTruth(s: Sys, code: string, now: int)
    requires Shaped(s) && TruthOk(s)
    ensures TruthOk(Apply(s, Arrive(code, now)))
  {
    var s' := Apply(s, Arrive(code, now));
    forall i: nat | i < |s'.clients| ensures ClientOk(s', i) {
      if i < |s.clients| { assert ClientOk(s, i); }
    }
  }

  /** `e` is what a request that is about to store will put. */
  ghost predicate Announced(s: Sys, e: Entry)
    requires Shaped(s)
  {
    exists i: nat :: i < |s.clients| && s.flight.pcs[i].Storing? &&
      e == Entry(s.flight.codes[i], s.flight.pcs[i].link.target, s.flight.pcs[i].link.expires)
  }

  /** Dropping entries, or adding one that an ongoing store announces, keeps every client's truth. */
  lemma {:induction false} CacheKeepsTruth(s: Sys, m: Memory)
    requires Shaped(s) && TruthOk(s)
    requires forall e | e in m.lru.entries :: e in s.memory.lru.entries || Announced(s, e)
    ensures TruthOk(s.(memory := m))
  {
    var s' := s.(memory := m);
    forall i: nat | i < |s'.clients| ensures ClientOk(s', i) {
      assert ClientOk(s, i);
    }
  }

  lemma {:induction false} MoveKeepsTruth(s: Sys, f: Flight, r: nat)
    requires Shaped(s) && TruthOk(s) && r < |s.clients| == |f.pcs|
    requires f.codes == s.flight.codes && f.pcs == s.flight.pcs[r := f.pcs[r]] && !s.flight.pcs[r].Done?
    requires s.clients[r].punctual ==> Truthful(s.clients[r].truths, f.pcs[r])
    requires f.pcs[r].Storing? ==>
               && f.codes[r] in s.rows && f.pcs[r].link == s.rows[f.codes[r]]
               && !f.pcs[r].link.IsExpired(s.clients[r].now)
    ensures TruthOk(s.(flight := f))
  {
    var s' := s.(flight := f);
    forall i: nat | i < |s'.clients| ensures ClientOk(s', i) {
      assert ClientOk(s, i) && ClientOk(s, r);
    }
  }

  lemma {:induction false} FoundIsCached(c: Lru, key: string, now: int)
    ensures var (c', v) := GetStep(c, key, now);
      && (forall e | e in c'.entries :: e in c.entries)
      && (v.Some? ==> exists e :: e in c.entries && e.key == key && e.LiveAt(now) && e.value == v.value)
  {
  }

  lemma {:induction false} AdvanceKeepsTruth(s: Sys, r: nat, raises: bool)
    requires Shaped(s) && FlightOk(s.flight) && TruthOk(s) && Ready(s.flight, r)
    ensures TruthOk(Advanced(s, r, raises))
  {
    var s' := Advanced(s, r, raises);
    var code, now, pc := s.flight.codes[r], s.clients[r].now, s.flight.pcs[r];
    assert ClientOk(s, r);
    FoundIsCached(s.memory.lru, code, now);
    if pc.Storing? {
      var e := Entry(code, pc.link.target, pc.link.expires);
      forall x | x in s'.memory.lru.entries ensures x in s.memory.lru.entries || x == e {
        assert x in Without(s.memory.lru.entries, code) + [e];
      }
    }
    CacheKeepsTruth(s, s'.memory);
    MoveKeepsTruth(s.(memory := s'.memory), s'.flight, r);
  }

  lemma {:induction false} StepKeepsTruth(s: Sys, a: Action)
    requires Shaped(s) && FlightOk(s.flight) && TruthOk(s)
    ensures TruthOk(Step(s, a))
  {
    if Enabled(s, a) {
      match a
      case Advance(r, raises) => AdvanceKeepsTruth(s, r, raises);
      case Arrive(code, now) => ArrivalKeepsTruth(s, code, now);
      case Create(_) => RowsKeepTruth(s, a);
      case Purge(_) => RowsKeepTruth(s, a);
      case Withdraw(_) =>
        forall i: nat | i < |s.clients| ensures ClientOk(Step(s, a), i) { assert ClientOk(s, i); }
      case _ => CacheKeepsTruth(s, Step(s, a).memory);
    }
  }

  // ---------------------------------------------------------------- withdrawal

  ghost predicate LateOk(s: Sys)
    requires Shaped(s)
  {
    forall i: nat | i < |s.clients| && s.clients[i].tooLate ::
      s.flight.codes[i] in s.withdrawn && (s.flight.pcs[i].Arrived? || s.flight.pcs[i] == Done(Gone, FromTakedown))
  }

  lemma {:induction false} StepKeepsLate(s: Sys, a: Action)
    requires Shaped(s) && LateOk(s)
    ensures LateOk(Step(s, a))
  {
    if Enabled(s, a) && a.Advance? {
      var r := a.request;
      var code := s.flight.codes[r];
      var cached := GetStep(s.memory.lru, code, s.clients[r].now).1;
      RegionMoves(s.flight, r, cached, LiveLink(s, r), a.raises, code in s.withdrawn);
    } else if Enabled(s, a) && (a.Create? || a.Purge?) {
      forall i: nat | i < |s.clients| ensures Step(s, a).clients[i].tooLate == s.clients[i].tooLate {}
    }
  }

  // ---------------------------------------------------------------- progress

  function Rank(pc: Pc): nat {
    match pc
    case Arrived => 8
    case Probing => 7
    case Entering => 6
    case Rechecking => 5
    case Reading => 4
    case Storing(_) => 3
    case Finishing(_) => 2
    case Signalling(_) => 1
    case Waiting(_) => 1
    case Done(_, _) => 0
  }

  /** Regions that the requests can still run, at most. */
  function Work(pcs: seq<Pc>): nat {
    if pcs == [] then 0 else Work(pcs[..|pcs| - 1]) + Rank(pcs[|pcs| - 1])
  }

  lemma {:induction false} WorkAfterMove(pcs: seq<Pc>, r: nat, pc: Pc)
    requires r < |pcs|
    ensures Work(pcs[r := pc]) == Work(pcs) - Rank(pcs[r]) + Rank(pc)
  {
    var n := |pcs| - 1;
    if r < n {
      assert pcs[r := pc][..n] == pcs[..n][r := pc];
      WorkAfterMove(pcs[..n], r, pc);
    } else {
      assert pcs[r := pc][..n] == pcs[..n];
    }
  }

  lemma {:induction false} NoWorkMeansDone(pcs: seq<Pc>)
    requires Work(pcs) == 0
    ensures forall r: nat | r < |pcs| :: pcs[r].Done?
  {
    if pcs != [] { NoWorkMeansDone(pcs[..|pcs| - 1]); }
  }

  lemma {:induction false} StepUsesWork(s: Sys, a: Action)
    requires Shaped(s) && Enabled(s, a)
    ensures var before, after := Work(s.flight.pcs), Work(Step(s, a).flight.pcs);
      && (a.Advance? ==> after < before)
      && (a.Arrive? ==> after == before + 8)
      && (!a.Advance? && !a.Arrive? ==> after == before)
  {
    if a.Advance? {
      var r := a.request;
      var code, now := s.flight.codes[r], s.clients[r].now;
      RegionMoves(s.flight, r, GetStep(s.memory.lru, code, now).1, LiveLink(s, r), a.raises, code in s.withdrawn);
      WorkAfterMove(s.flight.pcs, a.request, Step(s, a).flight.pcs[a.request]);
    } else if a.Arrive? {
      assert (s.flight.pcs + [Arrived])[..|s.flight.pcs|] == s.flight.pcs;
    }
  }

  // ---------------------------------------------------------------- theorems over all schedules

  ghost predicate Inv(s: Sys) {
    Shaped(s) && FlightOk(s.flight) && LoadsOk(s.flight, s.memory) && TruthOk(s) && LateOk(s)
  }

  /** The state after any schedule of an instance that starts with an empty cache. */
  ghost predicate Reachable(s: Sys, capacity: nat, rows: Rows, withdrawn: set<string>, acts: seq<Action>) {
    WellKeyed(rows) && s == Exec(Start(capacity, rows, withdrawn), acts)
  }

  lemma {:induction false} InvHolds(s: Sys, capacity: nat, rows: Rows, withdrawn: set<string>, acts: seq<Action>)
    requires Reachable(s, capacity, rows, withdrawn, acts)
    ensures Inv(s)
    decreases acts
  {
    if acts == [] {
      forall k ensures Balanced(s.flight, s.memory, k) {}
    } else {
      var front, a := acts[..|acts| - 1], acts[|acts| - 1];
      var before := Exec(Start(capacity, rows, withdrawn), front);
      InvHolds(before, capacity, rows, withdrawn, front);
      StepKeepsFlight(before, a);
      StepKeepsLoads(before, a);
      StepKeepsTruth(before, a);
      StepKeepsLate(before, a);
    }
  }

  /** At most one request runs `fn` for a key; when it leaves it pops its own call; and a waiter's answer
      is its leader's, for the same code, after the leader ran `fn` and finished; the waiter never runs it. */
  lemma {:induction false} SingleFlightSafety(s: Sys, capacity: nat, rows: Rows, withdrawn: set<string>,
                                              acts: seq<Action>)
    requires Reachable(s, capacity, rows, withdrawn, acts)
    ensures Inv(s)
    ensures forall r: nat, i: nat | r < |s.clients| && i < |s.clients| && s.flight.codes[r] == s.flight.codes[i]
              && s.flight.pcs[r].Running() && s.flight.pcs[i].Running() :: r == i
    ensures forall r: nat | r < |s.clients| && s.flight.pcs[r].Finishing? ::
              s.flight.codes[r] in s.flight.calls && s.flight.calls[s.flight.codes[r]] == r
    ensures forall r: nat | r < |s.clients| && s.flight.pcs[r].Done? && s.flight.pcs[r].source.Followed? ::
              var l := s.flight.pcs[r].source.leader;
              && r !in s.flight.runners && l in s.flight.runners
              && l < |s.clients| && s.flight.codes[l] == s.flight.codes[r]
              && s.flight.pcs[l] == Done(s.flight.pcs[r].answer, Led)
  {
    InvHolds(s, capacity, rows, withdrawn, acts);
    var f := s.flight;
    forall r: nat | r < |s.clients| && f.pcs[r].Finishing? ensures f.codes[r] in f.calls && f.calls[f.codes[r]] == r {
      assert RequestOk(f, r);
    }
    forall r: nat | r < |s.clients| && f.pcs[r].Done? && f.pcs[r].source.Followed?
      ensures var l := f.pcs[r].source.leader;
        && r !in f.runners && l in f.runners && l < |s.clients| && f.codes[l] == f.codes[r]
        && f.pcs[l] == Done(f.pcs[r].answer, Led)
    {
      assert RequestOk(f, r) && OutcomeOk(f, f.pcs[r].source.leader) && RequestOk(f, f.pcs[r].source.leader);
    }
    forall r: nat, i: nat | r < |s.clients| && i < |s.clients| && s.flight.codes[r] == s.flight.codes[i]
      && s.flight.pcs[r].Running() && s.flight.pcs[i].Running() ensures r == i
    {
      OneLeaderPerKey(s.flight, r, i);
    }
  }

  /** The stampede law: the store reads of a key that found a live link number exactly the times its
      cache entry disappeared, plus one while it is cached or about to be. */
  lemma {:induction false} StampedeLaw(s: Sys, capacity: nat, rows: Rows, withdrawn: set<string>, acts: seq<Action>,
                                       k: string)
    requires Reachable(s, capacity, rows, withdrawn, acts)
    ensures var m := s.memory;
      && Inv(s)
      && m.loads[k] == m.fruitless[k] + m.removed[k] +
           if k in Keys(m.lru.entries) || BeingStored(s.flight, k) then 1 else 0
  {
    InvHolds(s, capacity, rows, withdrawn, acts);
    assert Balanced(s.flight, s.memory, k);
  }

  /** Some request can always move, unless all are done: nobody waits for a call without a live leader. */
  lemma {:induction false} NoOneStuck(s: Sys, capacity: nat, rows: Rows, withdrawn: set<string>, acts: seq<Action>,
                                      r: nat)
    returns (next: nat)
    requires Reachable(s, capacity, rows, withdrawn, acts)
    requires r < |s.clients| && !s.flight.pcs[r].Done?
    ensures Inv(s) && Ready(s.flight, next)
    ensures next == r || (s.flight.pcs[r].Waiting? && next == s.flight.pcs[r].leader)
  {
    InvHolds(s, capacity, rows, withdrawn, acts);
    assert RequestOk(s.flight, r);
    next := if Ready(s.flight, r) then r else s.flight.pcs[r].leader;
  }

  /** Regions that were really run, and requests that arrived, in a schedule. */
  function Moves(s: Sys, acts: seq<Action>): nat
    requires Shaped(s)
  {
    if acts == [] then 0
    else
      var front, a := acts[..|acts| - 1], acts[|acts| - 1];
      Moves(s, front) + if a.Advance? && Enabled(Exec(s, front), a) then 1 else 0
  }

  function Arrivals(acts: seq<Action>): nat {
    if acts == [] then 0
    else Arrivals(acts[..|acts| - 1]) + if acts[|acts| - 1].Arrive? then 1 else 0
  }

  /** Every schedule ends: `n` requests run at most 8n regions, and once there is no work left all are done. */
  lemma {:induction false} SchedulesEnd(s: Sys, acts: seq<Action>)
    requires Shaped(s)
    ensures Moves(s, acts) + Work(Exec(s, acts).flight.pcs) <= Work(s.flight.pcs) + 8 * Arrivals(acts)
    ensures Work(Exec(s, acts).flight.pcs) == 0 ==>
              forall r: nat | r < |Exec(s, acts).clients| :: Exec(s, acts).flight.pcs[r].Done?
  {
    if acts != [] {
      var front, a := acts[..|acts| - 1], acts[|acts| - 1];
      SchedulesEnd(s, front);
      if Enabled(Exec(s, front), a) { StepUsesWork(Exec(s, front), a); }
    }
    if Work(Exec(s, acts).flight.pcs) == 0 { NoWorkMeansDone(Exec(s, acts).flight.pcs); }
  }

  /** Linearizability: what a request that hit the cache or loaded by itself was told, an uncached lookup
      at the request's own time would have answered at some moment between its arrival and its end. */
  lemma {:induction false} Linearizable(s: Sys, capacity: nat, rows: Rows, withdrawn: set<string>, acts: seq<Action>,
                                        r: nat)
    requires Reachable(s, capacity, rows, withdrawn, acts)
    requires r < |s.clients| && s.flight.pcs[r].Done?
    requires s.flight.pcs[r].source.FromCache? || s.flight.pcs[r].source.Led?
    requires s.clients[r].punctual
    ensures Inv(s)
    ensures var a, truths := s.flight.pcs[r].answer, s.clients[r].truths;
      (a.Redirect? ==> Some(a.target) in truths) && (a.NotFound? ==> None in truths)
  {
    InvHolds(s, capacity, rows, withdrawn, acts);
    assert ClientOk(s, r);
  }

  /** Once a code is withdrawn on this instance, no request that arrives later is redirected. */
  lemma {:induction false} WithdrawnIsGone(s: Sys, capacity: nat, rows: Rows, withdrawn: set<string>,
                                           acts: seq<Action>, r: nat)
    requires Reachable(s, capacity, rows, withdrawn, acts)
    requires r < |s.clients| && s.clients[r].tooLate && s.flight.pcs[r].Done?
    ensures Inv(s) && s.flight.pcs[r].answer == Gone
  {
    InvHolds(s, capacity, rows, withdrawn, acts);
  }
}
