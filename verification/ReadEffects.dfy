/**
 What single steps and whole requests of `ReadPath` do, told by the state before and the state after
 (src/shortener/app.py, `resolve`), and what its history variables stand for.
 */
module ReadEffects {
  import opened Prelude
  import opened LruCaches
  import opened LinkStores
  import opened ReadPath
  import opened Waiters

  // ---------------------------------------------------------------- the environment

  /** What the steps of others do: each does its one thing, and leaves all requests where they are. */
  lemma {:induction false} EnvironmentTells(s: Sys, a: Action)
    requires Shaped(s) && !a.Advance?
    ensures var s' := Step(s, a);
      && (forall r: nat | r < |s.clients| ::
            r < |s'.clients| && s'.flight.pcs[r] == s.flight.pcs[r] && s'.flight.codes[r] == s.flight.codes[r])
      && (a.Arrive? ==>
            && |s'.clients| == |s.clients| + 1 && s'.flight.pcs[|s.clients|] == Arrived
            && s'.flight.codes[|s.clients|] == a.code && s'.clients[|s.clients|].now == a.now)
      && (!a.Arrive? ==> |s'.clients| == |s.clients|)
      && (a.Invalidate? ==> forall e :: e in s'.memory.lru.entries <==> e in s.memory.lru.entries && e.key != a.code)
      && (a.Flush? ==> s'.memory.lru.entries == [])
      && (!a.Invalidate? && !a.Flush? ==> s'.memory == s.memory)
      && s'.withdrawn == (if a.Withdraw? then s.withdrawn + {a.code} else s.withdrawn)
      && (a.Create? ==> s'.rows == if a.link.code in s.rows then s.rows else s.rows[a.link.code := a.link])
      && (a.Purge? ==>
            && (forall c :: c in s'.rows <==>
                  c in s.rows && (s.rows[c].expires.None? || a.now < s.rows[c].expires.value))
            && (forall c | c in s'.rows :: s'.rows[c] == s.rows[c]))
      && (!a.Create? && !a.Purge? ==> s'.rows == s.rows)
  {
  }

  /** A region moves its own request only, and touches neither the store nor the marks. */
  lemma {:induction false} RegionIsLocal(s: Sys, r: nat, raises: bool)
    requires Shaped(s)
    ensures var s' := Step(s, Advance(r, raises));
      && s'.clients == s.clients && s'.rows == s.rows && s'.withdrawn == s.withdrawn && s'.lastPurge == s.lastPurge
      && s'.flight.codes == s.flight.codes
      && (forall i: nat | i < |s.clients| && i != r :: s'.flight.pcs[i] == s.flight.pcs[i])
  {
    if Ready(s.flight, r) {
      var code, now := s.flight.codes[r], s.clients[r].now;
      RegionMoves(s.flight, r, GetStep(s.memory.lru, code, now).1, LiveLink(s, r), raises, code in s.withdrawn);
    }
  }

  /** What a region does to the cache: the two lookups look up, the put puts, and the others leave it alone. */
  lemma {:induction false} CacheTells(s: Sys, r: nat, raises: bool)
    requires Shaped(s) && Ready(s.flight, r)
    ensures var s' := Step(s, Advance(r, raises)); var code, pc := s.flight.codes[r], s.flight.pcs[r];
      && s'.memory.capacity == s.memory.capacity
      && s'.memory.lru ==
         if pc.Probing? || pc.Rechecking? then GetStep(s.memory.lru, code, s.clients[r].now).0
         else if pc.Storing? then PutStep(s.memory.lru, s.memory.capacity, Entry(code, pc.link.target, pc.link.expires))
         else s.memory.lru
  {
  }

  lemma {:induction false} RegistryAfter(
    f: Flight, r: nat, cached: Option<string>, link: Option<Link>, raises: bool, gone: bool)
    requires Ready(f, r) && |f.codes| == |f.pcs|
    ensures var f' := FlightAfter(f, r, cached, link, raises, gone); var code, pc := f.codes[r], f.pcs[r];
      && |f'.pcs| == |f.pcs|
      && (pc.Entering? && code in f.calls ==> f'.calls == f.calls && f'.pcs[r] == Waiting(f.calls[code]))
      && (pc.Entering? && code !in f.calls ==> f'.calls == f.calls[code := r] && f'.pcs[r] == Rechecking)
      && (pc.Finishing? ==> f'.calls == f.calls - {code} && f'.pcs[r] == Signalling(pc.outcome))
      && (!pc.Entering? && !pc.Finishing? ==> f'.calls == f.calls)
      && f'.done == (if pc.Signalling? then f.done[r := pc.outcome] else f.done)
  {
  }

  /** What a region does to the registry of calls: a missing key is registered by its leader, who pops it and
      publishes its outcome when `fn` has ended; nothing else changes it. */
  lemma {:induction false} RegistryTells(s: Sys, r: nat, raises: bool)
    requires Shaped(s) && Ready(s.flight, r)
    ensures var f, f' := s.flight, Step(s, Advance(r, raises)).flight; var code, pc := f.codes[r], f.pcs[r];
      && |f'.pcs| == |f.pcs|
      && (pc.Entering? && code in f.calls ==> f'.calls == f.calls && f'.pcs[r] == Waiting(f.calls[code]))
      && (pc.Entering? && code !in f.calls ==> f'.calls == f.calls[code := r] && f'.pcs[r] == Rechecking)
      && (pc.Finishing? ==> f'.calls == f.calls - {code} && f'.pcs[r] == Signalling(pc.outcome))
      && (!pc.Entering? && !pc.Finishing? ==> f'.calls == f.calls)
      && f'.done == (if pc.Signalling? then f.done[r := pc.outcome] else f.done)
  {
    var code := s.flight.codes[r];
    var cached := GetStep(s.memory.lru, code, s.clients[r].now).1;
    RegistryAfter(s.flight, r, cached, LiveLink(s, r), raises, code in s.withdrawn);
  }

  // ---------------------------------------------------------------- answers

  /** Which answers come from where: 410 exactly from the mark, which is set; only redirects from the cache;
      404 and failures only from a load. */
  ghost predicate AnswerOk(s: Sys, r: nat)
    requires Shaped(s) && r < |s.clients|
  {
    match s.flight.pcs[r]
    case Done(a, src) =>
      && (a.Gone? <==> src.FromTakedown?) && (a.Gone? ==> s.flight.codes[r] in s.withdrawn)
      && (src.FromCache? ==> a.Redirect?)
    case _ => true
  }

  lemma {:induction false} RegionKeepsAnswer(
    f: Flight, r: nat, cached: Option<string>, link: Option<Link>, raises: bool, gone: bool)
    requires FlightOk(f) && Ready(f, r)
    ensures var pc := FlightAfter(f, r, cached, link, raises, gone).pcs[r];
      match pc
      case Done(a, src) =>
        && (a.Gone? <==> src.FromTakedown?) && (a.Gone? ==> gone) && (src.FromCache? ==> a.Redirect?)
      case _ => true
  {
  }

  lemma {:induction false} StepKeepsAnswer(s: Sys, a: Action, r: nat)
    requires Shaped(s) && FlightOk(s.flight) && r < |s.clients| && AnswerOk(s, r)
    ensures r < |Step(s, a).clients| && AnswerOk(Step(s, a), r)
  {
    if !a.Advance? {
      EnvironmentTells(s, a);
    } else {
      RegionIsLocal(s, a.request, a.raises);
      if a.request == r && Ready(s.flight, r) {
        var code := s.flight.codes[r];
        var cached := GetStep(s.memory.lru, code, s.clients[r].now).1;
        RegionKeepsAnswer(s.flight, r, cached, LiveLink(s, r), a.raises, code in s.withdrawn);
      }
    }
  }

  lemma {:induction false} AnswersHold(s: Sys, capacity: nat, rows: Rows, withdrawn: set<string>, acts: seq<Action>)
    requires Reachable(s, capacity, rows, withdrawn, acts)
    ensures Shaped(s) && forall r: nat | r < |s.clients| :: AnswerOk(s, r)
    decreases acts
  {
    if acts != [] {
      var front, a := acts[..|acts| - 1], acts[|acts| - 1];
      var before := Exec(Start(capacity, rows, withdrawn), front);
      AnswersHold(before, capacity, rows, withdrawn, front);
      InvHolds(before, capacity, rows, withdrawn, front);
      forall r: nat | r < |s.clients| ensures AnswerOk(s, r) {
        if r < |before.clients| {
          StepKeepsAnswer(before, a, r);
        } else {
          NewcomerIsNotDone(before, a);
        }
      }
    }
  }

  lemma {:induction false} NewcomerIsNotDone(s: Sys, a: Action)
    requires Shaped(s)
    ensures |Step(s, a).clients| <= |s.clients| + 1
    ensures |Step(s, a).clients| > |s.clients| ==> Step(s, a).flight.pcs[|s.clients|] == Arrived
  {
    if a.Advance? { RegionIsLocal(s, a.request, a.raises); } else { EnvironmentTells(s, a); }
  }

  /** In every schedule: whoever is told 410 asked for a withdrawn code, and whoever is answered from the cache
      is redirected; without the mark, a load answered. */
  lemma {:induction false} AnswersHaveReasons(
    s: Sys, capacity: nat, rows: Rows, withdrawn: set<string>, acts: seq<Action>, r: nat)
    requires Reachable(s, capacity, rows, withdrawn, acts) && r < |s.flight.pcs| && s.flight.pcs[r].Done?
    ensures var a, src := s.flight.pcs[r].answer, s.flight.pcs[r].source;
      && Shaped(s)
      && (a.Gone? ==> src == FromTakedown && s.flight.codes[r] in s.withdrawn)
      && (src.FromTakedown? ==> a == Gone)
      && (src.FromCache? ==> a.Redirect?)
      && (a.NotFound? || a.Failed? ==> src.Led? || src.Followed?)
  {
    AnswersHold(s, capacity, rows, withdrawn, acts);
    assert AnswerOk(s, r);
  }

  // ---------------------------------------------------------------- failures

  /** The store raised when `l` read it, at action `k`. */
  ghost predicate RaisedAt(s0: Sys, acts: seq<Action>, l: nat, k: nat)
    requires Shaped(s0)
  {
    k < |acts| && acts[k] == Advance(l, true) &&
    var at := Exec(s0, acts[..k]); l < |at.clients| && at.flight.pcs[l].Reading?
  }

  ghost predicate StoreRaised(s0: Sys, acts: seq<Action>, l: nat)
    requires Shaped(s0)
  {
    exists k: nat :: RaisedAt(s0, acts, l, k)
  }

  /** Who has an exception to hand on. */
  predicate HasRaised(f: Flight, l: nat) {
    l < |f.pcs| &&
    (f.pcs[l] == Finishing(Outcome.Raised) || f.pcs[l] == Signalling(Outcome.Raised) || f.pcs[l] == Done(Failed, Led))
  }

  lemma {:induction false} RegionRaises(
    f: Flight, r: nat, cached: Option<string>, link: Option<Link>, raises: bool, gone: bool)
    requires Ready(f, r) && |f.codes| == |f.pcs|
    requires HasRaised(FlightAfter(f, r, cached, link, raises, gone), r) && !HasRaised(f, r)
    ensures raises && f.pcs[r].Reading?
  {
  }

  lemma {:induction false} RaisingStarts(s: Sys, a: Action, l: nat)
    requires Shaped(s) && HasRaised(Step(s, a).flight, l) && !HasRaised(s.flight, l)
    ensures a == Advance(l, true) && l < |s.clients| && s.flight.pcs[l].Reading?
  {
    if !a.Advance? {
      EnvironmentTells(s, a);
      NewcomerIsNotDone(s, a);
    } else {
      RegionIsLocal(s, a.request, a.raises);
      var code := s.flight.codes[a.request];
      var cached := GetStep(s.memory.lru, code, s.clients[a.request].now).1;
      RegionRaises(s.flight, a.request, cached, LiveLink(s, a.request), a.raises, code in s.withdrawn);
    }
  }

  lemma {:induction false} RaisedEarlier(s0: Sys, acts: seq<Action>, l: nat)
    requires Shaped(s0) && acts != [] && StoreRaised(s0, acts[..|acts| - 1], l)
    ensures StoreRaised(s0, acts, l)
  {
    var front := acts[..|acts| - 1];
    var k: nat :| RaisedAt(s0, front, l, k);
    assert front[..k] == acts[..k];
    assert RaisedAt(s0, acts, l, k);
  }

  lemma {:induction false} FailuresAreRaised(s0: Sys, acts: seq<Action>, l: nat)
    requires Shaped(s0) && s0.clients == [] && HasRaised(Exec(s0, acts).flight, l)
    ensures StoreRaised(s0, acts, l)
    decreases acts
  {
    if acts != [] {
      var front, a := acts[..|acts| - 1], acts[|acts| - 1];
      if HasRaised(Exec(s0, front).flight, l) {
        FailuresAreRaised(s0, front, l);
        RaisedEarlier(s0, acts, l);
      } else {
        RaisingStarts(Exec(s0, front), a, l);
        assert RaisedAt(s0, acts, l, |front|);
      }
    }
  }

  /** Nobody fails unless the store raised: a request that failed read the store itself when it raised, or
      waited for a leader that did. */
  lemma {:induction false} FailedMeansRaised(
    s: Sys, capacity: nat, rows: Rows, withdrawn: set<string>, acts: seq<Action>, r: nat)
    requires Reachable(s, capacity, rows, withdrawn, acts) && r < |s.flight.pcs|
    requires s.flight.pcs[r].Done? && s.flight.pcs[r].answer.Failed?
    ensures var src := s.flight.pcs[r].source;
      && (src.Led? || src.Followed?)
      && StoreRaised(Start(capacity, rows, withdrawn), acts, if src.Led? then r else src.leader)
  {
    AnswersHaveReasons(s, capacity, rows, withdrawn, acts, r);
    SingleFlightSafety(s, capacity, rows, withdrawn, acts);
    var l := if s.flight.pcs[r].source.Led? then r else s.flight.pcs[r].source.leader;
    FailuresAreRaised(Start(capacity, rows, withdrawn), acts, l);
  }

  // ---------------------------------------------------------------- one request by itself

  /** A request for a code that is cached and live needs two regions, and is redirected to the cached value. */
  lemma {:induction false} HitIsRedirected(s: Sys, r: nat, e: Entry)
    requires Shaped(s) && Distinct(s.memory.lru.entries) && r < |s.clients| && s.flight.pcs[r].Arrived?
    requires s.flight.codes[r] !in s.withdrawn && e in s.memory.lru.entries && e.key == s.flight.codes[r]
    requires e.expires.None? || s.clients[r].now < e.expires.value
    ensures var s' := Exec(s, Advances(r, 2));
      && r < |s'.flight.pcs| && s'.flight.pcs[r] == Done(Redirect(e.value), FromCache)
      && s'.memory.lru.entries != [] && s'.memory.lru.entries[|s'.memory.lru.entries| - 1] == e
  {
    TwoAdvances(s, r);
    assert Step(s, Advance(r, false)) == s.(flight := s.flight.(pcs := s.flight.pcs[r := Probing]));
    FindIsUnique(s.memory.lru.entries, e);
  }

  /** A marked code needs one. */
  lemma {:induction false} MarkedIsGone(s: Sys, r: nat)
    requires Shaped(s) && r < |s.clients| && s.flight.pcs[r].Arrived? && s.flight.codes[r] in s.withdrawn
    ensures Step(s, Advance(r, false)).flight.pcs[r] == Done(Gone, FromTakedown)
  {
  }

  /** `r` is at `pc`, for a code that is not cached. */
  ghost predicate Uncached(s: Sys, r: nat, pc: Pc) {
    && Shaped(s) && Distinct(s.memory.lru.entries) && r < |s.clients| && s.flight.pcs[r] == pc
    && s.flight.codes[r] !in Keys(s.memory.lru.entries)
  }

  /** ... and leads the call. */
  ghost predicate Leading(s: Sys, r: nat, pc: Pc) {
    Uncached(s, r, pc) && s.flight.codes[r] in s.flight.calls && s.flight.calls[s.flight.codes[r]] == r
  }

  lemma {:induction false} FirstLookupMisses(s: Sys, r: nat)
    requires Shaped(s) && Distinct(s.memory.lru.entries) && r < |s.clients| && s.flight.pcs[r].Arrived?
    requires s.flight.codes[r] !in s.withdrawn
    requires GetStep(s.memory.lru, s.flight.codes[r], s.clients[r].now).1.None?
    ensures var s' := Step(Step(s, Advance(r, false)), Advance(r, false));
      Uncached(s', r, Entering) && s'.flight.calls == s.flight.calls && s'.memory.capacity == s.memory.capacity
  {
    assert Step(s, Advance(r, false)) == s.(flight := s.flight.(pcs := s.flight.pcs[r := Probing]));
    KeysAfterGet(s.memory.lru, s.flight.codes[r], s.clients[r].now);
    GetKeepsDistinct(s.memory.lru, s.flight.codes[r], s.clients[r].now);
  }

  lemma {:induction false} EntersAsLeader(s: Sys, r: nat)
    requires Uncached(s, r, Entering) && s.flight.codes[r] !in s.flight.calls
    ensures Leading(Step(s, Advance(r, false)), r, Rechecking) && Step(s, Advance(r, false)).memory == s.memory
  {
  }

  lemma {:induction false} RecheckMisses(s: Sys, r: nat)
    requires Leading(s, r, Rechecking)
    ensures Leading(Step(s, Advance(r, false)), r, Reading)
    ensures Step(s, Advance(r, false)).memory.capacity == s.memory.capacity
  {
    var code, now := s.flight.codes[r], s.clients[r].now;
    LookupTells(s.memory.lru, code, now);
    KeysAfterGet(s.memory.lru, code, now);
    GetKeepsDistinct(s.memory.lru, code, now);
  }

  lemma {:induction false} FourRegions(s: Sys, r: nat)
    requires Shaped(s)
    ensures Exec(s, Advances(r, 4)) == Step(Step(Exec(s, Advances(r, 2)), Advance(r, false)), Advance(r, false))
  {
    ExecSnoc(s, Advances(r, 2), Advance(r, false));
    ExecSnoc(s, Advances(r, 3), Advance(r, false));
  }

  lemma {:induction false} ComesToRead(s: Sys, r: nat)
    requires Shaped(s) && Distinct(s.memory.lru.entries) && r < |s.clients| && s.flight.pcs[r].Arrived?
    requires s.flight.codes[r] !in s.withdrawn && s.flight.codes[r] !in s.flight.calls
    requires GetStep(s.memory.lru, s.flight.codes[r], s.clients[r].now).1.None?
    ensures var t := Exec(s, Advances(r, 4));
      Leading(t, r, Reading) && t.rows == s.rows && t.clients == s.clients && t.flight.codes == s.flight.codes
      && t.memory.capacity == s.memory.capacity
  {
    TwoAdvances(s, r);
    FourRegions(s, r);
    FirstLookupMisses(s, r);
    var two := Exec(s, Advances(r, 2));
    RegionIsLocal(s, r, false);
    RegionIsLocal(Step(s, Advance(r, false)), r, false);
    EntersAsLeader(two, r);
    RegionIsLocal(two, r, false);
    RecheckMisses(Step(two, Advance(r, false)), r);
    RegionIsLocal(Step(two, Advance(r, false)), r, false);
  }

  lemma {:induction false} ReadOutcome(s: Sys, r: nat, raises: bool)
    requires Leading(s, r, Reading)
    ensures var s' := Step(s, Advance(r, raises)); var code := s.flight.codes[r];
      && (raises ==> Leading(s', r, Finishing(Outcome.Raised)))
      && (!raises && code !in s.rows ==> Leading(s', r, Finishing(Value(None))))
      && (!raises && code in s.rows ==>
            var link := s.rows[code];
            if link.expires.None? || s.clients[r].now < link.expires.value then Leading(s', r, Storing(link))
            else Leading(s', r, Finishing(Value(None))))
      && s'.memory.lru == s.memory.lru && s'.memory.capacity == s.memory.capacity
  {
  }

  /** `r` has put `e` (if anything can be cached) and is about to finish. */
  lemma {:induction false} StoreCaches(s: Sys, r: nat, link: Link)
    requires Leading(s, r, Storing(link))
    ensures var s' := Step(s, Advance(r, false));
      && Shaped(s') && r < |s'.clients| && s'.flight.pcs[r] == Finishing(Value(Some(link.target)))
      && s'.flight.codes == s.flight.codes
      && (s.memory.capacity > 0 ==> Entry(s.flight.codes[r], link.target, link.expires) in s'.memory.lru.entries)
  {
    PutStores(s.memory.lru, s.memory.capacity, Entry(s.flight.codes[r], link.target, link.expires));
  }

  lemma {:induction false} Finishes(s: Sys, r: nat, o: Outcome)
    requires Shaped(s) && r < |s.clients| && s.flight.pcs[r] == Finishing(o)
    ensures var s' := Step(Step(s, Advance(r, false)), Advance(r, false));
      && r < |s'.flight.pcs| && s'.flight.pcs[r].Done? && s'.flight.pcs[r].source == Led && s'.memory == s.memory
      && s'.flight.codes[r] !in s'.flight.calls && r in s'.flight.done && s'.flight.done[r] == o
      && s'.flight.pcs[r].answer == match o
                                    case Raised => Failed
                                    case Value(None) => NotFound
                                    case Value(Some(t)) => Redirect(t)
  {
  }

  lemma {:induction false} DoneStays(s: Sys, r: nat)
    requires Shaped(s) && r < |s.clients| && s.flight.pcs[r].Done?
    ensures Step(s, Advance(r, false)) == s
  {
  }

  lemma {:induction false} ThreeRegions(s: Sys, r: nat)
    requires Shaped(s)
    ensures Exec(s, Advances(r, 3)) == Step(Step(Step(s, Advance(r, false)), Advance(r, false)), Advance(r, false))
  {
    TwoAdvances(s, r);
    ExecSnoc(s, Advances(r, 2), Advance(r, false));
  }

  /** The store, as the request will find it. */
  function StoreSays(rows: Rows, code: string, now: int, raises: bool): Answer {
    if raises then Failed
    else if code !in rows then NotFound
    else if rows[code].expires.None? || now < rows[code].expires.value then Redirect(rows[code].target)
    else NotFound
  }

  /** A request for a code that is not cached and that nobody is loading, run by itself: the store decides, and
      what it redirects to is cached. */
  lemma {:induction false} MissAsksStore(s: Sys, r: nat, raises: bool)
    requires Shaped(s) && Distinct(s.memory.lru.entries) && r < |s.clients| && s.flight.pcs[r].Arrived?
    requires s.flight.codes[r] !in s.withdrawn && s.flight.codes[r] !in s.flight.calls
    requires GetStep(s.memory.lru, s.flight.codes[r], s.clients[r].now).1.None?
    ensures var code, a := s.flight.codes[r], StoreSays(s.rows, s.flight.codes[r], s.clients[r].now, raises);
      var e := Exec(Step(Exec(s, Advances(r, 4)), Advance(r, raises)), Advances(r, 3));
      && r < |e.flight.pcs| && e.flight.pcs[r] == Done(a, Led)
      && (a.Redirect? && s.memory.capacity > 0 ==> Entry(code, a.target, s.rows[code].expires) in e.memory.lru.entries)
  {
    var code := s.flight.codes[r];
    ComesToRead(s, r);
    var t := Exec(s, Advances(r, 4));
    ReadOutcome(t, r, raises);
    RegionIsLocal(t, r, raises);
    var u := Step(t, Advance(r, raises));
    ThreeRegions(u, r);
    if u.flight.pcs[r].Storing? {
      StoreCaches(u, r, u.flight.pcs[r].link);
      Finishes(Step(u, Advance(r, false)), r, Value(Some(u.flight.pcs[r].link.target)));
    } else {
      Finishes(u, r, u.flight.pcs[r].outcome);
      RegionIsLocal(u, r, false);
      RegionIsLocal(Step(u, Advance(r, false)), r, false);
      DoneStays(Step(Step(u, Advance(r, false)), Advance(r, false)), r);
    }
  }

  // ---------------------------------------------------------------- disappearances and counts

  /** A step in which the entry of `k` disappears: an invalidation or a flush; a lookup of `k` when it has
      expired; or a put of another key into a full cache, or of `k` itself where nothing can be cached. */
  ghost predicate MayRemove(s: Sys, a: Action, k: string)
    requires Shaped(s)
  {
    match a
    case Invalidate(code) => code == k
    case Flush => true
    case Advance(r, _) =>
      r < |s.clients| && (
        match s.flight.pcs[r]
        case Probing => ExpiredEntry(s, r, k)
        case Rechecking => ExpiredEntry(s, r, k)
        case Storing(_) =>
          if s.flight.codes[r] == k then s.memory.capacity == 0 else |s.memory.lru.entries| >= s.memory.capacity
        case _ => false)
    case _ => false
  }

  ghost predicate ExpiredEntry(s: Sys, r: nat, k: string)
    requires Shaped(s) && r < |s.clients|
  {
    s.flight.codes[r] == k &&
    exists e :: e in s.memory.lru.entries && e.key == k && e.expires.Some? && e.expires.value <= s.clients[r].now
  }

  lemma {:induction false} LookupRemoves(m: Memory, code: string, now: int, k: string)
    requires Distinct(m.lru.entries)
    ensures var m' := Recached(m, GetStep(m.lru, code, now).0, {});
      && m'.removed[k] <= m.removed[k] + 1
      && (m'.removed[k] > m.removed[k] ==>
            code == k && exists e :: e in m.lru.entries && e.key == k && e.expires.Some? && e.expires.value <= now)
  {
    LookupTells(m.lru, code, now);
    if k in Keys(m.lru.entries) && k !in Keys(GetStep(m.lru, code, now).0.entries) {
      var e :| e in m.lru.entries && e.key == k;
      assert e in m.lru.entries && e !in GetStep(m.lru, code, now).0.entries;
    }
  }

  lemma {:induction false} PutRemoves(m: Memory, e: Entry, k: string)
    requires Distinct(m.lru.entries)
    ensures var m' := Recached(m, PutStep(m.lru, m.capacity, e), {e.key});
      && m'.removed[k] <= m.removed[k] + 1
      && (m'.removed[k] > m.removed[k] ==>
            if e.key == k then m.capacity == 0 else |m.lru.entries| >= m.capacity)
  {
    var c' := PutStep(m.lru, m.capacity, e);
    PutStores(m.lru, m.capacity, e);
    if k in Keys(m.lru.entries) && k != e.key && k !in Keys(c'.entries) {
      var x :| x in m.lru.entries && x.key == k;
      assert x !in c'.entries;
      assert |Without(m.lru.entries, e.key) + [e]| <= |m.lru.entries| + 1;
      assert x in Without(m.lru.entries, e.key) + [e];
    }
  }

  /** The disappearances of the stampede law are exactly of these kinds, one at a time. */
  lemma {:induction false} RemovalHasReason(s: Sys, a: Action, k: string)
    requires Shaped(s) && Distinct(s.memory.lru.entries)
    ensures Step(s, a).memory.removed[k] <= s.memory.removed[k] + 1
    ensures Step(s, a).memory.removed[k] > s.memory.removed[k] ==> MayRemove(s, a, k)
  {
    if a.Advance? && Enabled(s, a) {
      var r := a.request;
      var code, now, pc := s.flight.codes[r], s.clients[r].now, s.flight.pcs[r];
      LookupRemoves(s.memory, code, now, k);
      if pc.Storing? { PutRemoves(s.memory, Entry(code, pc.link.target, pc.link.expires), k); }
    }
  }

  /** The step is a store read of `k`. */
  predicate ReadsFor(s: Sys, a: Action, k: string)
    requires Shaped(s)
  {
    a.Advance? && a.request < |s.clients| && s.flight.pcs[a.request].Reading? && s.flight.codes[a.request] == k
  }

  /** Store reads of `k` in a schedule, and those that found no live link. */
  function StoreReads(s0: Sys, acts: seq<Action>, k: string, all: bool): nat
    requires Shaped(s0)
  {
    if acts == [] then 0
    else
      var front, a := acts[..|acts| - 1], acts[|acts| - 1];
      var s := Exec(s0, front);
      StoreReads(s0, front, k, all) +
        if ReadsFor(s, a, k) && (all || !StoreSays(s.rows, k, s.clients[a.request].now, a.raises).Redirect?)
        then 1 else 0
  }

  lemma {:induction false} StepCounts(s: Sys, a: Action, k: string)
    requires Shaped(s)
    ensures var s' := Step(s, a);
      && s'.memory.loads[k] == s.memory.loads[k] + (if ReadsFor(s, a, k) then 1 else 0)
      && s'.memory.fruitless[k] == s.memory.fruitless[k] +
           if ReadsFor(s, a, k) && !StoreSays(s.rows, k, s.clients[a.request].now, a.raises).Redirect? then 1 else 0
  {
  }

  /** The counts of the stampede law are the store reads of the schedule. */
  lemma {:induction false} CountsAreTrue(s0: Sys, acts: seq<Action>, k: string)
    requires Shaped(s0) && s0.memory.loads == s0.memory.fruitless == multiset{}
    ensures Exec(s0, acts).memory.loads[k] == StoreReads(s0, acts, k, true)
    ensures Exec(s0, acts).memory.fruitless[k] == StoreReads(s0, acts, k, false)
    decreases acts
  {
    if acts != [] {
      CountsAreTrue(s0, acts[..|acts| - 1], k);
      StepCounts(Exec(s0, acts[..|acts| - 1]), acts[|acts| - 1], k);
    }
  }

  // ---------------------------------------------------------------- moments

  /** After `k` actions, request `r` has arrived and is not done, and an uncached lookup of its code at its own
      time finds `t`. */
  ghost predicate TrueAt(s0: Sys, acts: seq<Action>, r: nat, k: nat, t: Option<string>)
    requires Shaped(s0)
  {
    k <= |acts| &&
    var at := Exec(s0, acts[..k]);
    && r < |at.clients| && !at.flight.pcs[r].Done?
    && t == Shown(RowOf(at.rows, at.flight.codes[r]), at.clients[r].now)
  }

  lemma {:induction false} TruthIsNew(s: Sys, a: Action, r: nat, t: Option<string>)
    requires Shaped(s) && r < |Step(s, a).clients| && t in Step(s, a).clients[r].truths
    requires r < |s.clients| ==> t !in s.clients[r].truths
    ensures var s' := Step(s, a);
      !s'.flight.pcs[r].Done? && t == Shown(RowOf(s'.rows, s'.flight.codes[r]), s'.clients[r].now)
  {
    if a.Advance? { RegionIsLocal(s, a.request, a.raises); } else { EnvironmentTells(s, a); }
    ResolvedIsShown(Step(s, a).rows, Step(s, a).flight.codes[r], Step(s, a).clients[r].now);
  }

  lemma {:induction false} TruthsHaveMoments(s0: Sys, acts: seq<Action>, r: nat, t: Option<string>)
    requires Shaped(s0) && s0.clients == [] && r < |Exec(s0, acts).clients| && t in Exec(s0, acts).clients[r].truths
    ensures exists k: nat :: TrueAt(s0, acts, r, k, t)
    decreases acts
  {
    if acts != [] {
      var front, a := acts[..|acts| - 1], acts[|acts| - 1];
      var s := Exec(s0, front);
      assert acts[..|acts|] == acts;
      if r < |s.clients| && t in s.clients[r].truths {
        TruthsHaveMoments(s0, front, r, t);
        var k: nat :| TrueAt(s0, front, r, k, t);
        assert front[..k] == acts[..k];
        assert TrueAt(s0, acts, r, k, t);
      } else {
        TruthIsNew(s, a, r, t);
        assert TrueAt(s0, acts, r, |acts|, t);
      }
    }
  }

  /** Linearizability in terms of moments: a request that hit the cache or loaded by itself was told what an
      uncached lookup at its own time finds at some moment after it arrived and before it was done. */
  lemma {:induction false} AnsweredAtSomeMoment(
    s: Sys, capacity: nat, rows: Rows, withdrawn: set<string>, acts: seq<Action>, r: nat)
    requires Reachable(s, capacity, rows, withdrawn, acts) && r < |s.clients| && r < |s.flight.pcs|
    requires s.flight.pcs[r].Done? && (s.flight.pcs[r].source.FromCache? || s.flight.pcs[r].source.Led?)
    requires s.clients[r].punctual && !s.flight.pcs[r].answer.Failed?
    ensures var a, s0 := s.flight.pcs[r].answer, Start(capacity, rows, withdrawn);
      && (a.Redirect? || a.NotFound?)
      && var t := if a.Redirect? then Some(a.target) else None;
        exists k: nat :: TrueAt(s0, acts, r, k, t)
  {
    Linearizable(s, capacity, rows, withdrawn, acts, r);
    AnswersHaveReasons(s, capacity, rows, withdrawn, acts, r);
    var a := s.flight.pcs[r].answer;
    TruthsHaveMoments(Start(capacity, rows, withdrawn), acts, r, if a.Redirect? then Some(a.target) else None);
  }

  // ---------------------------------------------------------------- marks and sweeps

  lemma {:induction false} MarksStay(s: Sys, more: seq<Action>, code: string)
    requires Shaped(s) && code in s.withdrawn
    ensures code in Exec(s, more).withdrawn
    decreases more
  {
    if more != [] {
      var front, a := more[..|more| - 1], more[|more| - 1];
      MarksStay(s, front, code);
      var t := Exec(s, front);
      if a.Advance? { RegionIsLocal(t, a.request, a.raises); } else { EnvironmentTells(t, a); }
    }
  }

  /** Takedown stops the link on this instance: after a withdrawal, anywhere in a schedule, no later request for
      the code is answered with anything but 410, whatever is cached, created or loading. */
  lemma {:induction false} WithdrawalStops(
    s0: Sys, first: seq<Action>, code: string, mid: seq<Action>, now: int, more: seq<Action>)
    requires Shaped(s0) && LateOk(s0)
    ensures var at := Exec(Step(Exec(s0, first), Withdraw(code)), mid);
      var e, r := Exec(Step(at, Arrive(code, now)), more), |at.clients|;
      r < |e.flight.pcs| && (e.flight.pcs[r].Done? ==> e.flight.pcs[r].answer == Gone)
  {
    var w := Step(Exec(s0, first), Withdraw(code));
    var at := Exec(w, mid);
    var t := Step(at, Arrive(code, now));
    LateHolds(s0, first);
    StepKeepsLate(Exec(s0, first), Withdraw(code));
    LateHolds(w, mid);
    StepKeepsLate(at, Arrive(code, now));
    EnvironmentTells(Exec(s0, first), Withdraw(code));
    MarksStay(w, mid, code);
    LateHolds(t, more);
    LateStays(t, more, |at.clients|);
  }

  lemma {:induction false} LateHolds(s: Sys, more: seq<Action>)
    requires Shaped(s) && LateOk(s)
    ensures LateOk(Exec(s, more))
    decreases more
  {
    if more != [] {
      LateHolds(s, more[..|more| - 1]);
      StepKeepsLate(Exec(s, more[..|more| - 1]), more[|more| - 1]);
    }
  }

  lemma {:induction false} LateStays(s: Sys, more: seq<Action>, r: nat)
    requires Shaped(s) && r < |s.clients| && s.clients[r].tooLate
    ensures r < |Exec(s, more).clients| && Exec(s, more).clients[r].tooLate
    decreases more
  {
    if more != [] {
      var t, a := Exec(s, more[..|more| - 1]), more[|more| - 1];
      LateStays(s, more[..|more| - 1], r);
      if a.Advance? { RegionIsLocal(t, a.request, a.raises); }
    }
  }

  /** The latest time that a sweep of the schedule used. */
  function LatestSweep(acts: seq<Action>): Option<int> {
    if acts == [] then None
    else
      var before, a := LatestSweep(acts[..|acts| - 1]), acts[|acts| - 1];
      if a.Purge? && (before.None? || before.value <= a.now) then Some(a.now) else before
  }

  lemma {:induction false} SweepIsLatest(s0: Sys, acts: seq<Action>)
    requires Shaped(s0) && s0.lastPurge == None
    ensures Exec(s0, acts).lastPurge == LatestSweep(acts)
    decreases acts
  {
    if acts != [] {
      var front, a := acts[..|acts| - 1], acts[|acts| - 1];
      SweepIsLatest(s0, front);
      if a.Advance? { RegionIsLocal(Exec(s0, front), a.request, a.raises); }
    }
  }

  lemma {:induction false} LatestIsMaximum(acts: seq<Action>)
    ensures forall i | 0 <= i < |acts| && acts[i].Purge? ::
              LatestSweep(acts).Some? && acts[i].now <= LatestSweep(acts).value
    ensures LatestSweep(acts).Some? ==> exists i :: 0 <= i < |acts| && acts[i] == Purge(LatestSweep(acts).value)
  {
    if acts != [] {
      var front, a := acts[..|acts| - 1], acts[|acts| - 1];
      LatestIsMaximum(front);
      if LatestSweep(acts).Some? {
        if LatestSweep(acts) != LatestSweep(front) {
          assert acts[|acts| - 1] == Purge(LatestSweep(acts).value);
        } else {
          var i :| 0 <= i < |front| && front[i] == Purge(LatestSweep(front).value);
          assert acts[i] == Purge(LatestSweep(acts).value);
        }
      }
    }
  }

  /** A request is punctual exactly if no sweep before its arrival used a later time than its own. */
  lemma {:induction false} PunctualIff(s0: Sys, acts: seq<Action>, code: string, now: int)
    requires Shaped(s0) && s0.lastPurge == None
    ensures var s := Exec(s0, acts); var s' := Step(s, Arrive(code, now));
      && |s'.clients| == |s.clients| + 1
      && (s'.clients[|s.clients|].punctual <==> forall i | 0 <= i < |acts| && acts[i].Purge? :: acts[i].now <= now)
  {
    SweepIsLatest(s0, acts);
    LatestIsMaximum(acts);
  }
}
