/**
 What single flight does to the answers of its waiters (src/shortener/app.py, `resolve`;
 src/shortener/store.py, `SingleFlight.do`), under every interleaving of `ReadPath`.

 A waiter gets the answer that its leader found with the leader's `now_ms`. The leader's answer is right for
 the leader (`ReadPath.Linearizable`); here is when it is right for the waiter.
 */
module Waiters {
  import opened Prelude
  import opened LruCaches
  import opened LinkStores
  import opened ReadPath

  /** What a leader's waiters are going to be told, once its store read or its re-check has decided it. */
  function Decision(f: Flight, l: nat): Option<Outcome>
    requires l < |f.pcs|
  {
    match f.pcs[l]
    case Storing(link) => Some(Value(Some(link.target)))
    case Finishing(o) => Some(o)
    case Signalling(o) => Some(o)
    case Done(_, Led) => if l in f.done then Some(f.done[l]) else None
    case _ => None
  }

  /** The answer is one that an uncached lookup would have given during the request. */
  predicate RightlyTold(s: Sys, r: nat)
    requires Shaped(s) && r < |s.clients| && s.flight.pcs[r].Done?
  {
    match s.flight.pcs[r].answer
    case Redirect(t) => Some(t) in s.clients[r].truths
    case NotFound => None in s.clients[r].truths
    case _ => true
  }

  /** `r` waits for `l`, or was answered by it. */
  predicate Follows(f: Flight, r: nat, l: nat)
    requires r < |f.pcs|
  {
    f.pcs[r] == Waiting(l) || (f.pcs[r].Done? && f.pcs[r].source == Followed(l))
  }

  /** What no region takes away from a request: its code, its fate, and its decision. */
  ghost predicate FlightKept(f: Flight, f': Flight, r: nat)
    requires r < |f.pcs| == |f.codes|
  {
    && r < |f'.pcs| == |f'.codes| && f'.codes[r] == f.codes[r]
    && (f.pcs[r].Done? ==> f'.pcs[r] == f.pcs[r])
    && (f.pcs[r].Waiting? ==> Follows(f', r, f.pcs[r].leader))
    && (Decision(f, r).Some? ==> Decision(f', r) == Decision(f, r))
  }

  /** What no step takes away from it: its time, and the truths it has seen. */
  ghost predicate ClientKept(c: Client, c': Client) {
    c'.now == c.now && c'.punctual == c.punctual && c.truths <= c'.truths
  }

  ghost predicate Kept(s: Sys, s': Sys, r: nat)
    requires Shaped(s) && Shaped(s') && r < |s.clients|
  {
    r < |s'.clients| && FlightKept(s.flight, s'.flight, r) && ClientKept(s.clients[r], s'.clients[r])
  }

  /** Another request's region leaves it alone. */
  lemma {:induction false} OthersKeep(f: Flight, i: nat, r: nat, cached: Option<string>, link: Option<Link>,
                                      raises: bool, gone: bool)
    requires FlightOk(f) && Ready(f, i) && r < |f.pcs| && r != i
    ensures FlightKept(f, FlightAfter(f, i, cached, link, raises, gone), r)
  {
    RegionMoves(f, i, cached, link, raises, gone);
    if f.pcs[i].Signalling? {
      assert FlightAfter(f, i, cached, link, raises, gone).done == f.done[i := f.pcs[i].outcome];
    }
  }

  lemma {:induction false} OwnRegionKeeps(f: Flight, r: nat, cached: Option<string>, link: Option<Link>, raises: bool,
                                          gone: bool)
    requires FlightOk(f) && Ready(f, r)
    ensures FlightKept(f, FlightAfter(f, r, cached, link, raises, gone), r)
  {
  }

  lemma {:induction false} StepKeeps(s: Sys, a: Action, r: nat)
    requires Shaped(s) && FlightOk(s.flight) && r < |s.clients|
    ensures Kept(s, Step(s, a), r)
  {
    if Enabled(s, a) && a.Advance? {
      var i := a.request;
      var code := s.flight.codes[i];
      var cached := GetStep(s.memory.lru, code, s.clients[i].now).1;
      if i == r {
        OwnRegionKeeps(s.flight, r, cached, LiveLink(s, i), a.raises, code in s.withdrawn);
      } else {
        OthersKeep(s.flight, i, r, cached, LiveLink(s, i), a.raises, code in s.withdrawn);
      }
    }
  }

  lemma {:induction false} RunKeeps(s: Sys, more: seq<Action>, r: nat)
    requires Shaped(s) && FlightOk(s.flight) && r < |s.clients|
    ensures FlightOk(Exec(s, more).flight) && Kept(s, Exec(s, more), r)
    decreases more
  {
    if more != [] {
      var front, a := more[..|more| - 1], more[|more| - 1];
      RunKeeps(s, front, r);
      StepKeepsFlight(Exec(s, front), a);
      StepKeeps(Exec(s, front), a, r);
    }
  }

  /** Single flight shares the leader's outcome and nothing else: what a waiter is told is right for its
      leader's time, at some moment of the leader's request. */
  lemma {:induction false} FollowerHasLeadersTruth(s: Sys, capacity: nat, rows: Rows, withdrawn: set<string>,
                                                   acts: seq<Action>, r: nat)
    requires Reachable(s, capacity, rows, withdrawn, acts)
    requires r < |s.clients| && s.flight.pcs[r].Done? && s.flight.pcs[r].source.Followed?
    ensures var l := s.flight.pcs[r].source.leader; var answer := s.flight.pcs[r].answer;
      && l < |s.clients| && s.flight.pcs[l] == Done(answer, Led)
      && (s.clients[l].punctual && answer.Redirect? ==> Some(answer.target) in s.clients[l].truths)
      && (s.clients[l].punctual && answer.NotFound? ==> None in s.clients[l].truths)
  {
    SingleFlightSafety(s, capacity, rows, withdrawn, acts);
    var l := s.flight.pcs[r].source.leader;
    if s.clients[l].punctual { Linearizable(s, capacity, rows, withdrawn, acts, l); }
  }

  lemma {:induction false} FollowerIsTold(s: Sys, r: nat, l: nat)
    requires Shaped(s) && FlightOk(s.flight) && r < |s.clients| && l < |s.clients|
    requires Decision(s.flight, l).Some? && Follows(s.flight, r, l) && s.flight.pcs[r].Done?
    ensures s.flight.pcs[r].answer == AnswerOf(Decision(s.flight, l).value)
  {
    assert RequestOk(s.flight, r) && OutcomeOk(s.flight, l);
  }

  lemma {:induction false} ExecSnoc(s: Sys, acts: seq<Action>, a: Action)
    requires Shaped(s)
    ensures Exec(s, acts + [a]) == Step(Exec(s, acts), a)
  {
    assert (acts + [a])[..|acts|] == acts;
  }

  /** `l` has decided on `o` and is at most `n` regions from its end, and `r` waits for it. */
  ghost predicate AboutToTell(f: Flight, l: nat, r: nat, o: Outcome, n: nat) {
    && r < |f.pcs| == |f.codes| && l < |f.pcs| && r != l && f.pcs[r] == Waiting(l)
    && Decision(f, l) == Some(o) && Rank(f.pcs[l]) <= n && (f.pcs[l].Done? <==> l in f.done)
  }

  lemma {:induction false} FlightAdvances(
    f: Flight, l: nat, r: nat, o: Outcome, n: nat, cached: Option<string>, link: Option<Link>, gone: bool)
    requires AboutToTell(f, l, r, o, n + 1)
    ensures Ready(f, l) ==> AboutToTell(FlightAfter(f, l, cached, link, false, gone), l, r, o, n)
    ensures !Ready(f, l) ==> AboutToTell(f, l, r, o, n)
  {
  }

  lemma {:induction false} LeaderAdvances(s: Sys, l: nat, r: nat, o: Outcome, n: nat)
    requires Shaped(s) && AboutToTell(s.flight, l, r, o, n + 1)
    ensures var s' := Step(s, Advance(l, false)); s'.clients == s.clients && AboutToTell(s'.flight, l, r, o, n)
  {
    var code := s.flight.codes[l];
    var cached := GetStep(s.memory.lru, code, s.clients[l].now).1;
    FlightAdvances(s.flight, l, r, o, n, cached, LiveLink(s, l), code in s.withdrawn);
  }

  function Advances(l: nat, n: nat): seq<Action> {
    if n == 0 then [] else Advances(l, n - 1) + [Advance(l, false)]
  }

  /** Run the leader to its end, and then its waiter. */
  function Closing(l: nat, r: nat): seq<Action> {
    Advances(l, 3) + [Advance(r, false)]
  }

  lemma {:induction false} OneCloser(s: Sys, l: nat, r: nat, o: Outcome, n: nat)
    requires Shaped(s) && n < 3 && Exec(s, Advances(l, n)).clients == s.clients
    requires AboutToTell(Exec(s, Advances(l, n)).flight, l, r, o, 3 - n)
    ensures Exec(s, Advances(l, n + 1)).clients == s.clients
    ensures AboutToTell(Exec(s, Advances(l, n + 1)).flight, l, r, o, 2 - n)
  {
    var s' := Exec(s, Advances(l, n));
    LeaderAdvances(s', l, r, o, 2 - n);
    ExecSnoc(s, Advances(l, n), Advance(l, false));
  }

  lemma {:induction false} LeaderEnds(s: Sys, l: nat, r: nat, o: Outcome, n: nat)
    requires Shaped(s) && AboutToTell(s.flight, l, r, o, 3) && n <= 3
    ensures Exec(s, Advances(l, n)).clients == s.clients
    ensures AboutToTell(Exec(s, Advances(l, n)).flight, l, r, o, 3 - n)
    decreases n
  {
    if n > 0 {
      LeaderEnds(s, l, r, o, n - 1);
      OneCloser(s, l, r, o, n - 1);
    }
  }

  lemma {:induction false} WaiterWakes(s: Sys, l: nat, r: nat, o: Outcome)
    requires Shaped(s) && AboutToTell(s.flight, l, r, o, 0)
    ensures var s' := Step(s, Advance(r, false));
      s'.clients == s.clients && s'.flight.pcs == s.flight.pcs[r := Done(AnswerOf(o), Followed(l))]
  {
  }

  lemma {:induction false} ClosingRuns(s: Sys, l: nat, r: nat, o: Outcome)
    requires Shaped(s) && AboutToTell(s.flight, l, r, o, 3)
    ensures var e := Exec(s, Closing(l, r)); e.clients == s.clients && e.flight.pcs[r] == Done(AnswerOf(o), Followed(l))
  {
    LeaderEnds(s, l, r, o, 3);
    WaiterWakes(Exec(s, Advances(l, 3)), l, r, o);
    ExecSnoc(s, Advances(l, 3), Advance(r, false));
  }

  /** A truth that the leader decided on stays the waiter's. */
  lemma {:induction false} TruthStays(s: Sys, more: seq<Action>, r: nat, l: nat, t: Option<string>)
    requires Shaped(s) && FlightOk(s.flight) && r < |s.clients| && l < |s.clients|
    requires Decision(s.flight, l) == Some(Value(t)) && t in s.clients[r].truths
    ensures var e := Exec(s, more);
      && r < |e.clients|
      && (e.flight.pcs[r].Done? && e.flight.pcs[r].source == Followed(l) ==> RightlyTold(e, r))
  {
    RunKeeps(s, more, r);
    RunKeeps(s, more, l);
    var e := Exec(s, more);
    if e.flight.pcs[r].Done? && e.flight.pcs[r].source == Followed(l) { FollowerIsTold(e, r, l); }
  }

  /** When a waiter can rely on its answer: while it waits for a leader that has decided, its answer will be
      right in every continuation exactly if an uncached lookup at the waiter's own time has already given
      the leader's outcome, at some moment since the waiter arrived. */
  lemma {:induction false} WaiterIsRightIff(
    s: Sys, capacity: nat, rows: Rows, withdrawn: set<string>, acts: seq<Action>, r: nat, l: nat, t: Option<string>)
    requires Reachable(s, capacity, rows, withdrawn, acts) && r < |s.clients| && l < |s.clients|
    requires s.flight.pcs[r] == Waiting(l) && Decision(s.flight, l) == Some(Value(t))
    ensures Inv(s)
    ensures (forall more: seq<Action> :: (var e := Exec(s, more);
               r < |e.clients| && (e.flight.pcs[r].Done? ==> RightlyTold(e, r))))
            <==> t in s.clients[r].truths
  {
    InvHolds(s, capacity, rows, withdrawn, acts);
    if t in s.clients[r].truths {
      forall more: seq<Action>
        ensures var e := Exec(s, more); r < |e.clients| && (e.flight.pcs[r].Done? ==> RightlyTold(e, r))
      {
        RunKeeps(s, more, r);
        TruthStays(s, more, r, l, t);
      }
    } else {
      if l in s.flight.done { assert OutcomeOk(s.flight, l); }
      ClosingRuns(s, l, r, Value(t));
      assert !RightlyTold(Exec(s, Closing(l, r)), r);
    }
  }

  /** The next region of `l` decides: the re-check hits, or the store is read. */
  predicate Decides(s: Sys, l: nat)
    requires Shaped(s)
  {
    l < |s.clients| &&
    (s.flight.pcs[l].Reading? ||
     (s.flight.pcs[l].Rechecking? && GetStep(s.memory.lru, s.flight.codes[l], s.clients[l].now).1.Some?))
  }

  function RowOf(rows: Rows, code: string): Option<Entry> {
    if code in rows then Some(Entry(code, rows[code].target, rows[code].expires)) else None
  }

  /** What it looks at: the cached entry, or the row. */
  function Sight(s: Sys, l: nat): Option<Entry>
    requires Shaped(s) && l < |s.clients|
  {
    if s.flight.pcs[l].Reading? then RowOf(s.rows, s.flight.codes[l])
    else Find(s.memory.lru.entries, s.flight.codes[l])
  }

  function Shown(sight: Option<Entry>, now: int): Option<string> {
    if sight.Some? && sight.value.LiveAt(now) then Some(sight.value.value) else None
  }

  /** It is expired at both times or at neither. */
  predicate SeenAlike(sight: Option<Entry>, now: int, now': int) {
    sight.Some? ==> (sight.value.LiveAt(now) <==> sight.value.LiveAt(now'))
  }

  lemma {:induction false} DecisionIsShown(s: Sys, l: nat)
    requires Shaped(s) && WellKeyed(s.rows) && Decides(s, l)
    ensures Decision(Step(s, Advance(l, false)).flight, l) == Some(Value(Shown(Sight(s, l), s.clients[l].now)))
  {
  }

  /** A request that has arrived by then, and is not done, has what is shown among its truths. */
  lemma {:induction false} ShownIsTrueForEarly(s: Sys, l: nat, r: nat)
    requires Shaped(s) && FlightOk(s.flight) && TruthOk(s) && Decides(s, l) && r < |s.clients| && !s.flight.pcs[r].Done?
    requires s.flight.codes[r] == s.flight.codes[l] && s.clients[r].punctual
    requires SeenAlike(Sight(s, l), s.clients[l].now, s.clients[r].now)
    ensures Shown(Sight(s, l), s.clients[l].now) in s.clients[r].truths
  {
    assert ClientOk(s, r);
  }

  lemma {:induction false} SweepsGoForward(s: Sys, more: seq<Action>)
    requires Shaped(s)
    ensures s.lastPurge.Some? ==> Exec(s, more).lastPurge.Some? && s.lastPurge.value <= Exec(s, more).lastPurge.value
    decreases more
  {
    if more != [] { SweepsGoForward(s, more[..|more| - 1]); }
  }

  /** The same for one that arrives later and finds the row as it was. */
  lemma {:induction false} ShownIsTrueForLate(s: Sys, l: nat, later: Sys, now: int)
    requires Shaped(s) && Shaped(later) && TruthOk(s) && Decides(s, l)
    requires RowOf(later.rows, s.flight.codes[l]) == RowOf(s.rows, s.flight.codes[l])
    requires s.lastPurge.Some? ==> later.lastPurge.Some? && s.lastPurge.value <= later.lastPurge.value
    requires Later(later.lastPurge, now) == now && SeenAlike(Sight(s, l), s.clients[l].now, now)
    ensures Resolved(later.rows, s.flight.codes[l], now) == Shown(Sight(s, l), s.clients[l].now)
  {
    var sight := Sight(s, l);
    if s.flight.pcs[l].Rechecking? {
      assert Current(s.rows, s.lastPurge, sight.value.key, sight.value.value, sight.value.expires);
    }
  }

  lemma {:induction false} ExecThen(s: Sys, first: seq<Action>, more: seq<Action>)
    requires Shaped(s)
    ensures Exec(s, first + more) == Exec(Exec(s, first), more)
    decreases more
  {
    if more == [] {
      assert first + more == first;
    } else {
      var n := |more| - 1;
      assert (first + more)[..|first + more| - 1] == first + more[..n];
      ExecThen(s, first, more[..n]);
    }
  }

  lemma {:induction false} FollowersEndLast(f: Flight, r: nat, l: nat)
    requires FlightOk(f) && r < |f.pcs|
    ensures f.pcs[r].Done? && f.pcs[r].source == Followed(l) ==> l < |f.pcs| && f.pcs[l].Done?
  {
    assert RequestOk(f, r);
    if l in f.done { assert OutcomeOk(f, l); }
  }

  lemma {:induction false} EarlyWaiterIsRight(s: Sys, l: nat, mid: seq<Action>, r: nat)
    requires Inv(s) && Decides(s, l) && r < |s.clients|
    requires var e := Exec(Step(s, Advance(l, false)), mid);
      && r < |e.clients| && e.flight.pcs[r].Done? && e.flight.pcs[r].source == Followed(l) && e.clients[r].punctual
      && SeenAlike(Sight(s, l), s.clients[l].now, e.clients[r].now)
    ensures RightlyTold(Exec(Step(s, Advance(l, false)), mid), r)
  {
    var a := Advance(l, false);
    StepKeepsFlight(s, a);
    StepKeeps(s, a, r);
    RunKeeps(Step(s, a), mid, r);
    LeadersWord(s, l, mid, r);
    FollowersEndLast(s.flight, r, l);
    ShownIsTrueForEarly(s, l, r);
  }

  /** Request `r` arrives in the middle of a run, as action `j`, when the row of `code` is still `row`. */
  predicate ArrivesAt(s: Sys, mid: seq<Action>, j: nat, r: nat, code: string, row: Option<Entry>)
    requires Shaped(s)
  {
    j < |mid| && mid[j].Arrive? &&
    var at := Exec(s, mid[..j]);
    |at.clients| == r && RowOf(at.rows, code) == row
  }

  /** What its arrival settles for a request. */
  lemma {:induction false} ArrivalSettles(s: Sys, mid: seq<Action>, j: nat, r: nat)
    requires Shaped(s) && FlightOk(s.flight) && j < |mid| && mid[j].Arrive? && |Exec(s, mid[..j]).clients| == r
    ensures var at, e := Exec(s, mid[..j]), Exec(s, mid);
      && r < |e.clients| && e.flight.codes[r] == mid[j].code && e.clients[r].now == mid[j].now
      && Resolved(at.rows, mid[j].code, mid[j].now) in e.clients[r].truths
      && (e.clients[r].punctual ==> Later(at.lastPurge, mid[j].now) == mid[j].now)
  {
    var at := Exec(s, mid[..j]);
    RunKeepsFlight(s, mid[..j]);
    StepKeepsFlight(at, mid[j]);
    assert mid == mid[..j] + [mid[j]] + mid[j + 1..];
    ExecThen(s, mid[..j] + [mid[j]], mid[j + 1..]);
    ExecSnoc(s, mid[..j], mid[j]);
    RunKeeps(Step(at, mid[j]), mid[j + 1..], r);
  }

  lemma {:induction false} RunKeepsFlight(s: Sys, more: seq<Action>)
    requires Shaped(s) && FlightOk(s.flight)
    ensures FlightOk(Exec(s, more).flight)
    decreases more
  {
    if more != [] {
      RunKeepsFlight(s, more[..|more| - 1]);
      StepKeepsFlight(Exec(s, more[..|more| - 1]), more[|more| - 1]);
    }
  }

  lemma {:induction false} LateWaiterIsRight(s: Sys, l: nat, mid: seq<Action>, j: nat, r: nat)
    requires Inv(s) && Decides(s, l)
    requires ArrivesAt(Step(s, Advance(l, false)), mid, j, r, s.flight.codes[l], RowOf(s.rows, s.flight.codes[l]))
    requires var e := Exec(Step(s, Advance(l, false)), mid);
      && r < |e.clients| && e.flight.pcs[r].Done? && e.flight.pcs[r].source == Followed(l) && e.clients[r].punctual
      && SeenAlike(Sight(s, l), s.clients[l].now, e.clients[r].now)
    ensures RightlyTold(Exec(Step(s, Advance(l, false)), mid), r)
  {
    var s1 := Step(s, Advance(l, false));
    StepKeepsFlight(s, Advance(l, false));
    ArrivalSettles(s1, mid, j, r);
    SweepsGoForward(s1, mid[..j]);
    ShownIsTrueForLate(s, l, Exec(s1, mid[..j]), mid[j].now);
    LeadersWord(s, l, mid, r);
  }

  /** A follower of `l` has `l`'s code, and is told what `l` was shown. */
  lemma {:induction false} LeadersWord(s: Sys, l: nat, mid: seq<Action>, r: nat)
    requires Inv(s) && Decides(s, l)
    requires var e := Exec(Step(s, Advance(l, false)), mid);
      r < |e.clients| && e.flight.pcs[r].Done? && e.flight.pcs[r].source == Followed(l)
    ensures var e := Exec(Step(s, Advance(l, false)), mid);
      && e.flight.codes[r] == s.flight.codes[l]
      && e.flight.pcs[r].answer == AnswerOf(Value(Shown(Sight(s, l), s.clients[l].now)))
  {
    var a := Advance(l, false);
    var e := Exec(Step(s, a), mid);
    StepKeepsFlight(s, a);
    DecisionIsShown(s, l);
    StepKeeps(s, a, l);
    RunKeeps(Step(s, a), mid, l);
    FollowerIsTold(e, r, l);
    assert RequestOk(e.flight, r);
  }

  /** A waiter's answer is right for the waiter if the row was expired at both requests' times or at neither,
      and the waiter had arrived when its leader looked, or found the row unchanged when it did arrive.
      `s` is the state in which leader `l` is about to look. */
  lemma {:induction false} WaiterIsRight(
    s: Sys, capacity: nat, rows: Rows, withdrawn: set<string>, acts: seq<Action>,
    l: nat, mid: seq<Action>, j: nat, r: nat)
    requires Reachable(s, capacity, rows, withdrawn, acts) && Shaped(s) && Decides(s, l)
    requires var e := Exec(Step(s, Advance(l, false)), mid);
      && r < |e.clients| && e.flight.pcs[r].Done? && e.flight.pcs[r].source == Followed(l) && e.clients[r].punctual
      && SeenAlike(Sight(s, l), s.clients[l].now, e.clients[r].now)
    requires
      || r < |s.clients|
      || ArrivesAt(Step(s, Advance(l, false)), mid, j, r, s.flight.codes[l], RowOf(s.rows, s.flight.codes[l]))
    ensures RightlyTold(Exec(Step(s, Advance(l, false)), mid), r)
  {
    InvHolds(s, capacity, rows, withdrawn, acts);
    if r < |s.clients| { EarlyWaiterIsRight(s, l, mid, r); } else { LateWaiterIsRight(s, l, mid, j, r); }
  }

  function Moved(f: Flight, r: nat, pc: Pc): Flight
    requires r < |f.pcs|
  {
    f.(pcs := f.pcs[r := pc])
  }

  /** A request for the code that `l` leads, at its start, with nothing cached for it. */
  ghost predicate WillJoin(s: Sys, r: nat, l: nat)
    requires Shaped(s)
  {
    r < |s.clients| && s.flight.pcs[r].Arrived? && s.flight.codes[r] !in s.withdrawn
    && GetStep(s.memory.lru, s.flight.codes[r], s.clients[r].now).1.None?
    && s.flight.codes[r] in s.flight.calls && s.flight.calls[s.flight.codes[r]] == l
  }

  lemma {:induction false} TwoAdvances(s: Sys, r: nat)
    requires Shaped(s)
    ensures Exec(s, Advances(r, 2)) == Step(Step(s, Advance(r, false)), Advance(r, false))
  {
    ExecSnoc(s, Advances(r, 0), Advance(r, false));
    ExecSnoc(s, Advances(r, 1), Advance(r, false));
  }

  lemma {:induction false} FirstTwoRegions(s: Sys, r: nat, l: nat)
    requires Shaped(s) && WillJoin(s, r, l)
    ensures var s' := Exec(s, Advances(r, 2)); s'.clients == s.clients && s'.flight == Moved(s.flight, r, Entering)
  {
    assert Step(s, Advance(r, false)) == s.(flight := Moved(s.flight, r, Probing));
    TwoAdvances(s, r);
    assert s.flight.pcs[r := Probing][r := Entering] == s.flight.pcs[r := Entering];
  }

  lemma {:induction false} JoinsLeader(s: Sys, r: nat, l: nat)
    requires Shaped(s) && WillJoin(s, r, l)
    ensures var s' := Exec(s, Advances(r, 3)); s'.clients == s.clients && s'.flight == Moved(s.flight, r, Waiting(l))
  {
    FirstTwoRegions(s, r, l);
    ExecSnoc(s, Advances(r, 2), Advance(r, false));
    assert s.flight.pcs[r := Entering][r := Waiting(l)] == s.flight.pcs[r := Waiting(l)];
  }

  lemma {:induction false} JoinedIsTold(s: Sys, r: nat, l: nat, o: Outcome)
    requires Shaped(s) && FlightOk(s.flight) && WillJoin(s, r, l) && l < |s.clients| && Decision(s.flight, l) == Some(o)
    ensures var e := Exec(s, Advances(r, 3) + Closing(l, r));
      e.clients == s.clients && e.flight.pcs[r] == Done(AnswerOf(o), Followed(l))
  {
    assert CallOk(s.flight, s.flight.codes[r]);
    assert l in s.flight.done ==> OutcomeOk(s.flight, l);
    JoinsLeader(s, r, l);
    ClosingRuns(Exec(s, Advances(r, 3)), l, r, o);
    ExecThen(s, Advances(r, 3), Closing(l, r));
  }

  /** A request that arrives (from state `s`, at `now`) when its leader has decided on `t`: if it joins, its
      answer will be right, exactly if the row as it is now, at its own time, still shows `t`. */
  lemma {:induction false} LateWaiterIsRightIff(
    s: Sys, capacity: nat, rows: Rows, withdrawn: set<string>, acts: seq<Action>,
    code: string, now: int, l: nat, t: Option<string>)
    requires Reachable(s, capacity, rows, withdrawn, acts) && l < |s.clients| && Decision(s.flight, l) == Some(Value(t))
    requires code in s.flight.calls && s.flight.calls[code] == l
    requires code !in s.withdrawn && GetStep(s.memory.lru, code, now).1.None?
    ensures Inv(s)
    ensures (forall more: seq<Action> :: (var e, r := Exec(Step(s, Arrive(code, now)), more), |s.clients|;
               && r < |e.clients|
               && (e.flight.pcs[r].Done? && e.flight.pcs[r].source == Followed(l) ==> RightlyTold(e, r))))
            <==> Resolved(s.rows, code, now) == t
  {
    InvHolds(s, capacity, rows, withdrawn, acts);
    var s1, r := Step(s, Arrive(code, now)), |s.clients|;
    StepKeepsFlight(s, Arrive(code, now));
    StepKeeps(s, Arrive(code, now), l);
    if Resolved(s.rows, code, now) == t {
      forall more: seq<Action>
        ensures var e := Exec(s1, more);
          && r < |e.clients|
          && (e.flight.pcs[r].Done? && e.flight.pcs[r].source == Followed(l) ==> RightlyTold(e, r))
      {
        TruthStays(s1, more, r, l, t);
      }
    } else {
      JoinedIsTold(s1, r, l, Value(t));
      assert !RightlyTold(Exec(s1, Advances(r, 3) + Closing(l, r)), r);
    }
  }

  lemma {:induction false} ResolvedIsShown(rows: Rows, code: string, now: int)
    ensures Resolved(rows, code, now) == Shown(RowOf(rows, code), now)
  {
  }

  /** What a step adds to the truths of a request is what the row shows after it. */
  lemma {:induction false} StepAddsShown(s: Sys, a: Action, r: nat)
    requires Shaped(s) && r < |s.clients|
    ensures var s' := Step(s, a); var now, code := s.clients[r].now, s.flight.codes[r];
      && r < |s'.clients| && s'.flight.codes[r] == code && s'.clients[r].now == now
      && s.clients[r].truths <= s'.clients[r].truths <= s.clients[r].truths + {Shown(RowOf(s'.rows, code), now)}
  {
    ResolvedIsShown(Step(s, a).rows, s.flight.codes[r], s.clients[r].now);
  }

  /** The row of `code` stays what it is during a run. */
  ghost predicate RowStays(s: Sys, mid: seq<Action>, code: string)
    requires Shaped(s)
  {
    forall i | 0 <= i <= |mid| :: RowOf(Exec(s, mid[..i]).rows, code) == RowOf(s.rows, code)
  }

  lemma {:induction false} OneTruth(s: Sys, mid: seq<Action>, r: nat, code: string, now: int)
    requires Shaped(s) && r < |s.clients| && s.flight.codes[r] == code && s.clients[r].now == now
    requires s.clients[r].truths == {Shown(RowOf(s.rows, code), now)} && RowStays(s, mid, code)
    ensures var e := Exec(s, mid);
      && r < |e.clients| && e.flight.codes[r] == code && e.clients[r].now == now
      && e.clients[r].truths == {Shown(RowOf(s.rows, code), now)} && RowOf(e.rows, code) == RowOf(s.rows, code)
    decreases mid
  {
    assert mid[..|mid|] == mid;
    if mid != [] {
      var front := mid[..|mid| - 1];
      assert forall i | 0 <= i <= |front| :: front[..i] == mid[..i];
      OneTruth(s, front, r, code, now);
      StepAddsShown(Exec(s, front), mid[|mid| - 1], r);
    }
  }

  /** A waiter that arrived (from state `before`, at `now`) before its leader reads the store, and whose row has
      not changed since: its answer is right in every continuation of the leader's read exactly if the row is
      expired at both requests' times or at neither. */
  lemma {:induction false} EarlyWaiterIsRightIff(
    before: Sys, capacity: nat, rows: Rows, withdrawn: set<string>, acts: seq<Action>,
    code: string, now: int, mid: seq<Action>, l: nat)
    requires Reachable(before, capacity, rows, withdrawn, acts) && Shaped(before)
    requires RowStays(Step(before, Arrive(code, now)), mid, code)
    requires var s, r := Exec(Step(before, Arrive(code, now)), mid), |before.clients|;
      r < |s.clients| && l < |s.clients| && s.flight.pcs[r] == Waiting(l) && s.flight.pcs[l].Reading?
    ensures var s, r := Exec(Step(before, Arrive(code, now)), mid), |before.clients|;
      (forall more: seq<Action> :: (var e := Exec(Step(s, Advance(l, false)), more);
         r < |e.clients| && (e.flight.pcs[r].Done? ==> RightlyTold(e, r))))
      <==> SeenAlike(RowOf(s.rows, code), s.clients[l].now, now)
  {
    var r, s0 := |before.clients|, Start(capacity, rows, withdrawn);
    var joined := acts + [Arrive(code, now)] + mid;
    ExecSnoc(s0, acts, Arrive(code, now));
    ExecThen(s0, acts + [Arrive(code, now)], mid);
    ResolvedIsShown(before.rows, code, now);
    OneTruth(Step(before, Arrive(code, now)), mid, r, code, now);
    ReadDecides(Exec(s0, joined), capacity, rows, withdrawn, joined, l, r, code);
  }

  lemma {:induction false} ReadDecides(
    s: Sys, capacity: nat, rows: Rows, withdrawn: set<string>, acts: seq<Action>, l: nat, r: nat, code: string)
    requires Reachable(s, capacity, rows, withdrawn, acts) && Shaped(s) && r < |s.clients| && l < |s.clients|
    requires s.flight.pcs[r] == Waiting(l) && s.flight.pcs[l].Reading? && s.flight.codes[r] == code
    requires s.clients[r].truths == {Shown(RowOf(s.rows, code), s.clients[r].now)}
    ensures (forall more: seq<Action> :: (var e := Exec(Step(s, Advance(l, false)), more);
               r < |e.clients| && (e.flight.pcs[r].Done? ==> RightlyTold(e, r))))
            <==> SeenAlike(RowOf(s.rows, code), s.clients[l].now, s.clients[r].now)
  {
    InvHolds(s, capacity, rows, withdrawn, acts);
    assert RequestOk(s.flight, r);
    var a, s0 := Advance(l, false), Start(capacity, rows, withdrawn);
    ExecSnoc(s0, acts, a);
    DecisionIsShown(s, l);
    var t := Shown(RowOf(s.rows, code), s.clients[l].now);
    WaiterIsRightIff(Step(s, a), capacity, rows, withdrawn, acts + [a], r, l, t);
    assert t in s.clients[r].truths <==> SeenAlike(RowOf(s.rows, code), s.clients[l].now, s.clients[r].now);
  }

  // ---------------------------------------------------------------- both conditions are needed

  /** Nothing is cached, withdrawn or swept; the rest of the state is as given. */
  ghost predicate At(s: Sys, f: Flight, clients: seq<Client>, rows: Rows) {
    && s.flight == f && s.clients == clients && s.rows == rows
    && s.memory.lru.entries == [] && s.withdrawn == {} && s.lastPurge == None
    && |f.codes| == |f.pcs| == |clients|
  }

  lemma {:induction false} OneRegion(s: Sys, f: Flight, clients: seq<Client>, rows: Rows, r: nat)
    requires At(s, f, clients, rows) && Ready(f, r) && !f.pcs[r].Storing?
    ensures At(Step(s, Advance(r, false)), FlightAfter(f, r, None, LiveLink(s, r), false, false), clients, rows)
  {
    var lru := s.memory.lru;
    assert GetStep(lru, f.codes[r], clients[r].now) == (lru.(misses := lru.misses + 1), None);
  }

  /** Request `r` runs one more region, which takes the flight from `f` to `g`. */
  lemma {:induction false} OneMore(s: Sys, n: nat, f: Flight, g: Flight, clients: seq<Client>, rows: Rows, r: nat)
    requires Shaped(s) && At(Exec(s, Advances(r, n)), f, clients, rows)
    requires Ready(f, r) && !f.pcs[r].Storing? && !f.pcs[r].Reading? && g == FlightAfter(f, r, None, None, false, false)
    ensures At(Exec(s, Advances(r, n + 1)), g, clients, rows)
  {
    ExecSnoc(s, Advances(r, n), Advance(r, false));
    OneRegion(Exec(s, Advances(r, n)), f, clients, rows, r);
  }

  lemma {:induction false} Enters(s: Sys, f: Flight, clients: seq<Client>, rows: Rows, r: nat)
    requires At(s, f, clients, rows) && r < |f.pcs| && f.pcs[r].Arrived?
    ensures At(Exec(s, Advances(r, 2)), Moved(f, r, Entering), clients, rows)
  {
    OneRegion(s, f, clients, rows, r);
    OneRegion(Step(s, Advance(r, false)), Moved(f, r, Probing), clients, rows, r);
    assert f.pcs[r := Probing][r := Entering] == f.pcs[r := Entering];
    TwoAdvances(s, r);
  }

  lemma {:induction false} Joins(s: Sys, f: Flight, clients: seq<Client>, rows: Rows, r: nat)
    requires At(s, f, clients, rows) && r < |f.pcs| && f.pcs[r].Arrived? && f.codes[r] in f.calls
    ensures At(Exec(s, Advances(r, 3)), Moved(f, r, Waiting(f.calls[f.codes[r]])), clients, rows)
  {
    Enters(s, f, clients, rows, r);
    assert f.pcs[r := Entering][r := Waiting(f.calls[f.codes[r]])] == f.pcs[r := Waiting(f.calls[f.codes[r]])];
    OneMore(s, 2, Moved(f, r, Entering), Moved(f, r, Waiting(f.calls[f.codes[r]])), clients, rows, r);
  }

  lemma {:induction false} Leads(s: Sys, f: Flight, clients: seq<Client>, rows: Rows, r: nat)
    requires At(s, f, clients, rows) && r < |f.pcs| && f.pcs[r].Arrived? && f.codes[r] !in f.calls
    ensures var g := f.(calls := f.calls[f.codes[r] := r], runners := f.runners + {r});
      At(Exec(s, Advances(r, 3)), Moved(g, r, Rechecking), clients, rows)
  {
    var g := f.(calls := f.calls[f.codes[r] := r], runners := f.runners + {r});
    Enters(s, f, clients, rows, r);
    assert f.pcs[r := Entering][r := Rechecking] == g.pcs[r := Rechecking];
    OneMore(s, 2, Moved(f, r, Entering), Moved(g, r, Rechecking), clients, rows, r);
  }

  lemma {:induction false} Reads(s: Sys, f: Flight, clients: seq<Client>, rows: Rows, r: nat)
    requires At(s, f, clients, rows) && r < |f.pcs| && f.pcs[r].Arrived? && f.codes[r] !in f.calls
    ensures var g := f.(calls := f.calls[f.codes[r] := r], runners := f.runners + {r});
      At(Exec(s, Advances(r, 4)), Moved(g, r, Reading), clients, rows)
  {
    var g := f.(calls := f.calls[f.codes[r] := r], runners := f.runners + {r});
    Leads(s, f, clients, rows, r);
    assert g.pcs[r := Rechecking][r := Reading] == g.pcs[r := Reading];
    OneMore(s, 3, Moved(g, r, Rechecking), Moved(g, r, Reading), clients, rows, r);
  }

  /** A request is the first; it leads, and is about to read the store. */
  lemma {:induction false} FirstReads(capacity: nat, rows: Rows, k: string, now: int)
    ensures var s := Exec(Start(capacity, rows, {}), [Arrive(k, now)] + Advances(0, 4));
      At(s, Flight(map[k := 0], map[], [k], [Reading], {0}), [Client(now, {Resolved(rows, k, now)}, true, false)], rows)
  {
    var s0, a := Start(capacity, rows, {}), Arrive(k, now);
    ExecSnoc(s0, [], a);
    assert [] + [a] == [a];
    var f := Flight(map[], map[], [k], [Arrived], {});
    var clients := [Client(now, {Resolved(rows, k, now)}, true, false)];
    assert At(Exec(s0, [a]), f, clients, rows);
    Reads(Exec(s0, [a]), f, clients, rows, 0);
    assert f.pcs[0 := Reading] == [Reading];
    ExecThen(s0, [a], Advances(0, 4));
  }

  /** A second request arrives for a code that request 0 is leading, and joins. */
  lemma {:induction false} SecondJoins(s: Sys, pc: Pc, first: Client, rows: Rows, k: string, now: int)
    requires At(s, Flight(map[k := 0], map[], [k], [pc], {0}), [first], rows)
    ensures At(Exec(s, [Arrive(k, now)] + Advances(1, 3)), Flight(map[k := 0], map[], [k, k], [pc, Waiting(0)], {0}),
               [first, Client(now, {Resolved(rows, k, now)}, true, false)], rows)
  {
    var a := Arrive(k, now);
    ExecSnoc(s, [], a);
    assert [] + [a] == [a];
    var f := Flight(map[k := 0], map[], [k, k], [pc, Arrived], {0});
    var clients := [first, Client(now, {Resolved(rows, k, now)}, true, false)];
    assert At(Exec(s, [a]), f, clients, rows);
    Joins(Exec(s, [a]), f, clients, rows, 1);
    assert f.pcs[1 := Waiting(0)] == [pc, Waiting(0)];
    ExecThen(s, [a], Advances(1, 3));
  }

  /** Request 0 reads before the link is created, request 1 arrives after that and joins. */
  function ReadCreate(k: string, link: Link, now: int): seq<Action> {
    [Arrive(k, now)] + Advances(0, 4) + [Advance(0, false)] + [Create(link)]
  }

  function JoinAndEnd(k: string, now: int): seq<Action> {
    [Arrive(k, now)] + Advances(1, 3) + Closing(0, 1)
  }

  lemma {:induction false} ReadFindsNothing(capacity: nat, k: string, now: int)
    ensures At(Exec(Start(capacity, map[], {}), [Arrive(k, now)] + Advances(0, 4) + [Advance(0, false)]),
               Flight(map[k := 0], map[], [k], [Finishing(Value(None))], {0}),
               [Client(now, {None}, true, false)], map[])
  {
    var s0, acts := Start(capacity, map[], {}), [Arrive(k, now)] + Advances(0, 4);
    FirstReads(capacity, map[], k, now);
    var f := Flight(map[k := 0], map[], [k], [Reading], {0});
    OneRegion(Exec(s0, acts), f, [Client(now, {None}, true, false)], map[], 0);
    ExecSnoc(s0, acts, Advance(0, false));
    assert f.pcs[0 := Finishing(Value(None))] == [Finishing(Value(None))];
  }

  lemma {:induction false} LinkAppears(s: Sys, link: Link, now: int)
    requires At(s, Flight(map[link.code := 0], map[], [link.code], [Finishing(Value(None))], {0}),
                [Client(now, {None}, true, false)], map[])
    ensures var s' := Step(s, Create(link));
      && |s'.clients| == 1 && s'.clients[0].now == now && s'.clients[0].punctual
      && At(s', s.flight, [s'.clients[0]], map[link.code := link])
  {
    assert map[][link.code := link] == map[link.code := link];
  }

  /** From a state in which request 0 is about to tell `o`: the next request is told the same. */
  lemma {:induction false} JoinsAndEnds(s: Sys, pc: Pc, first: Client, rows: Rows, k: string, now: int, o: Outcome)
    requires At(s, Flight(map[k := 0], map[], [k], [pc], {0}), [first], rows) && pc == Finishing(o)
    ensures var e := Exec(s, JoinAndEnd(k, now));
      && e.clients == [first, Client(now, {Resolved(rows, k, now)}, true, false)]
      && |e.flight.pcs| == 2 && e.flight.pcs[1] == Done(AnswerOf(o), Followed(0))
  {
    var acts := [Arrive(k, now)] + Advances(1, 3);
    SecondJoins(s, pc, first, rows, k, now);
    ClosingRuns(Exec(s, acts), 0, 1, o);
    ExecThen(s, acts, Closing(0, 1));
  }

  /** The row must not have changed in between: a link that exists from before a request's arrival to its end
      is answered with 404, at the same time for both requests. */
  lemma {:induction false} CreatedLinkAnswers404(capacity: nat, link: Link, now: int)
    requires !link.IsExpired(now)
    ensures var s := Exec(Start(capacity, map[], {}), ReadCreate(link.code, link, now) + JoinAndEnd(link.code, now));
      && |s.clients| == 2 && s.flight.pcs[1] == Done(NotFound, Followed(0))
      && s.clients[1] == Client(now, {Some(link.target)}, true, false)
      && s.clients[0].now == now && s.clients[0].punctual
  {
    var s0, k := Start(capacity, map[], {}), link.code;
    var acts := [Arrive(k, now)] + Advances(0, 4) + [Advance(0, false)];
    ReadFindsNothing(capacity, k, now);
    LinkAppears(Exec(s0, acts), link, now);
    ExecSnoc(s0, acts, Create(link));
    var s1 := Exec(s0, ReadCreate(k, link, now));
    JoinsAndEnds(s1, Finishing(Value(None)), s1.clients[0], map[k := link], k, now, Value(None));
    ExecThen(s0, ReadCreate(k, link, now), JoinAndEnd(k, now));
  }

  /** Request 1 joins before request 0 reads the store. */
  function JoinRead(k: string, now: int, later: int): seq<Action> {
    [Arrive(k, now)] + Advances(0, 4) + ([Arrive(k, later)] + Advances(1, 3)) + [Advance(0, false)]
  }

  lemma {:induction false} JoinsBeforeRead(capacity: nat, link: Link, now: int, later: int)
    requires !link.IsExpired(now) && link.IsExpired(later)
    ensures var rows, k := map[link.code := link], link.code;
      At(Exec(Start(capacity, rows, {}), [Arrive(k, now)] + Advances(0, 4) + ([Arrive(k, later)] + Advances(1, 3))),
         Flight(map[k := 0], map[], [k, k], [Reading, Waiting(0)], {0}),
         [Client(now, {Some(link.target)}, true, false), Client(later, {None}, true, false)], rows)
  {
    var rows, k := map[link.code := link], link.code;
    var s0, acts := Start(capacity, rows, {}), [Arrive(k, now)] + Advances(0, 4);
    FirstReads(capacity, rows, k, now);
    SecondJoins(Exec(s0, acts), Reading, Client(now, {Some(link.target)}, true, false), rows, k, later);
    ExecThen(s0, acts, [Arrive(k, later)] + Advances(1, 3));
  }

  lemma {:induction false} ReadFinds(s: Sys, f: Flight, clients: seq<Client>, link: Link)
    requires At(s, f, clients, map[link.code := link]) && |f.pcs| == 2 && f.pcs[0].Reading? && f.pcs[1] == Waiting(0)
    requires f.codes[0] == link.code && !link.IsExpired(clients[0].now) && 0 !in f.done
    ensures var s' := Step(s, Advance(0, false));
      s'.clients == clients && AboutToTell(s'.flight, 0, 1, Value(Some(link.target)), 3)
  {
    OneRegion(s, f, clients, map[link.code := link], 0);
  }

  lemma {:induction false} JoinedReadFinds(capacity: nat, link: Link, now: int, later: int)
    requires !link.IsExpired(now) && link.IsExpired(later)
    ensures var s := Exec(Start(capacity, map[link.code := link], {}), JoinRead(link.code, now, later));
      && s.clients == [Client(now, {Some(link.target)}, true, false), Client(later, {None}, true, false)]
      && AboutToTell(s.flight, 0, 1, Value(Some(link.target)), 3)
  {
    var k := link.code;
    var s0 := Start(capacity, map[k := link], {});
    var acts := [Arrive(k, now)] + Advances(0, 4) + ([Arrive(k, later)] + Advances(1, 3));
    JoinsBeforeRead(capacity, link, now, later);
    var f := Flight(map[k := 0], map[], [k, k], [Reading, Waiting(0)], {0});
    ReadFinds(Exec(s0, acts), f, Exec(s0, acts).clients, link);
    ExecSnoc(s0, acts, Advance(0, false));
  }

  /** The row must be seen alike at both times: a request whose own time is past the expiry is redirected
      because its leader's time is not, although no row has changed and it joined before the read. */
  lemma {:induction false} ExpiredLinkRedirects(capacity: nat, link: Link, now: int, later: int)
    requires !link.IsExpired(now) && link.IsExpired(later)
    ensures var s := Exec(Start(capacity, map[link.code := link], {}), JoinRead(link.code, now, later) + Closing(0, 1));
      && |s.clients| == 2 && s.flight.pcs[1] == Done(Redirect(link.target), Followed(0))
      && s.clients[1] == Client(later, {None}, true, false)
  {
    var s0 := Start(capacity, map[link.code := link], {});
    JoinedReadFinds(capacity, link, now, later);
    ClosingRuns(Exec(s0, JoinRead(link.code, now, later)), 0, 1, Value(Some(link.target)));
    ExecThen(s0, JoinRead(link.code, now, later), Closing(0, 1));
  }
}
