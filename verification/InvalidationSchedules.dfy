/**
 The invalidation log under every interleaving (src/shortener/invalidation.py, `poll`, `register`,
 `publish`, `_run`, `drain_now`).

 A poll reads the cursor, reads the rows, applies them one by one and writes the cursor, each as its
 own step. Any number of polls of the same instance may overlap (the background thread and
 `drain_now`), and a poll may die between any two steps. Caches gain and lose entries at any time.
 Every step gets a fresh tick, so "put after" and "applied first" are comparisons of ticks.
 */
module InvalidationSchedules {
  import opened Prelude
  import opened InvalidationLogs

  datatype Poll =
    | Fetching(instance: string, base: nat, cursor: nat)
    | Applying(instance: string, base: nat, cursor: nat, rows: seq<Event>, next: nat, seen: nat)
    | Completed(instance: string, base: nat, seen: nat)
    | Died(instance: string)

  /** `caches` maps (instance, code) to the tick of the put; `applied` maps (instance, number) to the tick
      at which the event was first applied there. `starts` holds what each instance was last told to start
      from, and `writers` the poll that wrote its cursor last, if any did since then. `base` says from where
      on a cursor or a poll vouches for the events: the start under which the poll began. `seen` in a poll is
      the head of the log when it read its rows. */
  datatype Fleet = Fleet(
    log: seq<Event>, cursors: map<string, nat>, base: map<string, nat>, starts: map<string, nat>,
    writers: map<string, nat>, polls: seq<Poll>,
    caches: map<(string, string), nat>, applied: map<(string, nat), nat>, tick: nat)

  const NEW := Fleet([], map[], map[], map[], map[], [], map[], map[], 0)

  datatype Action =
    | Publish(code: string, gap: nat)
    | Register(instance: string, from: Option<nat>)
    | Begin(instance: string)
    | Fetch(poll: nat)
    | ApplyNext(poll: nat)
    | WriteCursor(poll: nat)
    | Die(poll: nat)
    | Cache(instance: string, code: string)
    | Uncache(instance: string, code: string)

  function Cursor(s: Fleet, instance: string): nat {
    if instance in s.cursors then s.cursors[instance] else 0
  }

  function Base(s: Fleet, instance: string): nat {
    if instance in s.base then s.base[instance] else 0
  }

  function StartOf(s: Fleet, instance: string): nat {
    if instance in s.starts then s.starts[instance] else 0
  }

  function Max(a: nat, b: nat): nat {
    if a < b then b else a
  }

  predicate Enabled(s: Fleet, a: Action) {
    match a
    case Fetch(p) => p < |s.polls| && s.polls[p].Fetching?
    case ApplyNext(p) => p < |s.polls| && s.polls[p].Applying? && s.polls[p].next < |s.polls[p].rows|
    case WriteCursor(p) => p < |s.polls| && s.polls[p].Applying? && s.polls[p].next == |s.polls[p].rows| > 0
    case Die(p) => p < |s.polls| && (s.polls[p].Fetching? || s.polls[p].Applying?)
    case _ => true
  }

  function Goto(s: Fleet, p: nat, poll: Poll): Fleet
    requires p < |s.polls|
  {
    s.(polls := s.polls[p := poll])
  }

  function Apply(before: Fleet, a: Action): Fleet
    requires Enabled(before, a)
  {
    var s := before.(tick := before.tick + 1);
    match a
    case Publish(code, gap) => s.(log := s.log + [Event(Head(s.log) + 1 + gap, code)])
    case Register(i, from) =>
      var start := if from.Some? then from.value else 0;
      s.(cursors := s.cursors[i := start], base := s.base[i := start], starts := s.starts[i := start],
         writers := s.writers - {i})
    case Begin(i) => s.(polls := s.polls + [Fetching(i, Base(s, i), Cursor(s, i))])
    case Fetch(p) =>
      var q := s.polls[p];
      var rows := Unseen(s.log, q.cursor);
      // an empty result ends the poll without touching the cursor
      var head := Head(s.log);
      Goto(s, p, if rows == [] then Completed(q.instance, q.base, head)
                 else Applying(q.instance, q.base, q.cursor, rows, 0, head))
    case ApplyNext(p) =>
      var q := s.polls[p];
      var e := q.rows[q.next];
      var key := (q.instance, e.number);
      Goto(s, p, q.(next := q.next + 1)).(
        caches := s.caches - {(q.instance, e.code)},
        applied := if key in s.applied then s.applied else s.applied[key := before.tick])
    case WriteCursor(p) =>
      var q := s.polls[p];
      Goto(s, p, Completed(q.instance, q.base, q.seen)).(
        cursors := s.cursors[q.instance := q.rows[|q.rows| - 1].number], base := s.base[q.instance := q.base],
        writers := s.writers[q.instance := p])
    case Die(p) => Goto(s, p, Died(s.polls[p].instance))
    case Cache(i, code) => s.(caches := s.caches[(i, code) := before.tick])
    case Uncache(i, code) => s.(caches := s.caches - {(i, code)})
  }

  /** An action that is not enabled changes nothing. */
  function Step(s: Fleet, a: Action): Fleet {
    if Enabled(s, a) then Apply(s, a) else s
  }

  function Exec(acts: seq<Action>): Fleet {
    if acts == [] then NEW else Step(Exec(acts[..|acts| - 1]), acts[|acts| - 1])
  }

  // ---------------------------------------------------------------- invariant

  /** Every event of the log above `base`, up to `bound`, was applied at `instance`. */
  ghost predicate Covered(s: Fleet, instance: string, base: nat, bound: nat) {
    && bound <= Max(Head(s.log), base)
    && forall e | e in s.log && base < e.number <= bound :: (instance, e.number) in s.applied
  }

  ghost predicate PollOk(s: Fleet, q: Poll) {
    match q
    case Fetching(i, base, cursor) => base <= cursor && Covered(s, i, base, cursor)
    case Applying(i, base, cursor, rows, next, seen) =>
      && base <= cursor < seen && Covered(s, i, base, cursor)
      && next <= |rows| && rows != [] && Head(rows) == seen <= Head(s.log)
      && (forall e | e in s.log && e.number <= seen :: e.number <= cursor || e in rows)
      && (forall k | 0 <= k < next :: (i, rows[k].number) in s.applied)
      && (forall e | e in rows :: e in s.log)
    case Completed(i, base, seen) => Covered(s, i, base, seen) && seen <= Head(s.log)
    case Died(_) => true
  }

  /** What a cursor claims. */
  ghost predicate CursorOk(s: Fleet, i: string) {
    Base(s, i) <= Cursor(s, i) && Covered(s, i, Base(s, i), Cursor(s, i))
  }

  /** What polls and cursors claim. */
  ghost predicate ClaimsOk(s: Fleet) {
    && Ordered(s.log)
    && (forall i :: CursorOk(s, i))
    && (forall p | 0 <= p < |s.polls| :: PollOk(s, s.polls[p]))
  }

  /** An entry of a code was put after the first application of any of the code's events. */
  ghost predicate CachesOk(s: Fleet) {
    && (forall k | k in s.caches :: s.caches[k] < s.tick)
    && (forall k: (string, nat) | k in s.applied :: s.applied[k] < s.tick && k.1 <= Head(s.log))
    && (forall i: string, e: Event | e in s.log && (i, e.code) in s.caches && (i, e.number) in s.applied ::
          s.applied[(i, e.number)] < s.caches[(i, e.code)])
  }

  ghost predicate Inv(s: Fleet) {
    ClaimsOk(s) && CachesOk(s)
  }

  ghost predicate Grows(s: Fleet, s': Fleet) {
    s'.log == s.log && forall k | k in s.applied :: k in s'.applied
  }

  /** Claims survive whatever only adds applications. */
  lemma {:induction false} ClaimsGrow(s: Fleet, s': Fleet)
    requires Ordered(s.log) && Grows(s, s')
    ensures forall i, base, bound | Covered(s, i, base, bound) :: Covered(s', i, base, bound)
    ensures forall q | PollOk(s, q) :: PollOk(s', q)
  {
    forall i, base, bound | Covered(s, i, base, bound) ensures Covered(s', i, base, bound) {}
    forall q | PollOk(s, q) ensures PollOk(s', q) {}
  }

  lemma {:induction false} CursorsKeepClaims(s: Fleet, s': Fleet)
    requires Ordered(s.log) && Grows(s, s') && forall i :: CursorOk(s, i)
    requires forall i :: (Cursor(s', i) == Cursor(s, i) && Base(s', i) == Base(s, i)) || Cursor(s', i) == Base(s', i)
               || (Base(s', i) <= Cursor(s', i) && Covered(s, i, Base(s', i), Cursor(s', i)))
    ensures forall i :: CursorOk(s', i)
  {
    ClaimsGrow(s, s');
    forall i ensures CursorOk(s', i) {
      assert CursorOk(s, i);
    }
  }

  lemma {:induction false} ClaimsSurvivePublish(s: Fleet, s': Fleet, e: Event)
    requires Ordered(s.log) && e.number > Head(s.log) && s'.log == s.log + [e] && s'.applied == s.applied
    ensures Ordered(s'.log) && forall i, base, bound | Covered(s, i, base, bound) :: Covered(s', i, base, bound)
    ensures forall q | PollOk(s, q) :: PollOk(s', q)
  {
    assert Head(s'.log) > Head(s.log) && forall x | x in s.log :: x.number <= Head(s.log);
    forall i, base, bound | Covered(s, i, base, bound) ensures Covered(s', i, base, bound) {}
    forall q | PollOk(s, q) ensures PollOk(s', q) {}
  }

  lemma {:induction false} PublishKeepsClaims(s: Fleet, code: string, gap: nat)
    requires ClaimsOk(s)
    ensures ClaimsOk(Apply(s, Publish(code, gap)))
  {
    var s' := Apply(s, Publish(code, gap));
    ClaimsSurvivePublish(s, s', Event(Head(s.log) + 1 + gap, code));
    forall i ensures CursorOk(s', i) {
      assert CursorOk(s, i);
    }
  }

  /** When the last row is applied, everything up to the head that the poll saw is covered. */
  lemma {:induction false} AppliedRowsCover(s: Fleet, q: Poll)
    requires q.Applying? && PollOk(s, q) && q.next == |q.rows|
    ensures Covered(s, q.instance, q.base, q.seen)
  {
    forall e | e in s.log && q.base < e.number <= q.seen ensures (q.instance, e.number) in s.applied {
      if e.number > q.cursor {
        var k :| 0 <= k < |q.rows| && q.rows[k] == e;
      }
    }
  }

  lemma {:induction false} FetchKeepsClaim(s: Fleet, p: nat)
    requires ClaimsOk(s) && Enabled(s, Fetch(p))
    ensures PollOk(s, Apply(s, Fetch(p)).polls[p])
  {
    assert PollOk(s, s.polls[p]);
    var rows := Unseen(s.log, s.polls[p].cursor);
    if rows != [] { assert rows[|rows| - 1] in rows; }
  }

  lemma {:induction false} NextRowKeepsClaim(s: Fleet, s': Fleet, q: Poll)
    requires Ordered(s.log) && Grows(s, s') && q.Applying? && PollOk(s, q) && q.next < |q.rows|
    requires (q.instance, q.rows[q.next].number) in s'.applied
    ensures PollOk(s', q.(next := q.next + 1))
  {
    ClaimsGrow(s, s');
    assert PollOk(s', q);
  }

  lemma {:induction false} WriteCursorKeepsClaim(s: Fleet, p: nat)
    requires ClaimsOk(s) && Enabled(s, WriteCursor(p))
    ensures PollOk(s, Apply(s, WriteCursor(p)).polls[p])
    ensures var q := s.polls[p];
      q.base <= q.rows[|q.rows| - 1].number == q.seen && Covered(s, q.instance, q.base, q.rows[|q.rows| - 1].number)
  {
    assert PollOk(s, s.polls[p]);
    AppliedRowsCover(s, s.polls[p]);
  }

  lemma {:induction false} CursorsStayCovered(s: Fleet, a: Action)
    requires ClaimsOk(s) && Enabled(s, a) && !a.Publish?
    ensures Grows(s, Apply(s, a))
    ensures forall i :: CursorOk(Apply(s, a), i)
  {
    if a.WriteCursor? { WriteCursorKeepsClaim(s, a.poll); }
    CursorsKeepClaims(s, Apply(s, a));
  }

  lemma {:induction false} MoverKeepsClaim(s: Fleet, a: Action, p: nat)
    requires ClaimsOk(s) && Enabled(s, a) && Grows(s, Apply(s, a))
    requires a == Fetch(p) || a == ApplyNext(p) || a == WriteCursor(p) || a == Die(p)
    ensures PollOk(Apply(s, a), Apply(s, a).polls[p])
  {
    ClaimsGrow(s, Apply(s, a));
    match a
    case Fetch(_) => FetchKeepsClaim(s, p);
    case ApplyNext(_) =>
      assert PollOk(s, s.polls[p]);
      NextRowKeepsClaim(s, Apply(s, a), s.polls[p]);
    case WriteCursor(_) => WriteCursorKeepsClaim(s, p);
    case Die(_) =>
  }

  /** Every other poll stays as it is, and a new one starts at the cursor. */
  lemma {:induction false} PollsElsewhere(s: Fleet, a: Action, p: nat)
    requires Enabled(s, a) && p < |Apply(s, a).polls|
    ensures (p < |s.polls| && Apply(s, a).polls[p] == s.polls[p])
      || (a.Begin? && Apply(s, a).polls[p] ==
                        Fetching(a.instance, Base(Apply(s, a), a.instance), Cursor(Apply(s, a), a.instance)))
      || a == Fetch(p) || a == ApplyNext(p) || a == WriteCursor(p) || a == Die(p)
  {
  }

  lemma {:induction false} StepKeepsClaims(s: Fleet, a: Action)
    requires ClaimsOk(s)
    ensures ClaimsOk(Step(s, a))
  {
    if Enabled(s, a) && a.Publish? {
      PublishKeepsClaims(s, a.code, a.gap);
    } else if Enabled(s, a) {
      var s' := Apply(s, a);
      CursorsStayCovered(s, a);
      ClaimsGrow(s, s');
      forall p: nat | p < |s'.polls| ensures PollOk(s', s'.polls[p]) {
        PollsElsewhere(s, a, p);
        if p < |s.polls| && s'.polls[p] == s.polls[p] {
          assert PollOk(s, s.polls[p]);
        } else if a.Begin? {
          assert CursorOk(s', a.instance);
        } else {
          MoverKeepsClaim(s, a, p);
        }
      }
    }
  }

  lemma {:induction false} PublishKeepsCaches(s: Fleet, code: string, gap: nat)
    requires Ordered(s.log) && CachesOk(s)
    ensures CachesOk(Apply(s, Publish(code, gap)))
  {
    assert Head(Apply(s, Publish(code, gap)).log) > Head(s.log);
  }

  lemma {:induction false} ApplyNextKeepsCaches(s: Fleet, p: nat)
    requires ClaimsOk(s) && CachesOk(s) && Enabled(s, ApplyNext(p))
    ensures CachesOk(Apply(s, ApplyNext(p)))
  {
    var q, s' := s.polls[p], Apply(s, ApplyNext(p));
    var e0 := q.rows[q.next];
    assert PollOk(s, q) && e0 in s.log && e0.number <= Head(s.log);
    forall i: string, e: Event | e in s'.log && (i, e.code) in s'.caches && (i, e.number) in s'.applied
      ensures s'.applied[(i, e.number)] < s'.caches[(i, e.code)]
    {
      if e.number == e0.number { assert e == e0; }
    }
  }

  lemma {:induction false} StepKeepsCaches(s: Fleet, a: Action)
    requires ClaimsOk(s) && CachesOk(s)
    ensures CachesOk(Step(s, a))
  {
    if Enabled(s, a) {
      if a.Publish? {
        PublishKeepsCaches(s, a.code, a.gap);
      } else if a.ApplyNext? {
        ApplyNextKeepsCaches(s, a.poll);
      }
    }
  }

  lemma {:induction false} InvHolds(acts: seq<Action>)
    ensures Inv(Exec(acts))
  {
    if acts != [] {
      InvHolds(acts[..|acts| - 1]);
      StepKeepsClaims(Exec(acts[..|acts| - 1]), acts[|acts| - 1]);
      StepKeepsCaches(Exec(acts[..|acts| - 1]), acts[|acts| - 1]);
    }
  }

  // ---------------------------------------------------------------- theorems over all schedules

  /** `e` was applied at `instance`, and its code, if it is cached there now, was put after that. */
  ghost predicate Heard(s: Fleet, instance: string, e: Event) {
    && (instance, e.number) in s.applied
    && ((instance, e.code) in s.caches ==> s.applied[(instance, e.number)] < s.caches[(instance, e.code)])
  }

  /** Never skip: an event at or below an instance's cursor has been applied there, unless the instance had
      been told to start after it when the poll began that wrote the cursor. */
  lemma {:induction false} NeverSkips(acts: seq<Action>, instance: string, e: Event)
    requires var s := Exec(acts); e in s.log && Base(s, instance) < e.number <= Cursor(s, instance)
    ensures Heard(Exec(acts), instance, e)
  {
    InvHolds(acts);
    assert CursorOk(Exec(acts), instance);
  }

  /** Propagation: one completed poll is enough for every event that was in the log when it read its
      rows, whatever other polls of the instance did meanwhile. */
  lemma {:induction false} CompletedPollPropagates(acts: seq<Action>, p: nat, e: Event)
    requires p < |Exec(acts).polls| && Exec(acts).polls[p].Completed? && e in Exec(acts).log
    requires Exec(acts).polls[p].base < e.number <= Exec(acts).polls[p].seen
    ensures Heard(Exec(acts), Exec(acts).polls[p].instance, e)
  {
    InvHolds(acts);
    assert PollOk(Exec(acts), Exec(acts).polls[p]);
  }

  predicate InFlight(q: Poll, instance: string) {
    (q.Fetching? || q.Applying?) && q.instance == instance
  }

  /** No poll of the instance is in flight when it is registered, for the first time or again. */
  ghost predicate QuietlyRegistered(acts: seq<Action>, instance: string) {
    forall k | 0 <= k < |acts| && acts[k].Register? && acts[k].instance == instance ::
      NoneInFlight(Exec(acts[..k]), instance)
  }

  ghost predicate NoneInFlight(s: Fleet, instance: string) {
    forall p | 0 <= p < |s.polls| :: !InFlight(s.polls[p], instance)
  }

  /** The cursor and all polls in flight vouch from the latest start on. */
  ghost predicate UnderLatest(s: Fleet, instance: string) {
    && Base(s, instance) == StartOf(s, instance)
    && forall p | 0 <= p < |s.polls| && InFlight(s.polls[p], instance) :: s.polls[p].base == StartOf(s, instance)
  }

  lemma {:induction false} PollStepKeepsLatest(s: Fleet, a: Action, p: nat, instance: string)
    requires UnderLatest(s, instance) && Enabled(s, a)
    requires a == Fetch(p) || a == ApplyNext(p) || a == WriteCursor(p) || a == Die(p)
    ensures UnderLatest(Apply(s, a), instance)
  {
    var q := Apply(s, a).polls[p];
    assert Apply(s, a).polls == s.polls[p := q];
    assert InFlight(q, instance) ==> InFlight(s.polls[p], instance) && q.base == s.polls[p].base;
    assert StartOf(Apply(s, a), instance) == StartOf(s, instance);
  }

  lemma {:induction false} StepKeepsLatest(s: Fleet, a: Action, instance: string)
    requires UnderLatest(s, instance)
    requires a.Register? && a.instance == instance ==> NoneInFlight(s, instance)
    ensures UnderLatest(Step(s, a), instance)
  {
    match a
    case Fetch(p) => if Enabled(s, a) { PollStepKeepsLatest(s, a, p, instance); }
    case ApplyNext(p) => if Enabled(s, a) { PollStepKeepsLatest(s, a, p, instance); }
    case WriteCursor(p) => if Enabled(s, a) { PollStepKeepsLatest(s, a, p, instance); }
    case Die(p) => if Enabled(s, a) { PollStepKeepsLatest(s, a, p, instance); }
    case _ =>
  }

  lemma {:induction false} LatestHolds(acts: seq<Action>, instance: string)
    requires QuietlyRegistered(acts, instance)
    ensures UnderLatest(Exec(acts), instance)
  {
    if acts != [] {
      var front := acts[..|acts| - 1];
      assert forall k | 0 <= k < |front| :: front[k] == acts[k] && front[..k] == acts[..k];
      LatestHolds(front, instance);
      StepKeepsLatest(Exec(front), acts[|acts| - 1], instance);
    }
  }

  /** So an instance that is only registered while none of its polls is in flight misses nothing after the
      latest start: registered again from zero, it hears everything. */
  lemma {:induction false} NeverSkipsSinceRegistered(acts: seq<Action>, instance: string, e: Event)
    requires QuietlyRegistered(acts, instance)
    requires var s := Exec(acts); e in s.log && StartOf(s, instance) < e.number <= Cursor(s, instance)
    ensures Heard(Exec(acts), instance, e)
  {
    LatestHolds(acts, instance);
    NeverSkips(acts, instance, e);
  }

  // ---------------------------------------------------------------- a poll by itself

  /** What the steps of the environment do. */
  lemma {:induction false} EnvironmentTells(s: Fleet, a: Action)
    requires a.Publish? || a.Register? || a.Cache? || a.Uncache?
    ensures var s' := Step(s, a);
      && s'.polls == s.polls && s'.applied == s.applied && s'.tick == s.tick + 1
      && (a.Publish? ==>
            && |s'.log| == |s.log| + 1 && s'.log[..|s.log|] == s.log
            && s'.log[|s.log|].code == a.code && s'.log[|s.log|].number == Head(s.log) + 1 + a.gap)
      && (!a.Publish? ==> s'.log == s.log)
      && (a.Register? ==> s'.cursors == s.cursors[a.instance := if a.from.Some? then a.from.value else 0])
      && (!a.Register? ==> s'.cursors == s.cursors)
      && (a.Cache? ==> s'.caches == s.caches[(a.instance, a.code) := s.tick])
      && (a.Uncache? ==> forall k :: k in s'.caches <==> k in s.caches && k != (a.instance, a.code))
  {
  }

  /** What was applied stays noted with the tick of its first application; only applying an event notes it. */
  lemma {:induction false} AppliedTells(s: Fleet, a: Action)
    ensures var s' := Step(s, a);
      && (forall k | k in s.applied :: k in s'.applied && s'.applied[k] == s.applied[k])
      && (forall k | k in s'.applied && k !in s.applied ::
            && a.ApplyNext? && a.poll < |s.polls| && s.polls[a.poll].Applying?
            && k.0 == s.polls[a.poll].instance && s.polls[a.poll].next < |s.polls[a.poll].rows|
            && k.1 == s.polls[a.poll].rows[s.polls[a.poll].next].number && s'.applied[k] == s.tick)
  {
  }

  /** A poll that dies changes nothing else, and takes no further step. */
  lemma {:induction false} DeathIsFinal(s: Fleet, p: nat)
    requires Enabled(s, Die(p))
    ensures var s' := Step(s, Die(p));
      && s'.log == s.log && s'.cursors == s.cursors && s'.caches == s.caches && s'.applied == s.applied
      && |s'.polls| == |s.polls| && (forall q | 0 <= q < |s.polls| && q != p :: s'.polls[q] == s.polls[q])
      && !Enabled(s', Fetch(p)) && !Enabled(s', ApplyNext(p)) && !Enabled(s', WriteCursor(p)) && !Enabled(s', Die(p))
  {
  }

  /** `s'` is `s` after the first `n` of `rows` were applied at `instance`. */
  ghost predicate AppliedSome(s: Fleet, s': Fleet, instance: string, rows: seq<Event>, n: nat) {
    && n <= |rows| && s'.log == s.log && s'.cursors == s.cursors
    && (forall k :: k in s'.caches <==> k in s.caches && !(k.0 == instance && k.1 in Codes(rows[..n])))
    && (forall k | k in s'.caches :: s'.caches[k] == s.caches[k])
  }

  lemma {:induction false} AppliesOne(s: Fleet, t: Fleet, p: nat, instance: string, rows: seq<Event>, n: nat)
    requires n < |rows| && AppliedSome(s, t, instance, rows, n) && p < |t.polls|
    requires t.polls[p].Applying? && t.polls[p].instance == instance && t.polls[p].rows == rows && t.polls[p].next == n
    ensures var u := Step(t, ApplyNext(p));
      && AppliedSome(s, u, instance, rows, n + 1) && u.polls == t.polls[p := t.polls[p].(next := n + 1)]
  {
    assert rows[..n + 1] == rows[..n] + [rows[n]];
    assert Codes(rows[..n + 1]) == Codes(rows[..n]) + {rows[n].code};
  }

  function Applies(p: nat, n: nat): seq<Action> {
    if n == 0 then [] else Applies(p, n - 1) + [ApplyNext(p)]
  }

  lemma {:induction false} AfterSnoc(s: Fleet, more: seq<Action>, a: Action)
    ensures After(s, more + [a]) == Step(After(s, more), a)
  {
    assert (more + [a])[..|more|] == more;
  }

  /** `u` is `t`, in which poll `p` of `instance` holds `rows`, after `n` of them were applied. */
  ghost predicate Midway(s: Fleet, t: Fleet, u: Fleet, p: nat, instance: string, rows: seq<Event>, n: nat) {
    && AppliedSome(s, u, instance, rows, n) && p < |t.polls| && t.polls[p].Applying?
    && t.polls[p].instance == instance && t.polls[p].rows == rows && u.polls == t.polls[p := t.polls[p].(next := n)]
  }

  lemma {:induction false} OneFurther(
    s: Fleet, t: Fleet, u: Fleet, p: nat, instance: string, rows: seq<Event>, n: nat)
    requires n < |rows| && Midway(s, t, u, p, instance, rows, n)
    ensures Midway(s, t, Step(u, ApplyNext(p)), p, instance, rows, n + 1)
  {
    AppliesOne(s, u, p, instance, rows, n);
    assert u.polls[p := u.polls[p].(next := n + 1)] == t.polls[p := t.polls[p].(next := n + 1)];
  }

  lemma {:induction false} NoneYet(t: Fleet, p: nat)
    ensures After(t, Applies(p, 0)) == t
    ensures p < |t.polls| && t.polls[p].Applying? && t.polls[p].next == 0 ==>
              t.polls == t.polls[p := t.polls[p].(next := 0)]
  {
  }

  lemma {:induction false} AppliesAll(s: Fleet, t: Fleet, p: nat, instance: string, rows: seq<Event>, n: nat)
    requires n <= |rows| && Midway(s, t, t, p, instance, rows, 0)
    ensures Midway(s, t, After(t, Applies(p, n)), p, instance, rows, n)
    decreases n
  {
    if n == 0 {
      NoneYet(t, p);
    } else {
      AppliesAll(s, t, p, instance, rows, n - 1);
      OneFurther(s, t, After(t, Applies(p, n - 1)), p, instance, rows, n - 1);
      AfterSnoc(t, Applies(p, n - 1), ApplyNext(p));
    }
  }

  lemma {:induction false} BeginsAndFetches(s: Fleet, i: string)
    ensures var rows, p := Unseen(s.log, Cursor(s, i)), |s.polls|; var t := Step(Step(s, Begin(i)), Fetch(p));
      && t.log == s.log && t.cursors == s.cursors && t.caches == s.caches && |t.polls| == p + 1
      && (rows == [] ==> t.polls[p].Completed?)
      && (rows != [] ==>
            && t.polls[p].Applying? && t.polls[p].instance == i && t.polls[p].rows == rows && t.polls[p].next == 0)
  {
  }

  /** A poll that runs from start to end with nothing in between removes from its cache exactly the codes of the
      events above its cursor, and then its cursor is at the head; it touches no other cache. */
  lemma {:induction false} UndisturbedPoll(s: Fleet, i: string)
    requires Ordered(s.log)
    ensures var rows, p := Unseen(s.log, Cursor(s, i)), |s.polls|;
      var t := After(Step(Step(s, Begin(i)), Fetch(p)), Applies(p, |rows|));
      var u := Step(t, WriteCursor(p));
      && (forall k :: k in u.caches <==> k in s.caches && !(k.0 == i && k.1 in Codes(rows)))
      && (forall k | k in u.caches :: u.caches[k] == s.caches[k])
      && Cursor(u, i) == (if Head(s.log) > Cursor(s, i) then Head(s.log) else Cursor(s, i))
      && (forall j | j != i :: Cursor(u, j) == Cursor(s, j))
  {
    var rows, p := Unseen(s.log, Cursor(s, i)), |s.polls|;
    var t := Step(Step(s, Begin(i)), Fetch(p));
    BeginsAndFetches(s, i);
    assert rows[..|rows|] == rows && Codes(rows[..0]) == {};
    if rows != [] {
      assert rows[|rows| - 1] in rows;
      AppliesAndWrites(s, t, p, i, rows);
    }
  }

  lemma {:induction false} AppliesAndWrites(s: Fleet, t: Fleet, p: nat, instance: string, rows: seq<Event>)
    requires rows != [] && AppliedSome(s, t, instance, rows, 0) && p < |t.polls|
    requires t.polls[p].Applying? && t.polls[p].instance == instance && t.polls[p].rows == rows && t.polls[p].next == 0
    ensures var u := Step(After(t, Applies(p, |rows|)), WriteCursor(p));
      && (forall k :: k in u.caches <==> k in s.caches && !(k.0 == instance && k.1 in Codes(rows)))
      && (forall k | k in u.caches :: u.caches[k] == s.caches[k])
      && u.cursors == s.cursors[instance := rows[|rows| - 1].number]
  {
    assert rows[..|rows|] == rows;
    NoneYet(t, p);
    AppliesAll(s, t, p, instance, rows, |rows|);
    CursorMoves(After(t, Applies(p, |rows|)), p);
  }

  lemma {:induction false} CursorMoves(s: Fleet, p: nat)
    requires Enabled(s, WriteCursor(p))
    ensures var s' := Step(s, WriteCursor(p)); var q := s.polls[p];
      && s'.caches == s.caches && s'.cursors == s.cursors[q.instance := q.rows[|q.rows| - 1].number]
  {
  }

  // ---------------------------------------------------------------- instances are separate

  function Mover(s: Fleet, a: Action): Option<string> {
    match a
    case Register(i, _) => Some(i)
    case WriteCursor(p) => if p < |s.polls| && s.polls[p].Applying? then Some(s.polls[p].instance) else None
    case _ => None
  }

  /** Whose step it is; publishing is nobody's. */
  function Actor(s: Fleet, a: Action): Option<string> {
    match a
    case Publish(_, _) => None
    case Register(i, _) => Some(i)
    case Begin(i) => Some(i)
    case Cache(i, _) => Some(i)
    case Uncache(i, _) => Some(i)
    case Fetch(p) => if p < |s.polls| then Some(s.polls[p].instance) else None
    case ApplyNext(p) => if p < |s.polls| then Some(s.polls[p].instance) else None
    case WriteCursor(p) => if p < |s.polls| then Some(s.polls[p].instance) else None
    case Die(p) => if p < |s.polls| then Some(s.polls[p].instance) else None
  }

  lemma {:induction false} ExecSnoc(acts: seq<Action>, a: Action)
    ensures Exec(acts + [a]) == Step(Exec(acts), a)
  {
    assert (acts + [a])[..|acts|] == acts;
  }

  /** The state after a run from `s`. */
  function After(s: Fleet, more: seq<Action>): Fleet {
    if more == [] then s else Step(After(s, more[..|more| - 1]), more[|more| - 1])
  }

  lemma {:induction false} ExecThenAfter(acts: seq<Action>, more: seq<Action>)
    ensures Exec(acts + more) == After(Exec(acts), more)
    decreases more
  {
    if more == [] {
      assert acts + more == acts;
    } else {
      var n := |more| - 1;
      assert acts + more == acts + more[..n] + [more[n]];
      ExecThenAfter(acts, more[..n]);
      ExecSnoc(acts + more[..n], more[n]);
    }
  }

  lemma {:induction false} StepLeavesCursor(s: Fleet, a: Action, instance: string)
    requires Mover(s, a) != Some(instance)
    ensures Cursor(Step(s, a), instance) == Cursor(s, instance)
  {
  }

  /** A broadcast, not a queue: a run from any state moves an instance's cursor only by registering it or by a
      poll of its own that writes; polls of others, and polls that die, leave it where it was. */
  lemma {:induction false} CursorsAreSeparate(s: Fleet, more: seq<Action>, instance: string)
    requires forall k | 0 <= k < |more| :: Mover(After(s, more[..k]), more[k]) != Some(instance)
    ensures Cursor(After(s, more), instance) == Cursor(s, instance)
    decreases more
  {
    if more != [] {
      var n := |more| - 1;
      var front := more[..n];
      forall k | 0 <= k < n ensures Mover(After(s, front[..k]), front[k]) != Some(instance) {
        assert front[..k] == more[..k] && front[k] == more[k];
      }
      CursorsAreSeparate(s, front, instance);
      StepLeavesCursor(After(s, front), more[n], instance);
    }
  }

  /** All that an instance has: its cursor, its cache, what was applied there ... */
  ghost predicate SameState(s: Fleet, s': Fleet, instance: string) {
    && Cursor(s', instance) == Cursor(s, instance) && StartOf(s', instance) == StartOf(s, instance)
    && (forall c :: (instance, c) in s.caches <==> (instance, c) in s'.caches)
    && (forall c | (instance, c) in s.caches :: s'.caches[(instance, c)] == s.caches[(instance, c)])
    && (forall n :: (instance, n) in s.applied <==> (instance, n) in s'.applied)
    && (forall n | (instance, n) in s.applied :: s'.applied[(instance, n)] == s.applied[(instance, n)])
  }

  /** ... and its polls. */
  ghost predicate SamePolls(s: Fleet, s': Fleet, instance: string) {
    && |s.polls| <= |s'.polls|
    && (forall p | 0 <= p < |s.polls| :: s'.polls[p].instance == s.polls[p].instance)
    && (forall p | 0 <= p < |s.polls| && s.polls[p].instance == instance :: s'.polls[p] == s.polls[p])
    && (forall p | |s.polls| <= p < |s'.polls| :: s'.polls[p].instance != instance)
  }

  lemma {:induction false} OthersPollStep(s: Fleet, a: Action, p: nat, instance: string)
    requires Enabled(s, a) && p < |s.polls| && s.polls[p].instance != instance
    requires a == Fetch(p) || a == ApplyNext(p) || a == WriteCursor(p) || a == Die(p)
    ensures SameState(s, Apply(s, a), instance)
    ensures SamePolls(s, Apply(s, a), instance)
  {
    var q := Apply(s, a).polls[p];
    assert Apply(s, a).polls == s.polls[p := q] && q.instance == s.polls[p].instance;
  }

  lemma {:induction false} OthersStep(s: Fleet, a: Action, instance: string)
    requires Actor(s, a) != Some(instance)
    ensures SameState(s, Step(s, a), instance)
    ensures SamePolls(s, Step(s, a), instance)
  {
    match a
    case Fetch(p) => if Enabled(s, a) { OthersPollStep(s, a, p, instance); }
    case ApplyNext(p) => if Enabled(s, a) { OthersPollStep(s, a, p, instance); }
    case WriteCursor(p) => if Enabled(s, a) { OthersPollStep(s, a, p, instance); }
    case Die(p) => if Enabled(s, a) { OthersPollStep(s, a, p, instance); }
    case _ =>
  }

  lemma {:induction false} SameForBoth(s: Fleet, t: Fleet, u: Fleet, instance: string)
    requires SameState(s, t, instance) && SameState(t, u, instance)
    requires SamePolls(s, t, instance) && SamePolls(t, u, instance)
    ensures SameState(s, u, instance) && SamePolls(s, u, instance)
  {
  }

  /** What the others do, and what is published, however long, changes nothing of an idle instance. */
  lemma {:induction false} IdleInstanceIsUntouched(s: Fleet, more: seq<Action>, instance: string)
    requires forall k | 0 <= k < |more| :: Actor(After(s, more[..k]), more[k]) != Some(instance)
    ensures SameState(s, After(s, more), instance) && SamePolls(s, After(s, more), instance)
    decreases more
  {
    if more != [] {
      var n := |more| - 1;
      var front := more[..n];
      forall k | 0 <= k < n ensures Actor(After(s, front[..k]), front[k]) != Some(instance) {
        assert front[..k] == more[..k] && front[k] == more[k];
      }
      IdleInstanceIsUntouched(s, front, instance);
      var t := After(s, front);
      OthersStep(t, more[n], instance);
      SameForBoth(s, t, Step(t, more[n]), instance);
    }
  }

  // ---------------------------------------------------------------- cursors that step back

  /** The cursor is what the last writer saw, or what the instance was told to start from. */
  ghost predicate CursorExplained(s: Fleet, instance: string) {
    if instance in s.writers then
      && s.writers[instance] < |s.polls|
      && var w := s.polls[s.writers[instance]];
        w.Completed? && w.instance == instance && w.seen == Cursor(s, instance)
    else Cursor(s, instance) == StartOf(s, instance)
  }

  lemma {:induction false} WriteIsExplained(s: Fleet, p: nat, instance: string)
    requires ClaimsOk(s) && CursorExplained(s, instance) && Enabled(s, WriteCursor(p))
    ensures CursorExplained(Apply(s, WriteCursor(p)), instance)
  {
    WriteCursorKeepsClaim(s, p);
  }

  lemma {:induction false} PollStepKeepsExplained(s: Fleet, a: Action, p: nat, instance: string)
    requires CursorExplained(s, instance) && Enabled(s, a) && (a == Fetch(p) || a == ApplyNext(p) || a == Die(p))
    ensures CursorExplained(Apply(s, a), instance)
  {
    var s' := Apply(s, a);
    assert s'.polls == s.polls[p := s'.polls[p]] && !s.polls[p].Completed?;
    assert s'.writers == s.writers && s'.cursors == s.cursors && s'.starts == s.starts;
  }

  lemma {:induction false} StepKeepsExplained(s: Fleet, a: Action, instance: string)
    requires ClaimsOk(s) && CursorExplained(s, instance)
    ensures CursorExplained(Step(s, a), instance)
  {
    match a
    case Fetch(p) => if Enabled(s, a) { PollStepKeepsExplained(s, a, p, instance); }
    case ApplyNext(p) => if Enabled(s, a) { PollStepKeepsExplained(s, a, p, instance); }
    case Die(p) => if Enabled(s, a) { PollStepKeepsExplained(s, a, p, instance); }
    case WriteCursor(p) => if Enabled(s, a) { WriteIsExplained(s, p, instance); }
    case _ =>
  }

  lemma {:induction false} CursorIsExplained(acts: seq<Action>, instance: string)
    ensures CursorExplained(Exec(acts), instance)
  {
    if acts != [] {
      var front := acts[..|acts| - 1];
      CursorIsExplained(front, instance);
      InvHolds(front);
      StepKeepsExplained(Exec(front), acts[|acts| - 1], instance);
    }
  }

  lemma {:induction false} WriteMovesCursor(s: Fleet, p: nat)
    requires ClaimsOk(s) && Enabled(s, WriteCursor(p)) && CursorExplained(s, s.polls[p].instance)
    ensures var i := s.polls[p].instance; var s' := Step(s, WriteCursor(p));
      && (Cursor(s', i) < Cursor(s, i) <==>
            if i in s.writers then s.polls[s.writers[i]].seen > s.polls[p].seen else StartOf(s, i) > s.polls[p].seen)
      && (Cursor(s', i) < Cursor(s, i) && s.polls[p].base == StartOf(s, i) ==> i in s.writers)
  {
    WriteCursorKeepsClaim(s, p);
    assert PollOk(s, s.polls[p]);
  }

  /** A poll that writes its cursor sets the instance back exactly when the last poll to write had seen events
      that it did not see itself; or when, since nobody has written yet, the instance was told to start after
      them, which can only be if the poll began before that. */
  lemma {:induction false} CursorStepsBackIff(acts: seq<Action>, p: nat)
    requires Enabled(Exec(acts), WriteCursor(p))
    ensures var s := Exec(acts); var i := s.polls[p].instance; var s' := Exec(acts + [WriteCursor(p)]);
      && CursorExplained(s, i)
      && (Cursor(s', i) < Cursor(s, i) <==>
            if i in s.writers then s.polls[s.writers[i]].seen > s.polls[p].seen else StartOf(s, i) > s.polls[p].seen)
      && (Cursor(s', i) < Cursor(s, i) && s.polls[p].base == StartOf(s, i) ==> i in s.writers)
  {
    ExecSnoc(acts, WriteCursor(p));
    CursorIsExplained(acts, Exec(acts).polls[p].instance);
    InvHolds(acts);
    WriteMovesCursor(Exec(acts), p);
  }

  /** After `acts`, nobody has written a cursor, and these are the log and the polls. */
  ghost predicate Untold(acts: seq<Action>, log: seq<Event>, polls: seq<Poll>) {
    var s := Exec(acts);
    s.log == log && s.polls == polls && s.cursors == map[] && s.base == map[]
  }

  lemma {:induction false} Published(acts: seq<Action>, log: seq<Event>, polls: seq<Poll>, code: string)
    requires Untold(acts, log, polls)
    ensures Untold(acts + [Publish(code, 0)], log + [Event(Head(log) + 1, code)], polls)
  {
    ExecSnoc(acts, Publish(code, 0));
  }

  lemma {:induction false} Begun(acts: seq<Action>, log: seq<Event>, polls: seq<Poll>, i: string)
    requires Untold(acts, log, polls)
    ensures Untold(acts + [Begin(i)], log, polls + [Fetching(i, 0, 0)])
  {
    ExecSnoc(acts, Begin(i));
  }

  lemma {:induction false} Fetched(acts: seq<Action>, log: seq<Event>, polls: seq<Poll>, p: nat, i: string)
    requires Untold(acts, log, polls) && p < |polls| && polls[p] == Fetching(i, 0, 0) && Unseen(log, 0) == log != []
    ensures Untold(acts + [Fetch(p)], log, polls[p := Applying(i, 0, 0, log, 0, Head(log))])
  {
    ExecSnoc(acts, Fetch(p));
  }

  lemma {:induction false} Applied(acts: seq<Action>, log: seq<Event>, polls: seq<Poll>, p: nat)
    requires Untold(acts, log, polls) && p < |polls| && polls[p].Applying? && polls[p].next < |polls[p].rows|
    ensures Untold(acts + [ApplyNext(p)], log, polls[p := polls[p].(next := polls[p].next + 1)])
  {
    ExecSnoc(acts, ApplyNext(p));
  }

  lemma {:induction false} CursorWritten(s: Fleet, p: nat)
    requires Enabled(s, WriteCursor(p))
    ensures var q := s.polls[p]; var s' := Step(s, WriteCursor(p));
      && Cursor(s', q.instance) == q.rows[|q.rows| - 1].number
      && s'.polls == s.polls[p := Completed(q.instance, q.base, q.seen)]
  {
  }

  lemma {:induction false} Written(acts: seq<Action>, p: nat)
    requires Enabled(Exec(acts), WriteCursor(p))
    ensures var q := Exec(acts).polls[p]; var s := Exec(acts + [WriteCursor(p)]);
      && Cursor(s, q.instance) == q.rows[|q.rows| - 1].number
      && s.polls == Exec(acts).polls[p := Completed(q.instance, q.base, q.seen)]
  {
    ExecSnoc(acts, WriteCursor(p));
    CursorWritten(Exec(acts), p);
  }

  lemma {:induction false} FirstReads(acts: seq<Action>, i: string, a: string)
    requires Untold(acts, [], [])
    ensures Untold(acts + [Publish(a, 0)] + [Begin(i)] + [Fetch(0)],
                   [Event(1, a)], [Applying(i, 0, 0, [Event(1, a)], 0, 1)])
  {
    var e := Event(1, a);
    Published(acts, [], [], a);
    Begun(acts + [Publish(a, 0)], [e], [], i);
    assert Unseen([e], 0) == [e];
    Fetched(acts + [Publish(a, 0)] + [Begin(i)], [e], [Fetching(i, 0, 0)], 0, i);
  }

  lemma {:induction false} SecondReads(acts: seq<Action>, i: string, e: Event, x: Event, p: Poll)
    requires Untold(acts, [e], [p]) && e.number == 1 && x.number == 2
    ensures Untold(acts + [Publish(x.code, 0)] + [Begin(i)] + [Fetch(1)], [e, x], [p, Applying(i, 0, 0, [e, x], 0, 2)])
  {
    Published(acts, [e], [p], x.code);
    BeginsAndReads(acts + [Publish(x.code, 0)], i, e, x, p);
  }

  lemma {:induction false} BeginsAndReads(acts: seq<Action>, i: string, e: Event, x: Event, p: Poll)
    requires Untold(acts, [e, x], [p]) && e.number == 1 && x.number == 2
    ensures Untold(acts + [Begin(i)] + [Fetch(1)], [e, x], [p, Applying(i, 0, 0, [e, x], 0, 2)])
  {
    Begun(acts, [e, x], [p], i);
    assert [e, x][..1] == [e] && Unseen([e, x], 0) == [e, x];
    Fetched(acts + [Begin(i)], [e, x], [p, Fetching(i, 0, 0)], 1, i);
  }

  lemma {:induction false} TwoApplied(acts: seq<Action>, log: seq<Event>, p: Poll, q: Poll)
    requires Untold(acts, log, [p, q]) && q.Applying? && q.next == 0 && |q.rows| == 2
    ensures Untold(acts + [ApplyNext(1)] + [ApplyNext(1)], log, [p, q.(next := 2)])
  {
    Applied(acts, log, [p, q], 1);
    Applied(acts + [ApplyNext(1)], log, [p, q.(next := 1)], 1);
  }

  lemma {:induction false} BothApply(acts: seq<Action>, log: seq<Event>, p: Poll, q: Poll)
    requires Untold(acts, log, [p, q]) && p.Applying? && q.Applying?
    requires p.next == q.next == 0 && |p.rows| == 1 && |q.rows| == 2
    ensures Untold(acts + [ApplyNext(0)] + [ApplyNext(1)] + [ApplyNext(1)], log, [p.(next := 1), q.(next := 2)])
  {
    Applied(acts, log, [p, q], 0);
    TwoApplied(acts + [ApplyNext(0)], log, p.(next := 1), q);
  }

  lemma {:induction false} LastWrite(acts: seq<Action>, p: Poll)
    requires |Exec(acts).polls| > 0 && Exec(acts).polls[0] == p && p.Applying? && p.next == |p.rows| > 0
    ensures Cursor(Exec(acts + [WriteCursor(0)]), p.instance) == p.rows[|p.rows| - 1].number
  {
    Written(acts, 0);
  }

  lemma {:induction false} WritesCross(acts: seq<Action>, log: seq<Event>, p: Poll, q: Poll)
    requires Untold(acts, log, [p, q]) && p.Applying? && q.Applying? && p.instance == q.instance
    requires p.next == |p.rows| > 0 && q.next == |q.rows| > 0
    ensures Cursor(Exec(acts + [WriteCursor(1)]), p.instance) == q.rows[|q.rows| - 1].number
    ensures Cursor(Exec(acts + [WriteCursor(1)] + [WriteCursor(0)]), p.instance) == p.rows[|p.rows| - 1].number
  {
    Written(acts, 1);
    LastWrite(acts + [WriteCursor(1)], p);
  }

  /** Two polls of one instance, the second of which reads more. */
  function Overlap(i: string, a: string, b: string): seq<Action> {
    [] + [Publish(a, 0)] + [Begin(i)] + [Fetch(0)] + [Publish(b, 0)] + [Begin(i)] + [Fetch(1)]
    + [ApplyNext(0)] + [ApplyNext(1)] + [ApplyNext(1)]
  }

  lemma {:induction false} OverlapRuns(i: string, a: string, b: string)
    ensures var e, x := Event(1, a), Event(2, b);
      Untold(Overlap(i, a, b), [e, x], [Applying(i, 0, 0, [e], 1, 1), Applying(i, 0, 0, [e, x], 2, 2)])
  {
    var e, x := Event(1, a), Event(2, b);
    var p := Applying(i, 0, 0, [e], 0, 1);
    FirstReads([], i, a);
    var acts := [] + [Publish(a, 0)] + [Begin(i)] + [Fetch(0)];
    SecondReads(acts, i, e, x, p);
    BothApply(acts + [Publish(b, 0)] + [Begin(i)] + [Fetch(1)], [e, x], p, Applying(i, 0, 0, [e, x], 0, 2));
  }

  /** Cursors do step back: poll 1 reads later but writes first, and then poll 0 writes what it saw. */
  lemma {:induction false} OverlappingPollsSetCursorBack(i: string, a: string, b: string)
    ensures Cursor(Exec(Overlap(i, a, b) + [WriteCursor(1)]), i) == 2
    ensures Cursor(Exec(Overlap(i, a, b) + [WriteCursor(1)] + [WriteCursor(0)]), i) == 1
  {
    var e, x := Event(1, a), Event(2, b);
    OverlapRuns(i, a, b);
    WritesCross(Overlap(i, a, b), [e, x], Applying(i, 0, 0, [e], 1, 1), Applying(i, 0, 0, [e, x], 2, 2));
  }

  // ---------------------------------------------------------------- registering under a poll

  lemma {:induction false} RegisteredFromZero(s: Fleet, i: string)
    ensures var s' := Step(s, Register(i, None));
      s'.polls == s.polls && s'.log == s.log && s'.applied == s.applied && StartOf(s', i) == 0
  {
  }

  lemma {:induction false} WriteKeepsRest(s: Fleet, p: nat)
    requires Enabled(s, WriteCursor(p))
    ensures var s' := Step(s, WriteCursor(p)); var q := s.polls[p];
      && s'.log == s.log && s'.applied == s.applied && StartOf(s', q.instance) == StartOf(s, q.instance)
      && Cursor(s', q.instance) == q.rows[|q.rows| - 1].number
  {
  }

  /** A poll in flight that vouches only from its own start on overrules a registration from zero: its cursor
      passes an event that was never applied. */
  lemma {:induction false} RegistrationOverruled(s: Fleet, p: nat, e: Event)
    requires Enabled(s, WriteCursor(p)) && s.polls[p].seen == s.polls[p].rows[|s.polls[p].rows| - 1].number
    requires (s.polls[p].instance, e.number) !in s.applied && 0 < e.number <= s.polls[p].seen
    ensures var i := s.polls[p].instance; var s' := Step(Step(s, Register(i, None)), WriteCursor(p));
      && s'.log == s.log && Cursor(s', i) == s.polls[p].seen
      && StartOf(s', i) == 0 < e.number <= Cursor(s', i) && (i, e.number) !in s'.applied
  {
    var i := s.polls[p].instance;
    RegisteredFromZero(s, i);
    WriteKeepsRest(Step(s, Register(i, None)), p);
  }

  /** What matters of a state of one instance that was told to start after event 1. */
  ghost predicate StartedAtOne(s: Fleet, i: string, log: seq<Event>, polls: seq<Poll>) {
    s.log == log && s.polls == polls && Cursor(s, i) == 1 && Base(s, i) == 1 && (i, 1) !in s.applied
  }

  lemma {:induction false} PublishesFirst(a: string)
    ensures Step(NEW, Publish(a, 0)) == NEW.(log := [Event(1, a)], tick := 1)
  {
  }

  lemma {:induction false} RegistersAndPublishes(s: Fleet, i: string, e: Event, b: string)
    requires s == NEW.(log := [e], tick := 1) && e.number == 1
    ensures StartedAtOne(Step(Step(s, Register(i, Some(1))), Publish(b, 0)), i, [e, Event(2, b)], [])
  {
  }

  lemma {:induction false} ExecTwo(acts: seq<Action>, a: Action, b: Action)
    ensures Exec(acts + [a] + [b]) == Step(Step(Exec(acts), a), b)
  {
    ExecSnoc(acts, a);
    ExecSnoc(acts + [a], b);
  }

  lemma {:induction false} StartsAtOne(i: string, a: string, b: string)
    ensures StartedAtOne(Exec([] + [Publish(a, 0)] + [Register(i, Some(1))] + [Publish(b, 0)]), i,
                         [Event(1, a), Event(2, b)], [])
  {
    ExecSnoc([], Publish(a, 0));
    PublishesFirst(a);
    ExecTwo([] + [Publish(a, 0)], Register(i, Some(1)), Publish(b, 0));
    RegistersAndPublishes(NEW.(log := [Event(1, a)], tick := 1), i, Event(1, a), b);
  }

  lemma {:induction false} ReadsFromOne(s: Fleet, i: string, e: Event, x: Event)
    requires StartedAtOne(s, i, [e, x], []) && e.number == 1 && x.number == 2
    ensures StartedAtOne(Step(Step(s, Begin(i)), Fetch(0)), i, [e, x], [Applying(i, 1, 1, [x], 0, 2)])
  {
    assert [e, x][..1] == [e] && Unseen([e, x], 1) == [x];
  }

  lemma {:induction false} AppliesFromOne(s: Fleet, i: string, e: Event, x: Event)
    requires StartedAtOne(s, i, [e, x], [Applying(i, 1, 1, [x], 0, 2)]) && e.number == 1 && x.number == 2
    ensures StartedAtOne(Step(s, ApplyNext(0)), i, [e, x], [Applying(i, 1, 1, [x], 1, 2)])
  {
  }

  function LostReplay(i: string, a: string, b: string): seq<Action> {
    [] + [Publish(a, 0)] + [Register(i, Some(1))] + [Publish(b, 0)] + [Begin(i)] + [Fetch(0)] + [ApplyNext(0)]
  }

  lemma {:induction false} LostReplayRuns(i: string, a: string, b: string)
    ensures StartedAtOne(Exec(LostReplay(i, a, b)), i, [Event(1, a), Event(2, b)],
                         [Applying(i, 1, 1, [Event(2, b)], 1, 2)])
  {
    var e, x := Event(1, a), Event(2, b);
    var acts := [] + [Publish(a, 0)] + [Register(i, Some(1))] + [Publish(b, 0)];
    StartsAtOne(i, a, b);
    ReadsFromOne(Exec(acts), i, e, x);
    ExecTwo(acts, Begin(i), Fetch(0));
    AppliesFromOne(Exec(acts + [Begin(i)] + [Fetch(0)]), i, e, x);
    ExecSnoc(acts + [Begin(i)] + [Fetch(0)], ApplyNext(0));
  }

  /** Such a run: an instance that started after event 1 is registered again from zero while it polls, and
      never hears event 1. */
  lemma {:induction false} RegisteringUnderPollSkips(i: string, a: string, b: string)
    ensures var s := Exec(LostReplay(i, a, b) + [Register(i, None)] + [WriteCursor(0)]);
      Event(1, a) in s.log && StartOf(s, i) == 0 && Cursor(s, i) == 2 && (i, 1) !in s.applied
  {
    var acts := LostReplay(i, a, b);
    LostReplayRuns(i, a, b);
    RegistrationOverruled(Exec(acts), 0, Event(1, a));
    ExecTwo(acts, Register(i, None), WriteCursor(0));
  }
}
