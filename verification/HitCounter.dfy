/**
 Batched hit counting (src/shortener/counters.py, `HitCounter`; src/shortener/store.py,
 `record_hits_bulk`). A `Counter` of codes is a multiset.
 */
module HitCounting {
  import opened Prelude
  import opened LinkStores

  function Distinct(counts: multiset<string>): nat {
    |set code | code in counts|
  }

  // ---------------------------------------------------------------- the object

  class HitCounter {
    const store: LinkStore
    const flushInterval: real
    const maxPending: nat
    var counts: multiset<string>
    var lastFlush: real
    var flushes: nat
    var recorded: nat

    constructor (store: LinkStore, flushInterval: real, maxPending: nat, now: real)
      ensures this.store == store && this.flushInterval == flushInterval && this.maxPending == maxPending
      ensures counts == multiset{} && lastFlush == now && flushes == recorded == 0
    {
      this.store, this.flushInterval, this.maxPending := store, flushInterval, maxPending;
      counts, lastFlush, flushes, recorded := multiset{}, now, 0, 0;
    }

    /** The store write may fail; no count is lost or doubled either way. */
    method Flush(now: real, fails: bool) returns (n: nat)
      modifies this, store`hitCounts
      ensures store.hitCounts + counts == old(store.hitCounts) + old(counts)
      ensures counts == if fails then old(counts) else multiset{}
      ensures lastFlush == now && recorded == old(recorded)
      ensures n == (if fails then 0 else Distinct(old(counts)))
      ensures flushes == old(flushes) + if fails || old(counts) == multiset{} then 0 else 1
    {
      if counts == multiset{} {
        lastFlush := now;
        assert (set code | code in counts) == {};
        return 0;
      }
      var batch := counts;
      counts := multiset{};
      lastFlush := now;
      var written := store.RecordHitsBulk(batch, fails);
      if written.Ok? {
        flushes := flushes + 1;
        return Distinct(batch);
      }
      counts := counts + batch;
      return 0;
    }

    /** Counts one hit, and flushes when enough codes are pending or enough time has passed. */
    method Record(code: string, now: real, fails: bool)
      modifies this, store`hitCounts
      ensures store.hitCounts + counts == old(store.hitCounts) + old(counts) + multiset{code}
      ensures recorded == old(recorded) + 1
      ensures var due := Distinct(old(counts) + multiset{code}) >= maxPending || now - old(lastFlush) >= flushInterval;
        counts == if due && !fails then multiset{} else old(counts) + multiset{code}
    {
      counts := counts + multiset{code};
      recorded := recorded + 1;
      var pending := Distinct(counts);
      if pending >= maxPending || now - lastFlush >= flushInterval {
        var n := Flush(now, fails);
      }
    }
  }

  // ---------------------------------------------------------------- all interleavings of a fleet

  /** A batch that was swapped out by counter `owner` and is not yet written or put back. */
  datatype Batch = Batch(owner: nat, counts: multiset<string>, failed: bool)

  /** Counters of all threads and instances share one store; `hits` is every `record` so far. */
  datatype Fleet = Fleet(
    stored: multiset<string>, pending: seq<multiset<string>>, batches: seq<Batch>, hits: multiset<string>)

  datatype Action =
    | Record(owner: nat, code: string)
    | Swap(owner: nat)
    | Write(batch: nat)
    | Fail(batch: nat)
    | PutBack(batch: nat)

  predicate Enabled(f: Fleet, a: Action) {
    match a
    case Record(o, _) => o < |f.pending|
    case Swap(o) => o < |f.pending| && f.pending[o] != multiset{}
    case Write(b) => b < |f.batches| && !f.batches[b].failed
    case Fail(b) => b < |f.batches| && !f.batches[b].failed
    case PutBack(b) => b < |f.batches| && f.batches[b].failed && f.batches[b].owner < |f.pending|
  }

  function Removed<T>(s: seq<T>, i: nat): seq<T>
    requires i < |s|
  {
    s[..i] + s[i + 1..]
  }

  function Apply(f: Fleet, a: Action): Fleet
    requires Enabled(f, a)
  {
    match a
    case Record(o, code) =>
      f.(pending := f.pending[o := f.pending[o] + multiset{code}], hits := f.hits + multiset{code})
    case Swap(o) =>
      f.(pending := f.pending[o := multiset{}], batches := f.batches + [Batch(o, f.pending[o], false)])
    case Write(b) =>
      f.(stored := f.stored + f.batches[b].counts, batches := Removed(f.batches, b))
    case Fail(b) =>
      f.(batches := f.batches[b := f.batches[b].(failed := true)])
    case PutBack(b) =>
      var o := f.batches[b].owner;
      f.(pending := f.pending[o := f.pending[o] + f.batches[b].counts], batches := Removed(f.batches, b))
  }

  /** An action that is not enabled changes nothing. */
  function Exec(f: Fleet, acts: seq<Action>): Fleet {
    if acts == [] then f
    else
      var g := Exec(f, acts[..|acts| - 1]);
      if Enabled(g, acts[|acts| - 1]) then Apply(g, acts[|acts| - 1]) else g
  }

  function Sum(s: seq<multiset<string>>): multiset<string> {
    if s == [] then multiset{} else Sum(s[..|s| - 1]) + s[|s| - 1]
  }

  function InFlight(bs: seq<Batch>): multiset<string> {
    if bs == [] then multiset{} else InFlight(bs[..|bs| - 1]) + bs[|bs| - 1].counts
  }

  function Total(f: Fleet): multiset<string> {
    f.stored + Sum(f.pending) + InFlight(f.batches)
  }

  lemma {:induction false} SumAfterUpdate(s: seq<multiset<string>>, i: nat, m: multiset<string>)
    requires i < |s|
    ensures forall c :: Sum(s[i := m])[c] + s[i][c] == Sum(s)[c] + m[c]
  {
    var n := |s| - 1;
    if i < n {
      assert s[i := m][..n] == s[..n][i := m];
      SumAfterUpdate(s[..n], i, m);
    } else {
      assert s[i := m][..n] == s[..n];
    }
  }

  lemma {:induction false} InFlightAfterRemoval(bs: seq<Batch>, i: nat)
    requires i < |bs|
    ensures forall c :: InFlight(Removed(bs, i))[c] + bs[i].counts[c] == InFlight(bs)[c]
  {
    var n := |bs| - 1;
    if i < n {
      assert Removed(bs, i)[..n - 1] == Removed(bs[..n], i) && Removed(bs, i)[n - 1] == bs[n];
      InFlightAfterRemoval(bs[..n], i);
    } else {
      assert Removed(bs, i) == bs[..n];
    }
  }

  lemma {:induction false} InFlightAfterFailure(bs: seq<Batch>, i: nat)
    requires i < |bs|
    ensures InFlight(bs[i := bs[i].(failed := true)]) == InFlight(bs)
  {
    var n := |bs| - 1;
    var bs' := bs[i := bs[i].(failed := true)];
    if i < n {
      assert bs'[..n] == bs[..n][i := bs[i].(failed := true)];
      InFlightAfterFailure(bs[..n], i);
    } else {
      assert bs'[..n] == bs[..n];
    }
  }

  lemma {:induction false} RecordConserves(f: Fleet, o: nat, code: string)
    requires o < |f.pending|
    ensures Total(Apply(f, Record(o, code))) == Total(f) + multiset{code}
  {
    SumAfterUpdate(f.pending, o, f.pending[o] + multiset{code});
    assert forall c :: Total(Apply(f, Record(o, code)))[c] == Total(f)[c] + multiset{code}[c];
  }

  lemma {:induction false} SwapConserves(f: Fleet, o: nat)
    requires Enabled(f, Swap(o))
    ensures Total(Apply(f, Swap(o))) == Total(f)
  {
    SumAfterUpdate(f.pending, o, multiset{});
    assert Apply(f, Swap(o)).batches[..|f.batches|] == f.batches;
    assert forall c :: Total(Apply(f, Swap(o)))[c] == Total(f)[c];
  }

  lemma {:induction false} WriteConserves(f: Fleet, b: nat)
    requires Enabled(f, Write(b))
    ensures Total(Apply(f, Write(b))) == Total(f)
  {
    InFlightAfterRemoval(f.batches, b);
    assert forall c :: Total(Apply(f, Write(b)))[c] == Total(f)[c];
  }

  lemma {:induction false} PutBackConserves(f: Fleet, b: nat)
    requires Enabled(f, PutBack(b))
    ensures Total(Apply(f, PutBack(b))) == Total(f)
  {
    var o := f.batches[b].owner;
    SumAfterUpdate(f.pending, o, f.pending[o] + f.batches[b].counts);
    InFlightAfterRemoval(f.batches, b);
    assert forall c :: Total(Apply(f, PutBack(b)))[c] == Total(f)[c];
  }

  lemma {:induction false} ApplyConserves(f: Fleet, a: Action)
    requires Enabled(f, a)
    ensures Total(Apply(f, a)) == Total(f) + if a.Record? then multiset{a.code} else multiset{}
  {
    match a
    case Record(o, code) => RecordConserves(f, o, code);
    case Swap(o) => SwapConserves(f, o);
    case Write(b) => WriteConserves(f, b);
    case Fail(b) => InFlightAfterFailure(f.batches, b);
    case PutBack(b) => PutBackConserves(f, b);
  }

  /** Which counts an action may change: those of one counter and its batches; the store only by a write, by
      exactly the batch; and a batch that failed goes back to the counter that it came from. */
  lemma {:induction false} ActionIsLocal(f: Fleet, a: Action)
    requires Enabled(f, a)
    ensures var f' := Apply(f, a);
      && |f'.pending| == |f.pending|
      && match a
         case Record(o, code) =>
           && f'.pending == f.pending[o := f.pending[o] + multiset{code}]
           && f'.stored == f.stored && f'.batches == f.batches && f'.hits == f.hits + multiset{code}
         case Swap(o) =>
           && f'.pending == f.pending[o := multiset{}] && f'.batches == f.batches + [Batch(o, f.pending[o], false)]
           && f'.stored == f.stored && f'.hits == f.hits
         case Write(b) =>
           && f'.stored == f.stored + f.batches[b].counts && f'.pending == f.pending && f'.hits == f.hits
           && f'.batches == f.batches[..b] + f.batches[b + 1..]
         case Fail(b) =>
           && f'.stored == f.stored && f'.pending == f.pending && f'.hits == f.hits
           && |f'.batches| == |f.batches| && f'.batches[b] == Batch(f.batches[b].owner, f.batches[b].counts, true)
           && forall i | 0 <= i < |f.batches| && i != b :: f'.batches[i] == f.batches[i]
         case PutBack(b) =>
           var o := f.batches[b].owner;
           && f'.pending == f.pending[o := f.pending[o] + f.batches[b].counts]
           && f'.stored == f.stored && f'.hits == f.hits && f'.batches == f.batches[..b] + f.batches[b + 1..]
  {
  }

  /** What counter `o` holds or has swapped out. */
  function Owned(f: Fleet, o: nat): multiset<string>
    requires o < |f.pending|
  {
    f.pending[o] + OwnedBatches(f.batches, o)
  }

  function OwnedBatches(bs: seq<Batch>, o: nat): multiset<string> {
    if bs == [] then multiset{}
    else OwnedBatches(bs[..|bs| - 1], o) + if bs[|bs| - 1].owner == o then bs[|bs| - 1].counts else multiset{}
  }

  lemma {:induction false} OwnedAfterRemoval(bs: seq<Batch>, i: nat, o: nat)
    requires i < |bs|
    ensures forall c :: OwnedBatches(bs[..i] + bs[i + 1..], o)[c] + (if bs[i].owner == o then bs[i].counts[c] else 0)
                     == OwnedBatches(bs, o)[c]
  {
    var n := |bs| - 1;
    var rest := bs[..i] + bs[i + 1..];
    if i < n {
      assert rest[..n - 1] == bs[..n][..i] + bs[..n][i + 1..] && rest[n - 1] == bs[n];
      OwnedAfterRemoval(bs[..n], i, o);
    } else {
      assert rest == bs[..n];
    }
  }

  lemma {:induction false} OwnedAfterFailure(bs: seq<Batch>, i: nat, o: nat)
    requires i < |bs|
    ensures OwnedBatches(bs[i := bs[i].(failed := true)], o) == OwnedBatches(bs, o)
  {
    var n := |bs| - 1;
    var bs' := bs[i := bs[i].(failed := true)];
    if i < n {
      assert bs'[..n] == bs[..n][i := bs[i].(failed := true)];
      OwnedAfterFailure(bs[..n], i, o);
    } else {
      assert bs'[..n] == bs[..n];
    }
  }

  /** Each counter keeps its own account: what it owns changes only when it records a hit or one of its batches
      is written. */
  lemma {:induction false} OwnAccount(f: Fleet, a: Action, o: nat)
    requires Enabled(f, a) && o < |f.pending|
    ensures var f' := Apply(f, a);
      && |f'.pending| == |f.pending|
      && forall c ::
           Owned(f', o)[c] + (if a.Write? && f.batches[a.batch].owner == o then f.batches[a.batch].counts[c] else 0)
           == Owned(f, o)[c] + (if a == Record(o, c) then 1 else 0)
  {
    match a
    case Record(_, _) =>
    case Swap(p) => assert Apply(f, a).batches[..|f.batches|] == f.batches;
    case Write(b) => OwnedAfterRemoval(f.batches, b, o);
    case Fail(b) => OwnedAfterFailure(f.batches, b, o);
    case PutBack(b) => OwnedAfterRemoval(f.batches, b, o);
  }

  /** Hits are conserved: stored, pending and in flight together are the initial ones plus every record. */
  lemma {:induction false} HitsAreConserved(f: Fleet, acts: seq<Action>)
    requires f.hits == multiset{}
    ensures Total(Exec(f, acts)) == Total(f) + Exec(f, acts).hits
  {
    if acts != [] {
      var front, a := acts[..|acts| - 1], acts[|acts| - 1];
      HitsAreConserved(f, front);
      if Enabled(Exec(f, front), a) { ApplyConserves(Exec(f, front), a); }
    }
  }

  /** Once every counter is flushed and no batch is in flight, the store has every hit. */
  lemma {:induction false} FlushedStoreHasEveryHit(f: Fleet, acts: seq<Action>)
    requires f.hits == multiset{} && Total(f) == f.stored
    requires var g := Exec(f, acts); g.batches == [] && forall i | 0 <= i < |g.pending| :: g.pending[i] == multiset{}
    ensures Exec(f, acts).stored == f.stored + Exec(f, acts).hits
  {
    HitsAreConserved(f, acts);
    SumOfEmpty(Exec(f, acts).pending);
  }

  lemma {:induction false} SumOfEmpty(s: seq<multiset<string>>)
    requires forall i | 0 <= i < |s| :: s[i] == multiset{}
    ensures Sum(s) == multiset{}
  {
    if s != [] { SumOfEmpty(s[..|s| - 1]); }
  }
}
