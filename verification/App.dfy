/**
 One instance as an object (src/shortener/app.py, `resolve` and `takedown`; src/shortener/store.py,
 `SingleFlight`; src/shortener/abuse.py, `TakedownList`), with each call run from start to end.
 `ReadPath` treats the interleavings.
 */
module App {
  import opened Prelude
  import opened LruCaches
  import opened LinkStores
  import opened InvalidationLogs
  import opened HitCounting

  /** The answer of a service without a cache. */
  function Uncached(rows: Rows, withdrawn: set<string>, code: string, now: int): Answer {
    if code in withdrawn then Gone
    else match Resolved(rows, code, now) case Some(t) => Redirect(t) case None => NotFound
  }

  // ---------------------------------------------------------------- single flight

  class Call {
    var done: bool
    var raised: bool
    var value: Option<string>

    constructor ()
      ensures !done && !raised && value == None
    {
      done, raised, value := false, false, None;
    }
  }

  class SingleFlight {
    var calls: map<string, Call>

    constructor ()
      ensures calls == map[]
    {
      calls := map[];
    }

    /** The first guarded region: join the running call, or become the leader of a new one. */
    method Enter(key: string) returns (call: Call, leader: bool)
      modifies this
      ensures leader <==> key !in old(calls)
      ensures !leader ==> call == old(calls)[key] && calls == old(calls)
      ensures leader ==> fresh(call) && !call.done && calls == old(calls)[key := call]
    {
      if key in calls {
        return calls[key], false;
      }
      call := new Call();
      calls := calls[key := call];
      leader := true;
    }

    /** The leader publishes its outcome: it pops the key, and then wakes the waiters. */
    method Leave(key: string, call: Call, raised: bool, value: Option<string>)
      modifies this, call
      ensures calls == old(calls) - {key}
      ensures call.done && call.raised == raised && call.value == value
    {
      call.raised, call.value := raised, value;
      calls := calls - {key};
      call.done := true;
    }
  }

  // ---------------------------------------------------------------- the instance

  /** Every cached entry equals the store's row, or expired by the latest sweep. */
  ghost predicate Coherent(entries: seq<Entry>, rows: Rows, lastSweep: Option<int>) {
    forall e | e in entries :: Current(rows, lastSweep, e.key, e.value, e.expires)
  }

  /** A cached copy that is live at a time not before the last sweep is what the store would answer. */
  lemma {:induction false} CachedAnswerIsStores(c: Lru, rows: Rows, lastSweep: Option<int>, code: string, now: int)
    requires Coherent(c.entries, rows, lastSweep)
    ensures Coherent(GetStep(c, code, now).0.entries, rows, lastSweep)
    ensures (lastSweep.Some? ==> lastSweep.value <= now) && GetStep(c, code, now).1.Some? ==>
              GetStep(c, code, now).1 == Resolved(rows, code, now)
  {
  }

  lemma {:induction false} CoherentAfterPut(c: Lru, capacity: nat, rows: Rows, lastSweep: Option<int>, link: Link)
    requires Coherent(c.entries, rows, lastSweep) && link.code in rows && rows[link.code] == link
    ensures Coherent(PutStep(c, capacity, Entry(link.code, link.target, link.expires)).entries, rows, lastSweep)
  {
    var e := Entry(link.code, link.target, link.expires);
    forall x | x in PutStep(c, capacity, e).entries ensures x in c.entries || x == e {
      assert x in Without(c.entries, e.key) + [e];
    }
  }

  lemma {:induction false} PurgedAndDrained(c: Lru, code: string, rows: seq<Event>)
    ensures forall e :: e in InvalidateAll(InvalidateStep(c, code), rows).entries <==>
              e in c.entries && e.key !in Codes(rows) + {code}
  {
    BatchRemoves(InvalidateStep(c, code), rows);
  }

  class Instance {
    const name: string
    const cache: LruCache
    const flight: SingleFlight
    const links: LinkStore
    const bus: SqliteInvalidationBus
    const hits: HitCounter
    var withdrawn: set<string>

    ghost predicate Consistent()
      reads this, cache, links, bus
    {
      && cache.Valid() && bus.Valid()
      && WellKeyed(links.rows)
      && Coherent(cache.data, links.rows, links.lastSweep)
    }

    /** Between requests nobody is inside `SingleFlight.do`. */
    ghost predicate Valid()
      reads this, cache, links, bus, flight
    {
      Consistent() && flight.calls == map[] && hits.store == links
    }

    ghost predicate Punctual(now: int)
      reads this, links
    {
      links.lastSweep.Some? ==> links.lastSweep.value <= now
    }

    constructor (name: string, capacity: nat, links: LinkStore, bus: SqliteInvalidationBus, hits: HitCounter)
      requires WellKeyed(links.rows) && bus.Valid() && hits.store == links
      ensures Valid() && withdrawn == {}
      ensures this.links == links && this.bus == bus && this.hits == hits && this.name == name
      ensures fresh(cache) && fresh(flight)
    {
      this.name, this.links, this.bus, this.hits := name, links, bus, hits;
      withdrawn := {};
      cache := new LruCache(capacity);
      flight := new SingleFlight();
    }

    /** The closure `load` inside `resolve`; the store read may raise. */
    method Load(code: string, now: int, raises: bool) returns (value: Option<string>, raised: bool)
      requires Consistent()
      modifies cache
      ensures Consistent()
      ensures raised <==> raises && GetStep(old(cache.View()), code, now).1.None?
      ensures !raised && Punctual(now) ==> value == Resolved(links.rows, code, now)
      ensures value.Some? && cache.capacity > 0 ==>
                && cache.data != [] && cache.data[|cache.data| - 1].key == code
                && cache.data[|cache.data| - 1].value == value.value && cache.data[|cache.data| - 1].LiveAt(now)
    {
      CachedAnswerIsStores(cache.View(), links.rows, links.lastSweep, code, now);
      value := cache.Get(code, now);
      if value.Some? {
        return value, false;
      }
      if raises {
        return None, true;
      }
      var link := links.Get(code);
      if link.None? || link.value.IsExpired(now) {
        return None, false;
      }
      CoherentAfterPut(cache.View(), cache.capacity, links.rows, links.lastSweep, link.value);
      cache.Put(code, link.value.target, link.value.expires);
      return Some(link.value.target), false;
    }

    /** The part of `resolve` that finds the target: takedown check, cache, single flight. */
    method Find(code: string, now: int, raises: bool) returns (answer: Answer)
      requires Valid()
      modifies cache, flight
      ensures Valid()
      ensures answer.Failed? ==> raises && code !in withdrawn && GetStep(old(cache.View()), code, now).1.None?
      ensures code in withdrawn ==> answer == Gone
      ensures !answer.Failed? && Punctual(now) ==> answer == Uncached(links.rows, withdrawn, code, now)
      ensures answer.Gone? <==> code in withdrawn
      ensures raises && code !in withdrawn && GetStep(old(cache.View()), code, now).1.None? ==> answer.Failed?
      ensures answer.Redirect? && cache.capacity > 0 ==>
                cache.data != [] && cache.data[|cache.data| - 1].key == code
      ensures answer.NotFound? && Punctual(now) ==> Resolved(links.rows, code, now) == None
      ensures answer.Redirect? && Punctual(now) ==> Resolved(links.rows, code, now) == Some(answer.target)
    {
      if code in withdrawn {
        return Gone;
      }
      CachedAnswerIsStores(cache.View(), links.rows, links.lastSweep, code, now);
      if GetStep(cache.View(), code, now).1.None? { MissStays(cache.View(), code, now); }
      var target := cache.Get(code, now);
      if target.None? {
        var call, leader := flight.Enter(code);
        assert leader;
        var value, raised := Load(code, now, raises);
        flight.Leave(code, call, raised, value);
        if call.raised {
          return Failed;
        }
        target := call.value;
      }
      return if target.Some? then Redirect(target.value) else NotFound;
    }

    /** Caching is transparent: unless the store read raises, `resolve` answers as if there were no cache;
        and every redirect, and nothing else, counts as one hit, written or pending. */
    method Resolve(code: string, now: int, raises: bool, monotonic: real, writeFails: bool) returns (answer: Answer)
      requires Valid()
      modifies cache, flight, hits, links`hitCounts
      ensures Valid()
      ensures answer.Failed? ==> raises && code !in withdrawn && GetStep(old(cache.View()), code, now).1.None?
      ensures code in withdrawn ==> answer == Gone
      ensures !answer.Failed? && Punctual(now) ==> answer == Uncached(links.rows, withdrawn, code, now)
      ensures answer.Gone? <==> code in withdrawn
      ensures raises && code !in withdrawn && GetStep(old(cache.View()), code, now).1.None? ==> answer.Failed?
      ensures answer.Redirect? && cache.capacity > 0 ==>
                cache.data != [] && cache.data[|cache.data| - 1].key == code
      ensures answer.NotFound? && Punctual(now) ==> Resolved(links.rows, code, now) == None
      ensures answer.Redirect? && Punctual(now) ==> Resolved(links.rows, code, now) == Some(answer.target)
      ensures links.hitCounts + hits.counts
           == old(links.hitCounts) + old(hits.counts) + if answer.Redirect? then multiset{code} else multiset{}
    {
      answer := Find(code, now, raises);
      if answer.Redirect? {
        hits.Record(code, monotonic, writeFails);
      }
    }

    /** `TakedownList.add`: mark, purge the local cache, then publish. */
    method Withdraw(code: string, gap: nat) returns (number: nat)
      requires Valid()
      modifies this`withdrawn, cache, bus`log
      ensures Valid()
      ensures withdrawn == old(withdrawn) + {code}
      ensures cache.View() == InvalidateStep(old(cache.View()), code)
      ensures bus.log == old(bus.log) + [Event(number, code)]
    {
      withdrawn := withdrawn + {code};
      cache.Invalidate(code);
      number := bus.Publish(code, gap);
    }

    /** `drain_now`: one poll of this instance's own cursor. */
    method Drain() returns (ghost rows: seq<Event>)
      requires Valid()
      modifies cache, bus`cursors, bus`applied, bus`polls
      ensures Valid()
      ensures rows == Unseen(bus.log, old(bus.Cursor(name)))
      ensures cache.View() == InvalidateAll(old(cache.View()), rows)
      ensures Head(bus.log) <= bus.Cursor(name)
      ensures forall i | i != name :: bus.Cursor(i) == old(bus.Cursor(i))
    {
      rows := Unseen(bus.log, bus.Cursor(name));
      BatchRemoves(cache.View(), rows);
      var drained := bus.Poll(name, cache, None);
      assert rows[..|rows|] == rows;
    }

    /** `takedown`: the code is withdrawn here, gone from this cache together with every code this
        instance had not yet heard of, and on its way to the others, whose cursors stay put. */
    method Takedown(code: string, gap: nat)
      requires Valid()
      modifies this`withdrawn, cache, bus
      ensures Valid()
      ensures withdrawn == old(withdrawn) + {code}
      ensures exists number :: bus.log == old(bus.log) + [Event(number, code)]
      ensures Head(bus.log) <= bus.Cursor(name)
      ensures forall i | i != name :: bus.Cursor(i) == old(bus.Cursor(i))
      ensures forall e :: e in cache.data <==>
                e in old(cache.data) && e.key !in Codes(Unseen(bus.log, old(bus.Cursor(name)))) + {code}
    {
      var number := Withdraw(code, gap);
      ghost var rows := Drain();
      PurgedAndDrained(old(cache.View()), code, rows);
    }

    /** A new link. This instance and all others on the store stay coherent. */
    method Create(code: string, target: string, ttlSeconds: Option<int>, nowMs: Option<int>, wallMs: int,
                  ghost others: set<Instance>)
      returns (r: Result<Link, StoreError>)
      requires Valid() && forall i | i in others :: i.links == links && i.Valid()
      modifies links`rows
      ensures Valid() && forall i | i in others :: i.Valid()
      ensures r.Ok? <==> code !in old(links.rows)
      ensures r.Ok? ==>
                && r.value == NewLink(code, target, ttlSeconds, nowMs, wallMs)
                && r.value.code == code && r.value.target == target
                && r.value.createdMs == (if nowMs.Some? && nowMs.value != 0 then nowMs.value else wallMs)
                && r.value.expires == if ttlSeconds.Some? && ttlSeconds.value != 0
                                      then Some(r.value.createdMs + 1000 * ttlSeconds.value) else None
      ensures r.Ok? ==>
                forall t :: Resolved(links.rows, code, t) ==
                  if r.value.expires.None? || t < r.value.expires.value then Some(target) else None
      ensures links.rows == if r.Ok? then old(links.rows)[code := r.value] else old(links.rows)
    {
      r := links.Create(code, target, ttlSeconds, nowMs, wallMs);
    }

    /** A sweep. This instance and all others on the store stay coherent: what they still hold of a removed row
        is expired by the time of the sweep. */
    method Sweep(now: int, ghost others: set<Instance>) returns (removed: nat)
      requires Valid() && forall i | i in others :: i.links == links && i.Valid()
      modifies links`rows, links`lastSweep
      ensures Valid() && forall i | i in others :: i.Valid()
      ensures links.rows == Purged(old(links.rows), now)
      ensures forall code :: code in links.rows <==>
                code in old(links.rows)
                && (old(links.rows)[code].expires.None? || now < old(links.rows)[code].expires.value)
      ensures links.lastSweep == Some(Later(old(links.lastSweep), now))
    {
      removed := links.PurgeExpired(now);
    }
  }
}
