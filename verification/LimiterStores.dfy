/**
 The stores and the limiter as objects (src/shortener/limiter.py, `SqliteStore`, `RedisStore`,
 `RateLimiter`). Each `Consume` is one atomic transaction or script.
 */
module LimiterStores {
  import opened Prelude
  import opened TokenBuckets

  function At<V>(m: map<string, V>, key: string): Option<V> {
    if key in m then Some(m[key]) else None
  }

  class SqliteStore {
    var buckets: map<string, Bucket>

    constructor ()
      ensures buckets == map[]
    {
      buckets := map[];
    }

    method Consume(key: string, p: Policy, cost: real, now: int) returns (d: Decision)
      modifies this
      ensures At(buckets, key).Some?
      ensures (buckets[key], d) == TokenBuckets.Consume(p, At(old(buckets), key), cost, now)
      ensures buckets == old(buckets)[key := buckets[key]]
      ensures var there := if key !in old(buckets) then p.capacity
                           else Min(p.capacity, old(buckets)[key].tokens + Earned(p, old(buckets)[key].updatedMs, now));
        && (d.allowed <==> there >= cost)
        && buckets[key] == Bucket(if there >= cost then there - cost else there, now)
        && d.tokens == Some(buckets[key].tokens) && (d.allowed ==> d.retry == After(0.0))
    {
      RefilledTells(p, At(buckets, key), now);
      ConsumeTells(p, At(buckets, key), cost, now);
      var tokens, updated := p.capacity, now;
      if key in buckets {
        tokens, updated := buckets[key].tokens, buckets[key].updatedMs;
      }
      var elapsed := if now - updated > 0 then now - updated else 0;
      tokens := Min(p.capacity, tokens + Credit(p.rate, elapsed));
      var allowed := tokens >= cost;
      if allowed {
        tokens := tokens - cost;
      }
      buckets := buckets[key := Bucket(tokens, now)];
      d := Decision(allowed, Some(tokens), RetryAfter(allowed, cost, tokens, p.rate));
    }
  }

  class RedisStore {
    var keys: map<string, Held>

    constructor ()
      ensures keys == map[]
    {
      keys := map[];
    }

    /** `server` is the Redis server's clock; a key past its expiry reads as missing. */
    method Consume(key: string, p: Policy, cost: real, now: int, server: int) returns (d: Decision)
      modifies this
      ensures At(keys, key).Some?
      ensures (keys[key], d) == Lua(p, At(old(keys), key), LuaCall(cost, now, server))
      ensures keys == old(keys)[key := keys[key]]
      ensures var there := if key !in old(keys) || server >= old(keys)[key].expiresAt then p.capacity
                           else var b := old(keys)[key].bucket; Min(p.capacity, b.tokens + Earned(p, b.updatedMs, now));
        && (d.allowed <==> there >= cost)
        && keys[key].bucket == Bucket(if there >= cost then there - cost else there, now)
        && d.tokens == Some(keys[key].bucket.tokens) && (d.allowed ==> d.retry == After(0.0))
      ensures p.rate <= 0.0 ==> keys[key].expiresAt == server + 3_600_000
      ensures p.rate > 0.0 ==>
                var wait := keys[key].expiresAt - server;
                (wait - 10_000) as real >= p.capacity / p.rate * 1000.0 > (wait - 10_001) as real
    {
      LuaTells(p, At(keys, key), LuaCall(cost, now, server));
      TtlTells(p);
      var tokens, updated := p.capacity, now;
      if key in keys && server < keys[key].expiresAt {
        tokens, updated := keys[key].bucket.tokens, keys[key].bucket.updatedMs;
      }
      var elapsed := if now - updated > 0 then now - updated else 0;
      tokens := Min(p.capacity, tokens + Credit(p.rate, elapsed));
      var allowed := false;
      if tokens >= cost {
        tokens := tokens - cost;
        allowed := true;
      }
      var ttl := 3_600_000;
      if p.rate > 0.0 {
        ttl := Ceil(p.capacity / p.rate * 1000.0) + 10_000;
      }
      keys := keys[key := Held(Bucket(tokens, now), server + ttl)];
      d := Decision(allowed, Some(tokens), RetryAfter(allowed, cost, tokens, p.rate));
    }
  }

  /** A limiter runs on either store. */
  datatype Store = Sqlite(sqlite: SqliteStore) | Redis(redis: RedisStore)
  {
    function Repr(): set<object> {
      match this
      case Sqlite(s) => {s}
      case Redis(r) => {r}
    }
  }

  /** What the store holds for a key: a bucket for ever, or until the server's clock reaches its expiry. */
  datatype Slot = Kept(bucket: Option<Bucket>) | Expiring(held: Option<Held>)

  ghost function SlotAt(store: Store, key: string): Slot
    reads store.Repr()
  {
    match store
    case Sqlite(s) => Kept(At(s.buckets, key))
    case Redis(r) => Expiring(At(r.keys, key))
  }

  /** One charge, by the rules of the store that holds the slot. */
  function Charged(p: Policy, slot: Slot, c: LuaCall): (Slot, Decision) {
    match slot
    case Kept(b) => var (b', d) := TokenBuckets.Consume(p, b, c.cost, c.now); (Kept(Some(b')), d)
    case Expiring(k) => var (k', d) := Lua(p, k, c); (Expiring(Some(k')), d)
  }

  class RateLimiter {
    const store: Store
    const policy: Policy

    constructor (store: Store, policy: Policy)
      ensures this.store == store && this.policy == policy
    {
      this.store, this.policy := store, policy;
    }

    /** Charges the client's own bucket and no other. */
    method Check(client: string, cost: real, now: int, server: int) returns (d: Decision)
      modifies store.Repr()
      ensures (SlotAt(store, "rl:" + client), d)
           == Charged(policy, old(SlotAt(store, "rl:" + client)), LuaCall(cost, now, server))
      ensures forall other | other != client ::
                SlotAt(store, "rl:" + other) == old(SlotAt(store, "rl:" + other))
      ensures forall key | key != "rl:" + client :: SlotAt(store, key) == old(SlotAt(store, key))
    {
      match store {
        case Sqlite(s) => d := s.Consume("rl:" + client, policy, cost, now);
        case Redis(r) => d := r.Consume("rl:" + client, policy, cost, now, server);
      }
      forall other | other != client ensures "rl:" + other != "rl:" + client {
        assert ("rl:" + other)[3..] == other && ("rl:" + client)[3..] == client;
      }
    }
  }

  // ---------------------------------------------------------------- many clients on one store

  /** One check of one client, with the app's clock and the server's. */
  datatype Use = Use(client: string, cost: real, now: int, server: int)

  /** A store's slots by key; a key that is not there has an empty slot. */
  datatype Ledger = Ledger(redis: bool, slots: map<string, Slot>)
  {
    function SlotOf(client: string): Slot {
      if "rl:" + client in slots then slots["rl:" + client] else if redis then Expiring(None) else Kept(None)
    }
  }

  /** What `Check` does: it charges the slot of the client. */
  function Served(p: Policy, l: Ledger, uses: seq<Use>): (ds: seq<Decision>)
    ensures |ds| == |uses|
    decreases uses
  {
    if uses == [] then []
    else
      var u := uses[0];
      var (slot, d) := Charged(p, l.SlotOf(u.client), LuaCall(u.cost, u.now, u.server));
      [d] + Served(p, l.(slots := l.slots["rl:" + u.client := slot]), uses[1..])
  }

  /** The calls that one client made, with the costs and times that it passed. */
  function CallsOf(uses: seq<Use>, client: string): seq<LuaCall> {
    if uses == [] then []
    else
      (if uses[0].client == client then [LuaCall(uses[0].cost, uses[0].now, uses[0].server)] else [])
      + CallsOf(uses[1..], client)
  }

  /** The decisions that it got. */
  function DecisionsOf(uses: seq<Use>, ds: seq<Decision>, client: string): seq<Decision>
    requires |ds| == |uses|
  {
    if uses == [] then []
    else (if uses[0].client == client then [ds[0]] else []) + DecisionsOf(uses[1..], ds[1..], client)
  }

  /** What the store decides for calls that find a slot. */
  function SlotDecisions(p: Policy, slot: Slot, calls: seq<LuaCall>): seq<Decision> {
    match slot
    case Kept(b) => Decisions(p, b, Plain(calls))
    case Expiring(k) => LuaDecisions(p, k, calls)
  }

  lemma {:induction false} SlotDecisionsStep(p: Policy, slot: Slot, c: LuaCall, rest: seq<LuaCall>)
    ensures var (slot', d) := Charged(p, slot, c);
      SlotDecisions(p, slot, [c] + rest) == [d] + SlotDecisions(p, slot', rest)
  {
    assert ([c] + rest)[1..] == rest;
    assert Plain([c] + rest) == [Call(c.cost, c.now)] + Plain(rest);
    assert Plain([c] + rest)[1..] == Plain(rest);
  }

  lemma {:induction false} KeysDiffer(a: string, b: string)
    ensures "rl:" + a == "rl:" + b <==> a == b
  {
    assert ("rl:" + a)[3..] == a && ("rl:" + b)[3..] == b;
  }

  /** On either store, however the clients mix, each gets exactly the decisions that its own calls would get on a
      store of its own. */
  lemma {:induction false} ClientsAreSeparate(p: Policy, l: Ledger, uses: seq<Use>, client: string)
    ensures DecisionsOf(uses, Served(p, l, uses), client) == SlotDecisions(p, l.SlotOf(client), CallsOf(uses, client))
    decreases uses
  {
    if uses != [] {
      var u, rest := uses[0], uses[1..];
      var c := LuaCall(u.cost, u.now, u.server);
      var (slot, d) := Charged(p, l.SlotOf(u.client), c);
      var l' := l.(slots := l.slots["rl:" + u.client := slot]);
      var ds := Served(p, l', rest);
      KeysDiffer(u.client, client);
      ClientsAreSeparate(p, l', rest, client);
      assert ([d] + ds)[1..] == ds;
      if u.client == client {
        SlotDecisionsStep(p, l.SlotOf(client), c, CallsOf(rest, client));
      } else {
        assert [] + CallsOf(rest, client) == CallsOf(rest, client);
        assert [] + DecisionsOf(rest, ds, client) == DecisionsOf(rest, ds, client);
      }
    }
  }

  /** The cost that was admitted to one client, as it passed it. */
  function AdmittedTo(uses: seq<Use>, ds: seq<Decision>, client: string): real
    requires |ds| == |uses|
  {
    if uses == [] then 0.0
    else
      (if uses[0].client == client && ds[0].allowed then uses[0].cost else 0.0) + AdmittedTo(uses[1..], ds[1..], client)
  }

  function CostOf(calls: seq<Call>, ds: seq<Decision>): real
    requires |ds| == |calls|
  {
    if calls == [] then 0.0 else (if ds[0].allowed then calls[0].cost else 0.0) + CostOf(calls[1..], ds[1..])
  }

  lemma {:induction false} AdmittedToIsCostOf(uses: seq<Use>, ds: seq<Decision>, client: string)
    requires |ds| == |uses|
    ensures |DecisionsOf(uses, ds, client)| == |CallsOf(uses, client)|
    ensures AdmittedTo(uses, ds, client) == CostOf(Plain(CallsOf(uses, client)), DecisionsOf(uses, ds, client))
  {
    if uses != [] {
      AdmittedToIsCostOf(uses[1..], ds[1..], client);
      var calls := CallsOf(uses[1..], client);
      if uses[0].client == client {
        var c := LuaCall(uses[0].cost, uses[0].now, uses[0].server);
        assert ([c] + calls)[1..] == calls;
        assert Plain([c] + calls)[1..] == Plain(calls);
        var own := DecisionsOf(uses[1..], ds[1..], client);
        assert ([ds[0]] + own)[1..] == own;
      } else {
        var own := DecisionsOf(uses[1..], ds[1..], client);
        assert [] + calls == calls && [] + own == own;
      }
    }
  }

  lemma {:induction false} AdmittedIsCostOf(p: Policy, b: Option<Bucket>, calls: seq<Call>)
    ensures Admitted(p, b, calls) == CostOf(calls, Decisions(p, b, calls))
    decreases calls
  {
    if calls != [] {
      var b' := Some(Consume(p, b, calls[0].cost, calls[0].now).0);
      AdmittedIsCostOf(p, b', calls[1..]);
      assert Decisions(p, b, calls)[1..] == Decisions(p, b', calls[1..]);
    }
  }

  lemma {:induction false} CallsOfBoth(first: seq<Use>, window: seq<Use>, client: string)
    ensures CallsOf(first + window, client) == CallsOf(first, client) + CallsOf(window, client)
  {
    if first == [] {
      assert first + window == window;
    } else {
      var u := first[0];
      var head := if u.client == client then [LuaCall(u.cost, u.now, u.server)] else [];
      CallsOfBoth(first[1..], window, client);
      assert (first + window)[0] == u && (first + window)[1..] == first[1..] + window;
      assert CallsOf(first + window, client) == head + CallsOf(first[1..] + window, client);
      assert CallsOf(first, client) == head + CallsOf(first[1..], client);
    }
  }

  lemma {:induction false} DecisionsOfBoth(first: seq<Use>, window: seq<Use>, ds: seq<Decision>, client: string)
    requires |ds| == |first| + |window|
    ensures DecisionsOf(first + window, ds, client)
         == DecisionsOf(first, ds[..|first|], client) + DecisionsOf(window, ds[|first|..], client)
    ensures |DecisionsOf(first, ds[..|first|], client)| == |CallsOf(first, client)|
  {
    if first == [] {
      assert first + window == window && ds[|first|..] == ds;
    } else {
      var head := if first[0].client == client then [ds[0]] else [];
      var a, b := ds[1..][..|first| - 1], ds[1..][|first| - 1..];
      DecisionsOfBoth(first[1..], window, ds[1..], client);
      assert (first + window)[0] == first[0] && (first + window)[1..] == first[1..] + window;
      assert a == ds[..|first|][1..] && b == ds[|first|..];
      assert DecisionsOf(first + window, ds, client) == head + DecisionsOf(first[1..] + window, ds[1..], client);
      assert DecisionsOf(first, ds[..|first|], client) == head + DecisionsOf(first[1..], a, client);
    }
  }

  lemma {:induction false} PlainBoth(a: seq<LuaCall>, b: seq<LuaCall>)
    ensures Plain(a + b) == Plain(a) + Plain(b)
  {
    if a == [] {
      assert a + b == b;
    } else {
      assert (a + b)[1..] == a[1..] + b;
      PlainBoth(a[1..], b);
    }
  }

  /** A client's own calls on a new store get the decisions of the bucket that is never forgotten: always on
      SQLite; on Redis if that bucket is full whenever the client's key is found expired. */
  lemma {:induction false} ClientGetsBucket(p: Policy, redis: bool, uses: seq<Use>, client: string)
    requires redis ==> FullAtExpiry(p, None, None, CallsOf(uses, client))
    ensures DecisionsOf(uses, Served(p, Ledger(redis, map[]), uses), client)
         == Decisions(p, None, Plain(CallsOf(uses, client)))
  {
    ClientsAreSeparate(p, Ledger(redis, map[]), uses, client);
    StoresAgreeIff(p, None, CallsOf(uses, client));
  }

  /** A window's decisions are those of the client's bucket after the calls before it. */
  lemma {:induction false} WindowDecisions(p: Policy, redis: bool, first: seq<Use>, window: seq<Use>, client: string)
    requires redis ==> FullAtExpiry(p, None, None, CallsOf(first + window, client))
    ensures var ds := Served(p, Ledger(redis, map[]), first + window);
      var b := Final(p, None, Plain(CallsOf(first, client)));
      DecisionsOf(window, ds[|first|..], client) == Decisions(p, b, Plain(CallsOf(window, client)))
  {
    var ds := Served(p, Ledger(redis, map[]), first + window);
    var pre, own := Plain(CallsOf(first, client)), Plain(CallsOf(window, client));
    ClientGetsBucket(p, redis, first + window, client);
    CallsOfBoth(first, window, client);
    PlainBoth(CallsOf(first, client), CallsOf(window, client));
    DecisionsSplit(p, None, pre, own);
    DecisionsOfBoth(first, window, ds, client);
    var a, b := DecisionsOf(first, ds[..|first|], client), DecisionsOf(window, ds[|first|..], client);
    var x, y := Decisions(p, None, pre), Decisions(p, Final(p, None, pre), own);
    assert a + b == x + y && |a| == |x|;
    assert (a + b)[|a|..] == b && (x + y)[|x|..] == y;
  }

  /** The admission bound of the limiter: in any window of any run of any mix of clients, what one client is
      admitted, counted in the costs that it passed, is at most the capacity plus what the clock's forward
      movements between its own calls in the window earn. */
  lemma {:induction false} ClientAdmissionBound(
    p: Policy, redis: bool, first: seq<Use>, window: seq<Use>, client: string)
    requires p.Sane() && (redis ==> FullAtExpiry(p, None, None, CallsOf(first + window, client)))
    ensures var ds := Served(p, Ledger(redis, map[]), first + window);
      AdmittedTo(window, ds[|first|..], client)
      <= p.capacity + Credit(p.rate, Advances(Plain(CallsOf(window, client))))
  {
    var ds := Served(p, Ledger(redis, map[]), first + window);
    var pre, own := Plain(CallsOf(first, client)), Plain(CallsOf(window, client));
    WindowDecisions(p, redis, first, window, client);
    AdmittedToIsCostOf(window, ds[|first|..], client);
    AdmittedIsCostOf(p, Final(p, None, pre), own);
    if own == [] {
      assert Credit(p.rate, 0) == 0.0;
    } else {
      assert (pre + own)[..|pre|] == pre && (pre + own)[|pre|..|pre + own|] == own;
      AdmissionBound(p, pre + own, |pre|, |pre + own|);
    }
  }
}
