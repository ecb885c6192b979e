/**
 The bounded LRU cache with per-entry expiry (src/shortener/store.py, `LruCache`).

 `GetStep`, `PutStep` and `InvalidateStep` on values are the specification; the class `LruCache` is the
 mutable object and every method is proved to take exactly the specified step.
 The theorems speak about whole runs of operations.
 */
module LruCaches {
  import opened Prelude

  datatype Entry = Entry(key: string, value: string, expires: Option<int>)
  {
    predicate LiveAt(now: int) {
      expires.None? || now < expires.value
    }
  }

  /** Entries are kept least recently used first, as in an `OrderedDict`. */
  datatype Lru = Lru(entries: seq<Entry>, hits: nat, misses: nat)

  const EMPTY := Lru([], 0, 0)

  function Keys(s: seq<Entry>): set<string> {
    set e | e in s :: e.key
  }

  ghost predicate Distinct(s: seq<Entry>) {
    forall i, j | 0 <= i < j < |s| :: s[i].key != s[j].key
  }

  function Find(s: seq<Entry>, key: string): (r: Option<Entry>)
    ensures r.Some? ==> r.value in s && r.value.key == key
    ensures r.None? <==> key !in Keys(s)
  {
    if s == [] then None
    else if s[0].key == key then Some(s[0])
    else Find(s[1..], key)
  }

  function Without(s: seq<Entry>, key: string): (r: seq<Entry>)
    ensures forall e :: e in r <==> e in s && e.key != key
    ensures |r| <= |s|
  {
    if s == [] then []
    else if s[0].key == key then Without(s[1..], key)
    else [s[0]] + Without(s[1..], key)
  }

  /** The last `capacity` entries, that is, the most recently used ones. */
  function Newest(s: seq<Entry>, capacity: nat): seq<Entry> {
    if |s| <= capacity then s else s[|s| - capacity..]
  }

  function GetStep(c: Lru, key: string, now: int): (Lru, Option<string>) {
    match Find(c.entries, key)
    case None => (c.(misses := c.misses + 1), None)
    case Some(e) =>
      var rest := Without(c.entries, key);
      if e.LiveAt(now) then (Lru(rest + [e], c.hits + 1, c.misses), Some(e.value))
      else (Lru(rest, c.hits, c.misses + 1), None)
  }

  function PutStep(c: Lru, capacity: nat, e: Entry): Lru {
    c.(entries := Newest(Without(c.entries, e.key) + [e], capacity))
  }

  function InvalidateStep(c: Lru, key: string): Lru {
    c.(entries := Without(c.entries, key))
  }

  // ---------------------------------------------------------------- the object

  class LruCache {
    const capacity: nat
    var data: seq<Entry>
    var hits: nat
    var misses: nat

    ghost predicate Valid()
      reads this
    {
      Distinct(data) && |data| <= capacity
    }

    ghost function View(): Lru
      reads this
    {
      Lru(data, hits, misses)
    }

    constructor (capacity: nat)
      ensures Valid() && View() == EMPTY && this.capacity == capacity
    {
      this.capacity := capacity;
      data, hits, misses := [], 0, 0;
    }

    method Get(key: string, now: int) returns (value: Option<string>)
      requires Valid()
      modifies this
      ensures Valid()
      ensures (View(), value) == GetStep(old(View()), key, now)
      ensures key !in Keys(old(data)) ==> value == None
      ensures forall e | e in old(data) && e.key == key ::
                value == if e.expires.None? || now < e.expires.value then Some(e.value) else None
      ensures forall e :: e in data <==> e in old(data) && (e.key != key || value.Some?)
      ensures value.Some? ==> data != [] && data[|data| - 1].key == key
      ensures value.Some? ==> hits == old(hits) + 1 && misses == old(misses)
      ensures value.None? ==> hits == old(hits) && misses == old(misses) + 1
    {
      LookupTells(View(), key, now);
      WithoutKeepsDistinct(data, key);
      var found := Find(data, key);
      if found.None? {
        misses := misses + 1;
        return None;
      }
      data := Without(data, key);
      assert |data| < old(|data|) by { RemovalShrinks(old(data), key); }
      if !found.value.LiveAt(now) {
        misses := misses + 1;
        return None;
      }
      data := data + [found.value];
      hits := hits + 1;
      return Some(found.value.value);
    }

    method Put(key: string, value: string, expires: Option<int>)
      requires Valid()
      modifies this
      ensures Valid()
      ensures View() == PutStep(old(View()), capacity, Entry(key, value, expires))
      ensures capacity > 0 ==> data != [] && data[|data| - 1] == Entry(key, value, expires)
      ensures forall e | e in data :: e == Entry(key, value, expires) || (e in old(data) && e.key != key)
      ensures forall e | e in old(data) && e.key != key && e !in data :: |data| == capacity
      ensures hits == old(hits) && misses == old(misses)
    {
      ghost var before := View();
      data := Without(data, key) + [Entry(key, value, expires)];
      ghost var all := data;
      while |data| > capacity
        invariant |data| <= |all| && data == all[|all| - |data|..]
        invariant |data| >= capacity || data == all
        invariant hits == before.hits && misses == before.misses
      {
        data := data[1..];
      }
      assert View() == PutStep(before, capacity, Entry(key, value, expires));
      PutStores(before, capacity, Entry(key, value, expires));
      PutKeepsDistinct(before, capacity, Entry(key, value, expires));
    }

    method Invalidate(key: string)
      requires Valid()
      modifies this
      ensures Valid()
      ensures View() == InvalidateStep(old(View()), key)
      ensures forall e :: e in data <==> e in old(data) && e.key != key
      ensures hits == old(hits) && misses == old(misses)
    {
      WithoutKeepsDistinct(data, key);
      data := Without(data, key);
    }

    /** `POST /admin/flush-cache`: forgets the entries, keeps the counters, and tells how many there were. */
    method Clear() returns (evicted: nat)
      modifies this
      ensures Valid() && View() == old(View()).(entries := [])
      ensures evicted == |old(data)|
    {
      evicted := |data|;
      data := [];
    }
  }

  // ---------------------------------------------------------------- runs

  datatype Op =
    | Get(key: string, now: int)
    | Put(entry: Entry)
    | Invalidate(key: string)
  {
    /** Does the operation use `k`, that is, make `k` the most recent key? */
    predicate Uses(k: string) {
      (Get? && key == k) || (Put? && entry.key == k)
    }
  }

  function Apply(c: Lru, capacity: nat, op: Op): Lru {
    match op
    case Get(key, now) => GetStep(c, key, now).0
    case Put(e) => PutStep(c, capacity, e)
    case Invalidate(key) => InvalidateStep(c, key)
  }

  function Run(ops: seq<Op>, capacity: nat): Lru {
    if ops == [] then EMPTY
    else Apply(Run(ops[..|ops| - 1], capacity), capacity, ops[|ops| - 1])
  }

  /** Position of the last operation that used `key`, or -1. */
  function LastUse(ops: seq<Op>, key: string): (r: int)
    ensures -1 <= r < |ops|
  {
    if ops == [] then -1
    else if ops[|ops| - 1].Uses(key) then |ops| - 1
    else LastUse(ops[..|ops| - 1], key)
  }

  /** What a map without capacity or expiry would hold for `key`. */
  function LatestWrite(ops: seq<Op>, key: string): Option<Entry> {
    if ops == [] then None
    else
      match ops[|ops| - 1]
      case Put(e) => if e.key == key then Some(e) else LatestWrite(ops[..|ops| - 1], key)
      case Invalidate(k) => if k == key then None else LatestWrite(ops[..|ops| - 1], key)
      case Get(_, _) => LatestWrite(ops[..|ops| - 1], key)
  }

  lemma {:induction false} RemovalShrinks(s: seq<Entry>, key: string)
    requires Distinct(s) && key in Keys(s)
    ensures |Without(s, key)| == |s| - 1
  {
    if s[0].key == key {
      AbsentIsUntouched(s[1..], key);
    } else {
      assert key in Keys(s[1..]);
      RemovalShrinks(s[1..], key);
    }
  }

  lemma {:induction false} AbsentIsUntouched(s: seq<Entry>, key: string)
    requires key !in Keys(s)
    ensures Without(s, key) == s
  {
    if s != [] {
      assert s[0] in s && forall e | e in s[1..] :: e in s;
      AbsentIsUntouched(s[1..], key);
    }
  }

  lemma {:induction false} FindIsUnique(s: seq<Entry>, e: Entry)
    requires Distinct(s) && e in s
    ensures Find(s, e.key) == Some(e)
  {
    if s[0] != e {
      var i :| 0 <= i < |s| && s[i] == e;
      assert s[0].key != s[i].key && s[1..][i - 1] == e;
      FindIsUnique(s[1..], e);
    }
  }

  /** What a lookup tells, keeps and counts. */
  lemma {:induction false} LookupTells(c: Lru, key: string, now: int)
    requires Distinct(c.entries)
    ensures var (c', v) := GetStep(c, key, now);
      && (key !in Keys(c.entries) ==> v == None)
      && (forall e | e in c.entries && e.key == key ::
            v == if e.expires.None? || now < e.expires.value then Some(e.value) else None)
      && (forall e :: e in c'.entries <==> e in c.entries && (e.key != key || v.Some?))
      && (v.Some? ==> c'.entries != [] && c'.entries[|c'.entries| - 1].key == key)
      && c'.hits == c.hits + (if v.Some? then 1 else 0) && c'.misses == c.misses + (if v.None? then 1 else 0)
  {
    forall e | e in c.entries && e.key == key ensures Find(c.entries, key) == Some(e) { FindIsUnique(c.entries, e); }
  }

  /** What was not found once is not found again at that time. */
  lemma {:induction false} MissStays(c: Lru, key: string, now: int)
    requires Distinct(c.entries) && GetStep(c, key, now).1.None?
    ensures GetStep(GetStep(c, key, now).0, key, now).1.None?
  {
    LookupTells(c, key, now);
    GetKeepsDistinct(c, key, now);
    LookupTells(GetStep(c, key, now).0, key, now);
  }

  /** A put stores its entry as the most recent one, keeps the others, and evicts only from a full cache. */
  lemma {:induction false} PutStores(c: Lru, capacity: nat, e: Entry)
    ensures var c' := PutStep(c, capacity, e);
      && (capacity > 0 ==> c'.entries != [] && c'.entries[|c'.entries| - 1] == e)
      && (forall x | x in c'.entries :: x == e || (x in c.entries && x.key != e.key))
      && (forall x | x in c.entries && x.key != e.key && x !in c'.entries :: |c'.entries| == capacity)
      && c'.hits == c.hits && c'.misses == c.misses
  {
    var all := Without(c.entries, e.key) + [e];
    forall x | x in c.entries && x.key != e.key ensures x in all {}
    forall x | x in PutStep(c, capacity, e).entries ensures x in all {}
  }

  lemma {:induction false} WithoutKeepsDistinct(s: seq<Entry>, key: string)
    requires Distinct(s)
    ensures Distinct(Without(s, key))
  {
    if s != [] {
      WithoutKeepsDistinct(s[1..], key);
      forall x | x in Without(s[1..], key) ensures x.key != s[0].key { assert x in s[1..]; }
    }
  }

  lemma {:induction false} PutKeepsDistinct(c: Lru, capacity: nat, e: Entry)
    requires Distinct(c.entries)
    ensures Distinct(PutStep(c, capacity, e).entries)
  {
    WithoutKeepsDistinct(c.entries, e.key);
    var all := Without(c.entries, e.key) + [e];
    assert Distinct(all) by {
      forall i, j | 0 <= i < j < |all| ensures all[i].key != all[j].key {
        if j == |all| - 1 { assert all[i] in Without(c.entries, e.key); }
      }
    }
  }

  lemma {:induction false} GetKeepsDistinct(c: Lru, key: string, now: int)
    requires Distinct(c.entries)
    ensures Distinct(GetStep(c, key, now).0.entries)
  {
    WithoutKeepsDistinct(c.entries, key);
    var rest := Without(c.entries, key);
    var f := Find(c.entries, key);
    if f.Some? {
      forall i, j | 0 <= i < j < |rest + [f.value]| ensures (rest + [f.value])[i].key != (rest + [f.value])[j].key {
        if j == |rest| { assert rest[i] in rest; }
      }
    }
  }

  /** A lookup right after a put finds what was put, unless it has expired or nothing can be stored. */
  lemma {:induction false} PutThenGet(ops: seq<Op>, e: Entry, now: int, capacity: nat)
    requires capacity > 0
    ensures var (c', v) := GetStep(Run(ops + [Put(e)], capacity), e.key, now);
      && v == (if e.expires.None? || now < e.expires.value then Some(e.value) else None)
      && c'.hits == Run(ops, capacity).hits + if v.Some? then 1 else 0
  {
    var c := Run(ops + [Put(e)], capacity);
    assert (ops + [Put(e)])[..|ops|] == ops;
    RunIsBounded(ops + [Put(e)], capacity);
    PutStores(Run(ops, capacity), capacity, e);
    assert e in c.entries;
    LookupTells(c, e.key, now);
  }

  /** Lookups in a run, and those that were answered. */
  function Lookups(ops: seq<Op>): nat {
    if ops == [] then 0 else Lookups(ops[..|ops| - 1]) + if ops[|ops| - 1].Get? then 1 else 0
  }

  function Answered(ops: seq<Op>, capacity: nat): nat {
    if ops == [] then 0
    else
      var front, op := ops[..|ops| - 1], ops[|ops| - 1];
      Answered(front, capacity) + if op.Get? && GetStep(Run(front, capacity), op.key, op.now).1.Some? then 1 else 0
  }

  /** The counters tell how many lookups were answered and how many were not. */
  lemma {:induction false} CountersAreTrue(ops: seq<Op>, capacity: nat)
    ensures var c := Run(ops, capacity); c.hits == Answered(ops, capacity) && c.hits + c.misses == Lookups(ops)
  {
    if ops != [] {
      var front, op := ops[..|ops| - 1], ops[|ops| - 1];
      CountersAreTrue(front, capacity);
      RunIsBounded(front, capacity);
      if op.Get? { LookupTells(Run(front, capacity), op.key, op.now); }
    }
  }

  lemma {:induction false} RunIsBounded(ops: seq<Op>, capacity: nat)
    ensures var c := Run(ops, capacity); Distinct(c.entries) && |c.entries| <= capacity
  {
    if ops != [] {
      var front, op := ops[..|ops| - 1], ops[|ops| - 1];
      RunIsBounded(front, capacity);
      var c := Run(front, capacity);
      match op
      case Get(key, now) =>
        GetKeepsDistinct(c, key, now);
        if key in Keys(c.entries) { RemovalShrinks(c.entries, key); }
      case Put(e) => PutKeepsDistinct(c, capacity, e);
      case Invalidate(key) => WithoutKeepsDistinct(c.entries, key);
    }
  }

  // ---------------------------------------------------------------- recency

  ghost predicate OrderedByUse(s: seq<Entry>, ops: seq<Op>) {
    forall i, j | 0 <= i < j < |s| :: LastUse(ops, s[i].key) < LastUse(ops, s[j].key)
  }

  lemma {:induction false} WithoutKeepsOrder(s: seq<Entry>, key: string, ops: seq<Op>)
    requires OrderedByUse(s, ops)
    ensures OrderedByUse(Without(s, key), ops)
  {
    if s != [] {
      WithoutKeepsOrder(s[1..], key, ops);
      var r := Without(s[1..], key);
      if s[0].key != key {
        forall j | 0 <= j < |r| ensures LastUse(ops, s[0].key) < LastUse(ops, r[j].key) {
          assert r[j] in s[1..];
        }
      }
    }
  }

  ghost predicate Fresh(s: seq<Entry>, ops: seq<Op>) {
    forall e | e in s :: LatestWrite(ops, e.key) == Some(e)
  }

  lemma {:induction false} OrderAfterOtherUse(s: seq<Entry>, front: seq<Op>, op: Op)
    requires OrderedByUse(s, front) && forall e | e in s :: !op.Uses(e.key)
    ensures OrderedByUse(s, front + [op])
  {
    assert (front + [op])[..|front|] == front;
    forall i | 0 <= i < |s| ensures LastUse(front + [op], s[i].key) == LastUse(front, s[i].key) {
      assert s[i] in s;
    }
  }

  lemma {:induction false} OrderAfterAppend(s: seq<Entry>, e: Entry, front: seq<Op>, op: Op)
    requires OrderedByUse(s, front) && op.Uses(e.key) && e.key !in Keys(s)
    ensures OrderedByUse(s + [e], front + [op])
  {
    assert (front + [op])[..|front|] == front;
    forall x | x in s ensures !op.Uses(x.key) {
      assert x.key in Keys(s);
    }
    OrderAfterOtherUse(s, front, op);
    forall i | 0 <= i < |s| ensures LastUse(front + [op], s[i].key) < LastUse(front + [op], e.key) {
      assert s[i] in s;
    }
  }

  lemma {:induction false} StepKeepsOrder(c: Lru, capacity: nat, front: seq<Op>, op: Op)
    requires OrderedByUse(c.entries, front)
    ensures OrderedByUse(Apply(c, capacity, op).entries, front + [op])
  {
    var key := if op.Put? then op.entry.key else op.key;
    var rest := Without(c.entries, key);
    WithoutKeepsOrder(c.entries, key, front);
    if op.Put? {
      OrderAfterAppend(rest, op.entry, front, op);
    } else {
      var found := Find(c.entries, key);
      if op.Get? && found.None? { AbsentIsUntouched(c.entries, key); }
      OrderAfterOtherUse(rest, front, op);
      if found.Some? && op.Get? { OrderAfterAppend(rest, found.value, front, op); }
    }
  }

  lemma {:induction false} StepKeepsFresh(c: Lru, capacity: nat, front: seq<Op>, op: Op)
    requires Fresh(c.entries, front)
    ensures Fresh(Apply(c, capacity, op).entries, front + [op])
  {
    assert (front + [op])[..|front|] == front;
    forall e | e in Apply(c, capacity, op).entries ensures LatestWrite(front + [op], e.key) == Some(e) {
      if op.Put? {
        assert e in Without(c.entries, op.entry.key) + [op.entry];
      }
    }
  }

  /** The cache keeps its entries in order of last use, so the one it evicts is the least recently
      used; and what it holds for a key is always the latest write of that key. */
  lemma {:induction false} RecencyAndFreshness(ops: seq<Op>, capacity: nat)
    ensures OrderedByUse(Run(ops, capacity).entries, ops)
    ensures Fresh(Run(ops, capacity).entries, ops)
  {
    if ops != [] {
      var front, op := ops[..|ops| - 1], ops[|ops| - 1];
      RecencyAndFreshness(front, capacity);
      assert front + [op] == ops;
      StepKeepsOrder(Run(front, capacity), capacity, front, op);
      StepKeepsFresh(Run(front, capacity), capacity, front, op);
    }
  }

  lemma {:induction false} NewestAreUsedLater(s: seq<Entry>, ops: seq<Op>, capacity: nat, victim: Entry)
    requires OrderedByUse(s, ops) && victim in s && victim !in Newest(s, capacity)
    ensures |Newest(s, capacity)| == capacity
    ensures forall x | x in Newest(s, capacity) :: LastUse(ops, victim.key) < LastUse(ops, x.key)
  {
    var cut := |s| - capacity;
    var i :| 0 <= i < |s| && s[i] == victim;
    assert forall k | cut <= k < |s| :: s[k] == Newest(s, capacity)[k - cut];
    forall x | x in Newest(s, capacity) ensures LastUse(ops, victim.key) < LastUse(ops, x.key) {
      var j :| 0 <= j < capacity && Newest(s, capacity)[j] == x;
      assert s[cut + j] == x;
    }
  }

  /** A put pushes a key out only from a full cache, and every entry that stays was used more recently. */
  lemma {:induction false} EvictsLeastRecentlyUsed(ops: seq<Op>, e: Entry, capacity: nat, victim: Entry)
    requires victim in Run(ops, capacity).entries && victim.key != e.key
    requires victim !in Run(ops + [Put(e)], capacity).entries
    ensures |Run(ops + [Put(e)], capacity).entries| == capacity
    ensures forall x | x in Run(ops + [Put(e)], capacity).entries ::
              LastUse(ops + [Put(e)], victim.key) < LastUse(ops + [Put(e)], x.key)
  {
    var s := Run(ops, capacity).entries;
    var rest := Without(s, e.key);
    assert (ops + [Put(e)])[..|ops|] == ops;
    RecencyAndFreshness(ops, capacity);
    WithoutKeepsOrder(s, e.key, ops);
    OrderAfterAppend(rest, e, ops, Put(e));
    assert victim in rest;
    NewestAreUsedLater(rest + [e], ops + [Put(e)], capacity, victim);
  }

  // ---------------------------------------------------------------- inclusion

  ghost predicate Subsequence(a: seq<Entry>, b: seq<Entry>) {
    a == [] || (b != [] && if a[0] == b[0] then Subsequence(a[1..], b[1..]) else Subsequence(a, b[1..]))
  }

  lemma {:induction false} SubsequenceMembers(a: seq<Entry>, b: seq<Entry>)
    requires Subsequence(a, b)
    ensures forall e | e in a :: e in b
    ensures |a| <= |b|
  {
    if a != [] {
      assert a == [a[0]] + a[1..] && forall e | e in b[1..] :: e in b;
      if a[0] == b[0] { SubsequenceMembers(a[1..], b[1..]); } else { SubsequenceMembers(a, b[1..]); }
    }
  }

  lemma {:induction false} SubsequenceDropFirst(a: seq<Entry>, b: seq<Entry>)
    requires Subsequence(a, b) && a != []
    ensures b != [] && Subsequence(a[1..], b[1..])
    ensures Subsequence(a[1..], b)
  {
    if a[0] == b[0] {
      if a[1..] != [] && a[1] != b[0] {
      } else if a[1..] != [] {
        SubsequenceDropFirst(a[1..], b[1..]);
      }
    } else {
      SubsequenceDropFirst(a, b[1..]);
      if a[1..] != [] && a[1] == b[0] {
        SubsequenceDropFirst(a[1..], b[1..]);
      }
    }
  }

  lemma {:induction false} SubsequenceAppend(a: seq<Entry>, b: seq<Entry>, e: Entry)
    requires Subsequence(a, b)
    ensures Subsequence(a + [e], b + [e])
    ensures Subsequence(a, b + [e])
  {
    if a == [] {
      if b != [] {
        SubsequenceAppend([], b[1..], e);
        assert (b + [e])[1..] == b[1..] + [e];
        assert [] + [e] == [e] && [e][1..] == [];
      }
    } else {
      assert (a + [e])[1..] == a[1..] + [e] && (b + [e])[1..] == b[1..] + [e];
      if a[0] == b[0] { SubsequenceAppend(a[1..], b[1..], e); } else { SubsequenceAppend(a, b[1..], e); }
    }
  }

  lemma {:induction false} SubsequenceWithout(a: seq<Entry>, b: seq<Entry>, key: string)
    requires Subsequence(a, b)
    ensures Subsequence(Without(a, key), Without(b, key))
  {
    if a != [] {
      if a[0] == b[0] {
        SubsequenceWithout(a[1..], b[1..], key);
      } else {
        SubsequenceWithout(a, b[1..], key);
        var u, v := Without(a, key), Without(b[1..], key);
        if b[0].key != key && u != [] && u[0] == b[0] { SubsequenceDropFirst(u, v); }
      }
    }
  }

  /** The smaller cache's entries are a subsequence of the larger's, which holds at most
      `large - small` more; the larger one has hit at least as often on the same lookups. */
  ghost predicate Included(a: Lru, b: Lru, small: nat, large: nat) {
    && Subsequence(a.entries, b.entries)
    && |b.entries| - |a.entries| <= large - small
    && a.hits <= b.hits
    && a.hits + a.misses == b.hits + b.misses
  }

  lemma {:induction false} EvictionKeepsInclusion(a: seq<Entry>, b: seq<Entry>, small: nat, large: nat)
    requires Subsequence(a, b) && |b| - |a| <= large - small
    requires |a| <= small + 1 && |b| <= large + 1
    ensures Subsequence(Newest(a, small), Newest(b, large))
    ensures |Newest(b, large)| - |Newest(a, small)| <= large - small
  {
    if |a| > small {
      SubsequenceDropFirst(a, b);
      assert Newest(a, small) == a[1..];
    }
    if |b| > large {
      assert Newest(b, large) == b[1..];
    }
  }

  lemma {:induction false} SizesAfterRemoval(a: Lru, b: Lru, key: string)
    requires Subsequence(a.entries, b.entries) && Distinct(a.entries) && Distinct(b.entries)
    ensures var x, y := Without(a.entries, key), Without(b.entries, key);
      && Subsequence(x, y)
      && |y| - |x| <= |b.entries| - |a.entries|
      && (key in Keys(a.entries) ==> |x| + 1 == |a.entries|)
      && (key in Keys(b.entries) ==> |y| + 1 == |b.entries|)
      && (key !in Keys(b.entries) ==> key !in Keys(a.entries) && x == a.entries && y == b.entries)
      && Keys(a.entries) <= Keys(b.entries)
      && (Find(a.entries, key).Some? ==> Find(a.entries, key) == Find(b.entries, key))
  {
    SubsequenceMembers(a.entries, b.entries);
    SubsequenceWithout(a.entries, b.entries, key);
    if key in Keys(a.entries) { RemovalShrinks(a.entries, key); } else { AbsentIsUntouched(a.entries, key); }
    if key in Keys(b.entries) { RemovalShrinks(b.entries, key); } else { AbsentIsUntouched(b.entries, key); }
  }

  lemma {:induction false} InclusionStep(a: Lru, b: Lru, small: nat, large: nat, op: Op)
    requires small <= large && Included(a, b, small, large)
    requires Distinct(a.entries) && Distinct(b.entries) && |a.entries| <= small && |b.entries| <= large
    ensures Included(Apply(a, small, op), Apply(b, large, op), small, large)
  {
    var key := if op.Put? then op.entry.key else op.key;
    SizesAfterRemoval(a, b, key);
    var x, y := Without(a.entries, key), Without(b.entries, key);
    match op
    case Get(_, now) =>
      var f, g := Find(a.entries, key), Find(b.entries, key);
      if g.Some? {
        SubsequenceAppend(x, y, g.value);
        if f.None? { AbsentIsUntouched(a.entries, key); }
      }
    case Put(e) =>
      SubsequenceAppend(x, y, e);
      EvictionKeepsInclusion(x + [e], y + [e], small, large);
    case Invalidate(_) =>
  }

  /** LRU inclusion, with lookups, stores, invalidations and expiries in any order. */
  lemma {:induction false} Inclusion(ops: seq<Op>, small: nat, large: nat)
    requires small <= large
    ensures Included(Run(ops, small), Run(ops, large), small, large)
  {
    if ops != [] {
      var front := ops[..|ops| - 1];
      Inclusion(front, small, large);
      RunIsBounded(front, small);
      RunIsBounded(front, large);
      InclusionStep(Run(front, small), Run(front, large), small, large, ops[|ops| - 1]);
    }
  }
}
