/**
 The link table (src/shortener/store.py, `LinkStore`; src/shortener/pgstore.py, `PgLinkStore`).
 Each SQL statement is one atomic operation on a map from code to row.
 */
module LinkStores {
  import opened Prelude

  datatype Link = Link(code: string, target: string, createdMs: int, expires: Option<int>)
  {
    predicate IsExpired(now: int) {
      expires.Some? && now >= expires.value
    }
  }

  type Rows = map<string, Link>

  ghost predicate WellKeyed(rows: Rows) {
    forall code | code in rows :: rows[code].code == code
  }

  /** What a resolver without any cache would find. */
  function Resolved(rows: Rows, code: string, now: int): Option<string> {
    if code in rows && !rows[code].IsExpired(now) then Some(rows[code].target) else None
  }

  /** What `resolve` tells its caller: 410, a redirect, 404, or that the store could not be read. */
  datatype Answer = Gone | Redirect(target: string) | NotFound | Failed

  /** A copy agrees with the store's row, or a sweep has already used a time at which it is expired. */
  predicate Current(rows: Rows, lastPurge: Option<int>, code: string, target: string, expires: Option<int>) {
    || (code in rows && rows[code].target == target && rows[code].expires == expires)
    || (expires.Some? && lastPurge.Some? && expires.value <= lastPurge.value)
  }

  /** The later of the last sweep's time, if any, and `now`. */
  function Later(last: Option<int>, now: int): int {
    if last.Some? && last.value > now then last.value else now
  }

  /** `now_ms or time.time()`: an absent time and the time 0 both fall back to the wall clock. */
  function EffectiveNow(nowMs: Option<int>, wallMs: int): int {
    if nowMs.Some? && nowMs.value != 0 then nowMs.value else wallMs
  }

  /** `now + ttl * 1000 if ttl else None`: an absent ttl and the ttl 0 both mean "never". */
  function ExpiryOf(ttlSeconds: Option<int>, now: int): Option<int> {
    if ttlSeconds.Some? && ttlSeconds.value != 0 then Some(now + ttlSeconds.value * 1000) else None
  }

  function NewLink(code: string, target: string, ttlSeconds: Option<int>, nowMs: Option<int>, wallMs: int): Link {
    var now := EffectiveNow(nowMs, wallMs);
    Link(code, target, now, ExpiryOf(ttlSeconds, now))
  }

  function Purged(rows: Rows, now: int): Rows {
    map code | code in rows && !rows[code].IsExpired(now) :: rows[code]
  }

  /** A sweep is invisible to every lookup that is not earlier than the sweep. */
  lemma {:induction false} PurgeIsInvisible(rows: Rows, sweep: int, code: string, now: int)
    requires sweep <= now
    ensures Resolved(Purged(rows, sweep), code, now) == Resolved(rows, code, now)
  {
    assert code in Purged(rows, sweep) <==> code in rows && !rows[code].IsExpired(sweep);
  }

  /** What a new link is, told by the arguments alone. */
  lemma {:induction false} NewLinkTells(
    code: string, target: string, ttlSeconds: Option<int>, nowMs: Option<int>, wallMs: int)
    ensures var link := NewLink(code, target, ttlSeconds, nowMs, wallMs);
      && link.code == code && link.target == target
      && (nowMs.Some? && nowMs.value != 0 ==> link.createdMs == nowMs.value)
      && (nowMs == None || nowMs == Some(0) ==> link.createdMs == wallMs)
      && (ttlSeconds == None || ttlSeconds == Some(0) ==> forall t :: !link.IsExpired(t))
      && (ttlSeconds.Some? && ttlSeconds.value != 0 ==>
            forall t :: link.IsExpired(t) <==> t >= link.createdMs + 1000 * ttlSeconds.value)
  {
  }

  /** A link just created is found exactly at the times before it expires; other codes are as before. */
  lemma {:induction false} CreatedIsFound(rows: Rows, link: Link, code: string, t: int)
    requires link.code !in rows
    ensures Resolved(rows[link.code := link], code, t) ==
            if code != link.code then Resolved(rows, code, t)
            else if link.expires.None? || t < link.expires.value then Some(link.target)
            else None
  {
  }

  /** A sweep removes the rows whose expiry is not after its time, and no other. */
  lemma {:induction false} PurgeTells(rows: Rows, now: int, code: string)
    ensures code in Purged(rows, now) <==>
              code in rows && (rows[code].expires.None? || now < rows[code].expires.value)
    ensures code in Purged(rows, now) ==> Purged(rows, now)[code] == rows[code]
  {
  }

  datatype StoreError = CodeTaken | Unavailable

  class LinkStore {
    var rows: Rows
    var hitCounts: multiset<string>
    /** Latest time that a sweep used, whichever instance ran it. */
    ghost var lastSweep: Option<int>

    constructor ()
      ensures rows == map[] && hitCounts == multiset{} && lastSweep == None
    {
      rows, hitCounts, lastSweep := map[], multiset{}, None;
    }

    method Create(code: string, target: string, ttlSeconds: Option<int>, nowMs: Option<int>, wallMs: int)
      returns (r: Result<Link, StoreError>)
      modifies this`rows
      ensures r.Ok? <==> code !in old(rows)
      ensures r.Ok? ==> r.value == NewLink(code, target, ttlSeconds, nowMs, wallMs)
      ensures r.Ok? ==> rows == old(rows)[code := r.value]
      ensures r.Ok? ==>
                && r.value.code == code && r.value.target == target
                && r.value.createdMs == (if nowMs.Some? && nowMs.value != 0 then nowMs.value else wallMs)
                && r.value.expires == if ttlSeconds.Some? && ttlSeconds.value != 0
                                      then Some(r.value.createdMs + 1000 * ttlSeconds.value) else None
      ensures r.Ok? ==>
                forall t :: Resolved(rows, code, t) ==
                  if r.value.expires.None? || t < r.value.expires.value then Some(target) else None
      ensures r.Err? ==> r.error == CodeTaken && rows == old(rows)
    {
      var now := EffectiveNow(nowMs, wallMs);
      var link := Link(code, target, now, ExpiryOf(ttlSeconds, now));
      if code in rows {
        return Err(CodeTaken);
      }
      rows := rows[code := link];
      return Ok(link);
    }

    method Get(code: string) returns (link: Option<Link>)
      ensures link == if code in rows then Some(rows[code]) else None
    {
      if code in rows { return Some(rows[code]); }
      return None;
    }

    /** All counts are added in one transaction, or (`fails`) none is and the call raises. */
    method RecordHitsBulk(counts: multiset<string>, fails: bool) returns (r: Result<nat, StoreError>)
      modifies this`hitCounts
      ensures r.Ok? <==> counts == multiset{} || !fails
      ensures r.Ok? ==> hitCounts == old(hitCounts) + counts && r.value == |set code | code in counts|
      ensures r.Err? ==> hitCounts == old(hitCounts)
    {
      if counts == multiset{} {
        assert (set code | code in counts) == {};
        return Ok(0);
      }
      if fails {
        return Err(Unavailable);
      }
      hitCounts := hitCounts + counts;
      return Ok(|set code | code in counts|);
    }

    method PurgeExpired(now: int) returns (removed: nat)
      modifies this`rows, this`lastSweep
      ensures rows == Purged(old(rows), now) && lastSweep == Some(Later(old(lastSweep), now))
      ensures removed == |set code | code in old(rows) && old(rows)[code].IsExpired(now)|
      ensures forall code :: code in rows <==>
                code in old(rows) && (old(rows)[code].expires.None? || now < old(rows)[code].expires.value)
      ensures forall code | code in rows :: rows[code] == old(rows)[code]
    {
      removed := |set code | code in rows && rows[code].IsExpired(now)|;
      rows := map code | code in rows && !rows[code].IsExpired(now) :: rows[code];
      lastSweep := Some(Later(lastSweep, now));
    }
  }
}
