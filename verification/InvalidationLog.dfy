/**
 Cross-instance invalidation through a durable, replayable log
 (src/shortener/invalidation.py, `SqliteInvalidationBus` and `InvalidationPoller`).
 */
module InvalidationLogs {
  import opened Prelude
  import opened LruCaches

  /** A row of the log; `number` is its AUTOINCREMENT sequence number. */
  datatype Event = Event(number: nat, code: string)

  /** Rows are committed in sequence order; numbers grow but need not be adjacent. */
  ghost predicate Ordered(log: seq<Event>) {
    && (forall i | 0 <= i < |log| :: log[i].number > 0)
    && (forall i, j | 0 <= i < j < |log| :: log[i].number < log[j].number)
  }

  function Head(log: seq<Event>): nat {
    if log == [] then 0 else log[|log| - 1].number
  }

  /** `SELECT ... WHERE seq > cursor ORDER BY seq` */
  function Unseen(log: seq<Event>, cursor: nat): (rows: seq<Event>)
    ensures forall e :: e in rows <==> e in log && e.number > cursor
    ensures Ordered(log) && rows != [] ==> Head(rows) == Head(log)
    ensures Ordered(log) && rows == [] ==> Head(log) <= cursor
  {
    if log == [] then []
    else if log[|log| - 1].number > cursor then Unseen(log[..|log| - 1], cursor) + [log[|log| - 1]]
    else
      assert Ordered(log) ==> forall e | e in log :: e.number <= cursor;
      Unseen(log[..|log| - 1], cursor)
  }

  /** In the order of the log, and each row once. */
  lemma {:induction false} UnseenInOrder(log: seq<Event>, cursor: nat)
    requires Ordered(log)
    ensures Ordered(Unseen(log, cursor))
  {
    if log != [] {
      var front := log[..|log| - 1];
      UnseenInOrder(front, cursor);
      forall e | e in Unseen(front, cursor) ensures e.number < log[|log| - 1].number {
        assert e in front;
      }
    }
  }

  function Codes(rows: seq<Event>): set<string> {
    set e | e in rows :: e.code
  }

  /** Invalidations in the order of the rows. */
  function InvalidateAll(c: Lru, rows: seq<Event>): Lru {
    if rows == [] then c
    else InvalidateStep(InvalidateAll(c, rows[..|rows| - 1]), rows[|rows| - 1].code)
  }

  /** A batch removes exactly the entries of its codes; applying it twice changes nothing more. */
  lemma {:induction false} BatchRemovesItsCodes(c: Lru, rows: seq<Event>)
    ensures forall e :: e in InvalidateAll(c, rows).entries <==> e in c.entries && e.key !in Codes(rows)
    ensures InvalidateAll(InvalidateAll(c, rows), rows) == InvalidateAll(c, rows)
  {
    BatchRemoves(c, rows);
    BatchIsIdle(InvalidateAll(c, rows), rows);
  }

  lemma {:induction false} BatchRemoves(c: Lru, rows: seq<Event>)
    ensures forall e :: e in InvalidateAll(c, rows).entries <==> e in c.entries && e.key !in Codes(rows)
  {
    if rows != [] {
      var front, last := rows[..|rows| - 1], rows[|rows| - 1];
      BatchRemoves(c, front);
      assert rows == front + [last];
      assert Codes(rows) == Codes(front) + {last.code};
    }
  }

  lemma {:induction false} BatchIsIdle(c: Lru, rows: seq<Event>)
    requires forall e | e in c.entries :: e.key !in Codes(rows)
    ensures InvalidateAll(c, rows) == c
  {
    if rows != [] {
      var front, last := rows[..|rows| - 1], rows[|rows| - 1];
      assert forall e | e in front :: e in rows;
      assert last in rows && last.code in Codes(rows);
      assert Codes(front) <= Codes(rows);
      BatchIsIdle(c, front);
      AbsentIsUntouched(c.entries, last.code);
    }
  }

  lemma {:induction false} OneMoreRow(c: Lru, rows: seq<Event>, n: nat)
    requires n < |rows|
    ensures InvalidateAll(c, rows[..n + 1]) == InvalidateStep(InvalidateAll(c, rows[..n]), rows[n].code)
  {
    assert rows[..n + 1][..n] == rows[..n];
  }

  /** Rows applied by a batch of `n` rows whose row at `failAt` raises. */
  function Reached(failAt: Option<nat>, n: nat): nat {
    if failAt.Some? && failAt.value < n then failAt.value else n
  }

  // ---------------------------------------------------------------- the object

  class SqliteInvalidationBus {
    var log: seq<Event>
    var cursors: map<string, nat>
    var applied: nat
    var polls: nat

    ghost predicate Valid()
      reads this
    {
      Ordered(log)
    }

    function Cursor(instance: string): nat
      reads this
    {
      if instance in cursors then cursors[instance] else 0
    }

    constructor ()
      ensures Valid() && log == [] && cursors == map[]
    {
      log, cursors, applied, polls := [], map[], 0, 0;
    }

    /** AUTOINCREMENT promises a number above all earlier ones; `gap` numbers were lost to others. */
    method Publish(code: string, gap: nat) returns (number: nat)
      requires Valid()
      modifies this`log
      ensures Valid()
      ensures log == old(log) + [Event(number, code)] && number > Head(old(log))
    {
      number := Head(log) + 1 + gap;
      log := log + [Event(number, code)];
    }

    method Register(instance: string, from: Option<nat>) returns (cursor: nat)
      modifies this`cursors
      ensures cursor == if from.Some? then from.value else 0
      ensures cursors == old(cursors)[instance := cursor]
    {
      cursors := cursors[instance := if from.Some? then from.value else 0];
      cursor := cursors[instance];
    }

    method Lag(instance: string) returns (lag: nat)
      requires Valid()
      ensures lag == 0 <==> Head(log) <= Cursor(instance)
      ensures lag > 0 ==> Cursor(instance) + lag == Head(log)
    {
      lag := if Head(log) >= Cursor(instance) then Head(log) - Cursor(instance) else 0;
    }

    /** The loop of `poll`: `apply_fn` on each row, up to the row at which it raises, if any. */
    method ApplyRows(rows: seq<Event>, cache: LruCache, failAt: Option<nat>) returns (done: nat)
      requires cache.Valid()
      modifies this`applied, cache
      ensures cache.Valid()
      ensures done == Reached(failAt, |rows|)
      ensures if failAt.Some? && failAt.value < |rows| then done == failAt.value else done == |rows|
      ensures cache.View() == InvalidateAll(old(cache.View()), rows[..done])
      ensures applied == old(applied) + done
    {
      done := 0;
      ghost var before, now := cache.View(), cache.View();
      while done < |rows|
        invariant done <= Reached(failAt, |rows|) <= |rows| && cache.Valid()
        invariant cache.View() == now == InvalidateAll(before, rows[..done])
        invariant applied == old(applied) + done
      {
        if failAt == Some(done) {
          return;
        }
        cache.Invalidate(rows[done].code);
        OneMoreRow(before, rows, done);
        now := InvalidateStep(now, rows[done].code);
        applied := applied + 1;
        done := done + 1;
      }
    }

    /** One poll with no other poll of the instance beside it. `failAt` is the row whose `apply_fn` raises. */
    method Poll(instance: string, cache: LruCache, failAt: Option<nat>) returns (r: Result<nat, nat>)
      requires Valid() && cache.Valid()
      modifies this`cursors, this`applied, this`polls, cache
      ensures Valid() && cache.Valid() && polls == old(polls) + 1
      ensures var rows := Unseen(log, old(Cursor(instance))); var done := Reached(failAt, |rows|);
        && r == (if done < |rows| then Err(done) else Ok(|rows|))
        && cache.View() == InvalidateAll(old(cache.View()), rows[..done])
        && applied == old(applied) + done
      ensures cursors == if r.Err? || r.value == 0 then old(cursors) else old(cursors)[instance := Head(log)]
      ensures var rows := Unseen(log, old(Cursor(instance)));
        && (failAt.Some? && failAt.value < |rows| ==> r == Err(failAt.value))
        && (failAt.None? || failAt.value >= |rows| ==> r == Ok(|rows|))
      ensures r.Ok? ==> Head(log) <= Cursor(instance)
    {
      var rows := Unseen(log, Cursor(instance));
      polls := polls + 1;
      if rows == [] {
        return Ok(0);
      }
      var done := ApplyRows(rows, cache, failAt);
      if done < |rows| {
        return Err(done);
      }
      assert rows[|rows| - 1].number == Head(log);
      cursors := cursors[instance := rows[|rows| - 1].number];
      return Ok(|rows|);
    }
  }
}
