/**
 The outbox_events table. Every SQL statement of the repository is a function from the
 table before to the table after; the class is the table, updated in place.
 Times are milliseconds on the database clock.
 */
module OutboxRepository {
  import opened Optional

  type EventId = nat
  type Instance = nat

  datatype Status = Pending | Locked | Published | Failed | Cancelled

  datatype Row = Row(
    eventType: string,
    occurredAt: int,
    status: Status,
    lockedAt: Option<int>,
    lockedBy: Option<Instance>,
    lockExpiresAt: Option<int>,
    publishAttempts: nat,
    nextAttemptAt: Option<int>,
    publishedAt: Option<int>,
    publishRef: Option<Instance>,
    lastError: Option<string>,
    lastErrorAt: Option<int>)

  type Table = map<EventId, Row>

  datatype NewEvent = NewEvent(eventType: string, occurredAt: int)

  // ---- What each statement does to a row ----

  function Fresh(e: NewEvent, now: int): Row {
    Row(e.eventType, e.occurredAt, Pending, None, None, None, 0, Some(now), None, None, None, None)
  }

  function Unlock(r: Row): Row {
    r.(lockedAt := None, lockedBy := None, lockExpiresAt := None)
  }

  function ClaimRow(r: Row, owner: Instance, now: int, lockMs: int): Row {
    r.(status := Locked, lockedAt := Some(now), lockedBy := Some(owner), lockExpiresAt := Some(now + lockMs))
  }

  function PublishRow(r: Row, owner: Instance, now: int): Row {
    Unlock(r).(status := Published, publishedAt := Some(now), publishRef := Some(owner))
  }

  function FailRow(r: Row, error: string, nextAttemptAt: int, deadLetter: bool, now: int): Row {
    Unlock(r).(
      status := if deadLetter then Failed else Pending,
      publishAttempts := r.publishAttempts + 1,
      lastError := Some(error),
      lastErrorAt := Some(now),
      nextAttemptAt := if deadLetter then None else Some(nextAttemptAt))
  }

  function ReleaseRow(r: Row): Row {
    Unlock(r).(status := Pending)
  }

  // ---- Which rows a statement selects ----

  predicate Due(r: Row, now: int) {
    r.status == Pending && r.nextAttemptAt.Some? && r.nextAttemptAt.value <= now
  }

  predicate LeaseOver(r: Row, now: int) {
    r.status == Locked && r.lockExpiresAt.Some? && r.lockExpiresAt.value < now
  }

  /** Due rows that no other transaction has locked at this instant (SKIP LOCKED). */
  function DueIds(rows: Table, now: int, busy: set<EventId>): set<EventId> {
    set id | id in rows && id !in busy && Due(rows[id], now)
  }

  function ExpiredIds(rows: Table, now: int): set<EventId> {
    set id | id in rows && LeaseOver(rows[id], now)
  }

  predicate Oldest(rows: Table, pool: set<EventId>, limit: nat, ids: set<EventId>)
    requires pool <= rows.Keys
  {
    && ids <= pool
    && |ids| == (if limit < |pool| then limit else |pool|)
    && forall a, b | a in ids && b in pool - ids :: rows[a].occurredAt <= rows[b].occurredAt
  }

  /** ORDER BY occurred_at LIMIT limit over the due rows; ties may go either way. */
  predicate OldestDue(rows: Table, now: int, busy: set<EventId>, limit: nat, ids: set<EventId>) {
    Oldest(rows, DueIds(rows, now, busy), limit, ids)
  }

  // ---- What each statement does to the table ----

  function Inserted(rows: Table, events: map<EventId, NewEvent>, now: int): Table {
    map id | id in rows.Keys + events.Keys :: if id in events then Fresh(events[id], now) else rows[id]
  }

  function Claimed(rows: Table, ids: set<EventId>, owner: Instance, now: int, lockMs: int): Table {
    map id | id in rows :: if id in ids then ClaimRow(rows[id], owner, now, lockMs) else rows[id]
  }

  function MarkedPublished(rows: Table, ids: set<EventId>, owner: Instance, now: int): Table {
    map id | id in rows :: if id in ids then PublishRow(rows[id], owner, now) else rows[id]
  }

  function MarkedFailed(rows: Table, id: EventId, error: string, nextAttemptAt: int, deadLetter: bool, now: int): Table {
    if id in rows then rows[id := FailRow(rows[id], error, nextAttemptAt, deadLetter, now)] else rows
  }

  function Released(rows: Table, now: int): Table {
    map id | id in rows :: if LeaseOver(rows[id], now) then ReleaseRow(rows[id]) else rows[id]
  }

  // ---- The row shapes the table's CHECK constraints ask for, and the ones the code keeps ----

  predicate Shape(r: Row) {
    && r.status != Cancelled
    && (r.status == Locked <==> r.lockedAt.Some?)
    && (r.status == Locked <==> r.lockedBy.Some?)
    && (r.status == Locked <==> r.lockExpiresAt.Some?)
    && (r.status in {Pending, Locked} ==> r.nextAttemptAt.Some?)
    && (r.status == Published ==> r.publishedAt.Some? && r.publishRef.Some?)
    && (r.status == Failed ==> r.nextAttemptAt.None?)
  }

  // ---- Selection facts ----

  /** Taking the earliest of the rest keeps a choice of the oldest rows one of the oldest. */
  lemma OneMoreOldest(rows: Table, pool: set<EventId>, limit: nat, ids: set<EventId>, x: EventId)
    requires pool <= rows.Keys && Oldest(rows, pool, limit, ids) && x in pool && x !in ids
    requires forall y | y in pool - ids :: rows[x].occurredAt <= rows[y].occurredAt
    ensures Oldest(rows, pool, limit + 1, ids + {x})
  {
    assert |pool - ids| == |pool| - |ids| && |pool - ids| > 0;
    assert |ids + {x}| == limit + 1;
    forall a, b | a in ids + {x} && b in pool - (ids + {x})
      ensures rows[a].occurredAt <= rows[b].occurredAt
    {
      assert b in pool - ids;
    }
  }

  lemma {:induction false} OldestExists(rows: Table, pool: set<EventId>, limit: nat) returns (ids: set<EventId>)
    requires pool <= rows.Keys
    ensures ids <= pool && Oldest(rows, pool, limit, ids)
    decreases limit
  {
    if limit == 0 {
      ids := {};
    } else {
      ids := OldestExists(rows, pool, limit - 1);
      if pool - ids == {} {
        assert ids == pool;
      } else {
        var x := Earliest(rows, pool - ids);
        OneMoreOldest(rows, pool, limit - 1, ids, x);
        ids := ids + {x};
      }
    }
  }

  lemma {:induction false} Earliest(rows: Table, pool: set<EventId>) returns (x: EventId)
    requires pool <= rows.Keys && pool != {}
    ensures x in pool && forall y | y in pool :: rows[x].occurredAt <= rows[y].occurredAt
    decreases |pool|
  {
    x :| x in pool;
    if pool != {x} {
      assert pool - {x} != {};
      var y := Earliest(rows, pool - {x});
      if rows[y].occurredAt < rows[x].occurredAt {
        x := y;
      }
    }
  }

  /** A claim comes back empty exactly when every due row was locked by somebody else. */
  lemma EmptyClaimIffNothingDue(rows: Table, now: int, busy: set<EventId>, limit: nat, ids: set<EventId>)
    requires OldestDue(rows, now, busy, limit, ids) && limit > 0
    ensures ids == {} <==> forall id | id in rows && Due(rows[id], now) :: id in busy
  {
    var due := DueIds(rows, now, busy);
    if ids == {} {
      assert |due| == 0;
      forall id | id in rows && Due(rows[id], now)
        ensures id in busy
      {
        assert id !in due;
      }
    } else {
      var id :| id in ids;
      assert id in due;
    }
  }

  // ---- The statements in column terms ----

  /** Which rows a claim takes: pending, due, locked by nobody, and no row left behind is older than one taken. */
  lemma ClaimTakesOldestDue(rows: Table, now: int, busy: set<EventId>, limit: nat, ids: set<EventId>)
    requires OldestDue(rows, now, busy, limit, ids)
    ensures |ids| <= limit
    ensures forall id | id in ids ::
              && id in rows && id !in busy && rows[id].status == Pending
              && rows[id].nextAttemptAt.Some? && rows[id].nextAttemptAt.value <= now
    ensures forall id | id in rows && id !in ids && id !in busy && rows[id].status == Pending
                        && rows[id].nextAttemptAt.Some? && rows[id].nextAttemptAt.value <= now ::
              |ids| == limit && forall taken | taken in ids :: rows[taken].occurredAt <= rows[id].occurredAt
  {
    var due := DueIds(rows, now, busy);
    forall id | id in rows && id !in ids && id !in busy && rows[id].status == Pending
                && rows[id].nextAttemptAt.Some? && rows[id].nextAttemptAt.value <= now
      ensures |ids| == limit && forall taken | taken in ids :: rows[taken].occurredAt <= rows[id].occurredAt
    {
      assert id in due - ids;
      if |ids| == |due| {
        SameSize(ids, due);
      }
    }
  }

  lemma {:induction false} SameSize(a: set<EventId>, b: set<EventId>)
    requires a <= b && |a| == |b|
    ensures a == b
  {
    assert |b - a| == |b| - |a|;
    assert b == a + (b - a);
  }

  /**
   One event through the statements: pending and claimable from its insertion on; locked under its claimer's
   name by a claim, and releasable once `lockMs` have gone by, not before; then as claimable as it was.
   */
  lemma ClaimAndRelease(e: NewEvent, inserted: int, owner: Instance, claimed: int, lockMs: int, now: int)
    requires inserted <= claimed
    ensures
      var row := Inserted(map[], map[7 := e], inserted)[7];
      && row.eventType == e.eventType && row.occurredAt == e.occurredAt && row.publishAttempts == 0
      && (7 in DueIds(map[7 := row], now, {}) <==> now >= inserted)
    ensures
      var row := Inserted(map[], map[7 := e], inserted)[7];
      var locked := Claimed(map[7 := row], {7}, owner, claimed, lockMs);
      && locked[7].lockedAt == Some(claimed) && locked[7].lockedBy == Some(owner)
      && locked[7].lockExpiresAt == Some(claimed + lockMs)
      && 7 !in DueIds(locked, now, {})
      && Released(locked, now)[7] == (if now > claimed + lockMs then row else locked[7])
      && ExpiredIds(locked, now) == (if now > claimed + lockMs then {7} else {})
  {
    var row := Inserted(map[], map[7 := e], inserted)[7];
    var locked := Claimed(map[7 := row], {7}, owner, claimed, lockMs);
    assert 7 in DueIds(map[7 := row], now, {}) <==> now >= inserted;
    assert forall id | id in locked :: id == 7;
    assert 7 in ExpiredIds(locked, now) <==> now > claimed + lockMs;
  }

  /** What each mark leaves in a row, whatever its state was, and that it touches no other row. */
  lemma MarksInColumns(rows: Table, id: EventId, owner: Instance, now: int, error: string, next: int, dead: bool)
    requires id in rows
    ensures
      var r, p := rows[id], MarkedPublished(rows, {id}, owner, now);
      && p.Keys == rows.Keys && (forall other | other in rows && other != id :: p[other] == rows[other])
      && p[id].status == Published && p[id].publishedAt == Some(now) && p[id].publishRef == Some(owner)
      && p[id].lockedAt == None && p[id].lockedBy == None && p[id].lockExpiresAt == None
      && p[id].publishAttempts == r.publishAttempts && p[id].eventType == r.eventType && p[id].occurredAt == r.occurredAt
    ensures
      var r, f := rows[id], MarkedFailed(rows, id, error, next, dead, now);
      && f.Keys == rows.Keys && (forall other | other in rows && other != id :: f[other] == rows[other])
      && f[id].status == (if dead then Failed else Pending)
      && f[id].nextAttemptAt == (if dead then None else Some(next))
      && f[id].lastError == Some(error) && f[id].lastErrorAt == Some(now)
      && f[id].lockedAt == None && f[id].lockedBy == None && f[id].lockExpiresAt == None
      && f[id].publishAttempts == r.publishAttempts + 1 && f[id].eventType == r.eventType && f[id].occurredAt == r.occurredAt
  {
  }

  /** The table itself: each method is one statement of the repository. */
  class OutboxKyselyRepository {
    var rows: Table

    constructor ()
      ensures rows == map[]
    {
      rows := map[];
    }

    method Insert(events: map<EventId, NewEvent>, now: int)
      requires events.Keys !! rows.Keys
      modifies this
      ensures rows == Inserted(old(rows), events, now)
    {
      var added := map id | id in events :: Fresh(events[id], now);
      rows := rows + added;
    }

    method ClaimBatch(limit: nat, lockedBy: Instance, lockMs: int, now: int, busy: set<EventId>)
      returns (claimed: Table)
      modifies this
      ensures OldestDue(old(rows), now, busy, limit, claimed.Keys)
      ensures rows == Claimed(old(rows), claimed.Keys, lockedBy, now, lockMs)
      ensures forall id | id in claimed :: id in rows && claimed[id] == rows[id]
    {
      var pool := DueIds(rows, now, busy);
      ghost var some := OldestExists(rows, pool, limit);
      var ids :| ids <= pool && Oldest(rows, pool, limit, ids);
      var updated := map id | id in ids ::
        rows[id].(status := Locked, lockedAt := Some(now), lockedBy := Some(lockedBy), lockExpiresAt := Some(now + lockMs));
      rows := rows + updated;
      claimed := updated;
      assert claimed.Keys == ids;
    }

    method MarkPublished(ids: set<EventId>, publishedBy: Instance, now: int)
      modifies this
      ensures rows == MarkedPublished(old(rows), ids, publishedBy, now)
    {
      if ids == {} {
        return;
      }
      rows := rows + map id | id in ids && id in rows ::
        rows[id].(
          status := Published, publishedAt := Some(now), publishRef := Some(publishedBy),
          lockedAt := None, lockedBy := None, lockExpiresAt := None);
    }

    method MarkFailed(id: EventId, error: string, nextAttemptAt: int, deadLetter: bool, now: int)
      modifies this
      ensures rows == MarkedFailed(old(rows), id, error, nextAttemptAt, deadLetter, now)
    {
      if id in rows {
        var r := rows[id];
        rows := rows[id := r.(
          status := if deadLetter then Failed else Pending,
          publishAttempts := r.publishAttempts + 1,
          lastError := Some(error), lastErrorAt := Some(now),
          nextAttemptAt := if deadLetter then None else Some(nextAttemptAt),
          lockedAt := None, lockedBy := None, lockExpiresAt := None)];
      }
    }

    method ReleaseExpiredLocks(now: int) returns (count: nat)
      modifies this
      ensures rows == Released(old(rows), now)
      ensures count == |ExpiredIds(old(rows), now)|
    {
      var ids := ExpiredIds(rows, now);
      rows := rows + map id | id in ids ::
        rows[id].(status := Pending, lockedAt := None, lockedBy := None, lockExpiresAt := None);
      count := |ids|;
    }
  }
}
