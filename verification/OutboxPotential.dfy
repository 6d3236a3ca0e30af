/**
 Why draining ends. Each event carries a budget of claims and marks; the potential is what is
 left of all budgets. Claims and marks spend it, only new events and lease releases add to it.
 */
module OutboxPotential {
  import opened Totals
  import opened EventRouter
  import opened OutboxRepository
  import opened OutboxPolicy
  import opened OutboxProtocol
  import opened OutboxLease

  function Weight(r: Row): int {
    match r.status
    case Pending => 2 * (MAX_PUBLISH_ATTEMPTS - r.publishAttempts)
    case Locked => 2 * (MAX_PUBLISH_ATTEMPTS - r.publishAttempts) - 1
    case _ => 0
  }

  function Weights(rows: Table): map<EventId, int> {
    map id | id in rows :: Weight(rows[id])
  }

  ghost function Potential(rows: Table): int {
    Sum(Weights(rows))
  }

  /** Changing the weight of exactly the rows in `ids` by `d` changes the potential by d each. */
  lemma PotentialShifts(rows: Table, rows': Table, ids: set<EventId>, d: int)
    requires rows.Keys == rows'.Keys && ids <= rows.Keys
    requires forall id | id in rows :: Weight(rows'[id]) == Weight(rows[id]) + (if id in ids then d else 0)
    ensures Potential(rows') == Potential(rows) + d * |ids|
  {
    SumShifts(Weights(rows), Weights(rows'), ids, d);
  }

  lemma WeightsOfInsert(rows: Table, events: map<EventId, NewEvent>, now: int, more: map<EventId, int>)
    requires events.Keys !! rows.Keys
    requires more == map id | id in events :: 10
    ensures Weights(Inserted(rows, events, now)) == Weights(rows) + more
  {
  }

  lemma PotentialOfInsert(rows: Table, events: map<EventId, NewEvent>, now: int)
    requires events.Keys !! rows.Keys
    ensures Potential(Inserted(rows, events, now)) == Potential(rows) + 10 * |events|
  {
    var more := map id | id in events :: 10;
    assert more.Keys == events.Keys;
    WeightsOfInsert(rows, events, now, more);
    SumOfUnion(Weights(rows), more);
    SumOfConstant(more, 10);
  }

  // ---- What one action spends and what it adds ----

  /** Rows claimed by this action, plus one if it is a mark. */
  function Spent(a: Action): nat {
    match a
    case Claim(_, ids, _) => |ids|
    case Publish(_, _) => 1
    case RecordFailure(_) => 1
    case _ => 0
  }

  function Added(s: State, a: Action): nat {
    match a
    case Insert(events) => 10 * |events|
    case Release => |ExpiredIds(s.rows, s.clock)|
    case _ => 0
  }

  lemma ClaimSpends(rows: Table, ids: set<EventId>, inst: Instance, now: int, busy: set<EventId>)
    requires ids <= DueIds(rows, now, busy)
    ensures Potential(Claimed(rows, ids, inst, now, LOCK_MS)) == Potential(rows) - |ids|
  {
    PotentialShifts(rows, Claimed(rows, ids, inst, now, LOCK_MS), ids, -1);
  }

  lemma PublishSpends(rows: Table, id: EventId, inst: Instance, now: int)
    requires id in rows && rows[id].status == Locked && rows[id].publishAttempts < MAX_PUBLISH_ATTEMPTS
    ensures Potential(MarkedPublished(rows, {id}, inst, now)) < Potential(rows)
  {
    PotentialShifts(rows, MarkedPublished(rows, {id}, inst, now), {id}, -Weight(rows[id]));
  }

  lemma FailureSpends(rows: Table, id: EventId, error: string, next: int, now: int)
    requires id in rows && rows[id].status == Locked && rows[id].publishAttempts < MAX_PUBLISH_ATTEMPTS
    ensures
      var dead := IsDeadLetter(rows[id].publishAttempts);
      Potential(MarkedFailed(rows, id, error, next, dead, now)) == Potential(rows) - 1
  {
    PotentialShifts(rows, MarkedFailed(rows, id, error, next, IsDeadLetter(rows[id].publishAttempts), now), {id}, -1);
  }

  lemma ReleaseAdds(rows: Table, now: int)
    ensures Potential(Released(rows, now)) == Potential(rows) + |ExpiredIds(rows, now)|
  {
    PotentialShifts(rows, Released(rows, now), ExpiredIds(rows, now), 1);
  }

  /** The row a timely mark lands on. */
  lemma MarkedRow(router: Router, s: State, a: Action)
    requires a.Publish? || a.RecordFailure?
    requires Leased(s) && Enabled(router, s, a) && Timely(s, a)
    ensures Markable(s, a.key)
  {
    assert TaskLeased(s, a.key);
    assert RowLeased(s, a.key.1);
  }

  predicate Markable(s: State, k: TaskKey)
    requires k in s.tasks
  {
    && k.1 in s.rows && s.rows[k.1].status == Locked
    && s.rows[k.1].publishAttempts == s.tasks[k].attempts < MAX_PUBLISH_ATTEMPTS
  }

  /** Every claimed row costs one; every mark costs at least one; nothing else costs or adds anything. */
  lemma PotentialStep(router: Router, s: State, a: Action)
    requires Enabled(router, s, a) && Timely(s, a)
    requires a.Publish? || a.RecordFailure? ==> Markable(s, a.key)
    ensures Potential(Next(router, s, a).rows) <= Potential(s.rows) + Added(s, a) - Spent(a)
    ensures !a.Publish? ==> Potential(Next(router, s, a).rows) == Potential(s.rows) + Added(s, a) - Spent(a)
  {
    match a {
      case Insert(events) => PotentialOfInsert(s.rows, events, s.clock);
      case Claim(inst, ids, busy) => ClaimSpends(s.rows, ids, inst, s.clock, busy);
      case Publish(k, _) => PublishSpends(s.rows, k.1, k.0, s.clock);
      case RecordFailure(k) =>
        var t := s.tasks[k];
        FailureSpends(s.rows, k.1, t.phase.error, t.phase.at + Backoff(t.attempts), s.clock);
      case Release => ReleaseAdds(s.rows, s.clock);
      case _ =>
    }
  }

  ghost function SpentIn(run: seq<Action>): nat {
    if run == [] then 0 else Spent(run[0]) + SpentIn(run[1..])
  }

  ghost function AddedIn(router: Router, s: State, run: seq<Action>): nat
    requires ValidRun(router, s, run)
    decreases |run|
  {
    if run == [] then 0 else Added(s, run[0]) + AddedIn(router, Next(router, s, run[0]), run[1..])
  }

  lemma {:induction false} PotentialRun(router: Router, s: State, run: seq<Action>)
    requires Leased(s) && Safe(router, s) && LeasedRun(router, s, run)
    ensures ValidRun(router, s, run)
    ensures 0 <= Potential(After(router, s, run).rows)
    ensures Potential(After(router, s, run).rows) + SpentIn(run) <= Potential(s.rows) + AddedIn(router, s, run)
    decreases |run|
  {
    if run == [] {
      forall id | id in s.rows
        ensures Weight(s.rows[id]) >= 0
      {
        assert RowLeased(s, id);
      }
      SumNonNegative(Weights(s.rows));
    } else {
      if run[0].Publish? || run[0].RecordFailure? {
        MarkedRow(router, s, run[0]);
      }
      PotentialStep(router, s, run[0]);
      LeasedStep(router, s, run[0]);
      PotentialRun(router, Next(router, s, run[0]), run[1..]);
    }
  }

  /**
   Termination by potential. In any lease-respecting run from a reachable state, all instances
   together make no more claims and marks than the potential at the start plus what the inserts
   (10 per event) and lease releases (1 per row) on the way add.
   */
  lemma {:induction false} DrainingIsBounded(router: Router, clock: int, before: seq<Action>, s: State, run: seq<Action>)
    requires LeasedRun(router, Initial(clock), before) && ValidRun(router, Initial(clock), before)
    requires s == After(router, Initial(clock), before) && LeasedRun(router, s, run)
    ensures ValidRun(router, s, run) && SpentIn(run) <= Potential(s.rows) + AddedIn(router, s, run)
  {
    LeasedInvariant(router, Initial(clock), before);
    PotentialRun(router, s, run);
  }

  /** While nothing is inserted or released, draining stops after at most that many rows. */
  lemma {:induction false} DrainingStops(router: Router, clock: int, before: seq<Action>, s: State, run: seq<Action>)
    requires LeasedRun(router, Initial(clock), before) && ValidRun(router, Initial(clock), before)
    requires s == After(router, Initial(clock), before) && LeasedRun(router, s, run)
    requires forall a | a in run :: !a.Insert? && !a.Release?
    ensures SpentIn(run) <= Potential(s.rows)
  {
    DrainingIsBounded(router, clock, before, s, run);
    NothingAdded(router, s, run);
  }

  lemma {:induction false} NothingAdded(router: Router, s: State, run: seq<Action>)
    requires ValidRun(router, s, run)
    requires forall a | a in run :: !a.Insert? && !a.Release?
    ensures AddedIn(router, s, run) == 0
    decreases |run|
  {
    if run != [] {
      assert run[0] in run;
      NothingAdded(router, Next(router, s, run[0]), run[1..]);
    }
  }
}
