/**
 The outbox protocol when leases are respected: a mark lands no later than the lease it was
 claimed under, or never, and its reply arrives. The assumption is needed because the marks
 select their row by id alone.
 */
module OutboxLease {
  import opened Optional
  import opened EventRouter
  import opened OutboxRepository
  import opened OutboxPolicy
  import opened OutboxProtocol

  ghost predicate Timely(s: State, a: Action) {
    match a
    case Publish(k, replyLost) => k in s.tasks && s.clock <= s.tasks[k].leaseEnd && !replyLost
    case RecordFailure(k) => k in s.tasks && s.clock <= s.tasks[k].leaseEnd
    case _ => true
  }

  ghost predicate LeasedRun(router: Router, s: State, run: seq<Action>)
    decreases |run|
  {
    run == [] ||
    (Enabled(router, s, run[0]) && Timely(s, run[0]) && LeasedRun(router, Next(router, s, run[0]), run[1..]))
  }

  lemma {:induction false} LeasedIsValid(router: Router, s: State, run: seq<Action>)
    requires LeasedRun(router, s, run)
    ensures ValidRun(router, s, run)
    decreases |run|
  {
    if run != [] {
      LeasedIsValid(router, Next(router, s, run[0]), run[1..]);
    }
  }

  /** The instance may still act on this row: its lease has not run out. */
  predicate InLease(s: State, k: TaskKey)
    requires k in s.tasks
  {
    s.clock <= s.tasks[k].leaseEnd
  }

  /** What an instance with an unexpired lease may count on. */
  ghost predicate Holds(s: State, k: TaskKey)
    requires k in s.tasks
  {
    var t := s.tasks[k];
    && k.1 in s.rows
    && s.rows[k.1].status == Locked
    && s.rows[k.1].lockedBy == Some(k.0)
    && s.rows[k.1].lockedAt == Some(t.claimedAt)
    && s.rows[k.1].lockExpiresAt == Some(t.leaseEnd)
    && s.rows[k.1].publishAttempts == t.attempts
  }

  ghost predicate TaskLeased(s: State, k: TaskKey)
    requires k in s.tasks
  {
    && (InLease(s, k) ==> Holds(s, k))
    && (s.tasks[k].phase.Failing? ==> s.tasks[k].claimedAt <= s.tasks[k].phase.at)
    && s.tasks[k].claimedAt <= s.clock
  }

  /** Claims of the row that have ended neither in a recorded failure nor in a lease release. */
  function Unreturned(r: Row): nat {
    if r.status == Locked || r.status == Published then 1 else 0
  }

  ghost predicate RowLeased(s: State, id: EventId)
    requires id in s.rows && id in s.log
  {
    var r := s.rows[id];
    var l := s.log[id];
    && Shape(r)
    && r.publishAttempts <= MAX_PUBLISH_ATTEMPTS
    && (r.status == Failed <==> r.publishAttempts == MAX_PUBLISH_ATTEMPTS)
    && l.claims == r.publishAttempts + l.releases + Unreturned(r)
    && (l.firstFailureAt.Some? <==> r.publishAttempts > 0)
    && (l.deadAt.Some? <==> r.status == Failed)
    && (r.lockedAt.Some? ==> r.nextAttemptAt.value <= r.lockedAt.value)
    && (l.firstFailureAt.Some? && r.nextAttemptAt.Some? ==>
          r.nextAttemptAt.value >= l.firstFailureAt.value + DelaysServed(r.publishAttempts))
    && (l.firstFailureAt.Some? && r.status == Failed ==>
          l.deadAt.value >= l.firstFailureAt.value + DelaysServed(MAX_PUBLISH_ATTEMPTS - 1))
  }

  ghost predicate Leased(s: State) {
    && s.log.Keys == s.rows.Keys
    && (forall id | id in s.rows :: RowLeased(s, id))
    && (forall k | k in s.tasks :: TaskLeased(s, k))
  }

  lemma RowLeasedFailure(router: Router, s: State, k: TaskKey)
    requires Enabled(router, s, RecordFailure(k)) && Timely(s, RecordFailure(k)) && TaskLeased(s, k)
    requires k.1 in s.rows && k.1 in s.log && RowLeased(s, k.1)
    ensures
      var s' := Next(router, s, RecordFailure(k));
      k.1 in s'.rows && k.1 in s'.log && RowLeased(s', k.1)
  {
    var r, l, t := s.rows[k.1], s.log[k.1], s.tasks[k];
    var n := r.publishAttempts;
    assert DelaysServed(n + 1) == DelaysServed(n) + Backoff(n);
    if l.firstFailureAt.Some? {
      assert t.phase.at >= l.firstFailureAt.value + DelaysServed(n);
    }
  }

  lemma RowLeasedClaim(router: Router, s: State, inst: Instance, ids: set<EventId>, busy: set<EventId>, id: EventId)
    requires Enabled(router, s, Claim(inst, ids, busy))
    requires id in s.rows && id in s.log && RowLeased(s, id)
    ensures
      var s' := Next(router, s, Claim(inst, ids, busy));
      id in s'.rows && id in s'.log && RowLeased(s', id)
  {
    if id in ids {
      assert id in DueIds(s.rows, s.clock, busy);
    }
  }

  lemma RowLeasedPublish(router: Router, s: State, a: Action, id: EventId)
    requires a.Publish? && Enabled(router, s, a) && Timely(s, a) && TaskLeased(s, a.key)
    requires id in s.rows && id in s.log && RowLeased(s, id)
    ensures id in Next(router, s, a).rows && id in Next(router, s, a).log && RowLeased(Next(router, s, a), id)
  {
  }

  lemma RowLeasedRelease(router: Router, s: State, id: EventId)
    requires id in s.rows && id in s.log && RowLeased(s, id)
    ensures
      var s' := Next(router, s, Release);
      id in s'.rows && id in s'.log && RowLeased(s', id)
  {
  }

  lemma LogFollowsRows(router: Router, s: State, a: Action)
    requires Enabled(router, s, a) && s.log.Keys == s.rows.Keys
    requires a.RecordFailure? ==> a.key.1 in s.rows
    ensures Next(router, s, a).log.Keys == Next(router, s, a).rows.Keys
  {
  }

  lemma RowLeasedStep(router: Router, s: State, a: Action, id: EventId)
    requires Enabled(router, s, a) && Timely(s, a)
    requires s.log.Keys == s.rows.Keys
    requires id in Next(router, s, a).rows
    requires id in s.rows ==> RowLeased(s, id)
    requires (a.Publish? || a.RecordFailure?) ==> TaskLeased(s, a.key)
    ensures id in Next(router, s, a).log && RowLeased(Next(router, s, a), id)
  {
    LogFollowsRows(router, s, a);
    match a {
      case Insert(events) =>
      case Claim(inst, ids, busy) => RowLeasedClaim(router, s, inst, ids, busy, id);
      case Publish(k, replyLost) => RowLeasedPublish(router, s, a, id);
      case RecordFailure(k) =>
        if id == k.1 {
          RowLeasedFailure(router, s, k);
        }
      case Release => RowLeasedRelease(router, s, id);
      case _ =>
    }
  }

  /** Two unexpired leases on one event are one lease. */
  lemma HoldersAgree(s: State, k1: TaskKey, k2: TaskKey)
    requires k1 in s.tasks && k2 in s.tasks && TaskLeased(s, k1) && TaskLeased(s, k2)
    requires InLease(s, k1) && InLease(s, k2) && k1.1 == k2.1
    ensures k1 == k2
  {
    assert Some(k1.0) == Some(k2.0);
  }

  lemma MarkKeepsTask(router: Router, s: State, a: Action, k: TaskKey)
    requires (a.Publish? || a.RecordFailure?) && Enabled(router, s, a) && Timely(s, a) && TaskLeased(s, a.key)
    requires k in Next(router, s, a).tasks && TaskLeased(s, k)
    ensures TaskLeased(Next(router, s, a), k)
  {
  }

  lemma ClaimKeepsTask(router: Router, s: State, a: Action, k: TaskKey)
    requires a.Claim? && Enabled(router, s, a) && k in Next(router, s, a).tasks
    requires k in s.tasks ==> TaskLeased(s, k)
    ensures TaskLeased(Next(router, s, a), k)
  {
    if k in s.tasks && InLease(s, k) {
      assert k.1 !in DueIds(s.rows, s.clock, a.busy);
    }
  }

  lemma OtherKeepsTask(router: Router, s: State, a: Action, k: TaskKey)
    requires !a.Claim? && !a.Publish? && !a.RecordFailure? && Enabled(router, s, a)
    requires k in Next(router, s, a).tasks && k in s.tasks && TaskLeased(s, k) && k.1 in s.rows
    ensures TaskLeased(Next(router, s, a), k)
  {
  }

  lemma TaskLeasedStep(router: Router, s: State, a: Action, k: TaskKey)
    requires Enabled(router, s, a) && Timely(s, a)
    requires k in Next(router, s, a).tasks
    requires k in s.tasks ==> TaskLeased(s, k) && k.1 in s.rows
    requires (a.Publish? || a.RecordFailure?) ==> TaskLeased(s, a.key)
    ensures TaskLeased(Next(router, s, a), k)
  {
    if a.Claim? {
      ClaimKeepsTask(router, s, a, k);
    } else if a.Publish? || a.RecordFailure? {
      MarkKeepsTask(router, s, a, k);
    } else {
      OtherKeepsTask(router, s, a, k);
    }
  }

  lemma LeasedStep(router: Router, s: State, a: Action)
    requires Leased(s) && Safe(router, s) && Enabled(router, s, a) && Timely(s, a)
    ensures Leased(Next(router, s, a)) && Safe(router, Next(router, s, a))
  {
    var s' := Next(router, s, a);
    SafeStep(router, s, a);
    if a.Publish? || a.RecordFailure? {
      assert TaskLeased(s, a.key);
    }
    LogFollowsRows(router, s, a);
    forall id | id in s'.rows
      ensures RowLeased(s', id)
    {
      RowLeasedStep(router, s, a, id);
    }
    forall k | k in s'.tasks
      ensures TaskLeased(s', k)
    {
      assert k in s.tasks ==> TaskSafe(router, s, k) && TaskLeased(s, k);
      TaskLeasedStep(router, s, a, k);
    }
  }

  lemma {:induction false} LeasedInvariant(router: Router, s: State, run: seq<Action>)
    requires Leased(s) && Safe(router, s) && LeasedRun(router, s, run)
    ensures ValidRun(router, s, run)
    ensures Leased(After(router, s, run)) && Safe(router, After(router, s, run))
    decreases |run|
  {
    if run != [] {
      LeasedStep(router, s, run[0]);
      LeasedInvariant(router, Next(router, s, run[0]), run[1..]);
    }
  }

  // ---- Main results ----

  /**
   Lease exclusivity. In every lease-respecting run, a row that an instance still holds is locked
   under that instance's name with the attempt count it was claimed with, and no other instance
   holds it.
   */
  lemma LeaseExclusivity(router: Router, clock: int, run: seq<Action>, k: TaskKey)
    requires LeasedRun(router, Initial(clock), run)
    ensures ValidRun(router, Initial(clock), run)
    ensures
      var s := After(router, Initial(clock), run);
      k in s.tasks && InLease(s, k) ==>
        && k.1 in s.rows && s.rows[k.1].status == Locked && s.rows[k.1].lockedBy == Some(k.0)
        && s.rows[k.1].publishAttempts == s.tasks[k].attempts
        && forall other | other in s.tasks && other.1 == k.1 && InLease(s, other) :: other == k
  {
    LeasedInvariant(router, Initial(clock), run);
    var s := After(router, Initial(clock), run);
    if k in s.tasks && InLease(s, k) {
      assert TaskLeased(s, k);
      forall other | other in s.tasks && other.1 == k.1 && InLease(s, other)
        ensures other == k
      {
        HoldersAgree(s, k, other);
      }
    }
  }

  /**
   Retry budget. In every lease-respecting run an event fails at most five times, and exactly five
   times when it is dead-lettered; every claim of it is accounted for by a failure, a release or
   the claim now outstanding or successful, so it is claimed at most 5 times plus once per release;
   and it is dead-lettered no sooner than 75 seconds after its first failure.
   */
  lemma RetryBudget(router: Router, clock: int, run: seq<Action>, id: EventId)
    requires LeasedRun(router, Initial(clock), run)
    ensures ValidRun(router, Initial(clock), run)
    ensures
      var s := After(router, Initial(clock), run);
      id in s.rows ==>
        && id in s.log
        && s.rows[id].publishAttempts <= 5
        && (s.rows[id].status == Failed <==> s.rows[id].publishAttempts == 5)
        && s.log[id].claims == s.rows[id].publishAttempts + s.log[id].releases + Unreturned(s.rows[id])
        && s.log[id].claims <= 5 + s.log[id].releases
        && (s.rows[id].status == Failed ==>
              && s.log[id].firstFailureAt.Some? && s.log[id].deadAt.Some?
              && s.log[id].deadAt.value - s.log[id].firstFailureAt.value >= 75_000)
  {
    LeasedInvariant(router, Initial(clock), run);
    var s := After(router, Initial(clock), run);
    if id in s.rows {
      assert RowLeased(s, id);
      RetrySchedule(4);
    }
  }

  /**
   The k-th failure of an event (k < 5) puts the row back with a next attempt 5000·2^(k−1) ms
   after the failure was noticed; the fifth one dead-letters it.
   */
  lemma FailureSchedule(router: Router, s: State, key: TaskKey)
    requires Leased(s) && Safe(router, s)
    requires Enabled(router, s, RecordFailure(key)) && Timely(s, RecordFailure(key))
    ensures key.1 in s.rows
    ensures
      var before := s.rows[key.1];
      var after := Next(router, s, RecordFailure(key)).rows[key.1];
      var k := before.publishAttempts + 1;
      && after.publishAttempts == k
      && (if k < 5
          then after.status == Pending
            && after.nextAttemptAt == Some(s.tasks[key].phase.at + 5_000 * Pow2(k - 1))
          else k == 5 && after.status == Failed && after.nextAttemptAt == None)
  {
    assert TaskLeased(s, key) && TaskSafe(router, s, key);
    assert RowLeased(s, key.1);
    FailedRowAfter(s.rows[key.1], s.tasks[key], s.clock);
  }

  lemma FailedRowAfter(r: Row, t: Task, now: int)
    requires t.phase.Failing? && t.attempts == r.publishAttempts < 5
    ensures
      var after := FailRow(r, t.phase.error, t.phase.at + Backoff(t.attempts), IsDeadLetter(t.attempts), now);
      if t.attempts < 4 then after.status == Pending && after.nextAttemptAt == Some(t.phase.at + 5_000 * Pow2(t.attempts))
      else after.status == Failed && after.nextAttemptAt == None
  {
    if t.attempts < 4 {
      RetrySchedule(t.attempts + 1);
    }
  }

  // ---- Published and dead-lettered rows are final, and exactly when they are not ----

  lemma FinalRowStep(router: Router, s: State, a: Action, id: EventId)
    requires Leased(s) && Safe(router, s) && Enabled(router, s, a) && Timely(s, a)
    requires id in s.rows && s.rows[id].status in {Published, Failed}
    ensures id in Next(router, s, a).rows && Next(router, s, a).rows[id] == s.rows[id]
  {
    if a.Publish? || a.RecordFailure? {
      assert TaskLeased(s, a.key);
    }
    assert RowLeased(s, id);
  }

  lemma {:induction false} FinalRowRun(router: Router, s: State, run: seq<Action>, id: EventId)
    requires Leased(s) && Safe(router, s) && LeasedRun(router, s, run)
    requires id in s.rows && s.rows[id].status in {Published, Failed}
    ensures ValidRun(router, s, run)
    ensures id in After(router, s, run).rows && After(router, s, run).rows[id] == s.rows[id]
    decreases |run|
  {
    if run != [] {
      FinalRowStep(router, s, run[0], id);
      LeasedStep(router, s, run[0]);
      FinalRowRun(router, Next(router, s, run[0]), run[1..], id);
    }
  }

  /** In lease-respecting runs, what is published or dead-lettered never changes again. */
  lemma {:induction false} PublishedIsFinal(router: Router, clock: int, before: seq<Action>, s: State,
                                            run: seq<Action>, id: EventId)
    requires LeasedRun(router, Initial(clock), before) && ValidRun(router, Initial(clock), before)
    requires s == After(router, Initial(clock), before) && LeasedRun(router, s, run)
    requires id in s.rows && s.rows[id].status in {Published, Failed}
    ensures ValidRun(router, s, run)
    ensures id in After(router, s, run).rows && After(router, s, run).rows[id] == s.rows[id]
  {
    LeasedInvariant(router, Initial(clock), before);
    FinalRowRun(router, s, run, id);
  }

  /**
   In any run at all, the one step that takes a row out of published is a failure report for it, and a
   row leaves dead-lettered by a publish mark or by a failure report that is not itself the last one.
   */
  lemma FinalRowLeavesIff(router: Router, s: State, a: Action, id: EventId)
    requires Safe(router, s) && Enabled(router, s, a) && id in s.rows
    ensures id in Next(router, s, a).rows
    ensures s.rows[id].status == Published ==>
      (Next(router, s, a).rows[id].status != Published <==> a.RecordFailure? && a.key.1 == id)
    ensures s.rows[id].status == Failed ==>
      (Next(router, s, a).rows[id].status != Failed <==>
         && (a.Publish? || (a.RecordFailure? && !IsDeadLetter(s.tasks[a.key].attempts)))
         && a.key.1 == id)
  {
    assert RowSafe(router, s, id);
    if a.RecordFailure? {
      assert TaskSafe(router, s, a.key);
    }
  }

  predicate NoFailureFor(run: seq<Action>, id: EventId) {
    forall a | a in run :: !(a.RecordFailure? && a.key.1 == id)
  }

  /** So, late marks and all, a published event stays published while no failure report for it lands. */
  lemma {:induction false} PublishedUntilFailure(router: Router, s: State, run: seq<Action>, id: EventId)
    requires Safe(router, s) && ValidRun(router, s, run) && NoFailureFor(run, id)
    requires id in s.rows && s.rows[id].status == Published
    ensures id in After(router, s, run).rows && After(router, s, run).rows[id].status == Published
    decreases |run|
  {
    if run != [] {
      assert run[0] in run;
      assert forall a | a in run[1..] :: a in run;
      FinalRowLeavesIff(router, s, run[0], id);
      SafeStep(router, s, run[0]);
      PublishedUntilFailure(router, Next(router, s, run[0]), run[1..], id);
    }
  }

  // ---- Exactly when a mark keeps exclusivity ----

  /** Everyone within its lease still holds its row. */
  ghost predicate AllHold(s: State) {
    forall k | k in s.tasks && InLease(s, k) :: Holds(s, k)
  }

  /** Nobody is within a lease on this event. */
  ghost predicate Unclaimed(s: State, id: EventId) {
    forall k | k in s.tasks && k.1 == id :: !InLease(s, k)
  }

  /**
   Can be read off the state before the step: a mark is harmless if the marker is within its own lease
   and learns of the commit, or if nobody is within a lease on the event. All other steps are harmless.
   */
  ghost predicate Harmless(s: State, a: Action) {
    match a
    case Publish(k, replyLost) => (k in s.tasks && InLease(s, k) && !replyLost) || Unclaimed(s, k.1)
    case RecordFailure(k) => (k in s.tasks && InLease(s, k)) || Unclaimed(s, k.1)
    case _ => true
  }

  /** Lease-respecting runs ask for no more: where anyone is within a lease on the event, timely is harmless. */
  lemma TimelyWhereContested(s: State, a: Action)
    requires (a.Publish? || a.RecordFailure?) && !Unclaimed(s, a.key.1)
    ensures Timely(s, a) <==> Harmless(s, a)
  {
  }

  lemma MarkTakesRow(router: Router, s: State, a: Action, k: TaskKey)
    requires (a.Publish? || a.RecordFailure?) && Enabled(router, s, a) && a.key.1 in s.rows
    requires k in Next(router, s, a).tasks && k.1 == a.key.1
    ensures !Holds(Next(router, s, a), k)
  {
  }

  lemma HarmlessKeepsHolder(router: Router, s: State, a: Action, k: TaskKey)
    requires (a.Publish? || a.RecordFailure?) && Enabled(router, s, a) && Harmless(s, a)
    requires a.key.1 in s.rows && TaskLeased(s, a.key)
    requires k in Next(router, s, a).tasks && TaskLeased(s, k) && InLease(s, k)
    ensures Holds(Next(router, s, a), k)
  {
    if k.1 == a.key.1 {
      HoldersAgree(s, k, a.key);
    }
  }

  /** The exact condition for exclusivity: a step keeps every unexpired lease good iff it is harmless. */
  lemma {:induction false} ExclusivityKeptIff(router: Router, s: State, a: Action)
    requires Leased(s) && Safe(router, s) && Enabled(router, s, a)
    ensures AllHold(Next(router, s, a)) <==> Harmless(s, a)
  {
    var s' := Next(router, s, a);
    if a.Publish? || a.RecordFailure? {
      assert TaskLeased(s, a.key) && TaskSafe(router, s, a.key);
      if Harmless(s, a) {
        forall k | k in s'.tasks && InLease(s', k)
          ensures Holds(s', k)
        {
          assert TaskLeased(s, k);
          HarmlessKeepsHolder(router, s, a, k);
        }
      } else {
        var k := Robbed(s, a);
        MarkTakesRow(router, s, a, k);
      }
    } else {
      forall k | k in s'.tasks && InLease(s', k)
        ensures Holds(s', k)
      {
        assert k in s.tasks ==> TaskLeased(s, k) && TaskSafe(router, s, k);
        TaskLeasedStep(router, s, a, k);
      }
    }
  }

  /** Whom a harmful mark robs: another claimant, or itself when the reply is lost. */
  lemma Robbed(s: State, a: Action) returns (k: TaskKey)
    requires (a.Publish? || a.RecordFailure?) && a.key in s.tasks && !Harmless(s, a)
    ensures k in s.tasks && k.1 == a.key.1 && InLease(s, k)
    ensures k != a.key || (a.Publish? && a.replyLost)
  {
    k :| k in s.tasks && k.1 == a.key.1 && InLease(s, k);
  }

  /**
   Without the lease assumption exclusivity fails: instance 1 stalls past its lease, the row is
   released, instance 2 claims it, and instance 1's late failure report takes the row from under
   instance 2, which is still within its lease.
   */
  lemma LateMarkBreaksExclusivity()
    ensures
      exists run: seq<Action> | ValidRun(ROUTER, Initial(0), run) ::
        var s := After(ROUTER, Initial(0), run);
        (2, 7) in s.tasks && InLease(s, (2, 7)) && 7 in s.rows && s.rows[7].status == Pending
  {
    var first, claimed := FirstClaim();
    var wait, released := LeaseRunsOut(claimed);
    var steal, stolen := LateFailure(released);
    RunsCompose(ROUTER, claimed, wait, steal);
    RunsCompose(ROUTER, Initial(0), first, wait + steal);
    var run := first + (wait + steal);
    assert ValidRun(ROUTER, Initial(0), run) && After(ROUTER, Initial(0), run) == stolen;
  }

  /**
   Marks within the lease are not enough: if the reply to a committed markPublished is lost, the failure
   path puts the published row back among the pending ones, well before the lease ends.
   */
  lemma LostReplyRevivesPublished()
    ensures
      exists run: seq<Action> | ValidRun(ROUTER, Initial(0), run) ::
        var s := After(ROUTER, Initial(0), run);
        7 in s.rows && s.clock < LOCK_MS && s.rows[7].status == Pending && s.rows[7].publishedAt.Some?
  {
    var first, claimed := FirstClaim();
    var k := (1, 7);
    var acked := Next(ROUTER, claimed, AddAcked(k, ROUTE));
    assert acked.tasks[k] == Task(0, 0, LOCK_MS, Sending({} + {ROUTE}));
    var published := Next(ROUTER, acked, Publish(k, true));
    assert published.rows == map[7 := PublishRow(claimed.rows[7], 1, 0)];
    var caught := Next(ROUTER, published, Catch(k, "reply lost"));
    Prepended(ROUTER, caught, RecordFailure(k), []);
    Prepended(ROUTER, published, Catch(k, "reply lost"), [RecordFailure(k)] + []);
    var rest: seq<Action> := [Catch(k, "reply lost")] + ([RecordFailure(k)] + []);
    Prepended(ROUTER, acked, Publish(k, true), rest);
    Prepended(ROUTER, claimed, AddAcked(k, ROUTE), [Publish(k, true)] + rest);
    var last: seq<Action> := [AddAcked(k, ROUTE)] + ([Publish(k, true)] + rest);
    RunsCompose(ROUTER, Initial(0), first, last);
    assert After(ROUTER, Initial(0), first + last) == Next(ROUTER, caught, RecordFailure(k));
  }

  const ROUTE: Route := Route("q", "j")
  const ROUTER: Router := map["e" := [ROUTE]]
  const ROW_7: Row := Fresh(NewEvent("e", 0), 0)

  lemma FirstInsert() returns (insert: Action, inserted: State)
    ensures Enabled(ROUTER, Initial(0), insert) && Next(ROUTER, Initial(0), insert) == inserted
    ensures inserted == State(0, map[7 := ROW_7], map[], map[], map[7 := Log(0, 0, None, None)])
  {
    insert := Insert(map[7 := NewEvent("e", 0)]);
    inserted := Next(ROUTER, Initial(0), insert);
    assert inserted.rows == map[7 := ROW_7];
    assert inserted.log == map[7 := Log(0, 0, None, None)];
  }

  lemma ThenClaim(inserted: State) returns (claimed: State)
    requires inserted == State(0, map[7 := ROW_7], map[], map[], map[7 := Log(0, 0, None, None)])
    ensures Enabled(ROUTER, inserted, Claim(1, {7}, {})) && Next(ROUTER, inserted, Claim(1, {7}, {})) == claimed
    ensures claimed == State(0, map[7 := ClaimRow(ROW_7, 1, 0, LOCK_MS)],
                             map[(1, 7) := Task(0, 0, LOCK_MS, Sending({}))], map[], map[7 := Log(1, 0, None, None)])
  {
    assert DueIds(inserted.rows, 0, {}) == {7};
    claimed := Next(ROUTER, inserted, Claim(1, {7}, {}));
    assert claimed.rows == map[7 := ClaimRow(ROW_7, 1, 0, LOCK_MS)];
    assert claimed.tasks == map[(1, 7) := Task(0, 0, LOCK_MS, Sending({}))];
    assert claimed.log == map[7 := Log(1, 0, None, None)];
  }

  lemma FirstClaim() returns (run: seq<Action>, claimed: State)
    ensures ValidRun(ROUTER, Initial(0), run) && After(ROUTER, Initial(0), run) == claimed
    ensures claimed == State(0, map[7 := ClaimRow(ROW_7, 1, 0, LOCK_MS)],
                             map[(1, 7) := Task(0, 0, LOCK_MS, Sending({}))], map[], map[7 := Log(1, 0, None, None)])
  {
    var insert, inserted := FirstInsert();
    claimed := ThenClaim(inserted);
    Prepended(ROUTER, inserted, Claim(1, {7}, {}), []);
    Prepended(ROUTER, Initial(0), insert, [Claim(1, {7}, {})] + []);
    run := [insert] + ([Claim(1, {7}, {})] + []);
  }

  lemma LeaseRunsOut(claimed: State) returns (run: seq<Action>, released: State)
    requires claimed == State(0, map[7 := ClaimRow(ROW_7, 1, 0, LOCK_MS)],
                              map[(1, 7) := Task(0, 0, LOCK_MS, Sending({}))], map[], map[7 := Log(1, 0, None, None)])
    ensures ValidRun(ROUTER, claimed, run) && After(ROUTER, claimed, run) == released
    ensures released == State(30_001, map[7 := ROW_7],
                              map[(1, 7) := Task(0, 0, LOCK_MS, Failing(0, "stalled"))], map[],
                              map[7 := Log(1, 1, None, None)])
  {
    var r := ROUTER;
    var caught := Next(r, claimed, Catch((1, 7), "stalled"));
    var later := Next(r, caught, Tick(30_001));
    released := Next(r, later, Release);
    Prepended(r, later, Release, []);
    Prepended(r, caught, Tick(30_001), [Release] + []);
    Prepended(r, claimed, Catch((1, 7), "stalled"), [Tick(30_001)] + ([Release] + []));
    run := [Catch((1, 7), "stalled")] + ([Tick(30_001)] + ([Release] + []));
  }

  lemma LateFailure(released: State) returns (run: seq<Action>, stolen: State)
    requires released == State(30_001, map[7 := ROW_7],
                               map[(1, 7) := Task(0, 0, LOCK_MS, Failing(0, "stalled"))], map[],
                               map[7 := Log(1, 1, None, None)])
    ensures ValidRun(ROUTER, released, run) && After(ROUTER, released, run) == stolen
    ensures (2, 7) in stolen.tasks && InLease(stolen, (2, 7)) && 7 in stolen.rows && stolen.rows[7].status == Pending
  {
    var r := ROUTER;
    assert DueIds(released.rows, 30_001, {}) == {7};
    var second := Next(r, released, Claim(2, {7}, {}));
    assert second.tasks[(2, 7)] == Task(0, 30_001, 60_001, Sending({}));
    stolen := Next(r, second, RecordFailure((1, 7)));
    Prepended(r, second, RecordFailure((1, 7)), []);
    Prepended(r, released, Claim(2, {7}, {}), [RecordFailure((1, 7))] + []);
    run := [Claim(2, {7}, {})] + ([RecordFailure((1, 7))] + []);
  }
}
