/** What every timely run of the durable strategy keeps. */
module DurableSafety {
  import opened Optional
  import opened RedisStore
  import opened IdempotencyErrors
  import opened IdempotencyRepository
  import opened DurableStrategy

  /** No claimant outlives its row, and no record waits for the cache past its expiry. */
  ghost predicate Timely(s: State) {
    forall r | r in s.requests :: OnTime(s.requests[r].phase, s.clock)
  }

  predicate OnTime(p: Phase, now: int) {
    match p
    case Running(until) => now <= until
    case Marking(until, _, _) => now <= until
    case Deleting(until) => now <= until
    case Caching(record, _, _) => now < record.expiresAt
    case _ => true
  }

  function Until(p: Phase): int
    requires InFlight(p)
  {
    match p
    case Running(until) => until
    case Marking(until, _, _) => until
    case Deleting(until) => until
  }

  // ---- The invariant, one part per kind of thing ----

  ghost predicate RowInv(s: State, k: Key)
    requires k in s.rows
  {
    var row := s.rows[k];
    && Shape(row)
    && row.claim < s.arrivals
    && row.claim in s.claims && s.claims[row.claim] == (k, row.hash)
    && (Terminal(row) ==> row.claim in s.outcomes && s.outcomes[row.claim] == OutcomeOf(row))
    && (row.status == InProgress ==> row.claim !in s.outcomes)
  }

  /** A finished record whose claim is over: still the row while it is active, and never to change. */
  ghost predicate RecordInv(s: State, k: Key, record: Record) {
    && Terminal(record)
    && record.claim in s.claims && s.claims[record.claim] == (k, record.hash)
    && record.claim in s.outcomes && s.outcomes[record.claim] == OutcomeOf(record)
    && (Active(record, s.clock) ==> k in s.rows && s.rows[k] == record)
  }

  ghost predicate CacheInv(s: State, k: Key)
    requires k in s.cache
  {
    var e := s.cache[k];
    && RecordInv(s, k, e.value)
    && e.until.Some? && e.value.expiresAt <= e.until.value < e.value.expiresAt + 1000
    && e.value.claim < s.arrivals
    && (e.value.claim in s.requests ==> s.requests[e.value.claim].phase.Answered?)
  }

  ghost predicate AnswerInv(s: State, q: Request, a: Answer) {
    match a
    case Replayed(o, c) => c in s.claims && s.claims[c] == (q.key, q.hash) && c in s.outcomes && s.outcomes[c] == o
    case PayloadMismatch(c) => c in s.claims && s.claims[c].0 == q.key && s.claims[c].1 != q.hash
    case _ => true
  }

  /** The outcome that is recorded is that of the result the claimant is told. */
  predicate ResultInv(p: Phase) {
    match p
    case Marking(_, outcome, result) => HandlerOutcome(result) == Some(outcome)
    case Caching(_, outcome, result) => HandlerOutcome(result) == Some(outcome)
    case Answered(a) => a.Executed? ==> HandlerOutcome(a.result) == Some(a.outcome)
    case _ => true
  }

  ghost predicate RequestInv(s: State, r: RequestId)
    requires r in s.requests
  {
    var q := s.requests[r];
    && r < s.arrivals
    && (q.phase.LookInCache? || q.phase.LookInTable? || q.phase.Claiming? ==> r !in s.claims)
    && (InFlight(q.phase) ==>
          && q.key in s.rows && s.rows[q.key].claim == r && s.rows[q.key].expiresAt == Until(q.phase)
          && s.rows[q.key].hash == q.hash
          && (q.key in s.settled <==> q.phase.Marking?))
    && (InFlight(q.phase) && r in s.outcomes ==> s.outcomes[r] == Error(TIMED_OUT))
    && (q.phase.Caching? ==>
          && RecordInv(s, q.key, q.phase.record) && q.phase.record.claim == r
          && OutcomeOf(q.phase.record) == q.phase.outcome)
    && (q.phase.Answered? && q.phase.answer.Executed? && r in s.outcomes ==>
          s.outcomes[r] == q.phase.answer.outcome || s.outcomes[r] == Error(TIMED_OUT))
    && (q.phase.Answered? ==> AnswerInv(s, q, q.phase.answer))
    && ResultInv(q.phase)
  }

  ghost predicate LedgerInv(s: State, k: Key) {
    Count(s.starts, k) == Count(s.cancels, k) + Count(s.expiries, k) + (if k in s.rows then 1 else 0)
  }

  ghost predicate Inv(s: State) {
    && (forall k | k in s.rows :: RowInv(s, k))
    && (forall k | k in s.cache :: CacheInv(s, k))
    && (forall r | r in s.requests :: RequestInv(s, r))
    && (forall k :: LedgerInv(s, k))
    && s.settled <= s.rows.Keys
    && s.outcomes.Keys <= s.claims.Keys
    && (forall c | c in s.claims :: c < s.arrivals)
  }

  // ---- What one step does to rows and history ----

  /** A row is written once: it leaves in_progress at most once and keeps its identity until it is removed. */
  ghost predicate WrittenOnce(rows: Table, rows': Table) {
    forall k | k in rows && k in rows' :: SameLife(rows[k], rows'[k])
  }

  predicate SameLife(r: Record, r': Record) {
    && r'.claim == r.claim && r'.hash == r.hash && r'.expiresAt == r.expiresAt && r'.createdAt == r.createdAt
    && (r.status != InProgress ==> r' == r)
  }

  lemma StepWritesOnce(s: State, a: Action)
    requires Enabled(s, a)
    ensures WrittenOnce(s.rows, Next(s, a).rows)
  {
    match a {
      case Mark(r) => MarkWritesOnce(s.rows, s.requests[r].key, s.requests[r].phase.outcome, s.clock);
      case Sweep => SweepWritesOnce(s.rows, s.clock);
      case _ =>
    }
  }

  lemma MarkWritesOnce(rows: Table, k: Key, o: Outcome, now: int)
    ensures WrittenOnce(rows, Marked(rows, k, o, now))
  {
  }

  lemma SweepWritesOnce(rows: Table, now: int)
    ensures WrittenOnce(rows, Swept(rows, now))
  {
  }

  ghost predicate HistoryKept(s: State, s': State) {
    && (forall c | c in s.claims :: c in s'.claims && s'.claims[c] == s.claims[c])
    && (forall c | c in s.outcomes :: c in s'.outcomes && s'.outcomes[c] == s.outcomes[c])
    && s'.arrivals >= s.arrivals && s'.clock >= s.clock
  }

  lemma SweepKeepsHistory(s: State)
    requires forall k | k in s.rows :: RowInv(s, k)
    ensures HistoryKept(s, Next(s, Sweep))
  {
    assert forall k | k in s.rows && Stale(s.rows[k], s.clock) :: s.rows[k].claim !in s.outcomes;
  }

  lemma MarkKeepsHistory(s: State, r: RequestId)
    requires Enabled(s, Mark(r))
    requires s.requests[r].key in s.rows ==> RowInv(s, s.requests[r].key)
    ensures HistoryKept(s, Next(s, Mark(r)))
  {
  }

  lemma OtherKeepsHistory(s: State, a: Action)
    requires Enabled(s, a) && !a.Mark? && !a.Sweep?
    requires a.Claim? ==> RequestInv(s, a.r)
    ensures HistoryKept(s, Next(s, a))
  {
  }

  lemma StepKeepsHistory(s: State, a: Action)
    requires Inv(s) && Enabled(s, a)
    ensures HistoryKept(s, Next(s, a))
  {
    if a.Mark? {
      MarkKeepsHistory(s, a.r);
    } else if a.Sweep? {
      SweepKeepsHistory(s);
    } else {
      OtherKeepsHistory(s, a);
    }
  }

  // ---- Each part of the invariant survives each step ----

  lemma RowInvMark(s: State, r: RequestId, k: Key)
    requires Enabled(s, Mark(r)) && k in s.rows && RowInv(s, k)
    requires s.requests[r].key in s.rows ==> RowInv(s, s.requests[r].key)
    ensures RowInv(Next(s, Mark(r)), k)
  {
    if k == s.requests[r].key && Open(s.rows[k], s.clock) {
      ResolveThenRead(s.rows[k], s.requests[r].phase.outcome, s.clock);
    }
  }

  lemma RowInvSwept(s: State, k: Key)
    requires k in s.rows && RowInv(s, k) && Stale(s.rows[k], s.clock)
    ensures RowInv(Next(s, Sweep), k)
  {
    assert s.rows[k].claim in SweptClaims(s);
  }

  lemma RowInvSpared(s: State, k: Key)
    requires k in s.rows && RowInv(s, k) && !Stale(s.rows[k], s.clock)
    requires s.rows[k].claim !in SweptClaims(s)
    ensures RowInv(Next(s, Sweep), k)
  {
  }

  lemma RowInvSweep(s: State, k: Key)
    requires k in s.rows && forall other | other in s.rows :: RowInv(s, other)
    ensures RowInv(Next(s, Sweep), k)
  {
    assert RowInv(s, k);
    if Stale(s.rows[k], s.clock) {
      RowInvSwept(s, k);
    } else {
      forall other | other in s.rows && Stale(s.rows[other], s.clock)
        ensures s.rows[other].claim != s.rows[k].claim
      {
        assert RowInv(s, other);
      }
      RowInvSpared(s, k);
    }
  }

  lemma RowInvOther(s: State, a: Action, k: Key)
    requires Enabled(s, a) && !a.Mark? && !a.Sweep? && k in Next(s, a).rows
    requires k in s.rows ==> RowInv(s, k)
    requires a.Claim? ==> RequestInv(s, a.r) && s.outcomes.Keys <= s.claims.Keys
    ensures RowInv(Next(s, a), k)
  {
    OtherKeepsHistory(s, a);
  }

  lemma RowInvStep(s: State, a: Action, k: Key)
    requires Inv(s) && Enabled(s, a) && k in Next(s, a).rows
    ensures RowInv(Next(s, a), k)
  {
    assert k in s.rows ==> RowInv(s, k);
    if a.Mark? {
      assert s.requests[a.r].key in s.rows ==> RowInv(s, s.requests[a.r].key);
      RowInvMark(s, a.r, k);
    } else if a.Sweep? {
      RowInvSweep(s, k);
    } else {
      assert a.Claim? ==> RequestInv(s, a.r);
      RowInvOther(s, a, k);
    }
  }

  /** A finished record stays the row as long as it is active: only its claimant could have deleted it. */
  lemma RecordInvStep(s: State, a: Action, k: Key, record: Record)
    requires Enabled(s, a) && RecordInv(s, k, record) && HistoryKept(s, Next(s, a))
    requires a.DeleteRow? ==> RequestInv(s, a.r) && a.r != record.claim
    ensures RecordInv(Next(s, a), k, record)
  {
    StepWritesOnce(s, a);
  }

  lemma CacheWritten(s: State, r: RequestId)
    requires Enabled(s, WriteCache(r)) && RequestInv(s, r) && OnTime(s.requests[r].phase, s.clock)
    requires HistoryKept(s, Next(s, WriteCache(r)))
    ensures CacheInv(Next(s, WriteCache(r)), s.requests[r].key)
  {
    RecordInvStep(s, WriteCache(r), s.requests[r].key, s.requests[r].phase.record);
  }

  lemma CacheUntouched(s: State, a: Action, k: Key)
    requires Enabled(s, a) && HistoryKept(s, Next(s, a)) && k in s.cache && CacheInv(s, k)
    requires a.WriteCache? ==> s.requests[a.r].key != k
    requires k in Next(s, a).cache
    requires a.DeleteRow? ==> RequestInv(s, a.r)
    ensures CacheInv(Next(s, a), k)
  {
    RecordInvStep(s, a, k, s.cache[k].value);
  }

  lemma CacheInvStep(s: State, a: Action, k: Key)
    requires Inv(s) && Enabled(s, a) && Timely(s) && k in Next(s, a).cache
    ensures CacheInv(Next(s, a), k)
  {
    StepKeepsHistory(s, a);
    if a.WriteCache? && s.requests[a.r].key == k {
      assert RequestInv(s, a.r) && OnTime(s.requests[a.r].phase, s.clock);
      CacheWritten(s, a.r);
    } else {
      assert CacheInv(s, k);
      assert a.DeleteRow? ==> RequestInv(s, a.r);
      CacheUntouched(s, a, k);
    }
  }

  /** The claimant of a row is the one request in flight for its key. */
  lemma OneInFlight(s: State, r1: RequestId, r2: RequestId)
    requires r1 in s.requests && r2 in s.requests && RequestInv(s, r1) && RequestInv(s, r2)
    requires InFlight(s.requests[r1].phase) && InFlight(s.requests[r2].phase)
    requires s.requests[r1].key == s.requests[r2].key
    ensures r1 == r2
  {
  }

  /** What a request may rely on while another action happens. */
  ghost predicate Undisturbed(s: State, a: Action, r: RequestId) {
    && Enabled(s, a) && HistoryKept(s, Next(s, a)) && s.settled <= s.rows.Keys
    && r in s.requests && RequestInv(s, r) && OnTime(s.requests[r].phase, s.clock)
    && (Moves(a) ==> a.r != r && RequestInv(s, a.r))
    && (a.Crash? ==> a.r != r)
  }

  /** The only outcome somebody else can record for a claim is the sweep's. */
  lemma ForeignOutcome(s: State, a: Action, c: nat)
    requires Enabled(s, a) && (a.Mark? ==> a.r != c && RequestInv(s, a.r))
    requires c !in s.outcomes && c in OutcomesAfter(s, a)
    ensures OutcomesAfter(s, a)[c] == Error(TIMED_OUT)
  {
  }

  lemma InFlightInvStep(s: State, a: Action, r: RequestId)
    requires Undisturbed(s, a, r) && InFlight(s.requests[r].phase)
    ensures r in Next(s, a).requests && RequestInv(Next(s, a), r)
  {
    StepWritesOnce(s, a);
    if (a.HandlerEnds? || a.DeleteRow?) && s.requests[a.r].key == s.requests[r].key {
      OneInFlight(s, a.r, r);
    }
    if r !in s.outcomes && r in OutcomesAfter(s, a) {
      ForeignOutcome(s, a, r);
    }
  }

  lemma BystanderInvStep(s: State, a: Action, r: RequestId)
    requires Undisturbed(s, a, r)
    ensures r in Next(s, a).requests && RequestInv(Next(s, a), r)
  {
    var q := s.requests[r];
    if InFlight(q.phase) {
      InFlightInvStep(s, a, r);
    } else if q.phase.Caching? {
      RecordInvStep(s, a, q.key, q.phase.record);
    } else if r !in s.outcomes && r in OutcomesAfter(s, a) {
      ForeignOutcome(s, a, r);
    }
  }

  /** An answer read off the row or off the cache speaks of the claim it was read from. */
  lemma AnswerInvStep(s: State, q: Request, record: Record)
    requires record.claim in s.claims && s.claims[record.claim] == (q.key, record.hash)
    requires record.status != InProgress ==>
               record.claim in s.outcomes && s.outcomes[record.claim] == OutcomeOf(record)
    ensures AnswerInv(s, q, Reply(record, q.hash))
  {
  }

  lemma LookInvStep(s: State, a: Action)
    requires Inv(s) && Enabled(s, a) && (a.ReadCache? || a.ReadTable?)
    ensures RequestInv(Next(s, a), a.r)
  {
    var q := s.requests[a.r];
    StepKeepsHistory(s, a);
    assert RequestInv(s, a.r);
    var record := if a.ReadCache? then Get(s.cache, q.key, s.clock) else FindActive(s.rows, q.key, s.clock);
    if record.Some? {
      assert if a.ReadCache? then CacheInv(s, q.key) else RowInv(s, q.key);
      AnswerInvStep(s, q, record.value);
    }
  }

  lemma MarkInvStep(s: State, r: RequestId)
    requires Inv(s) && Enabled(s, Mark(r)) && Timely(s)
    ensures RequestInv(Next(s, Mark(r)), r)
  {
    var q := s.requests[r];
    StepKeepsHistory(s, Mark(r));
    assert RequestInv(s, r) && OnTime(q.phase, s.clock);
    assert RowInv(s, q.key);
    if Settles(s, r) {
      ResolveThenRead(s.rows[q.key], q.phase.outcome, s.clock);
    }
  }

  lemma PlainMoveInvStep(s: State, a: Action)
    requires Enabled(s, a) && (a.Claim? || a.HandlerEnds? || a.DeleteRow? || a.WriteCache? || a.DropCache?)
    requires HistoryKept(s, Next(s, a)) && s.outcomes.Keys <= s.claims.Keys
    requires RequestInv(s, a.r) && OnTime(s.requests[a.r].phase, s.clock)
    requires s.requests[a.r].key in s.settled ==> s.requests[a.r].key in s.rows
    ensures RequestInv(Next(s, a), a.r)
  {
  }

  lemma MoverInvStep(s: State, a: Action)
    requires Inv(s) && Enabled(s, a) && Timely(s) && Moves(a)
    ensures RequestInv(Next(s, a), a.r)
  {
    if a.ReadCache? || a.ReadTable? {
      LookInvStep(s, a);
    } else if a.Mark? {
      MarkInvStep(s, a.r);
    } else {
      StepKeepsHistory(s, a);
      assert RequestInv(s, a.r) && OnTime(s.requests[a.r].phase, s.clock);
      PlainMoveInvStep(s, a);
    }
  }

  lemma RequestInvStep(s: State, a: Action, r: RequestId)
    requires Inv(s) && Enabled(s, a) && Timely(s) && r in Next(s, a).requests
    ensures RequestInv(Next(s, a), r)
  {
    StepKeepsHistory(s, a);
    if Moves(a) && a.r == r {
      MoverInvStep(s, a);
    } else if r in s.requests {
      assert RequestInv(s, r) && OnTime(s.requests[r].phase, s.clock);
      if Moves(a) {
        assert RequestInv(s, a.r);
      }
      BystanderInvStep(s, a, r);
    } else {
      assert r == s.arrivals;
    }
  }

  lemma LedgerInvStep(s: State, a: Action, k: Key)
    requires Enabled(s, a) && LedgerInv(s, k)
    ensures LedgerInv(Next(s, a), k)
  {
  }

  lemma SettledKeysStep(s: State, a: Action)
    requires Enabled(s, a) && s.settled <= s.rows.Keys
    requires a.HandlerEnds? ==> RequestInv(s, a.r)
    ensures SettledAfter(s, a) <= RowsAfter(s, a).Keys
  {
  }

  lemma ClaimsStep(s: State, a: Action)
    requires Enabled(s, a) && (a.Claim? ==> RequestInv(s, a.r))
    requires forall c | c in s.claims :: c < s.arrivals
    ensures forall c | c in ClaimsAfter(s, a) :: c < Next(s, a).arrivals
  {
  }

  lemma OutcomesStep(s: State, a: Action)
    requires Enabled(s, a) && s.outcomes.Keys <= s.claims.Keys
    requires forall k | k in s.rows :: RowInv(s, k)
    ensures OutcomesAfter(s, a).Keys <= ClaimsAfter(s, a).Keys
  {
    if a.Mark? {
      assert s.requests[a.r].key in s.rows ==> RowInv(s, s.requests[a.r].key);
    } else if a.Sweep? {
      forall c | c in SweptClaims(s)
        ensures c in s.claims
      {
        var k :| k in s.rows && Stale(s.rows[k], s.clock) && s.rows[k].claim == c;
        assert RowInv(s, k);
      }
    }
  }

  lemma InvStep(s: State, a: Action)
    requires Inv(s) && Enabled(s, a) && Timely(s)
    ensures Inv(Next(s, a))
  {
    forall k | k in Next(s, a).rows
      ensures RowInv(Next(s, a), k)
    {
      RowInvStep(s, a, k);
    }
    forall k | k in Next(s, a).cache
      ensures CacheInv(Next(s, a), k)
    {
      CacheInvStep(s, a, k);
    }
    forall r | r in Next(s, a).requests
      ensures RequestInv(Next(s, a), r)
    {
      RequestInvStep(s, a, r);
    }
    forall k: Key
      ensures LedgerInv(Next(s, a), k)
    {
      LedgerInvStep(s, a, k);
    }
    assert a.HandlerEnds? || a.Claim? ==> RequestInv(s, a.r);
    SettledKeysStep(s, a);
    ClaimsStep(s, a);
    OutcomesStep(s, a);
  }

  // ---- Runs ----

  ghost predicate TimelyRun(s: State, run: seq<Action>)
    decreases |run|
  {
    Timely(s) && (run == [] || (Enabled(s, run[0]) && TimelyRun(Next(s, run[0]), run[1..])))
  }

  ghost function After(s: State, run: seq<Action>): State
    requires TimelyRun(s, run)
    decreases |run|
  {
    if run == [] then s else After(Next(s, run[0]), run[1..])
  }

  lemma {:induction false} InvRun(s: State, run: seq<Action>)
    requires Inv(s) && TimelyRun(s, run)
    ensures Inv(After(s, run)) && Timely(After(s, run))
    decreases |run|
  {
    if run != [] {
      InvStep(s, run[0]);
      InvRun(Next(s, run[0]), run[1..]);
    }
  }

  // ---- Main results ----

  /**
   At most one execution. For every key, at most one handler is in flight; while the key is settled,
   none runs and every claim is refused; and every handler start but the one whose row still stands
   is paid for by the claimant's own retryable failure or by the deletion of an expired row.
   */
  lemma AtMostOneExecution(clock: int, run: seq<Action>, k: Key)
    requires TimelyRun(Initial(clock), run)
    ensures
      var s := After(Initial(clock), run);
      && (forall r1, r2 | r1 in s.requests && r2 in s.requests && s.requests[r1].phase.Running?
            && s.requests[r2].phase.Running? && s.requests[r1].key == k == s.requests[r2].key :: r1 == r2)
      && (k in s.settled ==>
            && k in s.rows
            && forall r | r in s.requests && s.requests[r].key == k :: !s.requests[r].phase.Running?)
      && Count(s.starts, k) == Count(s.cancels, k) + Count(s.expiries, k) + (if k in s.rows then 1 else 0)
  {
    InvRun(Initial(clock), run);
    var s := After(Initial(clock), run);
    assert LedgerInv(s, k);
    forall r1, r2 | r1 in s.requests && r2 in s.requests && s.requests[r1].phase.Running?
      && s.requests[r2].phase.Running? && s.requests[r1].key == k == s.requests[r2].key
      ensures r1 == r2
    {
      assert RequestInv(s, r1) && RequestInv(s, r2);
      OneInFlight(s, r1, r2);
    }
    if k in s.settled {
      forall r | r in s.requests && s.requests[r].key == k
        ensures !s.requests[r].phase.Running?
      {
        assert RequestInv(s, r);
      }
    }
  }

  lemma UnsettledByExpiry(s: State, a: Action, k: Key)
    requires Enabled(s, a) && k in s.settled && k in s.rows
    requires a.DeleteRow? ==> RequestInv(s, a.r)
    ensures k !in SettledAfter(s, a) ==> a.DeleteExpired? && s.rows[k].expiresAt < s.clock
  {
  }

  /** Once settled, a key stays settled, and its row stays, until the daily delete removes the expired row. */
  lemma {:induction false} SettledUntilExpiry(clock: int, run: seq<Action>, s: State, a: Action, k: Key)
    requires TimelyRun(Initial(clock), run) && s == After(Initial(clock), run)
    requires Enabled(s, a) && k in s.settled
    ensures k in s.rows && (k !in Next(s, a).settled ==> a.DeleteExpired? && s.rows[k].expiresAt < s.clock)
  {
    InvRun(Initial(clock), run);
    assert a.DeleteRow? ==> RequestInv(s, a.r);
    UnsettledByExpiry(s, a, k);
  }

  /**
   Write-once records. In every reachable state the row obeys the status/response/error shape, and a
   step either removes it or keeps its hash, creation and expiry, and everything once it is terminal.
   */
  lemma WriteOnce(clock: int, run: seq<Action>, a: Action, k: Key)
    requires TimelyRun(Initial(clock), run) && Enabled(After(Initial(clock), run), a)
    requires k in After(Initial(clock), run).rows
    ensures
      var s := After(Initial(clock), run);
      Shape(s.rows[k]) && (k in Next(s, a).rows ==> SameLife(s.rows[k], Next(s, a).rows[k]))
  {
    InvRun(Initial(clock), run);
    assert RowInv(After(Initial(clock), run), k);
    StepWritesOnce(After(Initial(clock), run), a);
  }

  /**
   Replay agreement. All replays of one claim carry the same outcome, the one first recorded, and go
   only to requests for the same key with the claimant's hash; other hashes get a 400.
   */
  lemma ReplaysAgree(clock: int, run: seq<Action>, r1: RequestId, r2: RequestId)
    requires TimelyRun(Initial(clock), run)
    ensures
      var s := After(Initial(clock), run);
      r1 in s.requests && s.requests[r1].phase.Answered? && s.requests[r1].phase.answer.Replayed? ==>
        var p1 := s.requests[r1].phase.answer;
        && p1.claim in s.claims && s.claims[p1.claim] == (s.requests[r1].key, s.requests[r1].hash)
        && p1.claim in s.outcomes && s.outcomes[p1.claim] == p1.outcome
        && (r2 in s.requests && s.requests[r2].phase.Answered? ==>
              match s.requests[r2].phase.answer
              case Replayed(o, c) =>
                c == p1.claim ==>
                  && o == p1.outcome
                  && s.requests[r2].hash == s.requests[r1].hash && s.requests[r2].key == s.requests[r1].key
              case PayloadMismatch(c) => c == p1.claim ==> s.requests[r2].hash != s.requests[r1].hash
              case _ => true)
  {
    InvRun(Initial(clock), run);
    var s := After(Initial(clock), run);
    assert r1 in s.requests ==> RequestInv(s, r1);
    assert r2 in s.requests ==> RequestInv(s, r2);
  }

  /**
   How far the claimant and the replays agree. Whoever replays the claim of a request that ran to an end
   either gets the sweep's time-out, or what is recorded of that request's own result: a response as it
   was, an error with the same message, code and category. The status told is the same iff the result was
   a response, or an error of a kind that is told as 500 in any case: a recorded 4xx is replayed as a 500.
   */
  lemma ClaimantAgrees(clock: int, run: seq<Action>, claimant: RequestId, r: RequestId)
    requires TimelyRun(Initial(clock), run)
    ensures
      var s := After(Initial(clock), run);
      claimant in s.requests && r in s.requests
      && s.requests[claimant].phase.Answered? && s.requests[claimant].phase.answer.Executed?
      && s.requests[r].phase.Answered? && s.requests[r].phase.answer.Replayed?
      && s.requests[r].phase.answer.claim == claimant ==>
        var result, o := s.requests[claimant].phase.answer.result, s.requests[r].phase.answer.outcome;
        || o == Error(TIMED_OUT)
        || (Reproduces(result, o)
            && (SameStatus(TellReplay(o), TellResult(result)) <==> result.Returned? || AlwaysToldAs500(result.error)))
  {
    InvRun(Initial(clock), run);
    var s := After(Initial(clock), run);
    assert claimant in s.requests ==> RequestInv(s, claimant);
    assert r in s.requests ==> RequestInv(s, r);
    if claimant in s.requests && s.requests[claimant].phase.Answered? && s.requests[claimant].phase.answer.Executed? {
      ToldAlikeIff(s.requests[claimant].phase.answer.result, s.requests[claimant].phase.answer.outcome);
    }
  }

  /**
   Bounded staleness. Whatever the cache answers is what the table would answer at that instant, or
   a finished record that expired less than a second ago.
   */
  lemma CacheStaleness(clock: int, run: seq<Action>, k: Key)
    requires TimelyRun(Initial(clock), run)
    ensures
      var s := After(Initial(clock), run);
      var hit := Get(s.cache, k, s.clock);
      hit.Some? ==>
        || FindActive(s.rows, k, s.clock) == hit
        || (Terminal(hit.value) && hit.value.expiresAt <= s.clock < hit.value.expiresAt + 1000)
  {
    InvRun(Initial(clock), run);
    var s := After(Initial(clock), run);
    assert k in s.cache ==> CacheInv(s, k);
  }

  /**
   The staleness bound rests on writing the cache in time. A record written at `now` leaves the
   cache less than a second after its expiry exactly when it is written before its expiry; written
   later it gets a TTL of 0, and is never evicted at all.
   */
  lemma CacheExpiryIffWrittenInTime(record: Record, now: int)
    ensures
      var until := Expiry(now, RemainingTtl(record.expiresAt, now));
      && (until.Some? <==> now < record.expiresAt)
      && (until.Some? ==> record.expiresAt <= until.value < record.expiresAt + 1000)
      && (until.None? ==> forall cache: map<Key, Entry<Record>>, k: Key, later: int ::
            Get(Put(cache, k, record, RemainingTtl(record.expiresAt, now), now), k, later) == Some(record))
  {
  }
}
