/**
 The durable strategy implements the register: every step is a step of the register of each key,
 with the same answers. The five-minute sweep settles a run that is still going with a time-out;
 the claimant still gets its own result, and everybody after it the time-out.
 */
module DurableRefinement {
  import opened Optional
  import opened RedisStore
  import opened IdempotencyErrors
  import opened IdempotencyRepository
  import opened IdempotencyRegister
  import D = DurableStrategy
  import S = DurableSafety

  function RegisterOf(s: D.State, k: Key): Register {
    if k !in s.rows then Free
    else if !Active(s.rows[k], s.clock) then Lapsed
    else if s.rows[k].status == InProgress then Running(s.rows[k].hash, Some(s.rows[k].expiresAt))
    else Done(s.rows[k].hash, OutcomeOf(s.rows[k]), Some(s.rows[k].expiresAt))
  }

  function EchoOf(s: D.State, k: Key): Option<(Hash, Outcome)> {
    var hit := Get(s.cache, k, s.clock);
    if hit.Some? && !Active(hit.value, s.clock) then Some((hit.value.hash, OutcomeOf(hit.value))) else None
  }

  function Abs(s: D.State, k: Key): Cell {
    Cell(RegisterOf(s, k), EchoOf(s, k))
  }

  function SeenReply(p: D.Phase, hash: Hash): Op {
    if p.Answered? && ReplyOf(p.answer).Some? then Answer(hash, ReplyOf(p.answer).value) else Silent
  }

  /** What a request for the key itself does to the register. */
  function SeenOwn(s: D.State, a: D.Action, k: Key): Op
    requires D.Moves(a) && D.Enabled(s, a) && s.requests[a.r].key == k
  {
    var q := s.requests[a.r];
    match a
    case Claim(r) => if D.Wins(s, r) then Begin(q.hash, s.clock, Some(s.clock + 1000 * q.ttlSeconds)) else Silent
    case Mark(r) => if D.Settles(s, r) then Settle(q.phase.outcome, Some(s.rows[k].expiresAt)) else Silent
    case DeleteRow(_) => if RegisterOf(s, k).Lapsed? then Purge else Cancel
    case ReadCache(_) => SeenReply(D.PhaseAfter(s, a), q.hash)
    case ReadTable(_) => SeenReply(D.PhaseAfter(s, a), q.hash)
    case _ => Silent
  }

  /** The register operation that key k sees when action a happens. */
  function Seen(s: D.State, a: D.Action, k: Key): Op
    requires D.Enabled(s, a)
  {
    match a
    case Tick(ms) =>
      if k in s.rows && Active(s.rows[k], s.clock) && !Active(s.rows[k], s.clock + ms)
      then Elapse(s.clock + ms, true) else Silent
    case Sweep =>
      if RegisterOf(s, k).Running? && Stale(s.rows[k], s.clock)
      then Settle(Error(TIMED_OUT), Some(s.rows[k].expiresAt)) else Silent
    case DeleteExpired => if k in D.ExpiredKeys(s) then Purge else Silent
    case Arrive(_, _, _) => Silent
    case Crash(_) => Silent
    case _ => if s.requests[a.r].key == k then SeenOwn(s, a, k) else Silent
  }

  /** A record that a cache or table lookup found is what the register, or its echo, holds. */
  lemma AnswerJustified(s: D.State, k: Key, record: Record, hash: Hash)
    requires (FindActive(s.rows, k, s.clock) == Some(record) && S.RowInv(s, k))
             || (Get(s.cache, k, s.clock) == Some(record) && S.CacheInv(s, k))
    ensures ReplyOf(D.Reply(record, hash)).Some?
    ensures Justified(Abs(s, k), hash, ReplyOf(D.Reply(record, hash)).value)
  {
  }

  lemma CacheLookupStep(s: D.State, a: D.Action, k: Key)
    requires a.ReadCache? && D.Enabled(s, a) && (k in s.cache ==> S.CacheInv(s, k))
    ensures Step(Abs(s, k), Seen(s, a, k), Abs(D.Next(s, a), k))
  {
    var hit := Get(s.cache, k, s.clock);
    if hit.Some? {
      AnswerJustified(s, k, hit.value, s.requests[a.r].hash);
    }
  }

  lemma TableLookupStep(s: D.State, a: D.Action, k: Key)
    requires a.ReadTable? && D.Enabled(s, a) && (k in s.rows ==> S.RowInv(s, k))
    ensures Step(Abs(s, k), Seen(s, a, k), Abs(D.Next(s, a), k))
  {
    var found := FindActive(s.rows, k, s.clock);
    if found.Some? {
      AnswerJustified(s, k, found.value, s.requests[a.r].hash);
    }
  }

  lemma TickStep(s: D.State, ms: nat, k: Key)
    requires k in s.cache ==> S.CacheInv(s, k)
    ensures Step(Abs(s, k), Seen(s, D.Tick(ms), k), Abs(D.Next(s, D.Tick(ms)), k))
  {
  }

  lemma SweepStep(s: D.State, k: Key)
    requires k in s.rows ==> S.RowInv(s, k)
    ensures Step(Abs(s, k), Seen(s, D.Sweep, k), Abs(D.Next(s, D.Sweep), k))
  {
  }

  lemma CacheStep(s: D.State, a: D.Action, k: Key)
    requires D.Enabled(s, a) && (a.WriteCache? || a.DropCache?)
    requires S.RequestInv(s, a.r) && S.OnTime(s.requests[a.r].phase, s.clock)
    ensures Step(Abs(s, k), Seen(s, a, k), Abs(D.Next(s, a), k))
  {
  }

  lemma ClaimStep(s: D.State, a: D.Action, k: Key)
    requires a.Claim? && D.Enabled(s, a)
    ensures Step(Abs(s, k), Seen(s, a, k), Abs(D.Next(s, a), k))
  {
  }

  lemma MarkStep(s: D.State, a: D.Action, k: Key)
    requires a.Mark? && D.Enabled(s, a) && (k in s.rows ==> S.RowInv(s, k))
    ensures Step(Abs(s, k), Seen(s, a, k), Abs(D.Next(s, a), k))
  {
    if s.requests[a.r].key == k && D.Settles(s, a.r) {
      ResolveThenRead(s.rows[k], s.requests[a.r].phase.outcome, s.clock);
    }
  }

  lemma DeleteStep(s: D.State, a: D.Action, k: Key)
    requires a.DeleteRow? && D.Enabled(s, a) && S.RequestInv(s, a.r) && (k in s.rows ==> S.RowInv(s, k))
    ensures Step(Abs(s, k), Seen(s, a, k), Abs(D.Next(s, a), k))
  {
  }

  lemma QuietStep(s: D.State, a: D.Action, k: Key)
    requires D.Enabled(s, a) && (a.Arrive? || a.HandlerEnds? || a.Crash? || a.DeleteExpired?)
    ensures Step(Abs(s, k), Seen(s, a, k), Abs(D.Next(s, a), k))
  {
  }

  /** One step of the strategy is one step of every key's register. */
  lemma DurableStep(s: D.State, a: D.Action, k: Key)
    requires S.Inv(s) && S.Timely(s) && D.Enabled(s, a)
    ensures Step(Abs(s, k), Seen(s, a, k), Abs(D.Next(s, a), k))
  {
    match a {
      case ReadCache(_) =>
        assert k in s.cache ==> S.CacheInv(s, k);
        CacheLookupStep(s, a, k);
      case ReadTable(_) =>
        assert k in s.rows ==> S.RowInv(s, k);
        TableLookupStep(s, a, k);
      case Tick(ms) =>
        assert k in s.cache ==> S.CacheInv(s, k);
        TickStep(s, ms, k);
      case Arrive(_, _, _) => QuietStep(s, a, k);
      case HandlerEnds(_, _) => QuietStep(s, a, k);
      case Crash(_) => QuietStep(s, a, k);
      case DeleteExpired => QuietStep(s, a, k);
      case Sweep =>
        assert k in s.rows ==> S.RowInv(s, k);
        SweepStep(s, k);
      case WriteCache(r) =>
        assert S.RequestInv(s, r) && S.OnTime(s.requests[r].phase, s.clock);
        CacheStep(s, a, k);
      case DropCache(r) =>
        assert S.RequestInv(s, r) && S.OnTime(s.requests[r].phase, s.clock);
        CacheStep(s, a, k);
      case Claim(_) => ClaimStep(s, a, k);
      case Mark(_) =>
        assert k in s.rows ==> S.RowInv(s, k);
        MarkStep(s, a, k);
      case DeleteRow(r) =>
        assert S.RequestInv(s, r) && (k in s.rows ==> S.RowInv(s, k));
        DeleteStep(s, a, k);
    }
  }

  ghost function Trace(s: D.State, run: seq<D.Action>, k: Key): seq<Op>
    requires S.TimelyRun(s, run)
    decreases |run|
  {
    if run == [] then [] else [Seen(s, run[0], k)] + Trace(D.Next(s, run[0]), run[1..], k)
  }

  lemma {:induction false} DurableRun(s: D.State, run: seq<D.Action>, k: Key)
    requires S.Inv(s) && S.TimelyRun(s, run)
    ensures Accepts(Abs(s, k), Trace(s, run, k), Abs(S.After(s, run), k))
    decreases |run|
  {
    if run != [] {
      DurableStep(s, run[0], k);
      S.InvStep(s, run[0]);
      DurableRun(D.Next(s, run[0]), run[1..], k);
      assert Trace(s, run, k)[1..] == Trace(D.Next(s, run[0]), run[1..], k);
    }
  }

  /**
   Refinement. In every timely run, sweeps included, what the requests for a key are told, in order,
   is a history of that key's register.
   */
  lemma DurableRefinesRegister(clock: int, run: seq<D.Action>, k: Key)
    requires S.TimelyRun(D.Initial(clock), run)
    ensures Accepts(BLANK, Trace(D.Initial(clock), run, k), Abs(S.After(D.Initial(clock), run), k))
  {
    DurableRun(D.Initial(clock), run, k);
  }

  ghost function StateAt(s: D.State, run: seq<D.Action>, i: nat): D.State
    requires S.TimelyRun(s, run) && i <= |run|
    ensures i < |run| ==> D.Enabled(StateAt(s, run, i), run[i])
    decreases |run|
  {
    if i == 0 then s else StateAt(D.Next(s, run[0]), run[1..], i - 1)
  }

  lemma {:induction false} TraceAt(s: D.State, run: seq<D.Action>, k: Key, i: nat)
    requires S.TimelyRun(s, run) && i < |run|
    ensures |Trace(s, run, k)| == |run|
    ensures Trace(s, run, k)[i] == Seen(StateAt(s, run, i), run[i], k)
    decreases |run|
  {
    if |run| > 1 {
      TraceAt(D.Next(s, run[0]), run[1..], k, if i == 0 then 0 else i - 1);
    }
  }

  /** Step `i` of the run is a claim that won the key, and so runs the handler. */
  ghost predicate Executes(s: D.State, run: seq<D.Action>, i: nat, k: Key)
    requires S.TimelyRun(s, run) && i < |run|
  {
    var si := StateAt(s, run, i);
    run[i].Claim? && si.requests[run[i].r].key == k && D.Wins(si, run[i].r)
  }

  lemma FreedBy(s: D.State, a: D.Action, k: Key)
    requires D.Enabled(s, a) && Frees(Seen(s, a, k))
    ensures (a.DeleteRow? && s.requests[a.r].key == k)
            || (a.DeleteExpired? && k in s.rows && s.rows[k].expiresAt < s.clock)
  {
  }

  /**
   So two executions for one key are always separated by the first claimant deleting its row after a
   retryable failure, or by the daily delete of the row once it had expired.
   */
  lemma DurableExecutionsAreApart(clock: int, run: seq<D.Action>, k: Key, i: nat, j: nat) returns (m: nat)
    requires S.TimelyRun(D.Initial(clock), run) && i < j < |run|
    requires Executes(D.Initial(clock), run, i, k) && Executes(D.Initial(clock), run, j, k)
    ensures i < m < j
    ensures
      var sm := StateAt(D.Initial(clock), run, m);
      || (run[m].DeleteRow? && sm.requests[run[m].r].key == k)
      || (run[m].DeleteExpired? && k in sm.rows && sm.rows[k].expiresAt < sm.clock)
  {
    var s := D.Initial(clock);
    DurableRefinesRegister(clock, run, k);
    TraceAt(s, run, k, i);
    TraceAt(s, run, k, j);
    m := RunsAreApart(BLANK, Trace(s, run, k), Abs(S.After(s, run), k), i, j);
    TraceAt(s, run, k, m);
    FreedBy(StateAt(s, run, m), run[m], k);
  }
}
