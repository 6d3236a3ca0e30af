/**
 The Redis-only idempotency strategy: the same protocol on SET NX, with a 300-second TTL while the
 handler runs. Requests interleave at every await and may crash anywhere.

 Assumed of a run: Redis calls do not fail, responses are not null, and a claimant has written or
 deleted its record within 300 seconds of claiming it.
 */
module RedisStrategy {
  import opened Optional
  import opened RedisStore
  import opened IdempotencyErrors
  import opened IdempotencyRepository
  import opened IdempotencyRegister
  import D = DurableStrategy

  const IP_TTL_SECONDS: nat := 300

  datatype RedisRecord = RedisRecord(
    hash: Hash, status: Status, response: Option<string>, error: Option<ErrorRecord>, claim: nat)

  datatype Phase =
    | Looking(second: bool)
    | Creating
    | Running(until: int)
    | Marking(until: int, outcome: Outcome, result: D.HandlerResult)
    | Deleting(until: int)
    | Answered(answer: D.Answer)

  datatype Request = Request(key: Key, hash: Hash, ttlSeconds: nat, phase: Phase)

  datatype State = State(
    clock: int,
    store: map<Key, Entry<RedisRecord>>,
    requests: map<nat, Request>,
    arrivals: nat)

  datatype Action =
    | Arrive(key: Key, hash: Hash, ttlSeconds: nat)
    | Look(r: nat)
    | Create(r: nat)
    | HandlerEnds(r: nat, result: D.HandlerResult)
    | Mark(r: nat)
    | Delete(r: nat)
    | Crash(r: nat)
    | Tick(ms: nat)

  function Pending(hash: Hash, claim: nat): RedisRecord {
    RedisRecord(hash, InProgress, None, None, claim)
  }

  function Finished(hash: Hash, o: Outcome, claim: nat): RedisRecord {
    match o
    case Response(v) => RedisRecord(hash, Completed, Some(v), None, claim)
    case Error(e) => RedisRecord(hash, Failed, None, Some(e), claim)
  }

  function OutcomeIn(r: RedisRecord): Outcome {
    if r.status == Failed then Error(if r.error.Some? then r.error.value else NULL_ERROR)
    else Response(if r.response.Some? then r.response.value else "null")
  }

  function Reply(record: RedisRecord, hash: Hash): D.Answer {
    if record.hash != hash then D.PayloadMismatch(record.claim)
    else if record.status == InProgress then D.AlreadyProcessing
    else D.Replayed(OutcomeIn(record), record.claim)
  }

  predicate InFlight(p: Phase) {
    p.Running? || p.Marking? || p.Deleting?
  }

  predicate Enabled(s: State, a: Action) {
    match a
    case Arrive(_, _, _) => true
    case Look(r) => r in s.requests && s.requests[r].phase.Looking?
    case Create(r) => r in s.requests && s.requests[r].phase.Creating?
    case HandlerEnds(r, _) => r in s.requests && s.requests[r].phase.Running?
    case Mark(r) => r in s.requests && s.requests[r].phase.Marking?
    case Delete(r) => r in s.requests && s.requests[r].phase.Deleting?
    case Crash(r) => r in s.requests
    case Tick(_) => true
  }

  predicate Moves(a: Action) {
    !(a.Arrive? || a.Crash? || a.Tick?)
  }

  predicate Wins(s: State, r: nat)
    requires r in s.requests
  {
    Get(s.store, s.requests[r].key, s.clock).None?
  }

  function StoreAfter(s: State, a: Action): map<Key, Entry<RedisRecord>>
    requires Enabled(s, a)
  {
    match a
    case Create(r) =>
      PutIfAbsent(s.store, s.requests[r].key, Pending(s.requests[r].hash, r), IP_TTL_SECONDS, s.clock)
    case Mark(r) =>
      var q := s.requests[r];
      Put(s.store, q.key, Finished(q.hash, q.phase.outcome, r), q.ttlSeconds, s.clock)
    case Delete(r) => s.store - {s.requests[r].key}
    case _ => s.store
  }

  function PhaseAfter(s: State, a: Action): Phase
    requires Moves(a) && Enabled(s, a)
  {
    var q := s.requests[a.r];
    match a
    case Look(_) =>
      var hit := Get(s.store, q.key, s.clock);
      if hit.Some? then Answered(Reply(hit.value, q.hash))
      else if q.phase.second then Answered(D.RecordNotFound)
      else Creating
    case Create(_) => if Wins(s, a.r) then Phase.Running(s.clock + 1000 * IP_TTL_SECONDS) else Looking(true)
    case HandlerEnds(_, result) =>
      var outcome := D.HandlerOutcome(result);
      if outcome.Some? then Marking(q.phase.until, outcome.value, result) else Deleting(q.phase.until)
    case Mark(_) => Answered(D.Executed(q.phase.outcome, q.phase.result))
    case Delete(_) => Answered(D.Rethrown)
  }

  function RequestsAfter(s: State, a: Action): map<nat, Request>
    requires Enabled(s, a)
  {
    match a
    case Arrive(k, hash, ttl) => s.requests[s.arrivals := Request(k, hash, ttl, Looking(false))]
    case Crash(r) => s.requests - {r}
    case Tick(_) => s.requests
    case _ => s.requests[a.r := s.requests[a.r].(phase := PhaseAfter(s, a))]
  }

  function Next(s: State, a: Action): State
    requires Enabled(s, a)
  {
    State(
      if a.Tick? then s.clock + a.ms else s.clock,
      StoreAfter(s, a), RequestsAfter(s, a),
      if a.Arrive? then s.arrivals + 1 else s.arrivals)
  }

  function Initial(clock: int): State {
    State(clock, map[], map[], 0)
  }

  /** A step of one request, or its end, leaves the others as they were; a crash leaves the store as well. */
  lemma OtherRequestsStay(s: State, a: Action, r: nat)
    requires Enabled(s, a) && r in s.requests && r < s.arrivals && (a.Arrive? || a.Tick? || a.r != r)
    ensures r in Next(s, a).requests && Next(s, a).requests[r] == s.requests[r]
    ensures a.Crash? ==> Next(s, a) == s.(requests := s.requests - {a.r})
  {
  }

  // ---- The invariant ----

  predicate OnTime(p: Phase, now: int) {
    match p
    case Running(until) => now < until
    case Marking(until, _, _) => now < until
    case Deleting(until) => now < until
    case _ => true
  }

  function Until(p: Phase): int
    requires InFlight(p)
  {
    match p
    case Running(until) => until
    case Marking(until, _, _) => until
    case Deleting(until) => until
  }

  ghost predicate Timely(s: State) {
    forall r | r in s.requests :: OnTime(s.requests[r].phase, s.clock)
  }

  /** The key of a request in flight holds exactly that request's own pending record. */
  ghost predicate RequestInv(s: State, r: nat)
    requires r in s.requests
  {
    var q := s.requests[r];
    && r < s.arrivals
    && (InFlight(q.phase) ==>
          q.key in s.store && s.store[q.key] == Entry(Pending(q.hash, r), Some(Until(q.phase))))
  }

  ghost predicate Inv(s: State) {
    forall r | r in s.requests :: RequestInv(s, r)
  }

  lemma OneInFlight(s: State, r1: nat, r2: nat)
    requires r1 in s.requests && r2 in s.requests && RequestInv(s, r1) && RequestInv(s, r2)
    requires InFlight(s.requests[r1].phase) && InFlight(s.requests[r2].phase)
    requires s.requests[r1].key == s.requests[r2].key
    ensures r1 == r2
  {
  }

  lemma RequestInvStep(s: State, a: Action, r: nat)
    requires Enabled(s, a) && r in Next(s, a).requests
    requires r in s.requests ==> RequestInv(s, r) && OnTime(s.requests[r].phase, s.clock)
    requires Moves(a) ==> RequestInv(s, a.r)
    ensures RequestInv(Next(s, a), r)
  {
    if r in s.requests && InFlight(s.requests[r].phase) && (a.Mark? || a.Delete?) {
      if s.requests[a.r].key == s.requests[r].key {
        OneInFlight(s, a.r, r);
      }
    }
  }

  lemma InvStep(s: State, a: Action)
    requires Inv(s) && Enabled(s, a) && Timely(s)
    ensures Inv(Next(s, a))
  {
    if Moves(a) {
      assert RequestInv(s, a.r);
    }
    forall r | r in Next(s, a).requests
      ensures RequestInv(Next(s, a), r)
    {
      assert r in s.requests ==> RequestInv(s, r) && OnTime(s.requests[r].phase, s.clock);
      RequestInvStep(s, a, r);
    }
  }

  ghost predicate TimelyRun(s: State, run: seq<Action>)
    decreases |run|
  {
    Timely(s) && (run == [] || (Enabled(s, run[0]) && TimelyRun(Next(s, run[0]), run[1..])))
  }

  ghost function After(s: State, run: seq<Action>): State
    requires TimelyRun(s, run)
    decreases |run|
  {
    if run == [] then s else After(Next(s, run[0]), run[1..])
  }

  // ---- Refinement of the register ----

  function RegisterOf(s: State, k: Key): Register {
    if Get(s.store, k, s.clock).None? then Register.Free
    else
      var e := s.store[k];
      if e.value.status == InProgress then Register.Running(e.value.hash, e.until)
      else Register.Done(e.value.hash, OutcomeIn(e.value), e.until)
  }

  function Abs(s: State, k: Key): Cell {
    Cell(RegisterOf(s, k), None)
  }

  function SeenReply(p: Phase, hash: Hash): Op {
    if p.Answered? && ReplyOf(p.answer).Some? then Answer(hash, ReplyOf(p.answer).value) else Silent
  }

  /** What a request for the key itself does to the register. */
  function SeenOwn(s: State, a: Action, k: Key): Op
    requires Moves(a) && Enabled(s, a) && s.requests[a.r].key == k
  {
    var q := s.requests[a.r];
    match a
    case Create(r) => if Wins(s, r) then Begin(q.hash, s.clock, Expiry(s.clock, IP_TTL_SECONDS)) else Silent
    case Mark(_) => Settle(q.phase.outcome, Expiry(s.clock, q.ttlSeconds))
    case Delete(_) => Cancel
    case Look(_) => SeenReply(PhaseAfter(s, a), q.hash)
    case _ => Silent
  }

  /** The register operation that key k sees when action a happens. */
  function Seen(s: State, a: Action, k: Key): Op
    requires Enabled(s, a)
  {
    match a
    case Tick(ms) =>
      if Get(s.store, k, s.clock).Some? && Get(s.store, k, s.clock + ms).None?
      then Elapse(s.clock + ms, false) else Silent
    case Arrive(_, _, _) => Silent
    case Crash(_) => Silent
    case _ => if s.requests[a.r].key == k then SeenOwn(s, a, k) else Silent
  }

  /** One step of the strategy is one step of every key's register, without echoes. */
  lemma RedisStep(s: State, a: Action, k: Key)
    requires Enabled(s, a)
    requires Moves(a) ==> RequestInv(s, a.r) && OnTime(s.requests[a.r].phase, s.clock)
    ensures Step(Abs(s, k), Seen(s, a, k), Abs(Next(s, a), k))
  {
  }

  ghost function Trace(s: State, run: seq<Action>, k: Key): seq<Op>
    requires TimelyRun(s, run)
    decreases |run|
  {
    if run == [] then [] else [Seen(s, run[0], k)] + Trace(Next(s, run[0]), run[1..], k)
  }

  lemma {:induction false} RedisRun(s: State, run: seq<Action>, k: Key)
    requires Inv(s) && TimelyRun(s, run)
    ensures Inv(After(s, run))
    ensures Accepts(Abs(s, k), Trace(s, run, k), Abs(After(s, run), k))
    decreases |run|
  {
    if run != [] {
      assert Moves(run[0]) ==> RequestInv(s, run[0].r) && OnTime(s.requests[run[0].r].phase, s.clock);
      RedisStep(s, run[0], k);
      InvStep(s, run[0]);
      RedisRun(Next(s, run[0]), run[1..], k);
      assert Trace(s, run, k)[1..] == Trace(Next(s, run[0]), run[1..], k);
    }
  }

  /**
   Refinement. In every timely run of the Redis strategy, what the requests for a key are told, in
   order, is a history of the register; and at most one handler per key is in flight.
   */
  lemma RedisRefinesRegister(clock: int, run: seq<Action>, k: Key)
    requires TimelyRun(Initial(clock), run)
    ensures Accepts(BLANK, Trace(Initial(clock), run, k), Abs(After(Initial(clock), run), k))
    ensures
      var s := After(Initial(clock), run);
      forall r1, r2 | r1 in s.requests && r2 in s.requests && s.requests[r1].phase.Running?
        && s.requests[r2].phase.Running? && s.requests[r1].key == k == s.requests[r2].key :: r1 == r2
  {
    RedisRun(Initial(clock), run, k);
    var s := After(Initial(clock), run);
    forall r1, r2 | r1 in s.requests && r2 in s.requests && s.requests[r1].phase.Running?
      && s.requests[r2].phase.Running? && s.requests[r1].key == k == s.requests[r2].key
      ensures r1 == r2
    {
      assert RequestInv(s, r1) && RequestInv(s, r2);
      OneInFlight(s, r1, r2);
    }
  }

  ghost function StateAt(s: State, run: seq<Action>, i: nat): State
    requires TimelyRun(s, run) && i <= |run|
    ensures i < |run| ==> Enabled(StateAt(s, run, i), run[i])
    decreases |run|
  {
    if i == 0 then s else StateAt(Next(s, run[0]), run[1..], i - 1)
  }

  lemma {:induction false} TraceAt(s: State, run: seq<Action>, k: Key, i: nat)
    requires TimelyRun(s, run) && i < |run|
    ensures |Trace(s, run, k)| == |run|
    ensures Trace(s, run, k)[i] == Seen(StateAt(s, run, i), run[i], k)
    decreases |run|
  {
    if |run| > 1 {
      TraceAt(Next(s, run[0]), run[1..], k, if i == 0 then 0 else i - 1);
    }
  }

  /** Step `i` of the run is a SET NX that succeeded, and so runs the handler. */
  ghost predicate Executes(s: State, run: seq<Action>, i: nat, k: Key)
    requires TimelyRun(s, run) && i < |run|
  {
    var si := StateAt(s, run, i);
    run[i].Create? && si.requests[run[i].r].key == k && Wins(si, run[i].r)
  }

  /**
   So two executions for one key are always separated by the first claimant deleting its record after
   a retryable failure, or by the record reaching the end of its TTL.
   */
  lemma RedisExecutionsAreApart(clock: int, run: seq<Action>, k: Key, i: nat, j: nat) returns (m: nat)
    requires TimelyRun(Initial(clock), run) && i < j < |run|
    requires Executes(Initial(clock), run, i, k) && Executes(Initial(clock), run, j, k)
    ensures i < m < j
    ensures
      var sm := StateAt(Initial(clock), run, m);
      || (run[m].Delete? && sm.requests[run[m].r].key == k)
      || (run[m].Tick? && Get(sm.store, k, sm.clock).Some? && Get(sm.store, k, sm.clock + run[m].ms).None?)
  {
    var s := Initial(clock);
    RedisRun(s, run, k);
    TraceAt(s, run, k, i);
    TraceAt(s, run, k, j);
    m := RunsAreApart(BLANK, Trace(s, run, k), Abs(After(s, run), k), i, j);
    TraceAt(s, run, k, m);
  }
}
