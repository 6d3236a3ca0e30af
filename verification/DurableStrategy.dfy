/**
 The durable idempotency strategy as a state machine. Any number of requests interleave at every
 await with the five-minute sweep and the daily delete; requests may crash anywhere.

 Assumed of a run, and of nothing else: statements and Redis calls do not fail, responses are not
 null, and the run is timely: a request that claimed a row has settled or deleted it by the row's
 expires_at, and writes the record to the cache before that.

 `claims`, `outcomes`, `settled`, `starts`, `cancels` and `expiries` only observe.
 */
module DurableStrategy {
  import opened Optional
  import opened RedisStore
  import opened IdempotencyErrors
  import opened IdempotencyRepository

  type RequestId = nat

  datatype Answer =
    | Executed(outcome: Outcome, result: HandlerResult)   // this request ran the handler, and is told its result
    | Rethrown                                // it ran the handler, which failed in a retryable way
    | Replayed(outcome: Outcome, claim: nat)
    | PayloadMismatch(claim: nat)             // 400
    | AlreadyProcessing                       // 409
    | RecordNotFound                          // 500
    | MissingKey                              // 400: no Idempotency-Key header; touches no key
    | Unavailable                             // 503: Redis could not be read (Redis-only strategy)

  datatype Phase =
    | LookInCache(second: bool)
    | LookInTable(second: bool)
    | Claiming
    | Running(until: int)
    | Marking(until: int, outcome: Outcome, result: HandlerResult)
    | Deleting(until: int)
    | Caching(record: Record, outcome: Outcome, result: HandlerResult)
    | Uncaching
    | Answered(answer: Answer)

  datatype Request = Request(key: Key, hash: Hash, ttlSeconds: int, phase: Phase)

  datatype State = State(
    clock: int,
    rows: Table,
    cache: map<Key, Entry<Record>>,
    requests: map<RequestId, Request>,
    arrivals: nat,
    claims: map<nat, (Key, Hash)>,
    outcomes: map<nat, Outcome>,
    settled: set<Key>,
    starts: map<Key, nat>,
    cancels: map<Key, nat>,
    expiries: map<Key, nat>)

  /** How a handler may end. */
  datatype HandlerResult = Returned(value: string) | Threw(error: Thrown)

  datatype Action =
    | Arrive(key: Key, hash: Hash, ttlSeconds: int)
    | ReadCache(r: RequestId)
    | ReadTable(r: RequestId)
    | Claim(r: RequestId)
    | HandlerEnds(r: RequestId, result: HandlerResult)
    | Mark(r: RequestId)
    | DeleteRow(r: RequestId)
    | WriteCache(r: RequestId)
    | DropCache(r: RequestId)
    | Crash(r: RequestId)
    | Sweep
    | DeleteExpired
    | Tick(ms: nat)

  /** resolveExistingRecord followed by replayRecord. */
  function Reply(record: Record, hash: Hash): Answer {
    if record.hash != hash then PayloadMismatch(record.claim)
    else if record.status == InProgress then AlreadyProcessing
    else Replayed(OutcomeOf(record), record.claim)
  }

  /** Whole seconds left, rounded up; 0 when none are left. */
  function RemainingTtl(expiresAt: int, now: int): nat {
    if expiresAt - now > 0 then (expiresAt - now + 999) / 1000 else 0
  }

  predicate InFlight(p: Phase) {
    p.Running? || p.Marking? || p.Deleting?
  }

  predicate Enabled(s: State, a: Action) {
    match a
    case Arrive(_, _, _) => true
    case ReadCache(r) => r in s.requests && s.requests[r].phase.LookInCache?
    case ReadTable(r) => r in s.requests && s.requests[r].phase.LookInTable?
    case Claim(r) => r in s.requests && s.requests[r].phase.Claiming?
    case HandlerEnds(r, _) => r in s.requests && s.requests[r].phase.Running?
    case Mark(r) => r in s.requests && s.requests[r].phase.Marking?
    case DeleteRow(r) => r in s.requests && s.requests[r].phase.Deleting?
    case WriteCache(r) => r in s.requests && s.requests[r].phase.Caching?
    case DropCache(r) => r in s.requests && s.requests[r].phase.Uncaching?
    case Crash(r) => r in s.requests
    case Sweep => true
    case DeleteExpired => true
    case Tick(_) => true
  }

  function Count(m: map<Key, nat>, k: Key): nat {
    if k in m then m[k] else 0
  }

  function ExpiredKeys(s: State): set<Key> {
    set k | k in s.rows && s.rows[k].expiresAt < s.clock
  }

  function CountAll(m: map<Key, nat>, ks: set<Key>): map<Key, nat> {
    map k | k in m.Keys + ks :: Count(m, k) + if k in ks then 1 else 0
  }

  function SweptClaims(s: State): map<nat, Outcome> {
    map k | k in s.rows && Stale(s.rows[k], s.clock) :: s.rows[k].claim := Error(TIMED_OUT)
  }

  /** Does this claim insert the row, or find it taken? */
  predicate Wins(s: State, r: RequestId)
    requires r in s.requests
  {
    s.requests[r].key !in s.rows
  }

  /** Does this mark find its row still open, or swept or expired? */
  predicate Settles(s: State, r: RequestId)
    requires r in s.requests
  {
    s.requests[r].key in s.rows && Open(s.rows[s.requests[r].key], s.clock)
  }

  /** What is recorded of a result, if anything. */
  function HandlerOutcome(result: HandlerResult): Option<Outcome> {
    match result
    case Returned(v) => Some(Response(v))
    case Threw(e) => if IsDeterministic(StatusOf(e)) then Some(Error(Recorded(e))) else None
  }

  // ---- What clients are told ----

  /** `o` is what is recorded of `result`: a response whole, an error as its message, code and category. */
  ghost predicate Reproduces(result: HandlerResult, o: Outcome) {
    match result
    case Returned(v) => o == Response(v)
    case Threw(e) =>
      && o.Error? && o.payload == Recorded(e)
      && Reconstructed(o.payload).message == e.message && CodeOf(Reconstructed(o.payload)) == CodeOf(e)
      && CategoryOf(Reconstructed(o.payload)) == Some(if CategoryOf(e).Some? then CategoryOf(e).value else Internal)
  }

  /**
   What a client is told: the claimant hears of the error its handler threw, a replay of the error rebuilt
   from the record.
   */
  function TellResult(result: HandlerResult): Told {
    match result
    case Returned(v) => Success(v)
    case Threw(e) => Tell(e)
  }

  function TellReplay(o: Outcome): Told {
    match o
    case Response(v) => Success(v)
    case Error(p) => Tell(Reconstructed(p))
  }

  /** Both succeeded, or both failed with the same status. */
  predicate SameStatus(a: Told, b: Told) {
    (a.Success? && b.Success?) || (a.Failure? && b.Failure? && a.status == b.status)
  }

  /** The kinds of error that the API answers with 500 whatever their own status. */
  predicate AlwaysToldAs500(e: Thrown) {
    e.Infrastructure? || e.Plain?
  }

  lemma ToldAlikeIff(result: HandlerResult, o: Outcome)
    requires HandlerOutcome(result) == Some(o)
    ensures Reproduces(result, o)
    ensures SameStatus(TellReplay(o), TellResult(result)) <==> result.Returned? || AlwaysToldAs500(result.error)
    ensures TellReplay(o) == TellResult(result) <==> result.Returned? || result.error.Infrastructure?
    ensures result.Threw? ==> TellReplay(o) == Failure(500, GENERIC, CodeOf(result.error))
  {
    if result.Threw? {
      RecordedThenReconstructed(result.error);
      ReplayedStatusIff(result.error);
      ReplayedTellingIff(result.error);
    }
  }

  /** What is kept for replay: every response, and errors by class and status. */
  lemma KeptForReplayIff(result: HandlerResult)
    ensures result.Returned? ==> HandlerOutcome(result) == Some(Response(result.value))
    ensures result.Threw? && result.error.Http? ==>
      (HandlerOutcome(result).Some? <==>
         400 <= result.error.status <= 499 && result.error.status != 408 && result.error.status != 429)
    ensures result.Threw? && (result.error.Layer? || result.error.Infrastructure?) ==>
      (HandlerOutcome(result).Some? <==> result.error.category != Internal)
  {
    if result.Threw? {
      DeterministicIff(result.error);
    }
  }

  // ---- Steps ----

  function RowsAfter(s: State, a: Action): Table
    requires Enabled(s, a)
  {
    match a
    case Claim(r) =>
      TryClaim(s.rows, s.requests[r].key, s.requests[r].hash, s.requests[r].ttlSeconds, s.clock, r)
    case Mark(r) => Marked(s.rows, s.requests[r].key, s.requests[r].phase.outcome, s.clock)
    case DeleteRow(r) => s.rows - {s.requests[r].key}
    case Sweep => Swept(s.rows, s.clock)
    case DeleteExpired => WithoutExpired(s.rows, s.clock)
    case _ => s.rows
  }

  function CacheAfter(s: State, a: Action): map<Key, Entry<Record>>
    requires Enabled(s, a)
  {
    match a
    case WriteCache(r) =>
      var record := s.requests[r].phase.record;
      Put(s.cache, s.requests[r].key, record, RemainingTtl(record.expiresAt, s.clock), s.clock)
    case DropCache(r) => s.cache - {s.requests[r].key}
    case _ => s.cache
  }

  /** Actions by which one request moves on. */
  predicate Moves(a: Action) {
    !(a.Arrive? || a.Crash? || a.Sweep? || a.DeleteExpired? || a.Tick?)
  }

  function PhaseAfter(s: State, a: Action): Phase
    requires Moves(a) && Enabled(s, a)
  {
    var q := s.requests[a.r];
    match a
    case ReadCache(_) =>
      var hit := Get(s.cache, q.key, s.clock);
      if hit.Some? then Answered(Reply(hit.value, q.hash)) else LookInTable(q.phase.second)
    case ReadTable(_) =>
      var found := FindActive(s.rows, q.key, s.clock);
      if found.Some? then Answered(Reply(found.value, q.hash))
      else if q.phase.second then Answered(RecordNotFound)
      else Claiming
    case Claim(_) => if Wins(s, a.r) then Running(s.clock + 1000 * q.ttlSeconds) else LookInCache(true)
    case HandlerEnds(_, result) =>
      var outcome := HandlerOutcome(result);
      if outcome.Some? then Marking(q.phase.until, outcome.value, result) else Deleting(q.phase.until)
    case Mark(_) =>
      if Settles(s, a.r) then Caching(Resolve(s.rows[q.key], q.phase.outcome, s.clock), q.phase.outcome, q.phase.result)
      else Answered(Executed(q.phase.outcome, q.phase.result))
    case DeleteRow(_) => Uncaching
    case WriteCache(_) => Answered(Executed(q.phase.outcome, q.phase.result))
    case DropCache(_) => Answered(Rethrown)
  }

  function RequestsAfter(s: State, a: Action): map<RequestId, Request>
    requires Enabled(s, a)
  {
    match a
    case Arrive(k, hash, ttl) => s.requests[s.arrivals := Request(k, hash, ttl, LookInCache(false))]
    case Crash(r) => s.requests - {r}
    case Sweep => s.requests
    case DeleteExpired => s.requests
    case Tick(_) => s.requests
    case _ => s.requests[a.r := s.requests[a.r].(phase := PhaseAfter(s, a))]
  }

  // ---- The observers ----

  function ClaimsAfter(s: State, a: Action): map<nat, (Key, Hash)>
    requires Enabled(s, a)
  {
    if a.Claim? && Wins(s, a.r) then s.claims[a.r := (s.requests[a.r].key, s.requests[a.r].hash)] else s.claims
  }

  function OutcomesAfter(s: State, a: Action): map<nat, Outcome>
    requires Enabled(s, a)
  {
    match a
    case Mark(r) =>
      if Settles(s, r) then s.outcomes[s.rows[s.requests[r].key].claim := s.requests[r].phase.outcome] else s.outcomes
    case Sweep => s.outcomes + SweptClaims(s)
    case _ => s.outcomes
  }

  /** Keys whose handler has returned or failed for good since their row was last removed. */
  function SettledAfter(s: State, a: Action): set<Key>
    requires Enabled(s, a)
  {
    match a
    case HandlerEnds(r, result) =>
      if HandlerOutcome(result).Some? then s.settled + {s.requests[r].key} else s.settled
    case DeleteRow(r) => s.settled - {s.requests[r].key}
    case DeleteExpired => s.settled - ExpiredKeys(s)
    case _ => s.settled
  }

  function StartsAfter(s: State, a: Action): map<Key, nat>
    requires Enabled(s, a)
  {
    if a.Claim? && Wins(s, a.r) then CountAll(s.starts, {s.requests[a.r].key}) else s.starts
  }

  function CancelsAfter(s: State, a: Action): map<Key, nat>
    requires Enabled(s, a)
  {
    if a.DeleteRow? && s.requests[a.r].key in s.rows then CountAll(s.cancels, {s.requests[a.r].key}) else s.cancels
  }

  function ExpiriesAfter(s: State, a: Action): map<Key, nat>
    requires Enabled(s, a)
  {
    if a.DeleteExpired? then CountAll(s.expiries, ExpiredKeys(s)) else s.expiries
  }

  function Next(s: State, a: Action): State
    requires Enabled(s, a)
  {
    State(
      if a.Tick? then s.clock + a.ms else s.clock,
      RowsAfter(s, a), CacheAfter(s, a), RequestsAfter(s, a),
      if a.Arrive? then s.arrivals + 1 else s.arrivals,
      ClaimsAfter(s, a), OutcomesAfter(s, a), SettledAfter(s, a),
      StartsAfter(s, a), CancelsAfter(s, a), ExpiriesAfter(s, a))
  }

  function Initial(clock: int): State {
    State(clock, map[], map[], map[], 0, map[], map[], {}, map[], map[], map[])
  }
}
