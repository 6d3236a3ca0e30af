/**
 The two strategies' protocols against their handle methods: a request whose steps are taken one after the
 other, with nobody in between, answers and leaves what its method says.
 */
module UndisturbedRequests {
  import opened Optional
  import opened RedisStore
  import opened IdempotencyRepository
  import opened IdempotencyServices
  import D = DurableStrategy
  import R = RedisStrategy
  import DurableSafety

  // ---- The durable strategy ----

  /** What the request does next; `result` is how its handler ends, if it runs. */
  function NextStep(phase: D.Phase, r: nat, result: D.HandlerResult): D.Action
    requires !phase.Answered?
  {
    match phase
    case LookInCache(_) => D.ReadCache(r)
    case LookInTable(_) => D.ReadTable(r)
    case Claiming => D.Claim(r)
    case Running(_) => D.HandlerEnds(r, result)
    case Marking(_, _, _) => D.Mark(r)
    case Deleting(_) => D.DeleteRow(r)
    case Caching(_, _, _) => D.WriteCache(r)
    case Uncaching => D.DropCache(r)
  }

  /** At most `n` steps of one request, until it is answered. */
  function Steps(s: D.State, r: nat, result: D.HandlerResult, n: nat): D.State
    requires r in s.requests
    decreases n
  {
    if n == 0 || s.requests[r].phase.Answered? then s
    else Steps(D.Next(s, NextStep(s.requests[r].phase, r, result)), r, result, n - 1)
  }

  function Now(clock: int): Times {
    Times(clock, clock, clock, clock, clock, clock, clock)
  }

  /** `s'` is what request `r` leaves of `s` and answers, by the method's own account. */
  predicate AsHandled(s: D.State, r: nat, result: D.HandlerResult, header: string, scope: string, s': D.State)
    requires r in s.requests
  {
    var q := s.requests[r];
    && r in s'.requests && s'.requests[r].phase.Answered?
    && Answered(Some(header), scope, q.hash, Some(q.ttlSeconds), r, result, Now(s.clock), s.rows, s.cache,
                s'.rows, s'.cache, s'.requests[r].phase.answer)
  }

  /** A claim lost to another request looks again, in the cache and then in the table, and there is no third time. */
  lemma LostClaimSteps(s: D.State, r: nat, result: D.HandlerResult)
    requires r in s.requests && s.requests[r].phase.Claiming? && s.requests[r].key in s.rows
    ensures
      var s', q := Steps(s, r, result, 3), s.requests[r];
      var found := Lookup(s.rows, s.cache, q.key, s.clock, s.clock);
      && s' == Steps(s, r, result, 5) && r in s'.requests && s'.rows == s.rows && s'.cache == s.cache
      && s'.requests[r].phase == D.Answered(if found.Some? then D.Reply(found.value, q.hash) else D.RecordNotFound)
  {
    var claimed := D.Next(s, D.Claim(r));
    var looked := D.Next(claimed, D.ReadCache(r));
    if looked.requests[r].phase.LookInTable? {
      var read := D.Next(looked, D.ReadTable(r));
      assert Steps(looked, r, result, 1) == read == Steps(looked, r, result, 3);
    }
  }

  /** A handler whose result is not kept: row and cached record go. */
  lemma RetryableSteps(s: D.State, r: nat, result: D.HandlerResult)
    requires r in s.requests && s.requests[r].phase.Running? && D.HandlerOutcome(result).None?
    ensures
      var s' := Steps(s, r, result, 4);
      && r in s'.requests && s'.requests[r].phase == D.Answered(D.Rethrown)
      && s'.rows == s.rows - {s.requests[r].key} && s'.cache == s.cache - {s.requests[r].key}
  {
    var ended := D.Next(s, D.HandlerEnds(r, result));
    var deleted := D.Next(ended, D.DeleteRow(r));
    assert Steps(ended, r, result, 3) == Steps(deleted, r, result, 2);
  }

  /** A handler whose result is kept: marked, if the row is still open, and then cached. */
  lemma KeptSteps(s: D.State, r: nat, result: D.HandlerResult, outcome: Outcome)
    requires r in s.requests && s.requests[r].phase.Running? && D.HandlerOutcome(result) == Some(outcome)
    requires s.requests[r].key in s.rows
    ensures
      var s' := Steps(s, r, result, 4);
      var k := s.requests[r].key;
      && r in s'.requests && s'.requests[r].phase == D.Answered(D.Answer.Executed(outcome, result))
      && s'.rows == Marked(s.rows, k, outcome, s.clock)
      && s'.cache == if Open(s.rows[k], s.clock)
                     then Put(s.cache, k, Resolve(s.rows[k], outcome, s.clock),
                              D.RemainingTtl(s.rows[k].expiresAt, s.clock), s.clock)
                     else s.cache
  {
    var ended := D.Next(s, D.HandlerEnds(r, result));
    var marked := D.Next(ended, D.Mark(r));
    assert Steps(ended, r, result, 3) == Steps(marked, r, result, 2);
  }

  /** A claim that inserts its row, and what it leaves when the handler fails in a retryable way. */
  lemma WonThenRetryable(s: D.State, r: nat, result: D.HandlerResult, header: string, scope: string)
    requires r in s.requests && s.requests[r].phase.Claiming? && s.requests[r].key == (header, scope) && header != ""
    requires (header, scope) !in s.rows && Get(s.cache, (header, scope), s.clock).None?
    requires D.HandlerOutcome(result).None?
    ensures AsHandled(s, r, result, header, scope, Steps(s, r, result, 5))
  {
    var k, q := (header, scope), s.requests[r];
    var claimed := D.Next(s, D.Claim(r));
    assert claimed.rows - {k} == s.rows;
    assert claimed.cache == s.cache && claimed.requests[r].key == k;
    RetryableSteps(claimed, r, result);
    assert Executed(s.rows, s.cache, s.rows, s.cache - {k}, k, q.hash, q.ttlSeconds, r, result, Now(s.clock), D.Rethrown);
  }

  /** A row claimed, marked and cached at one instant. */
  lemma KeptIsExecuted(rows: Table, cache: map<Key, Entry<Record>>, k: Key, hash: Hash, ttlSeconds: int, claim: nat,
                       outcome: Outcome, result: D.HandlerResult, clock: int)
    requires k !in rows && D.HandlerOutcome(result) == Some(outcome)
    ensures
      var row := Claimed(hash, ttlSeconds, clock, claim);
      Executed(rows, cache, Marked(rows[k := row], k, outcome, clock),
               if Open(row, clock)
               then Put(cache, k, Resolve(row, outcome, clock), D.RemainingTtl(row.expiresAt, clock), clock) else cache,
               k, hash, ttlSeconds, claim, result, Now(clock), D.Answer.Executed(outcome, result))
  {
    var row := Claimed(hash, ttlSeconds, clock, claim);
    assert rows[k := row][k := Resolve(row, outcome, clock)] == rows[k := Resolve(row, outcome, clock)];
  }

  lemma WonThenKept(s: D.State, r: nat, result: D.HandlerResult, header: string, scope: string, outcome: Outcome)
    requires r in s.requests && s.requests[r].phase.Claiming? && s.requests[r].key == (header, scope) && header != ""
    requires (header, scope) !in s.rows && Get(s.cache, (header, scope), s.clock).None?
    requires D.HandlerOutcome(result) == Some(outcome)
    ensures AsHandled(s, r, result, header, scope, Steps(s, r, result, 5))
  {
    var q := s.requests[r];
    var claimed := D.Next(s, D.Claim(r));
    assert claimed.rows == s.rows[q.key := Claimed(q.hash, q.ttlSeconds, s.clock, r)];
    assert claimed.cache == s.cache && claimed.clock == s.clock;
    KeptSteps(claimed, r, result, outcome);
    KeptIsExecuted(s.rows, s.cache, q.key, q.hash, q.ttlSeconds, r, outcome, result, s.clock);
  }

  lemma ClaimSteps(s: D.State, r: nat, result: D.HandlerResult, header: string, scope: string)
    requires r in s.requests && s.requests[r].phase.Claiming? && s.requests[r].key == (header, scope) && header != ""
    requires Lookup(s.rows, s.cache, (header, scope), s.clock, s.clock).None?
    ensures AsHandled(s, r, result, header, scope, Steps(s, r, result, 5))
  {
    if (header, scope) in s.rows {
      LostClaimSteps(s, r, result);
    } else if D.HandlerOutcome(result).None? {
      WonThenRetryable(s, r, result, header, scope);
    } else {
      WonThenKept(s, r, result, header, scope, D.HandlerOutcome(result).value);
    }
  }

  /** The protocol's request, on its own, is the method's. */
  lemma DurableAlone(s: D.State, r: nat, result: D.HandlerResult, header: string, scope: string)
    requires r in s.requests && s.requests[r].phase == D.LookInCache(false)
    requires s.requests[r].key == (header, scope) && header != ""
    ensures AsHandled(s, r, result, header, scope, Steps(s, r, result, 7))
  {
    var looked := D.Next(s, D.ReadCache(r));
    if looked.requests[r].phase.LookInTable? {
      var read := D.Next(looked, D.ReadTable(r));
      assert Steps(s, r, result, 7) == Steps(looked, r, result, 6) == Steps(read, r, result, 5);
      if read.requests[r].phase.Claiming? {
        ClaimSteps(read, r, result, header, scope);
      }
    }
  }

  // ---- The Redis strategy ----

  function NextRedisStep(phase: R.Phase, r: nat, result: D.HandlerResult): R.Action
    requires !phase.Answered?
  {
    match phase
    case Looking(_) => R.Look(r)
    case Creating => R.Create(r)
    case Running(_) => R.HandlerEnds(r, result)
    case Marking(_, _, _) => R.Mark(r)
    case Deleting(_) => R.Delete(r)
  }

  function RedisSteps(s: R.State, r: nat, result: D.HandlerResult, n: nat): R.State
    requires r in s.requests
    decreases n
  {
    if n == 0 || s.requests[r].phase.Answered? then s
    else RedisSteps(R.Next(s, NextRedisStep(s.requests[r].phase, r, result)), r, result, n - 1)
  }

  /** From the claim's success on: the handler, and one write or delete. */
  lemma RedisWonSteps(s: R.State, r: nat, result: D.HandlerResult)
    requires r in s.requests && s.requests[r].phase.Running?
    ensures
      var s' := RedisSteps(s, r, result, 2);
      var q := s.requests[r];
      var outcome := D.HandlerOutcome(result);
      && r in s'.requests
      && if outcome.None? then s'.requests[r].phase == R.Answered(D.Rethrown) && s'.store == s.store - {q.key}
         else
           && s'.requests[r].phase == R.Answered(D.Answer.Executed(outcome.value, result))
           && s'.store == Put(s.store, q.key, R.Finished(q.hash, outcome.value, r), q.ttlSeconds, s.clock)
  {
    var ended := R.Next(s, R.HandlerEnds(r, result));
    assert RedisSteps(s, r, result, 2) == RedisSteps(ended, r, result, 1);
  }

  /** A claim lost to a live record is answered from it; if that has gone by then, with a 500. */
  lemma RedisLostClaimSteps(s: R.State, r: nat, result: D.HandlerResult)
    requires r in s.requests && s.requests[r].phase.Creating? && !R.Wins(s, r)
    ensures
      var s', q := RedisSteps(s, r, result, 2), s.requests[r];
      && r in s'.requests && s'.store == s.store
      && s'.requests[r].phase == R.Answered(R.Reply(Get(s.store, q.key, s.clock).value, q.hash))
    ensures
      var s1 := R.Next(s, R.Create(r));
      var gone := s1.(store := s1.store - {s.requests[r].key});
      && r in gone.requests && R.Enabled(gone, R.Look(r)) && r in R.Next(gone, R.Look(r)).requests
      && R.Next(gone, R.Look(r)).requests[r].phase == R.Answered(D.RecordNotFound)
  {
    var created := R.Next(s, R.Create(r));
    var looked := R.Next(created, R.Look(r));
    assert RedisSteps(s, r, result, 2) == RedisSteps(created, r, result, 1) == looked;
  }

  /** The Redis protocol's request, on its own, is its method's, where Redis can be read. */
  lemma RedisAlone(s: R.State, r: nat, result: D.HandlerResult, header: string, scope: string)
    requires r in s.requests && s.requests[r].phase == R.Looking(false)
    requires s.requests[r].key == (header, scope) && header != ""
    ensures
      var s' := RedisSteps(s, r, result, 4);
      var q := s.requests[r];
      && r in s'.requests && s'.requests[r].phase.Answered?
      && RedisAnswered(Some(header), scope, q.hash, Some(q.ttlSeconds), r, result, true, s.clock, s.clock,
                       s.store, s'.store, s'.requests[r].phase.answer)
  {
    var looked := R.Next(s, R.Look(r));
    if looked.requests[r].phase.Creating? {
      var created := R.Next(looked, R.Create(r));
      RedisWonSteps(created, r, result);
      assert created.store - {(header, scope)} == s.store - {(header, scope)};
    }
  }

  // ---- How long a handler may take ----

  lemma DurablePrepended(s: D.State, a: D.Action, rest: seq<D.Action>)
    requires DurableSafety.Timely(s) && D.Enabled(s, a) && DurableSafety.TimelyRun(D.Next(s, a), rest)
    ensures DurableSafety.TimelyRun(s, [a] + rest)
    ensures DurableSafety.After(s, [a] + rest) == DurableSafety.After(D.Next(s, a), rest)
  {
    assert ([a] + rest)[1..] == rest;
  }

  /** From the handler's end on, with the row still open: settled and cached at once. */
  lemma SettlesInTime(s: D.State, value: string)
    requires s.requests.Keys == {0} && s.requests[0].phase.Running? && DurableSafety.Timely(s)
    requires s.requests[0].key in s.rows && Open(s.rows[s.requests[0].key], s.clock)
    ensures
      var run := [D.HandlerEnds(0, D.Returned(value))] + ([D.Mark(0)] + ([D.WriteCache(0)] + []));
      && DurableSafety.TimelyRun(s, run) && 0 in DurableSafety.After(s, run).requests
      && DurableSafety.After(s, run).clock == s.clock
      && DurableSafety.After(s, run).requests[0].phase == D.Answered(D.Answer.Executed(Response(value), D.Returned(value)))
  {
    var ended := D.Next(s, D.HandlerEnds(0, D.Returned(value)));
    var marked := D.Next(ended, D.Mark(0));
    DurablePrepended(marked, D.WriteCache(0), []);
    DurablePrepended(ended, D.Mark(0), [D.WriteCache(0)] + []);
    DurablePrepended(s, D.HandlerEnds(0, D.Returned(value)), [D.Mark(0)] + ([D.WriteCache(0)] + []));
  }

  /** The first request on an empty table, up to its handler. */
  function Started(k: Key, hash: Hash, ttlSeconds: nat): D.State {
    var arrived := D.Next(D.Initial(0), D.Arrive(k, hash, ttlSeconds));
    D.Next(D.Next(D.Next(arrived, D.ReadCache(0)), D.ReadTable(0)), D.Claim(0))
  }

  lemma StartedIsRunning(k: Key, hash: Hash, ttlSeconds: nat)
    ensures
      var s := Started(k, hash, ttlSeconds);
      && s.clock == 0 && s.rows == map[k := Claimed(hash, ttlSeconds, 0, 0)]
      && s.requests == map[0 := D.Request(k, hash, ttlSeconds, D.Phase.Running(1000 * ttlSeconds))]
  {
  }

  lemma StartsInTime(k: Key, hash: Hash, ttlSeconds: nat, rest: seq<D.Action>) returns (run: seq<D.Action>)
    requires DurableSafety.TimelyRun(Started(k, hash, ttlSeconds), rest)
    ensures DurableSafety.TimelyRun(D.Initial(0), run)
    ensures DurableSafety.After(D.Initial(0), run) == DurableSafety.After(Started(k, hash, ttlSeconds), rest)
  {
    var arrived := D.Next(D.Initial(0), D.Arrive(k, hash, ttlSeconds));
    var looked := D.Next(arrived, D.ReadCache(0));
    var read := D.Next(looked, D.ReadTable(0));
    DurablePrepended(read, D.Claim(0), rest);
    DurablePrepended(looked, D.ReadTable(0), [D.Claim(0)] + rest);
    DurablePrepended(arrived, D.ReadCache(0), [D.ReadTable(0)] + ([D.Claim(0)] + rest));
    run := [D.Arrive(k, hash, ttlSeconds)] + ([D.ReadCache(0)] + ([D.ReadTable(0)] + ([D.Claim(0)] + rest)));
    DurablePrepended(D.Initial(0), D.Arrive(k, hash, ttlSeconds),
                     [D.ReadCache(0)] + ([D.ReadTable(0)] + ([D.Claim(0)] + rest)));
  }

  /** A handler may use its TTL up to the last millisecond, and the run is timely still. */
  lemma LastMillisecond(k: Key, hash: Hash, ttlSeconds: nat, value: string) returns (run: seq<D.Action>)
    requires ttlSeconds > 0
    ensures DurableSafety.TimelyRun(D.Initial(0), run)
    ensures
      var s := DurableSafety.After(D.Initial(0), run);
      && s.clock == 1000 * ttlSeconds - 1 && 0 in s.requests
      && s.requests[0].phase == D.Answered(D.Answer.Executed(Response(value), D.Returned(value)))
  {
    var wait := D.Tick(1000 * ttlSeconds - 1);
    StartedIsRunning(k, hash, ttlSeconds);
    SettlesInTime(D.Next(Started(k, hash, ttlSeconds), wait), value);
    var rest := [D.HandlerEnds(0, D.Returned(value))] + ([D.Mark(0)] + ([D.WriteCache(0)] + []));
    DurablePrepended(Started(k, hash, ttlSeconds), wait, rest);
    run := StartsInTime(k, hash, ttlSeconds, [wait] + rest);
  }

  lemma RedisPrepended(s: R.State, a: R.Action, rest: seq<R.Action>)
    requires R.Timely(s) && R.Enabled(s, a) && R.TimelyRun(R.Next(s, a), rest)
    ensures R.TimelyRun(s, [a] + rest)
    ensures R.After(s, [a] + rest) == R.After(R.Next(s, a), rest)
  {
    assert ([a] + rest)[1..] == rest;
  }

  /** On Redis it has 300 seconds less a millisecond, whatever its TTL. */
  lemma RedisLastMillisecond(k: Key, hash: Hash, ttlSeconds: nat, value: string) returns (run: seq<R.Action>)
    ensures R.TimelyRun(R.Initial(0), run)
    ensures
      var s := R.After(R.Initial(0), run);
      && s.clock == 299_999 && 0 in s.requests
      && s.requests[0].phase == R.Answered(D.Answer.Executed(Response(value), D.Returned(value)))
  {
    var result := D.Returned(value);
    var arrived := R.Next(R.Initial(0), R.Arrive(k, hash, ttlSeconds));
    var looked := R.Next(arrived, R.Look(0));
    var created := R.Next(looked, R.Create(0));
    var late := R.Next(created, R.Tick(299_999));
    var ended := R.Next(late, R.HandlerEnds(0, result));
    assert created.requests == map[0 := R.Request(k, hash, ttlSeconds, R.Phase.Running(300_000))];
    RedisPrepended(ended, R.Mark(0), []);
    run := [R.Mark(0)] + [];
    RedisPrepended(late, R.HandlerEnds(0, result), run);
    run := [R.HandlerEnds(0, result)] + run;
    RedisPrepended(created, R.Tick(299_999), run);
    run := [R.Tick(299_999)] + run;
    RedisPrepended(looked, R.Create(0), run);
    run := [R.Create(0)] + run;
    RedisPrepended(arrived, R.Look(0), run);
    run := [R.Look(0)] + run;
    RedisPrepended(R.Initial(0), R.Arrive(k, hash, ttlSeconds), run);
    run := [R.Arrive(k, hash, ttlSeconds)] + run;
  }
}
