/**
 The two strategies' handle methods, run by one request with nobody else around: lookups, claim,
 handler, bookkeeping. Time passes between any two calls; the instants are parameters.
 */
module IdempotencyServices {
  import opened Optional
  import opened RedisStore
  import opened IdempotencyErrors
  import opened IdempotencyRepository
  import D = DurableStrategy
  import R = RedisStrategy

  /** The instants of getRecord's two reads, of the claim, of the second getRecord, of the mark and of caching. */
  datatype Times = Times(cache: int, table: int, claim: int, cacheAgain: int, tableAgain: int, marked: int, cached: int)

  predicate InOrder(t: Times) {
    t.cache <= t.table <= t.claim <= t.cacheAgain <= t.tableAgain && t.claim <= t.marked <= t.cached
  }

  /** The request's key, if it carries the header; an empty header counts as none. */
  function KeyOf(header: Option<string>, scope: string): Option<Key> {
    if header.None? || header.value == "" then None else Some((header.value, scope))
  }

  /** The string that both strategies file a record under in Redis. */
  function RedisKey(k: Key): string {
    "idem:" + k.1 + ":" + k.0
  }

  /**
   Two scopes keep apart in Redis, whatever the headers, exactly unless one of them begins with the other and
   a colon; within one scope the headers do. The table keys on the pair itself.
   */
  lemma RedisKeysMeetIff(scope1: string, scope2: string)
    ensures forall header1, header2 :: RedisKey((header1, scope1)) == RedisKey((header2, scope1)) <==> header1 == header2
    ensures scope1 != scope2 ==>
      ((exists header1, header2 :: header1 != "" && header2 != "" && RedisKey((header1, scope1)) == RedisKey((header2, scope2)))
       <==> scope2 + ":" <= scope1 || scope1 + ":" <= scope2)
  {
    forall header1, header2
      ensures RedisKey((header1, scope1)) == RedisKey((header2, scope1)) <==> header1 == header2
    {
      SameTail("idem:" + scope1 + ":", header1, header2);
    }
    if scope1 != scope2 {
      forall header1: string, header2: string | RedisKey((header1, scope1)) == RedisKey((header2, scope2))
        ensures scope2 + ":" <= scope1 || scope1 + ":" <= scope2
      {
        KeysMeet(scope1, header1, scope2, header2);
      }
      if scope2 + ":" <= scope1 {
        Meeting(scope2, scope1);
      } else if scope1 + ":" <= scope2 {
        Meeting(scope1, scope2);
      }
    }
  }

  lemma SameTail(a: string, b: string, c: string)
    ensures a + b == a + c <==> b == c
  {
    assert (a + b)[|a|..] == b && (a + c)[|a|..] == c;
  }

  lemma KeysMeet(scope1: string, header1: string, scope2: string, header2: string)
    requires scope1 != scope2 && RedisKey((header1, scope1)) == RedisKey((header2, scope2))
    ensures scope2 + ":" <= scope1 || scope1 + ":" <= scope2
  {
    var a, b := scope1 + ":" + header1, scope2 + ":" + header2;
    assert RedisKey((header1, scope1)) == "idem:" + a && RedisKey((header2, scope2)) == "idem:" + b;
    SameTail("idem:", a, b);
    assert a[..|scope1|] == scope1 && b[..|scope2|] == scope2;
    if |scope2| < |scope1| {
      assert a[..|scope2| + 1] == scope1[..|scope2| + 1] && b[..|scope2| + 1] == scope2 + ":";
    } else if |scope1| < |scope2| {
      assert a[..|scope1| + 1] == scope1 + ":" && b[..|scope1| + 1] == scope2[..|scope1| + 1];
    }
  }

  lemma Meeting(short: string, long: string)
    requires short + ":" <= long
    ensures exists header1, header2 :: header1 != "" && header2 != "" && RedisKey((header1, long)) == RedisKey((header2, short))
    ensures exists header1, header2 :: header1 != "" && header2 != "" && RedisKey((header1, short)) == RedisKey((header2, long))
  {
    var rest := long[|short| + 1..];
    assert long == short + ":" + rest;
    var header := rest + ":k";
    assert RedisKey(("k", long)) == RedisKey((header, short));
  }

  const TTL_SECONDS: nat := 86_400

  /** The TTL asked for, or a day. */
  function TtlOf(ttlSeconds: Option<int>): int {
    if ttlSeconds.None? then TTL_SECONDS else ttlSeconds.value
  }

  /** getRecord: the cache first, then the table. */
  function Lookup(rows: Table, cache: map<Key, Entry<Record>>, k: Key, cacheAt: int, tableAt: int): Option<Record> {
    var hit := Get(cache, k, cacheAt);
    if hit.Some? then hit else FindActive(rows, k, tableAt)
  }

  /** The row a claim leaves once its handler is done. */
  function Settled(hash: Hash, ttlSeconds: int, claim: nat, outcome: Outcome, claimed: int, marked: int): Record {
    Resolve(Claimed(hash, ttlSeconds, claimed, claim), outcome, marked)
  }

  class DurableIdempotencyStrategy {
    const redis: RedisService<Record>
    const repository: IdempotencyKyselyRepository

    constructor (redis: RedisService<Record>, repository: IdempotencyKyselyRepository)
      ensures this.redis == redis && this.repository == repository
    {
      this.redis, this.repository := redis, repository;
    }

    method GetRecord(k: Key, cacheAt: int, tableAt: int) returns (record: Option<Record>)
      ensures record == Lookup(repository.rows, redis.store, k, cacheAt, tableAt)
    {
      record := redis.Lookup(k, cacheAt);
      if record.None? {
        record := repository.FindActiveRecord(k, tableAt);
      }
    }

    /** markCompleted and markFailed: settle the row if it is still open, then cache what was settled. */
    method Mark(k: Key, outcome: Outcome, marked: int, cached: int)
      modifies repository, redis
      ensures repository.rows == Marked(old(repository.rows), k, outcome, marked)
      ensures redis.store ==
              if k in old(repository.rows) && Open(old(repository.rows)[k], marked)
              then Put(old(redis.store), k, Resolve(old(repository.rows)[k], outcome, marked),
                       D.RemainingTtl(old(repository.rows)[k].expiresAt, cached), cached)
              else old(redis.store)
    {
      var record: Option<Record>;
      if outcome.Response? {
        record := repository.MarkCompleted(k, outcome.value, marked);
      } else {
        record := repository.MarkFailed(k, outcome.payload, marked);
      }
      if record.Some? {
        var remainingMs := record.value.expiresAt - cached;
        var ttl := if remainingMs > 0 then (remainingMs + 999) / 1000 else 0;
        redis.Set(k, record.value, ttl, cached);
      }
    }

    method Handle(header: Option<string>, scope: string, hash: Hash, ttlSeconds: Option<int>, claim: nat,
                  result: D.HandlerResult, t: Times)
      returns (answer: D.Answer)
      requires InOrder(t)
      modifies repository, redis
      ensures Answered(header, scope, hash, ttlSeconds, claim, result, t, old(repository.rows), old(redis.store),
                       repository.rows, redis.store, answer)
    {
      if header.None? || header.value == "" {
        return D.MissingKey;
      }
      var k := (header.value, scope);
      var existing := GetRecord(k, t.cache, t.table);
      if existing.Some? {
        return D.Reply(existing.value, hash);
      }
      var claimed := repository.Claim(k, hash, TtlOf(ttlSeconds), t.claim, claim);
      if !claimed {
        var again := GetRecord(k, t.cacheAgain, t.tableAgain);
        if again.None? {
          return D.RecordNotFound;
        }
        assert false;
      }
      answer := Run(k, result, t);
    }

    /** What follows a claim: the handler, and the bookkeeping its result calls for. */
    method Run(k: Key, result: D.HandlerResult, t: Times) returns (answer: D.Answer)
      modifies repository, redis
      ensures
        var rows, cache := old(repository.rows), old(redis.store);
        var outcome := D.HandlerOutcome(result);
        if outcome.None? then answer == D.Rethrown && repository.rows == rows - {k} && redis.store == cache - {k}
        else
          && answer == D.Answer.Executed(outcome.value, result)
          && repository.rows == Marked(rows, k, outcome.value, t.marked)
          && redis.store ==
             if k in rows && Open(rows[k], t.marked)
             then Put(cache, k, Resolve(rows[k], outcome.value, t.marked),
                      D.RemainingTtl(rows[k].expiresAt, t.cached), t.cached)
             else cache
    {
      match result {
        case Returned(value) =>
          Mark(k, Response(value), t.marked, t.cached);
          answer := D.Answer.Executed(Response(value), result);
        case Threw(error) =>
          if IsDeterministic(StatusOf(error)) {
            Mark(k, Error(Recorded(error)), t.marked, t.cached);
            answer := D.Answer.Executed(Error(Recorded(error)), result);
          } else {
            repository.DeleteRecord(k);
            redis.Del(k);
            answer := D.Rethrown;
          }
      }
    }
  }

  /** What a request that won the claim leaves: a settled, cached record, an unsettled expired one, or nothing. */
  predicate Executed(rows: Table, cache: map<Key, Entry<Record>>, rows': Table, cache': map<Key, Entry<Record>>, k: Key,
                     hash: Hash, ttlSeconds: int, claim: nat, result: D.HandlerResult, t: Times, answer: D.Answer)
  {
    var outcome := D.HandlerOutcome(result);
    if outcome.None? then answer == D.Rethrown && rows' == rows && cache' == cache - {k}
    else
      && answer == D.Answer.Executed(outcome.value, result)
      && if t.marked < t.claim + 1000 * ttlSeconds then
           var row := Settled(hash, ttlSeconds, claim, outcome.value, t.claim, t.marked);
           rows' == rows[k := row] && cache' == Put(cache, k, row, D.RemainingTtl(row.expiresAt, t.cached), t.cached)
         else rows' == rows[k := Claimed(hash, ttlSeconds, t.claim, claim)] && cache' == cache
  }

  /** What one undisturbed request leaves and answers, in every branch. */
  predicate Answered(header: Option<string>, scope: string, hash: Hash, ttlSeconds: Option<int>, claim: nat,
                     result: D.HandlerResult, t: Times, rows: Table, cache: map<Key, Entry<Record>>,
                     rows': Table, cache': map<Key, Entry<Record>>, answer: D.Answer)
  {
    var key := KeyOf(header, scope);
    if key.None? then answer == D.MissingKey && rows' == rows && cache' == cache
    else
      var found := Lookup(rows, cache, key.value, t.cache, t.table);
      if found.Some? then answer == D.Reply(found.value, hash) && rows' == rows && cache' == cache
      else if key.value in rows then answer == D.RecordNotFound && rows' == rows && cache' == cache
      else Executed(rows, cache, rows', cache', key.value, hash, TtlOf(ttlSeconds), claim, result, t, answer)
  }

  /** Two maps hold the same, or nothing, at `k`. */
  ghost predicate AgreeAt<V(!new)>(m: map<Key, V>, m': map<Key, V>, k: Key) {
    (k in m <==> k in m') && (k in m ==> m[k] == m'[k])
  }

  /** Two maps agree everywhere but at `k`. */
  ghost predicate AgreeElsewhere<V(!new)>(m: map<Key, V>, m': map<Key, V>, k: Key) {
    forall other: Key | other != k :: AgreeAt(m, m', other)
  }

  /** A request touches the row and the cached record of its own header and scope, and no others. */
  lemma TouchesOwnKeyOnly(header: string, scope: string, hash: Hash, ttlSeconds: Option<int>, claim: nat,
                          result: D.HandlerResult, t: Times, rows: Table, cache: map<Key, Entry<Record>>,
                          rows': Table, cache': map<Key, Entry<Record>>, answer: D.Answer)
    requires Answered(Some(header), scope, hash, ttlSeconds, claim, result, t, rows, cache, rows', cache', answer)
    ensures header != "" ==> AgreeElsewhere(rows, rows', (header, scope)) && AgreeElsewhere(cache, cache', (header, scope))
    ensures header == "" ==> rows' == rows && cache' == cache && answer == D.MissingKey
  {
  }

  /** Its answer depends on those alone: in two worlds that agree there it is the same. */
  lemma AnswersForOwnKeyAlone(header: string, scope: string, hash: Hash, ttlSeconds: Option<int>, claim: nat,
                              result: D.HandlerResult, t: Times,
                              rows1: Table, cache1: map<Key, Entry<Record>>, rows1': Table, cache1': map<Key, Entry<Record>>,
                              answer1: D.Answer,
                              rows2: Table, cache2: map<Key, Entry<Record>>, rows2': Table, cache2': map<Key, Entry<Record>>,
                              answer2: D.Answer)
    requires Answered(Some(header), scope, hash, ttlSeconds, claim, result, t, rows1, cache1, rows1', cache1', answer1)
    requires Answered(Some(header), scope, hash, ttlSeconds, claim, result, t, rows2, cache2, rows2', cache2', answer2)
    requires AgreeAt(rows1, rows2, (header, scope)) && AgreeAt(cache1, cache2, (header, scope))
    ensures answer1 == answer2
  {
    assert Lookup(rows1, cache1, (header, scope), t.cache, t.table) == Lookup(rows2, cache2, (header, scope), t.cache, t.table);
  }

  /** And so does what it leaves there. */
  lemma LeavesForOwnKeyAlone(header: string, scope: string, hash: Hash, ttlSeconds: Option<int>, claim: nat,
                             result: D.HandlerResult, t: Times,
                             rows1: Table, cache1: map<Key, Entry<Record>>, rows1': Table, cache1': map<Key, Entry<Record>>,
                             answer1: D.Answer,
                             rows2: Table, cache2: map<Key, Entry<Record>>, rows2': Table, cache2': map<Key, Entry<Record>>,
                             answer2: D.Answer)
    requires Answered(Some(header), scope, hash, ttlSeconds, claim, result, t, rows1, cache1, rows1', cache1', answer1)
    requires Answered(Some(header), scope, hash, ttlSeconds, claim, result, t, rows2, cache2, rows2', cache2', answer2)
    requires AgreeAt(rows1, rows2, (header, scope)) && AgreeAt(cache1, cache2, (header, scope))
    ensures header != "" ==> AgreeAt(rows1', rows2', (header, scope)) && AgreeAt(cache1', cache2', (header, scope))
  {
    assert Lookup(rows1, cache1, (header, scope), t.cache, t.table) == Lookup(rows2, cache2, (header, scope), t.cache, t.table);
  }

  /** So a request under another scope, or with another header, neither sees nor disturbs this one. */
  lemma ScopesAreApart(header: string, scope: string, header2: string, scope2: string, hash: Hash, hash2: Hash,
                       ttlSeconds: Option<int>, ttlSeconds2: Option<int>, claim: nat, claim2: nat,
                       result: D.HandlerResult, result2: D.HandlerResult, t: Times, t2: Times,
                       rows: Table, cache: map<Key, Entry<Record>>,
                       between: Table, cached: map<Key, Entry<Record>>, answer: D.Answer,
                       rows': Table, cache': map<Key, Entry<Record>>, answer2: D.Answer,
                       alone: Table, aloneCached: map<Key, Entry<Record>>, answerAlone: D.Answer)
    requires header != header2 || scope != scope2
    requires Answered(Some(header), scope, hash, ttlSeconds, claim, result, t, rows, cache, between, cached, answer)
    requires Answered(Some(header2), scope2, hash2, ttlSeconds2, claim2, result2, t2, between, cached, rows', cache', answer2)
    requires Answered(Some(header2), scope2, hash2, ttlSeconds2, claim2, result2, t2, rows, cache, alone, aloneCached,
                      answerAlone)
    ensures answer2 == answerAlone
  {
    TouchesOwnKeyOnly(header, scope, hash, ttlSeconds, claim, result, t, rows, cache, between, cached, answer);
    assert AgreeAt(rows, between, (header2, scope2)) && AgreeAt(cache, cached, (header2, scope2));
    AnswersForOwnKeyAlone(header2, scope2, hash2, ttlSeconds2, claim2, result2, t2,
                          between, cached, rows', cache', answer2, rows, cache, alone, aloneCached, answerAlone);
  }

  /**
   Execute, then replay: once a request has settled its row in time, any request for the key before the row
   expires is answered from what was recorded if its payload hash matches, and with a 400 if it does not.
   A recorded response comes back whole. Of a recorded error message, code and category come back, and it is
   told with the claimant's status only if that was 500.
   */
  lemma ExecutedThenReplayed(rows: Table, cache: map<Key, Entry<Record>>, rows': Table, cache': map<Key, Entry<Record>>,
                             k: Key, hash: Hash, ttlSeconds: int, claim: nat, result: D.HandlerResult, t: Times,
                             outcome: Outcome, cacheAt: int, tableAt: int, hash': Hash)
    requires InOrder(t) && D.HandlerOutcome(result) == Some(outcome)
    requires Executed(rows, cache, rows', cache', k, hash, ttlSeconds, claim, result, t, D.Answer.Executed(outcome, result))
    requires t.cached <= cacheAt <= tableAt < t.claim + 1000 * ttlSeconds
    ensures
      var found := Lookup(rows', cache', k, cacheAt, tableAt);
      && found.Some?
      && D.Reply(found.value, hash') ==
         if hash' == hash then D.Replayed(outcome, claim) else D.PayloadMismatch(claim)
    ensures D.Reproduces(result, outcome)
    ensures D.SameStatus(D.TellReplay(outcome), D.TellResult(result)) <==>
              result.Returned? || D.AlwaysToldAs500(result.error)
  {
    ResolveThenRead(Claimed(hash, ttlSeconds, t.claim, claim), outcome, t.marked);
    D.ToldAlikeIff(result, outcome);
  }

  /** The record a request finds: the cached one while it lives, and otherwise the row, while it has not expired. */
  predicate Found(rows: Table, cache: map<Key, Entry<Record>>, k: Key, t: Times, record: Record) {
    if k in cache && (cache[k].until.None? || t.cache < cache[k].until.value) then record == cache[k].value
    else k in rows && rows[k] == record && t.table < record.expiresAt
  }

  /**
   A request that finds a record runs nothing and changes nothing. Another payload gets a 400 whatever the record says,
   the same payload a 409 while the first request is still at it, and afterwards what that request recorded.
   */
  lemma AnsweredFromRecord(header: string, scope: string, hash: Hash, ttlSeconds: Option<int>, claim: nat,
                           result: D.HandlerResult, t: Times, rows: Table, cache: map<Key, Entry<Record>>,
                           rows': Table, cache': map<Key, Entry<Record>>, answer: D.Answer, record: Record)
    requires header != "" && Found(rows, cache, (header, scope), t, record) && Shape(record)
    requires Answered(Some(header), scope, hash, ttlSeconds, claim, result, t, rows, cache, rows', cache', answer)
    ensures rows' == rows && cache' == cache
    ensures answer ==
      if hash != record.hash then D.PayloadMismatch(record.claim)
      else match record.status
        case InProgress => D.AlreadyProcessing
        case Completed => D.Replayed(Response(record.response.value), record.claim)
        case Failed => D.Replayed(Error(record.error.value), record.claim)
  {
  }

  /** An expired row answers nobody and still keeps the handler from running: 500, until the daily delete. */
  lemma ExpiredRowIsNotFound(header: string, scope: string, hash: Hash, ttlSeconds: Option<int>, claim: nat,
                             result: D.HandlerResult, t: Times, rows: Table, cache: map<Key, Entry<Record>>,
                             rows': Table, cache': map<Key, Entry<Record>>, answer: D.Answer)
    requires header != "" && (header, scope) in rows && rows[(header, scope)].expiresAt <= t.table
    requires (header, scope) !in cache
    requires Answered(Some(header), scope, hash, ttlSeconds, claim, result, t, rows, cache, rows', cache', answer)
    ensures answer == D.RecordNotFound && rows' == rows && cache' == cache
  {
  }

  /** A retryable failure leaves nothing behind: the next request, whatever its payload, runs its handler. */
  lemma RetryableRunsAgain(header: string, scope: string, hash: Hash, claim: nat,
                           message: string, name: string, status: int, t: Times,
                           rows: Table, cache: map<Key, Entry<Record>>, answer: D.Answer,
                           hash2: Hash, claim2: nat, value: string, t2: Times,
                           rows2: Table, cache2: map<Key, Entry<Record>>, answer2: D.Answer)
    requires header != "" && (status >= 500 || status == 429 || status == 408)
    requires Answered(Some(header), scope, hash, None, claim, D.Threw(Http(message, name, status)), t,
                      map[], map[], rows, cache, answer)
    requires Answered(Some(header), scope, hash2, None, claim2, D.Returned(value), t2, rows, cache, rows2, cache2, answer2)
    ensures answer == D.Rethrown && rows == map[] && cache == map[]
    ensures answer2 == D.Answer.Executed(Response(value), D.Returned(value))
  {
  }

  /**
   A handler that outlasts its TTL records nothing: its client is told the result all the same, the row stays in
   progress, and the next request is told 500.
   */
  lemma OutlastedTtl(header: string, scope: string, hash: Hash, ttlSeconds: int, claim: nat, value: string, t: Times,
                     rows: Table, cache: map<Key, Entry<Record>>, answer: D.Answer,
                     result2: D.HandlerResult, t2: Times, rows2: Table, cache2: map<Key, Entry<Record>>, answer2: D.Answer)
    requires header != "" && InOrder(t) && t.claim + 1000 * ttlSeconds <= t.marked <= t2.table
    requires Answered(Some(header), scope, hash, Some(ttlSeconds), claim, D.Returned(value), t, map[], map[],
                      rows, cache, answer)
    requires Answered(Some(header), scope, hash, Some(ttlSeconds), claim + 1, result2, t2, rows, cache, rows2, cache2, answer2)
    ensures answer == D.Answer.Executed(Response(value), D.Returned(value)) && cache == map[]
    ensures (header, scope) in rows && rows[(header, scope)].status == InProgress
    ensures answer2 == D.RecordNotFound
  {
  }

  /** A settled record is cached up to its expiry, rounded up to the second; cached after that it stays for ever. */
  lemma CachedAfterSettling(rows: Table, cache: map<Key, Entry<Record>>, rows': Table, cache': map<Key, Entry<Record>>,
                            k: Key, hash: Hash, ttlSeconds: int, claim: nat, value: string, t: Times, answer: D.Answer, at: int)
    requires InOrder(t) && t.marked < t.claim + 1000 * ttlSeconds
    requires Executed(rows, cache, rows', cache', k, hash, ttlSeconds, claim, D.Returned(value), t, answer)
    ensures k in rows' && rows'[k].status == Completed && rows'[k].response == Some(value)
    ensures k in rows' && rows'[k].resolvedAt == Some(t.marked)
    ensures
      var left := t.claim + 1000 * ttlSeconds - t.cached;
      if left <= 0 then Get(cache', k, at) == Some(rows'[k])
      else
        && (at < t.cached + left ==> Get(cache', k, at) == Some(rows'[k]))
        && (at >= t.cached + left + 999 ==> Get(cache', k, at).None?)
  {
  }

  /** With nothing stored, the handler runs; without a TTL given its response is replayed for a day, and not longer. */
  lemma ReplayedForADay(header: string, scope: string, hash: Hash, claim: nat, value: string, t: Times,
                        rows: Table, cache: map<Key, Entry<Record>>, answer: D.Answer, later: int)
    requires header != "" && InOrder(t) && t.cached <= later && t.cached < t.claim + 86_400_000
    requires Answered(Some(header), scope, hash, None, claim, D.Returned(value), t, map[], map[], rows, cache, answer)
    ensures answer == D.Answer.Executed(Response(value), D.Returned(value))
    ensures
      var found := FindActive(rows, (header, scope), later);
      if later < t.claim + 86_400_000
      then found.Some? && D.Reply(found.value, hash) == D.Replayed(Response(value), claim)
      else found.None?
  {
  }

  /** A handler throws BadRequestException('Invalid input'); a second later the same request comes again. */
  lemma BadRequestReplayedAs500(k: Key, hash: Hash, claim: nat, rows: Table, cache: map<Key, Entry<Record>>, answer: D.Answer)
    requires
      var result := D.Threw(Http("Invalid input", "BadRequestException", 400));
      Executed(map[], map[], rows, cache, k, hash, 86_400, claim, result, Times(0, 0, 0, 0, 0, 0, 0), answer)
    ensures answer.Executed? && D.TellResult(answer.result) == Failure(400, "Invalid input", None)
    ensures
      var found := Lookup(rows, cache, k, 1000, 1000);
      && found.Some? && D.Reply(found.value, hash).Replayed?
      && D.TellReplay(D.Reply(found.value, hash).outcome) == Failure(500, GENERIC, None)
  {
    var result := D.Threw(Http("Invalid input", "BadRequestException", 400));
    var outcome := Error(Recorded(result.error));
    assert D.HandlerOutcome(result) == Some(outcome);
    ExecutedThenReplayed(map[], map[], rows, cache, k, hash, 86_400, claim, result, Times(0, 0, 0, 0, 0, 0, 0), outcome,
                         1000, 1000, hash);
  }

  class RedisIdempotencyStrategy {
    const redis: RedisService<R.RedisRecord>

    constructor (redis: RedisService<R.RedisRecord>)
      ensures this.redis == redis
    {
      this.redis := redis;
    }

    method Handle(header: Option<string>, scope: string, hash: Hash, ttlSeconds: Option<nat>, claim: nat,
                  result: D.HandlerResult, readable: bool, look: int, create: int, marked: int)
      returns (answer: D.Answer)
      requires look <= create <= marked
      modifies redis
      ensures RedisAnswered(header, scope, hash, ttlSeconds, claim, result, readable, look, marked,
                            old(redis.store), redis.store, answer)
    {
      if header.None? || header.value == "" {
        return D.MissingKey;
      }
      var k := (header.value, scope);
      if !readable {
        return D.Unavailable;
      }
      var ttl := if ttlSeconds.None? then TTL_SECONDS else ttlSeconds.value;
      ghost var store := redis.store;
      var existing := redis.Lookup(k, look);
      if existing.Some? {
        return R.Reply(existing.value, hash);
      }
      var created := redis.SetNX(k, R.RedisRecord(hash, InProgress, None, None, claim), R.IP_TTL_SECONDS, create);
      assert created;
      match result {
        case Returned(value) =>
          redis.Set(k, R.RedisRecord(hash, Completed, Some(value), None, claim), ttl, marked);
          answer := D.Answer.Executed(Response(value), result);
        case Threw(error) =>
          if IsDeterministic(StatusOf(error)) {
            redis.Set(k, R.RedisRecord(hash, Failed, None, Some(Recorded(error)), claim), ttl, marked);
            answer := D.Answer.Executed(Error(Recorded(error)), result);
          } else {
            redis.Del(k);
            assert redis.store == store - {k};
            answer := D.Rethrown;
          }
      }
    }
  }

  /** What one undisturbed request leaves in Redis and answers, in every branch. */
  predicate RedisAnswered(header: Option<string>, scope: string, hash: Hash, ttlSeconds: Option<nat>, claim: nat,
                          result: D.HandlerResult, readable: bool, look: int, marked: int,
                          store: map<Key, Entry<R.RedisRecord>>, store': map<Key, Entry<R.RedisRecord>>, answer: D.Answer)
  {
    var key := KeyOf(header, scope);
    var outcome := D.HandlerOutcome(result);
    if key.None? then answer == D.MissingKey && store' == store
    else if !readable then answer == D.Unavailable && store' == store
    else
      var found := Get(store, key.value, look);
      if found.Some? then answer == R.Reply(found.value, hash) && store' == store
      else if outcome.None? then answer == D.Rethrown && store' == store - {key.value}
      else
        && answer == D.Answer.Executed(outcome.value, result)
        && store' == Put(store, key.value, R.Finished(hash, outcome.value, claim),
                         if ttlSeconds.None? then TTL_SECONDS else ttlSeconds.value, marked)
  }

  /** A request touches the record of its own header and scope, and no others. */
  lemma RedisTouchesOwnKeyOnly(header: string, scope: string, hash: Hash, ttlSeconds: Option<nat>, claim: nat,
                               result: D.HandlerResult, readable: bool, look: int, marked: int,
                               store: map<Key, Entry<R.RedisRecord>>, store': map<Key, Entry<R.RedisRecord>>, answer: D.Answer)
    requires RedisAnswered(Some(header), scope, hash, ttlSeconds, claim, result, readable, look, marked, store, store', answer)
    ensures header != "" ==> AgreeElsewhere(store, store', (header, scope))
    ensures header == "" ==> store' == store && answer == D.MissingKey
  {
  }

  /** And its answer depends on that record alone. */
  lemma RedisAnswersForOwnKeyAlone(header: string, scope: string, hash: Hash, ttlSeconds: Option<nat>, claim: nat,
                                   result: D.HandlerResult, readable: bool, look: int, marked: int,
                                   store1: map<Key, Entry<R.RedisRecord>>, store1': map<Key, Entry<R.RedisRecord>>,
                                   answer1: D.Answer,
                                   store2: map<Key, Entry<R.RedisRecord>>, store2': map<Key, Entry<R.RedisRecord>>,
                                   answer2: D.Answer)
    requires RedisAnswered(Some(header), scope, hash, ttlSeconds, claim, result, readable, look, marked,
                           store1, store1', answer1)
    requires RedisAnswered(Some(header), scope, hash, ttlSeconds, claim, result, readable, look, marked,
                           store2, store2', answer2)
    requires AgreeAt(store1, store2, (header, scope))
    ensures answer1 == answer2
    ensures header != "" ==> AgreeAt(store1', store2', (header, scope))
  {
  }

  /** So a request under another scope, or with another header, neither sees nor disturbs this one. */
  lemma RedisScopesAreApart(header: string, scope: string, header2: string, scope2: string, hash: Hash, hash2: Hash,
                            ttlSeconds: Option<nat>, ttlSeconds2: Option<nat>, claim: nat, claim2: nat,
                            result: D.HandlerResult, result2: D.HandlerResult, readable: bool, readable2: bool,
                            look: int, marked: int, look2: int, marked2: int, store: map<Key, Entry<R.RedisRecord>>,
                            between: map<Key, Entry<R.RedisRecord>>, answer: D.Answer,
                            store': map<Key, Entry<R.RedisRecord>>, answer2: D.Answer,
                            alone: map<Key, Entry<R.RedisRecord>>, answerAlone: D.Answer)
    requires header != header2 || scope != scope2
    requires RedisAnswered(Some(header), scope, hash, ttlSeconds, claim, result, readable, look, marked, store, between, answer)
    requires RedisAnswered(Some(header2), scope2, hash2, ttlSeconds2, claim2, result2, readable2, look2, marked2,
                           between, store', answer2)
    requires RedisAnswered(Some(header2), scope2, hash2, ttlSeconds2, claim2, result2, readable2, look2, marked2,
                           store, alone, answerAlone)
    ensures answer2 == answerAlone
  {
    RedisTouchesOwnKeyOnly(header, scope, hash, ttlSeconds, claim, result, readable, look, marked, store, between, answer);
    assert AgreeAt(store, between, (header2, scope2));
    RedisAnswersForOwnKeyAlone(header2, scope2, hash2, ttlSeconds2, claim2, result2, readable2, look2, marked2,
                               between, store', answer2, store, alone, answerAlone);
  }

  /**
   Execute, then replay, on Redis: what a request settled answers every later request for its header and scope,
   its hash with the outcome and other hashes with a 400, for the TTL asked for, a day without one, and for
   ever with a TTL of 0.
   */
  lemma RedisExecutedThenReplayed(header: string, scope: string, hash: Hash, ttlSeconds: Option<nat>, claim: nat,
                                  result: D.HandlerResult, outcome: Outcome, look: int, marked: int,
                                  store: map<Key, Entry<R.RedisRecord>>, store': map<Key, Entry<R.RedisRecord>>,
                                  answer: D.Answer, later: int, hash2: Hash)
    requires header != "" && Get(store, (header, scope), look).None? && D.HandlerOutcome(result) == Some(outcome)
    requires RedisAnswered(Some(header), scope, hash, ttlSeconds, claim, result, true, look, marked, store, store', answer)
    ensures answer == D.Answer.Executed(outcome, result)
    ensures
      var found := Get(store', (header, scope), later);
      && (found.Some? <==>
            ttlSeconds == Some(0) || later < marked + 1000 * (if ttlSeconds.None? then 86_400 else ttlSeconds.value))
      && (found.Some? ==>
            R.Reply(found.value, hash2) == if hash2 == hash then D.Replayed(outcome, claim) else D.PayloadMismatch(claim))
  {
  }

  /** A request that finds a record in Redis changes nothing and is answered from it; without Redis it gets a 503. */
  lemma RedisAnsweredFromRecord(header: string, scope: string, hash: Hash, ttlSeconds: Option<nat>, claim: nat,
                                result: D.HandlerResult, readable: bool, look: int, marked: int,
                                store: map<Key, Entry<R.RedisRecord>>, store': map<Key, Entry<R.RedisRecord>>, answer: D.Answer)
    requires header != "" && (header, scope) in store
    requires store[(header, scope)].until.None? || look < store[(header, scope)].until.value
    requires RedisAnswered(Some(header), scope, hash, ttlSeconds, claim, result, readable, look, marked, store, store', answer)
    ensures store' == store
    ensures
      var record := store[(header, scope)].value;
      answer == if !readable then D.Unavailable
                else if hash != record.hash then D.PayloadMismatch(record.claim)
                else if record.status == InProgress then D.AlreadyProcessing
                else D.Replayed(R.OutcomeIn(record), record.claim)
  {
  }

  /** A retryable failure leaves nothing in Redis either: the next request runs its handler. */
  lemma RedisRetryableRunsAgain(header: string, scope: string, hash: Hash, claim: nat,
                                message: string, name: string, status: int, look: int, marked: int,
                                store: map<Key, Entry<R.RedisRecord>>, answer: D.Answer,
                                hash2: Hash, claim2: nat, value: string, look2: int, marked2: int,
                                store2: map<Key, Entry<R.RedisRecord>>, answer2: D.Answer)
    requires header != "" && (status >= 500 || status == 429 || status == 408)
    requires RedisAnswered(Some(header), scope, hash, None, claim, D.Threw(Http(message, name, status)), true, look, marked,
                           map[], store, answer)
    requires RedisAnswered(Some(header), scope, hash2, None, claim2, D.Returned(value), true, look2, marked2,
                           store, store2, answer2)
    ensures answer == D.Rethrown && store == map[]
    ensures answer2 == D.Answer.Executed(Response(value), D.Returned(value))
  {
  }
}
