/** The idempotency table and its statements. Times are milliseconds. */
module IdempotencyRepository {
  import opened Optional
  import opened IdempotencyErrors

  /** Idempotency key and scope: the table's primary key, and the two parts of the Redis key. */
  type Key = (string, string)
  type Hash = string

  datatype Status = InProgress | Completed | Failed

  /**
   `claim` is the number of the request that inserted the row. No code reads it; it only tells
   one life of a key from the next.
   */
  datatype Record = Record(
    hash: Hash,
    status: Status,
    response: Option<string>,
    error: Option<ErrorRecord>,
    createdAt: int,
    expiresAt: int,
    resolvedAt: Option<int>,
    claim: nat)

  type Table = map<Key, Record>

  datatype Outcome = Response(value: string) | Error(payload: ErrorRecord)

  const SWEEP_THRESHOLD_MS: int := 5 * 60 * 1000
  const NULL_ERROR: ErrorRecord := ErrorRecord("", None, None, None, None)

  function Claimed(hash: Hash, ttlSeconds: int, now: int, claim: nat): Record {
    Record(hash, InProgress, None, None, now, now + 1000 * ttlSeconds, None, claim)
  }

  function Resolve(r: Record, o: Outcome, now: int): Record {
    match o
    case Response(v) => r.(status := Completed, response := Some(v), resolvedAt := Some(now))
    case Error(e) => r.(status := Failed, error := Some(e), resolvedAt := Some(now))
  }

  predicate Active(r: Record, now: int) {
    r.expiresAt > now
  }

  predicate Open(r: Record, now: int) {
    r.status == InProgress && Active(r, now)
  }

  predicate Stale(r: Record, now: int) {
    r.status == InProgress && r.createdAt < now - SWEEP_THRESHOLD_MS
  }

  function TryClaim(rows: Table, k: Key, hash: Hash, ttlSeconds: int, now: int, claim: nat): Table {
    if k in rows then rows else rows[k := Claimed(hash, ttlSeconds, now, claim)]
  }

  function FindActive(rows: Table, k: Key, now: int): Option<Record> {
    if k in rows && Active(rows[k], now) then Some(rows[k]) else None
  }

  function Marked(rows: Table, k: Key, o: Outcome, now: int): Table {
    if k in rows && Open(rows[k], now) then rows[k := Resolve(rows[k], o, now)] else rows
  }

  function WithoutExpired(rows: Table, now: int): Table {
    map k | k in rows && rows[k].expiresAt >= now :: rows[k]
  }

  function Swept(rows: Table, now: int): Table {
    map k | k in rows :: if Stale(rows[k], now) then Resolve(rows[k], Error(TIMED_OUT), now) else rows[k]
  }

  /** chk_idempotency_response_or_error. */
  predicate Shape(r: Record) {
    match r.status
    case Completed => r.response.Some? && r.error.None? && r.resolvedAt.Some?
    case Failed => r.response.None? && r.error.Some? && r.resolvedAt.Some?
    case InProgress => r.response.None? && r.error.None? && r.resolvedAt.None?
  }

  predicate Terminal(r: Record) {
    r.status != InProgress && Shape(r)
  }

  /** What replayRecord reads back; an absent column is null, which the table's CHECK rules out. */
  function OutcomeOf(r: Record): Outcome {
    if r.status == Failed then Error(if r.error.Some? then r.error.value else NULL_ERROR)
    else Response(if r.response.Some? then r.response.value else "null")
  }

  /** What a resolution records is what a replay will read back. */
  lemma ResolveThenRead(r: Record, o: Outcome, now: int)
    requires Shape(r) && r.status == InProgress
    ensures Terminal(Resolve(r, o, now)) && OutcomeOf(Resolve(r, o, now)) == o
    ensures var r' := Resolve(r, o, now);
            r'.hash == r.hash && r'.claim == r.claim && r'.expiresAt == r.expiresAt && r'.createdAt == r.createdAt
  {
  }

  /**
   The life of a claimed row, in its columns. Claimed at `t` with a TTL of n seconds it is found before
   t + 1000 n and not from then on; a mark before then resolves it, one from then on does nothing; the daily
   delete takes it after that instant; the sweep fails it when more than five minutes have passed.
   */
  lemma RowLife(rows: Table, k: Key, hash: Hash, ttlSeconds: int, t: int, claim: nat, o: Outcome, now: int)
    requires k !in rows
    ensures
      var claimed := TryClaim(rows, k, hash, ttlSeconds, t, claim);
      && claimed.Keys == rows.Keys + {k} && (forall other | other in rows :: claimed[other] == rows[other])
      && claimed[k] == Record(hash, InProgress, None, None, t, t + 1000 * ttlSeconds, None, claim)
      && FindActive(claimed, k, now) == (if now < t + 1000 * ttlSeconds then Some(claimed[k]) else None)
      && (k in WithoutExpired(claimed, now) <==> now <= t + 1000 * ttlSeconds)
      && Marked(claimed, k, o, now) ==
         (if now >= t + 1000 * ttlSeconds then claimed
          else claimed[k := Record(hash, if o.Response? then Completed else Failed,
                                   if o.Response? then Some(o.value) else None,
                                   if o.Error? then Some(o.payload) else None,
                                   t, t + 1000 * ttlSeconds, Some(now), claim)])
      && Swept(claimed, now)[k] ==
         if now <= t + 300_000 then claimed[k]
         else Record(hash, Failed, None, Some(ErrorRecord("Request timed out", None, None, None, None)),
                     t, t + 1000 * ttlSeconds, Some(now), claim)
  {
  }

  /** A key that has a row cannot be claimed, and a resolved row is neither marked nor swept. */
  lemma ResolvedRowStays(rows: Table, k: Key, hash: Hash, ttlSeconds: int, claim: nat, o: Outcome, now: int)
    requires k in rows
    ensures TryClaim(rows, k, hash, ttlSeconds, now, claim) == rows
    ensures rows[k].status != InProgress ==> Marked(rows, k, o, now) == rows && Swept(rows, now)[k] == rows[k]
    ensures forall other | other in rows && other != k :: Marked(rows, k, o, now)[other] == rows[other]
  {
  }

  class IdempotencyKyselyRepository {
    var rows: Table

    constructor ()
      ensures rows == map[]
    {
      rows := map[];
    }

    method Claim(k: Key, hash: Hash, ttlSeconds: int, now: int, claim: nat) returns (claimed: bool)
      modifies this
      ensures rows == TryClaim(old(rows), k, hash, ttlSeconds, now, claim)
      ensures claimed <==> k !in old(rows)
    {
      claimed := k !in rows;
      if claimed {
        rows := rows[k := Record(hash, InProgress, None, None, now, now + 1000 * ttlSeconds, None, claim)];
      }
    }

    method FindActiveRecord(k: Key, now: int) returns (r: Option<Record>)
      ensures r == FindActive(rows, k, now)
    {
      r := None;
      if k in rows && now < rows[k].expiresAt {
        r := Some(rows[k]);
      }
    }

    method MarkCompleted(k: Key, response: string, now: int) returns (r: Option<Record>)
      modifies this
      ensures rows == Marked(old(rows), k, Response(response), now)
      ensures r == if k in old(rows) && Open(old(rows)[k], now) then Some(rows[k]) else None
    {
      r := None;
      if k in rows && rows[k].status == InProgress && rows[k].expiresAt > now {
        rows := rows[k := rows[k].(status := Completed, response := Some(response), resolvedAt := Some(now))];
        r := Some(rows[k]);
      }
    }

    method MarkFailed(k: Key, error: ErrorRecord, now: int) returns (r: Option<Record>)
      modifies this
      ensures rows == Marked(old(rows), k, Error(error), now)
      ensures r == if k in old(rows) && Open(old(rows)[k], now) then Some(rows[k]) else None
    {
      r := None;
      if k in rows && rows[k].status == InProgress && rows[k].expiresAt > now {
        rows := rows[k := rows[k].(status := Failed, error := Some(error), resolvedAt := Some(now))];
        r := Some(rows[k]);
      }
    }

    method DeleteRecord(k: Key)
      modifies this
      ensures rows == old(rows) - {k}
    {
      rows := rows - {k};
    }

    method DeleteExpired(now: int)
      modifies this
      ensures rows == WithoutExpired(old(rows), now)
    {
      var expired := set k | k in rows && rows[k].expiresAt < now;
      rows := rows - expired;
    }

    method SweepStaleInProgress(now: int)
      modifies this
      ensures rows == Swept(old(rows), now)
    {
      var threshold := now - 5 * 60 * 1000;
      var stale := set k | k in rows && rows[k].status == InProgress && rows[k].createdAt < threshold;
      rows := rows + map k | k in stale ::
        rows[k].(status := Failed, error := Some(ErrorRecord("Request timed out", None, None, None, None)),
                 resolvedAt := Some(now));
    }
  }
}
