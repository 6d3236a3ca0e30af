/** The action token aggregate. Instants are nanoseconds; the database keeps whole milliseconds. */
module ActionToken {
  import opened Optional

  type Id = nat
  type User = nat

  datatype Purpose = EmailVerification | PasswordReset | EmailChange | MagicLogin
  datatype Reason = Manual | Superseded | AttemptsExceeded

  datatype Token = Token(
    id: Id,
    userId: User,
    purpose: Purpose,
    tokenHash: string,
    createdAt: int,
    expiresAt: int,
    consumedAt: Option<int>,
    revokedAt: Option<int>,
    revokedReason: Option<Reason>,
    version: nat)

  const NS_PER_MS: int := 1_000_000

  /** Instant.toDate: the millisecond the instant falls in. */
  function Truncated(instant: int): int {
    instant / NS_PER_MS * NS_PER_MS
  }

  predicate IsUsable(t: Token, now: int) {
    t.consumedAt.None? && t.revokedAt.None? && now < t.expiresAt
  }

  /** The token after consume, or nothing where consume throws. */
  function Consumed(t: Token, purpose: Purpose, now: int): Option<Token> {
    if IsUsable(t, now) && t.purpose == purpose then Some(t.(consumedAt := Some(now), version := t.version + 1))
    else None
  }

  function Revoked(t: Token, reason: Reason, now: int): Token {
    if t.consumedAt.Some? || t.revokedAt.Some? then t
    else t.(revokedAt := Some(now), revokedReason := Some(reason), version := t.version + 1)
  }

  /** The version counts what happened: one consumption or one revocation, never both. */
  predicate Consistent(t: Token) {
    && t.version == (if t.consumedAt.Some? then 1 else 0) + (if t.revokedAt.Some? then 1 else 0)
    && !(t.consumedAt.Some? && t.revokedAt.Some?)
    && (t.revokedAt.Some? <==> t.revokedReason.Some?)
    && (t.consumedAt.Some? ==> t.consumedAt.value < t.expiresAt)
  }

  lemma CommandsKeepConsistency(t: Token, purpose: Purpose, reason: Reason, now: int)
    requires Consistent(t)
    ensures Consumed(t, purpose, now).Some? ==> t.version == 0 && Consistent(Consumed(t, purpose, now).value)
    ensures Consistent(Revoked(t, reason, now))
    ensures t.version > 0 ==> Revoked(t, reason, now) == t && Consumed(t, purpose, now).None?
  {
  }

  /** An open token can be consumed once, for its purpose, before it expires; the instant is kept and the version counts. */
  lemma ConsumedIff(t: Token, purpose: Purpose, now: int)
    ensures Consumed(t, purpose, now).Some? <==>
      t.consumedAt.None? && t.revokedAt.None? && now < t.expiresAt && t.purpose == purpose
    ensures Consumed(t, purpose, now).Some? ==>
      Consumed(t, purpose, now).value == t.(consumedAt := Some(now), version := t.version + 1)
  {
  }

  /** A token can be revoked once, expired or not, unless it was consumed; the first reason stays. */
  lemma RevokedOnce(t: Token, reason: Reason, now: int, reason': Reason, now': int)
    ensures t.consumedAt.None? && t.revokedAt.None? ==>
      Revoked(t, reason, now) == t.(revokedAt := Some(now), revokedReason := Some(reason), version := t.version + 1)
    ensures t.consumedAt.Some? || t.revokedAt.Some? ==> Revoked(t, reason, now) == t
    ensures Revoked(Revoked(t, reason, now), reason', now') == Revoked(t, reason, now)
  {
  }

  class ActionTokenAggregate {
    const id: Id
    const userId: User
    const purpose: Purpose
    const tokenHash: string
    const createdAt: int
    const expiresAt: int
    var consumedAt: Option<int>
    var revokedAt: Option<int>
    var revokedReason: Option<Reason>
    var version: nat

    function Snapshot(): Token
      reads this
    {
      Token(id, userId, purpose, tokenHash, createdAt, expiresAt, consumedAt, revokedAt, revokedReason, version)
    }

    constructor Reconstitute(t: Token)
      ensures Snapshot() == t
    {
      id, userId, purpose, tokenHash := t.id, t.userId, t.purpose, t.tokenHash;
      createdAt, expiresAt := t.createdAt, t.expiresAt;
      consumedAt, revokedAt, revokedReason, version := t.consumedAt, t.revokedAt, t.revokedReason, t.version;
    }

    /** Throws, and changes nothing, unless the token is usable and of this purpose. */
    method Consume(purpose: Purpose, now: int) returns (ok: bool)
      modifies this
      ensures ok <==> Consumed(old(Snapshot()), purpose, now).Some?
      ensures Snapshot() == if ok then Consumed(old(Snapshot()), purpose, now).value else old(Snapshot())
    {
      if consumedAt.Some? || revokedAt.Some? || now >= expiresAt || this.purpose != purpose {
        return false;
      }
      consumedAt := Some(now);
      version := version + 1;
      ok := true;
    }

    method Revoke(reason: Reason, now: int)
      modifies this
      ensures Snapshot() == Revoked(old(Snapshot()), reason, now)
    {
      if revokedAt.Some? || consumedAt.Some? {
        return;
      }
      revokedAt := Some(now);
      revokedReason := Some(reason);
      version := version + 1;
    }
  }

  /** The ids of loaded tokens. */
  function IdsOf(tokens: seq<ActionTokenAggregate>): set<Id> {
    set t | t in tokens :: t.id
  }

  predicate DistinctIds(tokens: seq<ActionTokenAggregate>) {
    forall i, j | 0 <= i < j < |tokens| :: tokens[i].id != tokens[j].id
  }

  lemma OneMoreLoaded(tokens: seq<ActionTokenAggregate>, t: ActionTokenAggregate)
    requires DistinctIds(tokens) && t.id !in IdsOf(tokens)
    ensures DistinctIds(tokens + [t]) && IdsOf(tokens + [t]) == IdsOf(tokens) + {t.id}
  {
    assert forall i | 0 <= i < |tokens| :: tokens[i].id in IdsOf(tokens);
  }

  // ---- The action_tokens table ----

  type Table = map<Id, Token>

  /** What a write stores and a read gives back: every instant cut to its millisecond. */
  function Stored(t: Token): Token {
    t.(createdAt := Truncated(t.createdAt), expiresAt := Truncated(t.expiresAt),
       consumedAt := if t.consumedAt.Some? then Some(Truncated(t.consumedAt.value)) else None,
       revokedAt := if t.revokedAt.Some? then Some(Truncated(t.revokedAt.value)) else None)
  }

  predicate WholeMs(instant: int) {
    instant == Truncated(instant)
  }

  /** The finders compare the stored expiry with the current millisecond. */
  predicate FinderSelects(t: Token, now: int) {
    t.revokedAt.None? && t.consumedAt.None? && t.expiresAt > Truncated(now)
  }

  /** On a whole-millisecond expiry the finder's filter and isUsable agree; that is what is stored. */
  lemma FinderAgreesWithIsUsable(t: Token, now: int)
    ensures WholeMs(t.expiresAt) ==> (FinderSelects(t, now) <==> IsUsable(t, now))
    ensures WholeMs(Stored(t).expiresAt)
    ensures (forall later :: FinderSelects(t, later) <==> IsUsable(t, later)) ==>
              WholeMs(t.expiresAt) || t.consumedAt.Some? || t.revokedAt.Some?
  {
    var e := t.expiresAt;
    if !WholeMs(e) && t.consumedAt.None? && t.revokedAt.None? {
      assert FinderSelects(t, e) && !IsUsable(t, e);
    }
  }

  function Inserted(rows: Table, t: Token): Table {
    rows[t.id := Stored(t)]
  }

  /** Primary key, unique token hash and expiry check. */
  predicate CanInsert(rows: Table, t: Token) {
    && t.id !in rows
    && (forall id | id in rows :: rows[id].tokenHash != t.tokenHash)
    && Stored(t).expiresAt > Stored(t).createdAt
  }

  /** A token is stored iff its id and hash are new and it expires in a later millisecond than it is created in. */
  lemma InsertableIff(rows: Table, t: Token)
    ensures CanInsert(rows, t) <==>
      && t.id !in rows && (forall id | id in rows :: rows[id].tokenHash != t.tokenHash)
      && t.createdAt / 1_000_000 < t.expiresAt / 1_000_000
    ensures
      var row := Inserted(rows, t)[t.id];
      && row.userId == t.userId && row.purpose == t.purpose && row.tokenHash == t.tokenHash
      && row.createdAt / 1_000_000 == t.createdAt / 1_000_000 && row.createdAt % 1_000_000 == 0
      && row.expiresAt / 1_000_000 == t.expiresAt / 1_000_000 && row.expiresAt % 1_000_000 == 0
      && Inserted(rows, t) - {t.id} == rows - {t.id}
  {
  }

  /** The optimistic-concurrency guard: the row is at the version the token was read at. */
  predicate GuardHolds(rows: Table, t: Token) {
    t.id in rows && rows[t.id].version == t.version - 1
  }

  function Updated(rows: Table, t: Token): Table {
    if GuardHolds(rows, t) then rows[t.id := Stored(t)] else rows
  }

  function UsableIds(rows: Table, user: User, purpose: Purpose, now: int): set<Id> {
    set id | id in rows && rows[id].userId == user && rows[id].purpose == purpose && FinderSelects(rows[id], now)
  }

  function UsableIdsOf(rows: Table, user: User, now: int): set<Id> {
    set id | id in rows && rows[id].userId == user && FinderSelects(rows[id], now)
  }

  function RevokedByIds(rows: Table, ids: set<Id>, reason: Reason, now: int): Table {
    map id | id in rows ::
      if id in ids && rows[id].revokedAt.None? && rows[id].consumedAt.None?
      then rows[id].(revokedAt := Some(Truncated(now)), revokedReason := Some(reason), version := rows[id].version + 1)
      else rows[id]
  }

  function ExpiredIds(rows: Table, before: int): set<Id> {
    set id | id in rows && rows[id].expiresAt < Truncated(before)
  }

  /** The unique index on token_hash. */
  predicate UniqueHashes(rows: Table) {
    forall a, b | a in rows && b in rows && rows[a].tokenHash == rows[b].tokenHash :: a == b
  }

  class ActionTokenKyselyRepository {
    var rows: Table

    constructor ()
      ensures rows == map[]
    {
      rows := map[];
    }

    method Create(t: Token) returns (ok: bool)
      modifies this
      ensures ok <==> CanInsert(old(rows), t)
      ensures rows == if ok then Inserted(old(rows), t) else old(rows)
    {
      var taken := set id | id in rows && rows[id].tokenHash == t.tokenHash;
      assert taken == {} <==> forall id | id in rows :: rows[id].tokenHash != t.tokenHash by {
        assert forall id | id in rows && rows[id].tokenHash == t.tokenHash :: id in taken;
      }
      var stored := Stored(t);
      if t.id in rows || taken != {} || stored.expiresAt <= stored.createdAt {
        return false;
      }
      rows := rows[t.id := stored];
      ok := true;
    }

    /** False stands for OptimisticConcurrencyControlException. */
    method Update(t: Token) returns (ok: bool)
      modifies this
      ensures ok <==> GuardHolds(old(rows), t)
      ensures rows == Updated(old(rows), t)
    {
      ok := t.id in rows && rows[t.id].version == t.version - 1;
      if ok {
        rows := rows[t.id := Stored(t)];
      }
    }

    method FindByHash(hash: string) returns (id: Option<Id>)
      ensures id.Some? ==> id.value in rows && rows[id.value].tokenHash == hash
      ensures id.None? ==> forall other | other in rows :: rows[other].tokenHash != hash
    {
      var found := set other | other in rows && rows[other].tokenHash == hash;
      if found == {} {
        assert forall other | other in rows && rows[other].tokenHash == hash :: other in found;
        return None;
      }
      var one :| one in found;
      id := Some(one);
    }

    /** What every finder does with the rows it selects: one new aggregate for each. */
    method Load(ids: set<Id>) returns (tokens: seq<ActionTokenAggregate>)
      requires ids <= rows.Keys && forall id | id in ids :: rows[id].id == id
      ensures fresh(tokens) && IdsOf(tokens) == ids && DistinctIds(tokens)
      ensures forall t | t in tokens :: t.Snapshot() == rows[t.id]
    {
      tokens := [];
      var todo := ids;
      while todo != {}
        invariant todo <= ids && fresh(tokens)
        invariant IdsOf(tokens) == ids - todo && DistinctIds(tokens)
        invariant forall t | t in tokens :: t.id in ids && t.Snapshot() == rows[t.id]
        decreases |todo|
      {
        var id :| id in todo;
        var t := new ActionTokenAggregate.Reconstitute(rows[id]);
        OneMoreLoaded(tokens, t);
        assert ids - (todo - {id}) == ids - todo + {id};
        tokens := tokens + [t];
        todo := todo - {id};
      }
    }

    method RevokeUsableByIds(ids: set<Id>, reason: Reason, now: int)
      modifies this
      ensures rows == RevokedByIds(old(rows), ids, reason, now)
    {
      var hit := set id | id in ids && id in rows && rows[id].revokedAt.None? && rows[id].consumedAt.None?;
      rows := rows + map id | id in hit ::
        rows[id].(revokedAt := Some(Truncated(now)), revokedReason := Some(reason), version := rows[id].version + 1);
    }

    /** Deletes some min(limit, expired) of the expired rows; which ones is up to the database. */
    method DeleteExpired(before: int, limit: int) returns (deleted: nat)
      modifies this
      ensures exists ids | ids <= ExpiredIds(old(rows), before) ::
                rows == old(rows) - ids && deleted == |ids|
      ensures deleted == if limit <= 0 then 0
                         else if limit < |ExpiredIds(old(rows), before)| then limit
                         else |ExpiredIds(old(rows), before)|
    {
      if limit <= 0 {
        assert rows == rows - {} && {} <= ExpiredIds(rows, before);
        return 0;
      }
      var expired := ExpiredIds(rows, before);
      var size := if limit < |expired| then limit else |expired|;
      SubsetOfSize(expired, size);
      var ids :| ids <= expired && |ids| == size;
      rows := rows - ids;
      deleted := |ids|;
    }
  }

  lemma {:induction false} SubsetOfSize(s: set<Id>, n: nat)
    requires n <= |s|
    ensures exists t | t <= s :: |t| == n
    decreases n
  {
    if n == 0 {
      var none: set<Id> := {};
      assert none <= s && |none| == 0;
    } else {
      SubsetOfSize(s, n - 1);
      var t :| t <= s && |t| == n - 1;
      assert |s - t| == |s| - |t|;
      var x :| x in s - t;
      assert |t + {x}| == n;
    }
  }
}
