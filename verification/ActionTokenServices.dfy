/** The application services over the repository, each run on its own inside its transaction. */
module ActionTokenServices {
  import opened Optional
  import opened ActionToken

  datatype Policy = Policy(ttlMs: nat, singleActiveInstance: bool)

  datatype IssueResult = Issued(expiresAt: int) | PolicyNotFound | CreationFailed

  /** Every row is one token, with the instants the database stores. */
  predicate WellFormed(rows: Table) {
    forall id | id in rows :: rows[id].id == id && Consistent(rows[id]) && Stored(rows[id]) == rows[id]
  }

  predicate UsableFor(t: Token, user: User, purpose: Purpose, now: int) {
    t.userId == user && t.purpose == purpose && IsUsable(t, now)
  }

  /** for (const token of tokens) token.revoke(reason, ...), with the clock reading each call gets. */
  method RevokeLoaded(tokens: seq<ActionTokenAggregate>, reason: Reason, readings: nat -> int)
    requires DistinctIds(tokens)
    modifies tokens
    ensures forall j | 0 <= j < |tokens| :: tokens[j].Snapshot() == Revoked(old(tokens[j].Snapshot()), reason, readings(j))
  {
    var i := 0;
    while i < |tokens|
      invariant 0 <= i <= |tokens|
      invariant forall j | 0 <= j < |tokens| ::
                  tokens[j].Snapshot() ==
                  if j < i then Revoked(old(tokens[j].Snapshot()), reason, readings(j)) else old(tokens[j].Snapshot())
    {
      tokens[i].Revoke(reason, readings(i));
      i := i + 1;
    }
  }

  class IssueActionTokenService {
    const repository: ActionTokenKyselyRepository
    const policies: map<Purpose, Policy>

    constructor (repository: ActionTokenKyselyRepository, policies: map<Purpose, Policy>)
      ensures this.repository == repository && this.policies == policies
    {
      this.repository, this.policies := repository, policies;
    }

    /** The clock is read for the finder, for each token in memory, and for the row update, which alone is stored. */
    method RevokeExistingTokens(user: User, purpose: Purpose, found: int, inMemory: nat -> int, revoked: int)
      requires WellFormed(repository.rows)
      modifies repository
      ensures repository.rows == SupersededAll(old(repository.rows), user, purpose, found, revoked)
    {
      var ids := UsableIds(repository.rows, user, purpose, found);
      FinderFindsUsable(repository.rows, user, purpose, found, revoked);
      var existing := repository.Load(ids);
      if existing == [] {
        assert ids == {};
        return;
      }
      RevokeLoaded(existing, Superseded, inMemory);
      repository.RevokeUsableByIds(IdsOf(existing), Superseded, revoked);
    }

    /** The whole new state; the clock is read for the finder, each token in memory, the row update, the expiry
     and the creation. */
    method Execute(user: User, purpose: Purpose, id: Id, tokenHash: string,
                   found: int, inMemory: nat -> int, revoked: int, expiryBase: int, created: int)
      returns (result: IssueResult)
      requires WellFormed(repository.rows)
      modifies repository
      ensures
        var rows := old(repository.rows);
        if purpose !in policies then result == PolicyNotFound && repository.rows == rows
        else
          var expiresAt := expiryBase + policies[purpose].ttlMs * NS_PER_MS;
          var token := NewToken(id, user, purpose, tokenHash, created, expiresAt);
          var cleared := if policies[purpose].singleActiveInstance
                         then SupersededAll(rows, user, purpose, found, revoked) else rows;
          if CanInsert(cleared, token) then result == Issued(expiresAt) && repository.rows == Inserted(cleared, token)
          else result == CreationFailed && repository.rows == cleared
      ensures result.Issued? ==>
        && id in repository.rows
        && repository.rows[id].userId == user && repository.rows[id].purpose == purpose
        && repository.rows[id].tokenHash == tokenHash
        && repository.rows[id].consumedAt.None? && repository.rows[id].revokedAt.None?
        && repository.rows[id].createdAt == created / 1_000_000 * 1_000_000
        && repository.rows[id].expiresAt == result.expiresAt / 1_000_000 * 1_000_000
        && purpose in policies && result.expiresAt == expiryBase + policies[purpose].ttlMs * 1_000_000
      ensures WellFormed(repository.rows) && (UniqueHashes(old(repository.rows)) ==> UniqueHashes(repository.rows))
    {
      if purpose !in policies {
        return PolicyNotFound;
      }
      var policy := policies[purpose];
      if policy.singleActiveInstance {
        SupersedingKeeps(repository.rows, user, purpose, found, revoked);
        RevokeExistingTokens(user, purpose, found, inMemory, revoked);
      }
      var expiresAt := expiryBase + policy.ttlMs * NS_PER_MS;
      ghost var cleared := repository.rows;
      var ok := repository.Create(Token(id, user, purpose, tokenHash, created, expiresAt, None, None, None, 0));
      if ok {
        OneMoreToken(cleared, NewToken(id, user, purpose, tokenHash, created, expiresAt));
      }
      result := if ok then Issued(expiresAt) else CreationFailed;
    }
  }

  function NewToken(id: Id, user: User, purpose: Purpose, tokenHash: string, created: int, expiresAt: int): Token {
    Token(id, user, purpose, tokenHash, created, expiresAt, None, None, None, 0)
  }

  /** Every token of the pair that was usable when looked for, revoked; all others as they were. */
  function SupersededAll(rows: Table, user: User, purpose: Purpose, found: int, revoked: int): Table {
    map id | id in rows ::
      if UsableFor(rows[id], user, purpose, found) then Stored(Revoked(rows[id], Superseded, revoked)) else rows[id]
  }

  lemma SupersedingKeeps(rows: Table, user: User, purpose: Purpose, found: int, revoked: int)
    requires WellFormed(rows)
    ensures WellFormed(SupersededAll(rows, user, purpose, found, revoked))
    ensures UniqueHashes(rows) ==> UniqueHashes(SupersededAll(rows, user, purpose, found, revoked))
  {
    var rows' := SupersededAll(rows, user, purpose, found, revoked);
    forall id | id in rows
      ensures rows'[id].id == id && Consistent(rows'[id]) && Stored(rows'[id]) == rows'[id]
    {
      assert WholeMs(Truncated(revoked));
    }
    assert forall id | id in rows :: rows'[id].tokenHash == rows[id].tokenHash;
  }

  lemma OneMoreToken(rows: Table, token: Token)
    requires WellFormed(rows) && CanInsert(rows, token) && Consistent(token)
    requires token.consumedAt.None? && token.revokedAt.None?
    ensures WellFormed(Inserted(rows, token))
    ensures UniqueHashes(rows) ==> UniqueHashes(Inserted(rows, token))
  {
    assert WholeMs(Truncated(token.createdAt)) && WholeMs(Truncated(token.expiresAt));
  }

  /**
   What superseding does to one row: it is revoked if it is of this very user and purpose and still usable
   when looked for, and otherwise stays as it was.
   */
  lemma SupersedesThePairAlone(rows: Table, user: User, purpose: Purpose, found: int, revoked: int, id: Id)
    requires WellFormed(rows) && id in rows
    ensures
      var t, t' := rows[id], SupersededAll(rows, user, purpose, found, revoked)[id];
      if t.userId == user && t.purpose == purpose && t.consumedAt.None? && t.revokedAt.None? && found < t.expiresAt
      then t' == t.(revokedAt := Some(revoked / 1_000_000 * 1_000_000), revokedReason := Some(Superseded), version := 1)
      else t' == t
  {
  }

  /** Some token has this hash and purpose, and is neither spent nor expired. */
  predicate Consumable(rows: Table, tokenHash: string, purpose: Purpose, now: int) {
    exists id :: id in rows && rows[id].tokenHash == tokenHash && rows[id].purpose == purpose
      && rows[id].consumedAt.None? && rows[id].revokedAt.None? && now < rows[id].expiresAt
  }

  /** What was just issued can be consumed: with its hash, for its purpose and no other, until it expires. */
  lemma IssuedIsConsumableIff(rows: Table, id: Id, user: User, purpose: Purpose, tokenHash: string, asked: Purpose, now: int)
    requires UniqueHashes(rows) && id in rows
    requires rows[id].userId == user && rows[id].purpose == purpose && rows[id].tokenHash == tokenHash
    requires rows[id].consumedAt.None? && rows[id].revokedAt.None?
    ensures UsableFor(rows[id], user, purpose, now) <==> now < rows[id].expiresAt
    ensures Consumable(rows, tokenHash, asked, now) <==> asked == purpose && now < rows[id].expiresAt
  {
    if Consumable(rows, tokenHash, asked, now) {
      var other :| other in rows && rows[other].tokenHash == tokenHash && rows[other].purpose == asked
        && rows[other].consumedAt.None? && rows[other].revokedAt.None? && now < rows[other].expiresAt;
      assert other == id;
    }
  }

  lemma FinderFindsUsable(rows: Table, user: User, purpose: Purpose, found: int, revoked: int)
    requires WellFormed(rows)
    ensures forall id | id in rows :: id in UsableIds(rows, user, purpose, found) <==> UsableFor(rows[id], user, purpose, found)
    ensures SupersededAll(rows, user, purpose, found, revoked) ==
            RevokedByIds(rows, UsableIds(rows, user, purpose, found), Superseded, revoked)
  {
    forall id | id in rows
      ensures id in UsableIds(rows, user, purpose, found) <==> UsableFor(rows[id], user, purpose, found)
    {
      assert WholeMs(Stored(rows[id]).expiresAt);
      FinderAgreesWithIsUsable(rows[id], found);
    }
  }

  /**
   Under a single-instance policy an issue supersedes: from the moment the old tokens were looked for,
   the new token is the one usable token of the user and purpose, until it expires, and the table stays well-formed.
   */
  lemma IssuedIsOnlyUsable(rows: Table, user: User, purpose: Purpose, found: int, revoked: int, token: Token, later: int)
    requires WellFormed(rows) && later >= found
    requires token == NewToken(token.id, user, purpose, token.tokenHash, token.createdAt, token.expiresAt)
    requires CanInsert(SupersededAll(rows, user, purpose, found, revoked), token)
    ensures
      var rows' := Inserted(SupersededAll(rows, user, purpose, found, revoked), token);
      && WellFormed(rows')
      && forall id | id in rows' ::
           UsableFor(rows'[id], user, purpose, later) <==> id == token.id && later < token.expiresAt / 1_000_000 * 1_000_000
  {
    FinderAgreesWithIsUsable(token, later);
    assert Stored(Stored(token)) == Stored(token) by {
      assert WholeMs(Truncated(token.createdAt));
    }
    forall id | id in rows
      ensures Consistent(Stored(Revoked(rows[id], Superseded, revoked)))
      ensures Stored(Stored(Revoked(rows[id], Superseded, revoked))) == Stored(Revoked(rows[id], Superseded, revoked))
    {
      assert WholeMs(Truncated(revoked));
    }
  }

  datatype ConsumeResult = ConsumedToken(token: Token) | TokenNotFound | TokenInvalid | LostRace

  class ConsumeActionTokenService {
    const repository: ActionTokenKyselyRepository

    constructor (repository: ActionTokenKyselyRepository)
      ensures this.repository == repository
    {
      this.repository := repository;
    }

    /**
     With nobody in between, consuming succeeds exactly on the token with this hash, if it is usable and of
     the right purpose, and afterwards that token is not usable any more; nothing else changes.
     */
    method Execute(tokenHash: string, purpose: Purpose, now: int) returns (result: ConsumeResult)
      requires WellFormed(repository.rows) && UniqueHashes(repository.rows)
      modifies repository
      ensures WellFormed(repository.rows) && UniqueHashes(repository.rows)
      ensures
        var rows := old(repository.rows);
        match result
        case TokenNotFound => repository.rows == rows && forall id | id in rows :: rows[id].tokenHash != tokenHash
        case TokenInvalid =>
          && repository.rows == rows
          && exists id :: id in rows && rows[id].tokenHash == tokenHash
               && !(rows[id].purpose == purpose && IsUsable(rows[id], now))
        case LostRace => false
        case ConsumedToken(token) =>
          && token.id in rows && rows[token.id].tokenHash == tokenHash
          && rows[token.id].purpose == purpose && IsUsable(rows[token.id], now)
          && token == Consumed(rows[token.id], purpose, now).value
          && repository.rows == rows[token.id := Stored(token)]
          && !IsUsable(repository.rows[token.id], now)
      ensures result.ConsumedToken? <==> Consumable(old(repository.rows), tokenHash, purpose, now)
      ensures result.ConsumedToken? ==>
        var t := old(repository.rows)[result.token.id];
        && result.token == t.(consumedAt := Some(now), version := 1)
        && repository.rows[t.id] == t.(consumedAt := Some(now / 1_000_000 * 1_000_000), version := 1)
    {
      var id := repository.FindByHash(tokenHash);
      if id.None? {
        return TokenNotFound;
      }
      var actionToken := new ActionTokenAggregate.Reconstitute(repository.rows[id.value]);
      var ok := actionToken.Consume(purpose, now);
      if !ok {
        return TokenInvalid;
      }
      var updated := repository.Update(actionToken.Snapshot());
      result := if updated then ConsumedToken(actionToken.Snapshot()) else LostRace;
    }
  }

  /** One row under a revocation: revoked, if it was meant and not spent, and otherwise as it was. */
  predicate Ends(t: Token, t': Token, reason: Reason, now: int, meant: bool) {
    if meant && t.consumedAt.None? && t.revokedAt.None?
    then t' == t.(revokedAt := Some(now / 1_000_000 * 1_000_000), revokedReason := Some(reason), version := 1)
    else t' == t
  }

  class RevokeActionTokenService {
    const repository: ActionTokenKyselyRepository

    constructor (repository: ActionTokenKyselyRepository)
      ensures this.repository == repository
    {
      this.repository := repository;
    }

    /** Revokes every usable token of the user and leaves every other row alone. */
    method AllForUser(user: User, reason: Reason, now: int)
      requires WellFormed(repository.rows)
      modifies repository
      ensures repository.rows == RevokedByIds(old(repository.rows), UsableIdsOf(old(repository.rows), user, now), reason, now)
      ensures forall id | id in repository.rows && repository.rows[id].userId == user :: !IsUsable(repository.rows[id], now)
      ensures forall id | id in repository.rows ::
                Ends(old(repository.rows)[id], repository.rows[id], reason, now,
                     old(repository.rows)[id].userId == user && now < old(repository.rows)[id].expiresAt)
    {
      var ids := UsableIdsOf(repository.rows, user, now);
      forall id | id in repository.rows
        ensures id in ids <==> repository.rows[id].userId == user && IsUsable(repository.rows[id], now)
      {
        FinderAgreesWithIsUsable(repository.rows[id], now);
      }
      var tokens := repository.Load(ids);
      RevokeTokens(tokens, reason, now);
    }

    method ByPurpose(user: User, purpose: Purpose, reason: Reason, now: int)
      requires WellFormed(repository.rows)
      modifies repository
      ensures repository.rows ==
              RevokedByIds(old(repository.rows), UsableIds(old(repository.rows), user, purpose, now), reason, now)
      ensures forall id | id in repository.rows :: !UsableFor(repository.rows[id], user, purpose, now)
      ensures forall id | id in repository.rows ::
                Ends(old(repository.rows)[id], repository.rows[id], reason, now,
                     && old(repository.rows)[id].userId == user && old(repository.rows)[id].purpose == purpose
                     && now < old(repository.rows)[id].expiresAt)
    {
      var ids := UsableIds(repository.rows, user, purpose, now);
      forall id | id in repository.rows
        ensures id in ids <==> UsableFor(repository.rows[id], user, purpose, now)
      {
        FinderAgreesWithIsUsable(repository.rows[id], now);
      }
      var tokens := repository.Load(ids);
      RevokeTokens(tokens, reason, now);
    }

    method ById(id: Id, reason: Reason, now: int)
      requires WellFormed(repository.rows)
      modifies repository
      ensures repository.rows == RevokedByIds(old(repository.rows), {id}, reason, now)
      ensures id in repository.rows ==> !IsUsable(repository.rows[id], now)
      ensures forall other | other in repository.rows ::
                Ends(old(repository.rows)[other], repository.rows[other], reason, now, other == id)
    {
      if id !in repository.rows {
        assert repository.rows == RevokedByIds(repository.rows, {id}, reason, now);
        return;
      }
      var tokens := repository.Load({id});
      RevokeTokens(tokens, reason, now);
    }

    /** The bulk update leaves each row as the loaded token in memory, which was revoked one by one. */
    method RevokeTokens(tokens: seq<ActionTokenAggregate>, reason: Reason, now: int)
      requires DistinctIds(tokens) && IdsOf(tokens) <= repository.rows.Keys
      requires forall t | t in tokens :: t.Snapshot() == repository.rows[t.id] == Stored(repository.rows[t.id])
      modifies repository, tokens
      ensures repository.rows == RevokedByIds(old(repository.rows), IdsOf(tokens), reason, now)
      ensures forall t | t in tokens :: t.id in repository.rows && repository.rows[t.id] == Stored(t.Snapshot())
    {
      if tokens == [] {
        assert repository.rows == RevokedByIds(repository.rows, {}, reason, now);
        return;
      }
      ghost var rows := repository.rows;
      assert forall t | t in tokens :: t.id in IdsOf(tokens);
      RevokeLoaded(tokens, reason, _ => now);
      repository.RevokeUsableByIds(IdsOf(tokens), reason, now);
    }
  }

  class CleanupExpiredActionTokensService {
    const repository: ActionTokenKyselyRepository
    const cleanupBatchSize: int
    const retention: nat

    constructor (repository: ActionTokenKyselyRepository, cleanupBatchSize: int, retention: nat)
      ensures this.repository == repository
      ensures this.cleanupBatchSize == cleanupBatchSize && this.retention == retention
    {
      this.repository, this.cleanupBatchSize, this.retention := repository, cleanupBatchSize, retention;
    }

    /**
     Removes exactly the rows that expired before the cutoff, counts them, and spares every usable
     token. A batch size of 0 is excluded because the loop would not end (EndsIff).
     */
    method Execute(now: int) returns (totalDeleted: nat)
      requires cleanupBatchSize != 0
      modifies repository
      ensures
        var expired := ExpiredIds(old(repository.rows), now - retention);
        if cleanupBatchSize > 0
        then repository.rows == old(repository.rows) - expired && totalDeleted == |expired|
        else repository.rows == old(repository.rows) && totalDeleted == 0
      ensures forall id | id in old(repository.rows) && IsUsable(old(repository.rows)[id], now) ::
                id in repository.rows && repository.rows[id] == old(repository.rows)[id]
      ensures cleanupBatchSize > 0 ==>
        forall id | id in old(repository.rows) ::
          id in repository.rows <==> old(repository.rows)[id].expiresAt >= (now - retention) / 1_000_000 * 1_000_000
    {
      var cutoff := now - retention;
      ghost var rows := repository.rows;
      ghost var expired := ExpiredIds(rows, cutoff);
      ghost var gone: set<Id> := {};
      totalDeleted := 0;
      assert rows - gone == rows;
      while true
        invariant gone <= expired && repository.rows == rows - gone && totalDeleted == |gone|
        invariant cleanupBatchSize < 0 ==> gone == {}
        decreases |expired - gone|
      {
        ghost var left := ExpiredIds(repository.rows, cutoff);
        assert left == expired - gone;
        var deletedInBatch := repository.DeleteExpired(cutoff, cleanupBatchSize);
        ghost var ids :| ids <= left && repository.rows == rows - gone - ids && deletedInBatch == |ids|;
        assert rows - gone - ids == rows - (gone + ids);
        assert gone + ids <= expired && (expired - (gone + ids)) == left - ids;
        assert |left - ids| == |left| - |ids|;
        gone := gone + ids;
        totalDeleted := totalDeleted + deletedInBatch;
        if deletedInBatch != cleanupBatchSize {
          if cleanupBatchSize > 0 {
            assert expired - gone == {};
            assert gone == expired;
          }
          break;
        }
      }
    }

    /** One pass of the loop, as far as the numbers go. */
    method Pass(cutoff: int) returns (deleted: nat)
      modifies repository
      ensures deleted == PassDeletes(|ExpiredIds(old(repository.rows), cutoff)|, cleanupBatchSize)
      ensures |ExpiredIds(repository.rows, cutoff)| == |ExpiredIds(old(repository.rows), cutoff)| - deleted
      ensures |repository.rows| == |old(repository.rows)| - deleted
    {
      ghost var before := repository.rows;
      deleted := repository.DeleteExpired(cutoff, cleanupBatchSize);
      ghost var ids :| ids <= ExpiredIds(before, cutoff) && repository.rows == before - ids && deleted == |ids|;
      Removed(before, ids, cutoff);
    }

    /** The same loop stopped after at most `passes` passes, for any batch size at all. */
    method ExecuteUpTo(now: int, passes: nat) returns (totalDeleted: nat, ended: bool)
      modifies repository
      ensures
        (totalDeleted, ended) == AfterPasses(|ExpiredIds(old(repository.rows), now - retention)|, cleanupBatchSize, passes)
      ensures |repository.rows| == |old(repository.rows)| - totalDeleted
    {
      var cutoff := now - retention;
      ghost var left: nat := |ExpiredIds(repository.rows, cutoff)|;
      ghost var all, total := left, |repository.rows|;
      totalDeleted, ended := 0, false;
      var i := 0;
      while i < passes && !ended
        invariant 0 <= i <= passes && |repository.rows| == total - totalDeleted
        invariant left == |ExpiredIds(repository.rows, cutoff)|
        invariant ended ==> AfterPasses(all, cleanupBatchSize, passes) == (totalDeleted, true)
        invariant !ended ==>
                    var rest := AfterPasses(left, cleanupBatchSize, passes - i);
                    AfterPasses(all, cleanupBatchSize, passes) == (totalDeleted + rest.0, rest.1)
        decreases passes - i
      {
        var deletedInBatch := Pass(cutoff);
        left := left - deletedInBatch;
        totalDeleted := totalDeleted + deletedInBatch;
        ended := deletedInBatch != cleanupBatchSize;
        i := i + 1;
      }
    }
  }

  function PassDeletes(left: nat, size: int): (deleted: nat)
    ensures deleted <= left
  {
    if size <= 0 then 0 else if size < left then size else left
  }

  /** How many rows that many passes over `left` expired rows delete, and whether the loop is over then. */
  function AfterPasses(left: nat, size: int, passes: nat): (nat, bool)
    decreases passes
  {
    if passes == 0 then (0, false)
    else
      var deleted := PassDeletes(left, size);
      if deleted != size then (deleted, true)
      else
        var rest := AfterPasses(left - deleted, size, passes - 1);
        (deleted + rest.0, rest.1)
  }

  lemma Removed(rows: Table, ids: set<Id>, cutoff: int)
    requires ids <= ExpiredIds(rows, cutoff)
    ensures |ExpiredIds(rows - ids, cutoff)| == |ExpiredIds(rows, cutoff)| - |ids|
    ensures |rows - ids| == |rows| - |ids|
  {
    assert ExpiredIds(rows - ids, cutoff) == ExpiredIds(rows, cutoff) - ids;
    assert (rows - ids).Keys == rows.Keys - ids;
  }

  /**
   The loop is over after `passes` passes iff the size is negative, or positive and the passes cover more
   rows than had expired; with a size of 0 it is not over after any number of passes, and deletes nothing.
   */
  lemma {:induction false} EndsIff(left: nat, size: int, passes: nat)
    ensures size < 0 ==> AfterPasses(left, size, passes) == (0, passes > 0)
    ensures size == 0 ==> AfterPasses(left, size, passes) == (0, false)
    ensures size > 0 ==> (AfterPasses(left, size, passes).1 <==> passes * size > left)
    ensures size > 0 ==> AfterPasses(left, size, passes).0 == if passes * size < left then passes * size else left
    decreases passes
  {
    if passes > 0 && size >= 0 {
      assert passes * size == (passes - 1) * size + size;
      if size <= left {
        EndsIff(left - size, size, passes - 1);
      } else {
        Product(passes - 1, size);
      }
    }
  }

  lemma Product(m: nat, n: nat)
    ensures m * n >= 0
  {
  }
}
