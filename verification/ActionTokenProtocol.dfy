/**
 Everything that touches the action_tokens table at once: consumers that read, decide in memory and
 write back under a version guard; bulk revokers; issuers that supersede the tokens they find; the
 expiry cleanup. Steps interleave freely and any of them may crash half-way.

 `used` (ids ever inserted) and `consumptions` (successful consume writes per id) only observe.
 Ids and hashes of new tokens are fresh: they come from UUIDv7 and 256-bit random tokens.
 */
module ActionTokenProtocol {
  import opened Optional
  import opened ActionToken

  type Pid = nat

  /** What a revoker asked the finders for. */
  datatype Selection = AllOf(user: User) | PurposeOf(user: User, purpose: Purpose) | ById(id: Id)

  datatype Process =
    /** Holds the token it consumed in memory; the guarded UPDATE is still to come. */
    | Consuming(token: Token)
    | Revoking(ids: set<Id>, reason: Reason, at: int)
    /** Issuing with singleActiveInstance: about to revoke what the finder returned. */
    | Superseding(user: User, purpose: Purpose, ids: set<Id>)
    /** Issuing, with the old tokens revoked: about to insert the new one. */
    | Creating(user: User, purpose: Purpose)

  datatype State = State(
    clock: int,
    rows: Table,
    processes: map<Pid, Process>,
    used: set<Id>,
    consumptions: map<Id, nat>)

  datatype Action =
    | ReadToConsume(p: Pid, id: Id, purpose: Purpose)
    | WriteConsumed(p: Pid)
    | ReadToRevoke(p: Pid, what: Selection, reason: Reason)
    | WriteRevoked(p: Pid)
    | StartIssue(p: Pid, user: User, purpose: Purpose)
    | Supersede(p: Pid)
    | Create(p: Pid, id: Id, tokenHash: string, ttl: int)
    | Cleanup(before: int, ids: set<Id>)
    | Crash(p: Pid)
    | Tick(ns: nat)

  function NewToken(s: State, a: Action): Token
    requires a.Create? && a.p in s.processes && s.processes[a.p].Creating?
  {
    var q := s.processes[a.p];
    Token(a.id, q.user, q.purpose, a.tokenHash, s.clock, s.clock + a.ttl, None, None, None, 0)
  }

  predicate Enabled(s: State, a: Action) {
    match a
    case ReadToConsume(p, id, purpose) =>
      p !in s.processes && id in s.rows && Consumed(s.rows[id], purpose, s.clock).Some?
    case WriteConsumed(p) => p in s.processes && s.processes[p].Consuming?
    case ReadToRevoke(p, _, _) => p !in s.processes
    case WriteRevoked(p) => p in s.processes && s.processes[p].Revoking?
    case StartIssue(p, _, _) => p !in s.processes
    case Supersede(p) => p in s.processes && s.processes[p].Superseding?
    case Create(p, id, _, _) =>
      p in s.processes && s.processes[p].Creating? && id !in s.used && CanInsert(s.rows, NewToken(s, a))
    case Cleanup(before, ids) => before <= s.clock && ids <= ExpiredIds(s.rows, before)
    case Crash(p) => p in s.processes
    case Tick(_) => true
  }

  function Selected(s: State, what: Selection): set<Id> {
    match what
    case AllOf(user) => UsableIdsOf(s.rows, user, s.clock)
    case PurposeOf(user, purpose) => UsableIds(s.rows, user, purpose, s.clock)
    case ById(id) => if id in s.rows then {id} else {}
  }

  function RowsAfter(s: State, a: Action): Table
    requires Enabled(s, a)
  {
    match a
    case WriteConsumed(p) => Updated(s.rows, s.processes[p].token)
    case WriteRevoked(p) => RevokedByIds(s.rows, s.processes[p].ids, s.processes[p].reason, s.processes[p].at)
    case Supersede(p) => RevokedByIds(s.rows, s.processes[p].ids, Superseded, s.clock)
    case Create(_, _, _, _) => Inserted(s.rows, NewToken(s, a))
    case Cleanup(_, ids) => s.rows - ids
    case _ => s.rows
  }

  function ProcessesAfter(s: State, a: Action): map<Pid, Process>
    requires Enabled(s, a)
  {
    match a
    case ReadToConsume(p, id, purpose) =>
      s.processes[p := Consuming(Consumed(s.rows[id], purpose, s.clock).value)]
    case ReadToRevoke(p, what, reason) => s.processes[p := Revoking(Selected(s, what), reason, s.clock)]
    case StartIssue(p, user, purpose) =>
      s.processes[p := Superseding(user, purpose, UsableIds(s.rows, user, purpose, s.clock))]
    case Supersede(p) => s.processes[p := Creating(s.processes[p].user, s.processes[p].purpose)]
    case WriteConsumed(p) => s.processes - {p}
    case WriteRevoked(p) => s.processes - {p}
    case Create(p, _, _, _) => s.processes - {p}
    case Crash(p) => s.processes - {p}
    case _ => s.processes
  }

  function Consumptions(s: State, id: Id): nat {
    if id in s.consumptions then s.consumptions[id] else 0
  }

  function ConsumptionsAfter(s: State, a: Action): map<Id, nat>
    requires Enabled(s, a)
  {
    if a.WriteConsumed? && GuardHolds(s.rows, s.processes[a.p].token) then
      var id := s.processes[a.p].token.id;
      s.consumptions[id := Consumptions(s, id) + 1]
    else s.consumptions
  }

  function Next(s: State, a: Action): State
    requires Enabled(s, a)
  {
    State(
      if a.Tick? then s.clock + a.ns else s.clock,
      RowsAfter(s, a), ProcessesAfter(s, a),
      if a.Create? then s.used + {a.id} else s.used,
      ConsumptionsAfter(s, a))
  }

  function Initial(clock: int): State {
    State(clock, map[], map[], {}, map[])
  }

  ghost predicate ValidRun(s: State, run: seq<Action>)
    decreases |run|
  {
    run == [] || (Enabled(s, run[0]) && ValidRun(Next(s, run[0]), run[1..]))
  }

  ghost function After(s: State, run: seq<Action>): State
    requires ValidRun(s, run)
    decreases |run|
  {
    if run == [] then s else After(Next(s, run[0]), run[1..])
  }

  // ---- One process on its own, with nobody in between ----

  predicate Meant(t: Token, what: Selection, now: int) {
    match what
    case AllOf(user) => t.userId == user && now < t.expiresAt
    case PurposeOf(user, purpose) => t.userId == user && t.purpose == purpose && now < t.expiresAt
    case ById(id) => t.id == id
  }

  /** Revoking on its own hits the unspent tokens it asked for, at the millisecond it read, and no others. */
  lemma RevokedAlone(s: State, p: Pid, what: Selection, reason: Reason, id: Id)
    requires p !in s.processes && id in s.rows && s.rows[id].id == id && WholeMs(s.rows[id].expiresAt)
    ensures
      var asked := Next(s, ReadToRevoke(p, what, reason));
      var t := s.rows[id];
      && Enabled(asked, WriteRevoked(p))
      && Next(asked, WriteRevoked(p)).processes == s.processes
      && id in Next(asked, WriteRevoked(p)).rows
      && Next(asked, WriteRevoked(p)).rows[id] ==
         if Meant(t, what, s.clock) && t.consumedAt.None? && t.revokedAt.None?
         then t.(revokedAt := Some(s.clock / 1_000_000 * 1_000_000), revokedReason := Some(reason), version := t.version + 1)
         else t
  {
    FinderAgreesWithIsUsable(s.rows[id], s.clock);
    assert Next(Next(s, ReadToRevoke(p, what, reason)), WriteRevoked(p)).processes == s.processes;
  }

  /** Consuming on its own can begin iff the token is open, unexpired and of this purpose, and then stores it as consumed. */
  lemma ConsumedAlone(s: State, p: Pid, id: Id, purpose: Purpose)
    requires p !in s.processes && id in s.rows && s.rows[id].id == id && Stored(s.rows[id]) == s.rows[id]
    ensures
      var t := s.rows[id];
      Enabled(s, ReadToConsume(p, id, purpose)) <==>
        t.consumedAt.None? && t.revokedAt.None? && s.clock < t.expiresAt && t.purpose == purpose
    ensures Enabled(s, ReadToConsume(p, id, purpose)) ==>
      var t := s.rows[id];
      var read := Next(s, ReadToConsume(p, id, purpose));
      && Enabled(read, WriteConsumed(p))
      && Next(read, WriteConsumed(p)).processes == s.processes
      && Next(read, WriteConsumed(p)).rows ==
         s.rows[id := t.(consumedAt := Some(s.clock / 1_000_000 * 1_000_000), version := t.version + 1)]
      && Consumptions(Next(read, WriteConsumed(p)), id) == Consumptions(s, id) + 1
  {
    if Enabled(s, ReadToConsume(p, id, purpose)) {
      assert Next(Next(s, ReadToConsume(p, id, purpose)), WriteConsumed(p)).processes == s.processes;
    }
  }

  /** Issuing on its own supersedes the usable tokens of the pair and adds one for the very user and purpose asked for. */
  lemma IssuedAlone(s: State, p: Pid, user: User, purpose: Purpose, id: Id, tokenHash: string, ttl: int, other: Id)
    requires p !in s.processes && id !in s.used && other in s.rows && other != id && WholeMs(s.rows[other].expiresAt)
    ensures
      var superseding := Next(s, StartIssue(p, user, purpose));
      && Enabled(superseding, Supersede(p))
      && var creating := Next(superseding, Supersede(p));
         Enabled(creating, Create(p, id, tokenHash, ttl)) ==>
           var s' := Next(creating, Create(p, id, tokenHash, ttl));
           var t := s.rows[other];
           && s'.processes == s.processes && s'.rows.Keys == s.rows.Keys + {id}
           && s'.rows[id].userId == user && s'.rows[id].purpose == purpose && s'.rows[id].tokenHash == tokenHash
           && s'.rows[id].consumedAt.None? && s'.rows[id].revokedAt.None? && s'.rows[id].version == 0
           && s'.rows[id].createdAt == s.clock / 1_000_000 * 1_000_000
           && s'.rows[id].expiresAt == (s.clock + ttl) / 1_000_000 * 1_000_000
           && s'.rows[other] ==
              if t.userId == user && t.purpose == purpose && t.consumedAt.None? && t.revokedAt.None? && s.clock < t.expiresAt
              then t.(revokedAt := Some(s.clock / 1_000_000 * 1_000_000), revokedReason := Some(Superseded),
                      version := t.version + 1)
              else t
  {
    FinderAgreesWithIsUsable(s.rows[other], s.clock);
    var creating := Next(Next(s, StartIssue(p, user, purpose)), Supersede(p));
    if Enabled(creating, Create(p, id, tokenHash, ttl)) {
      assert Next(creating, Create(p, id, tokenHash, ttl)).processes == s.processes;
    }
  }

  /** Cleanup takes the rows it is given, all of them expired, and nothing else. */
  lemma CleanupTakesExpired(s: State, before: int, ids: set<Id>)
    requires Enabled(s, Cleanup(before, ids))
    ensures Next(s, Cleanup(before, ids)) == s.(rows := s.rows - ids)
    ensures forall id | id in ids :: id in s.rows && s.rows[id].expiresAt < s.clock
  {
  }

  /** A step of one process, or its end, leaves the others as they were; a crash leaves the table as well. */
  lemma OtherProcessesStay(s: State, a: Action, p: Pid)
    requires Enabled(s, a) && p in s.processes && (a.Cleanup? || a.Tick? || a.p != p)
    ensures p in Next(s, a).processes && Next(s, a).processes[p] == s.processes[p]
    ensures a.Crash? ==> Next(s, a) == s.(processes := s.processes - {a.p})
  {
  }

  // ---- Single consumption, in every run ----

  predicate SameToken(t: Token, t': Token) {
    && t'.id == t.id && t'.userId == t.userId && t'.purpose == t.purpose
    && t'.tokenHash == t.tokenHash && t'.createdAt == t.createdAt && t'.expiresAt == t.expiresAt
  }

  ghost predicate RowInv(s: State, id: Id)
    requires id in s.rows
  {
    var t := s.rows[id];
    && t.id == id && id in s.used
    && Consistent(t) && WholeMs(t.expiresAt) && WholeMs(t.createdAt)
    && Consumptions(s, id) == (if t.consumedAt.Some? then 1 else 0)
  }

  ghost predicate ProcessInv(s: State, p: Pid)
    requires p in s.processes
  {
    s.processes[p].Consuming? ==>
      var t := s.processes[p].token;
      && Consistent(t) && t.consumedAt.Some? && t.id in s.used
      && WholeMs(t.expiresAt) && WholeMs(t.createdAt)
      && (t.id in s.rows ==> SameToken(s.rows[t.id], t))
  }

  ghost predicate Inv(s: State) {
    && (forall id | id in s.rows :: RowInv(s, id))
    && (forall p | p in s.processes :: ProcessInv(s, p))
    && (forall id: Id :: Consumptions(s, id) <= (if id in s.used then 1 else 0))
  }

  /** A row that was consumed or revoked never changes again; no row changes identity. */
  predicate Frozen(rows: Table, rows': Table) {
    forall id | id in rows && id in rows' ::
      SameToken(rows[id], rows'[id]) && (rows[id].version > 0 ==> rows'[id] == rows[id])
  }

  lemma StepFreezes(s: State, a: Action)
    requires Enabled(s, a)
    requires forall id | id in s.rows :: RowInv(s, id)
    requires a.WriteConsumed? ==> ProcessInv(s, a.p)
    ensures Frozen(s.rows, RowsAfter(s, a))
  {
    match a {
      case WriteRevoked(p) =>
        assert forall id | id in s.rows && s.rows[id].version > 0 :: RowInv(s, id);
      case Supersede(p) =>
        assert forall id | id in s.rows && s.rows[id].version > 0 :: RowInv(s, id);
      case _ =>
    }
  }

  lemma RowInvStep(s: State, a: Action, id: Id)
    requires Enabled(s, a) && id in RowsAfter(s, a)
    requires id in s.rows ==> RowInv(s, id)
    requires a.WriteConsumed? ==> ProcessInv(s, a.p)
    requires forall other: Id :: Consumptions(s, other) <= (if other in s.used then 1 else 0)
    ensures RowInv(Next(s, a), id)
  {
    if a.Create? {
      FinderAgreesWithIsUsable(NewToken(s, a), s.clock);
    }
  }

  lemma ProcessInvStep(s: State, a: Action, p: Pid)
    requires Enabled(s, a) && p in ProcessesAfter(s, a)
    requires p in s.processes ==> ProcessInv(s, p)
    requires forall id | id in s.rows :: RowInv(s, id)
    requires Frozen(s.rows, RowsAfter(s, a))
    ensures ProcessInv(Next(s, a), p)
  {
    if a.ReadToConsume? && a.p == p {
      assert RowInv(s, a.id);
    }
  }

  lemma InvStep(s: State, a: Action)
    requires Inv(s) && Enabled(s, a)
    ensures Inv(Next(s, a)) && Frozen(s.rows, Next(s, a).rows)
  {
    assert a.WriteConsumed? ==> ProcessInv(s, a.p);
    StepFreezes(s, a);
    forall id | id in RowsAfter(s, a)
      ensures RowInv(Next(s, a), id)
    {
      RowInvStep(s, a, id);
    }
    forall p | p in ProcessesAfter(s, a)
      ensures ProcessInv(Next(s, a), p)
    {
      ProcessInvStep(s, a, p);
    }
    forall id: Id
      ensures Consumptions(Next(s, a), id) <= (if id in Next(s, a).used then 1 else 0)
    {
      assert id in s.rows ==> RowInv(s, id);
    }
  }

  lemma {:induction false} InvRun(s: State, run: seq<Action>)
    requires Inv(s) && ValidRun(s, run)
    ensures Inv(After(s, run))
    decreases |run|
  {
    if run != [] {
      InvStep(s, run[0]);
      InvRun(Next(s, run[0]), run[1..]);
    }
  }

  /**
   Single consumption. In every run each token is consumed successfully at most once, even across its
   deletion; its version counts that consumption or its revocation, never both; it is consumed before
   it expires; and one more step, whatever it is, leaves a consumed or revoked row as it is or deletes it.
   */
  lemma SingleConsumption(clock: int, run: seq<Action>, id: Id, a: Action)
    requires ValidRun(Initial(clock), run) && Enabled(After(Initial(clock), run), a)
    ensures
      var s := After(Initial(clock), run);
      var s' := Next(s, a);
      && Consumptions(s, id) <= 1
      && (id in s.rows ==>
            var t := s.rows[id];
            && t.version == (if t.consumedAt.Some? then 1 else 0) + (if t.revokedAt.Some? then 1 else 0) <= 1
            && (t.consumedAt.Some? ==> t.consumedAt.value < t.expiresAt && Consumptions(s, id) == 1)
            && (t.consumedAt.Some? || t.revokedAt.Some? ==> id !in s'.rows || s'.rows[id] == t))
  {
    InvRun(Initial(clock), run);
    var s := After(Initial(clock), run);
    InvStep(s, a);
    assert id in s.rows ==> RowInv(s, id);
  }
}
