/**
 Issuing supersedes: with issues for one user and purpose running one after another, at most one of
 their tokens is usable at any time, whatever consumers, revokers, cleanups and crashes do meanwhile.
 */
module ActionTokenIssue {
  import opened ActionToken
  import opened ActionTokenProtocol

  predicate IssuesFor(q: Process, user: User, purpose: Purpose) {
    (q.Superseding? || q.Creating?) && q.user == user && q.purpose == purpose
  }

  /** No issue for a user and purpose starts before the previous one is over. */
  ghost predicate Serial(s: State, a: Action) {
    a.StartIssue? ==> forall p | p in s.processes :: !IssuesFor(s.processes[p], a.user, a.purpose)
  }

  ghost predicate SerialRun(s: State, run: seq<Action>)
    decreases |run|
  {
    run == [] || (Enabled(s, run[0]) && Serial(s, run[0]) && SerialRun(Next(s, run[0]), run[1..]))
  }

  lemma {:induction false} SerialIsValid(s: State, run: seq<Action>)
    requires SerialRun(s, run)
    ensures ValidRun(s, run)
    decreases |run|
  {
    if run != [] {
      SerialIsValid(Next(s, run[0]), run[1..]);
    }
  }

  function Usable(s: State, user: User, purpose: Purpose): set<Id> {
    set id | id in s.rows && s.rows[id].userId == user && s.rows[id].purpose == purpose && IsUsable(s.rows[id], s.clock)
  }

  /** What an issuer at work guarantees about the tokens it is going to replace. */
  ghost predicate IssuerInv(s: State, p: Pid, user: User, purpose: Purpose)
    requires p in s.processes
  {
    IssuesFor(s.processes[p], user, purpose) ==>
      && (s.processes[p].Superseding? ==> Usable(s, user, purpose) <= s.processes[p].ids)
      && (s.processes[p].Creating? ==> Usable(s, user, purpose) == {})
      && forall other | other in s.processes && IssuesFor(s.processes[other], user, purpose) :: other == p
  }

  ghost predicate PairInv(s: State, user: User, purpose: Purpose) {
    && (forall a, b | a in Usable(s, user, purpose) && b in Usable(s, user, purpose) :: a == b)
    && (forall p | p in s.processes :: IssuerInv(s, p, user, purpose))
  }

  /** Only creating a token can make one usable. */
  lemma UsableShrinks(s: State, a: Action, user: User, purpose: Purpose)
    requires Enabled(s, a) && Frozen(s.rows, RowsAfter(s, a)) && !a.Create?
    requires forall id | id in s.rows :: RowInv(s, id)
    ensures Usable(Next(s, a), user, purpose) <= Usable(s, user, purpose)
    ensures a.Supersede? ==> Usable(Next(s, a), user, purpose) <= Usable(s, user, purpose) - s.processes[a.p].ids
  {
  }

  lemma UsableAfterCreate(s: State, a: Action, user: User, purpose: Purpose)
    requires a.Create? && Enabled(s, a)
    ensures Usable(Next(s, a), user, purpose) <=
            Usable(s, user, purpose) + if IssuesFor(s.processes[a.p], user, purpose) then {a.id} else {}
  {
  }

  lemma StartFindsAll(s: State, user: User, purpose: Purpose)
    requires forall id | id in s.rows :: RowInv(s, id)
    ensures Usable(s, user, purpose) == UsableIds(s.rows, user, purpose, s.clock)
  {
    forall id | id in s.rows
      ensures IsUsable(s.rows[id], s.clock) <==> FinderSelects(s.rows[id], s.clock)
    {
      assert RowInv(s, id);
      FinderAgreesWithIsUsable(s.rows[id], s.clock);
    }
  }

  /** How a step may change what is usable, as far as the issuers of the pair are concerned. */
  ghost predicate UsableMoves(s: State, a: Action, user: User, purpose: Purpose)
    requires Enabled(s, a)
  {
    var before, after := Usable(s, user, purpose), Usable(Next(s, a), user, purpose);
    && (!a.Create? ==> after <= before)
    && (a.Supersede? ==> after <= before - s.processes[a.p].ids)
    && (a.Create? ==> after <= before + if IssuesFor(s.processes[a.p], user, purpose) then {a.id} else {})
  }

  lemma IssuerInvStep(s: State, a: Action, p: Pid, user: User, purpose: Purpose)
    requires Enabled(s, a) && Serial(s, a) && UsableMoves(s, a, user, purpose)
    requires p in Next(s, a).processes && (p in s.processes ==> IssuerInv(s, p, user, purpose))
    requires a.Create? ==> IssuerInv(s, a.p, user, purpose)
    requires a.StartIssue? ==> Usable(s, a.user, a.purpose) == UsableIds(s.rows, a.user, a.purpose, s.clock)
    ensures IssuerInv(Next(s, a), p, user, purpose)
  {
  }

  lemma OneUsableStep(s: State, a: Action, user: User, purpose: Purpose)
    requires Enabled(s, a) && UsableMoves(s, a, user, purpose) && PairInv(s, user, purpose)
    ensures forall x, y | x in Usable(Next(s, a), user, purpose) && y in Usable(Next(s, a), user, purpose) :: x == y
  {
    if a.Create? {
      assert IssuerInv(s, a.p, user, purpose);
    }
  }

  lemma PairInvStep(s: State, a: Action, user: User, purpose: Purpose)
    requires Inv(s) && PairInv(s, user, purpose) && Enabled(s, a) && Serial(s, a)
    ensures PairInv(Next(s, a), user, purpose)
  {
    InvStep(s, a);
    if a.Create? {
      UsableAfterCreate(s, a, user, purpose);
      assert IssuerInv(s, a.p, user, purpose);
    } else {
      UsableShrinks(s, a, user, purpose);
    }
    if a.StartIssue? {
      StartFindsAll(s, a.user, a.purpose);
    }
    OneUsableStep(s, a, user, purpose);
    forall p | p in Next(s, a).processes
      ensures IssuerInv(Next(s, a), p, user, purpose)
    {
      assert p in s.processes ==> IssuerInv(s, p, user, purpose);
      IssuerInvStep(s, a, p, user, purpose);
    }
  }

  lemma {:induction false} PairInvRun(s: State, run: seq<Action>, user: User, purpose: Purpose)
    requires Inv(s) && PairInv(s, user, purpose) && SerialRun(s, run)
    ensures ValidRun(s, run) && PairInv(After(s, run), user, purpose)
    decreases |run|
  {
    if run != [] {
      PairInvStep(s, run[0], user, purpose);
      InvStep(s, run[0]);
      PairInvRun(Next(s, run[0]), run[1..], user, purpose);
    }
  }

  /** At any time, at most one token of a user and purpose is usable. */
  lemma SingleActiveToken(clock: int, run: seq<Action>, user: User, purpose: Purpose)
    requires SerialRun(Initial(clock), run)
    ensures ValidRun(Initial(clock), run)
    ensures |Usable(After(Initial(clock), run), user, purpose)| <= 1
  {
    PairInvRun(Initial(clock), run, user, purpose);
    AtMostOne(After(Initial(clock), run), user, purpose);
  }

  lemma AtMostOne(s: State, user: User, purpose: Purpose)
    requires PairInv(s, user, purpose)
    ensures |Usable(s, user, purpose)| <= 1
  {
    var ids := Usable(s, user, purpose);
    if ids != {} {
      var id :| id in ids;
      assert ids == {id};
    }
  }

  lemma Prepended(s: State, a: Action, rest: seq<Action>)
    requires Enabled(s, a) && ValidRun(Next(s, a), rest)
    ensures ValidRun(s, [a] + rest) && After(s, [a] + rest) == After(Next(s, a), rest)
  {
    assert ([a] + rest)[1..] == rest;
  }

  // ---- The serial condition is exact ----

  /** By steps in which no further issue overlaps another. */
  ghost predicate Reaches(s: State, s': State) {
    exists run | ValidRun(s, run) :: SerialRun(s, run) && After(s, run) == s'
  }

  lemma ReachesSelf(s: State)
    ensures Reaches(s, s)
  {
    assert ValidRun(s, []) && SerialRun(s, []) && After(s, []) == s;
  }

  lemma ReachesByStep(s: State, a: Action, s': State)
    requires Enabled(s, a) && Serial(s, a) && Reaches(Next(s, a), s')
    ensures Reaches(s, s')
  {
    var rest :| ValidRun(Next(s, a), rest) && SerialRun(Next(s, a), rest) && After(Next(s, a), rest) == s';
    Prepended(s, a, rest);
    assert ([a] + rest)[1..] == rest;
    assert SerialRun(s, [a] + rest);
  }

  /** Two issues for the pair are under way. */
  ghost predicate Overlap(s: State, p1: Pid, p2: Pid, user: User, purpose: Purpose) {
    && p1 != p2 && p1 in s.processes && p2 in s.processes
    && IssuesFor(s.processes[p1], user, purpose) && IssuesFor(s.processes[p2], user, purpose)
  }

  /** An id and a hash that no row has had. */
  lemma {:induction false} FreshId(used: set<Id>) returns (id: Id)
    ensures forall u | u in used :: u < id
    decreases |used|
  {
    if used == {} {
      id := 0;
    } else {
      var u :| u in used;
      assert forall other | other in used :: other == u || other in used - {u};
      var rest := FreshId(used - {u});
      id := if u >= rest then u + 1 else rest;
    }
  }

  lemma {:induction false} FreshHash(rows: Table, ids: set<Id>) returns (hash: string)
    requires ids <= rows.Keys
    ensures forall id | id in ids :: |rows[id].tokenHash| < |hash|
    decreases |ids|
  {
    if ids == {} {
      hash := "";
    } else {
      var id :| id in ids;
      var rest := FreshHash(rows, ids - {id});
      hash := if |rows[id].tokenHash| >= |rest| then rows[id].tokenHash + "+" else rest;
    }
  }

  /** One step with which an issuer gets to where it inserts, leaving the other as it is. */
  lemma ReadyToCreate(s: State, p: Pid, user: User, purpose: Purpose) returns (s': State)
    requires Inv(s) && p in s.processes && IssuesFor(s.processes[p], user, purpose)
    ensures Reaches(s, s') && Inv(s') && s'.clock == s.clock
    ensures p in s'.processes && s'.processes[p] == Creating(user, purpose)
    ensures forall other | other in s.processes && other != p ::
              other in s'.processes && s'.processes[other] == s.processes[other]
  {
    if s.processes[p].Superseding? {
      s' := Next(s, Supersede(p));
      InvStep(s, Supersede(p));
      ReachesSelf(s');
      ReachesByStep(s, Supersede(p), s');
    } else {
      s' := s;
      ReachesSelf(s);
    }
  }

  /** One insertion: the new token is usable, and every other token is as it was. */
  lemma CreateUsable(s: State, p: Pid, user: User, purpose: Purpose) returns (s': State, id: Id)
    requires Inv(s) && p in s.processes && s.processes[p] == Creating(user, purpose)
    ensures Reaches(s, s') && Inv(s') && s'.processes == s.processes - {p}
    ensures id !in s.rows && Usable(s', user, purpose) == Usable(s, user, purpose) + {id}
  {
    id := FreshId(s.used);
    var hash := FreshHash(s.rows, s.rows.Keys);
    var create := Create(p, id, hash, NS_PER_MS);
    assert forall other | other in s.rows :: RowInv(s, other) && other < id && s.rows[other].tokenHash != hash;
    TokenIsUsable(s, create);
    s' := Next(s, create);
    InvStep(s, create);
    ReachesSelf(s');
    ReachesByStep(s, create, s');
  }

  lemma TokenIsUsable(s: State, create: Action)
    requires create.Create? && create.p in s.processes && s.processes[create.p].Creating? && create.ttl == NS_PER_MS
    ensures
      var t := Stored(NewToken(s, create));
      t.createdAt < t.expiresAt && IsUsable(t, s.clock)
  {
    assert Truncated(s.clock + NS_PER_MS) == Truncated(s.clock) + NS_PER_MS;
  }

  /** Two issues that overlap, wherever they stand and whatever the table holds, can leave two usable tokens. */
  lemma OverlapLeavesTwo(s: State, p1: Pid, p2: Pid, user: User, purpose: Purpose) returns (s': State)
    requires Inv(s) && Overlap(s, p1, p2, user, purpose)
    ensures Reaches(s, s') && |Usable(s', user, purpose)| >= 2
  {
    var a := ReadyToCreate(s, p1, user, purpose);
    var b := ReadyToCreate(a, p2, user, purpose);
    var c, id1 := CreateUsable(b, p1, user, purpose);
    var d, id2 := CreateUsable(c, p2, user, purpose);
    s' := d;
    ReachesOn(s, a, b);
    ReachesOn(s, b, c);
    ReachesOn(s, c, d);
    assert {id1, id2} <= Usable(d, user, purpose);
    TwoAtLeast(Usable(d, user, purpose), id1, id2);
  }

  /** And nothing stops them from overlapping: every state can go on to two usable tokens of any pair. */
  lemma OverlappingIssuesLeaveTwo(s: State, user: User, purpose: Purpose) returns (run: seq<Action>)
    requires Inv(s)
    ensures ValidRun(s, run) && |Usable(After(s, run), user, purpose)| >= 2
  {
    var p := FreshId(s.processes.Keys);
    var a1, a2 := StartIssue(p, user, purpose), StartIssue(p + 1, user, purpose);
    var s1 := Next(s, a1);
    assert p + 1 !in s.processes;
    var s2 := Next(s1, a2);
    InvStep(s, a1);
    InvStep(s1, a2);
    var two := OverlapLeavesTwo(s2, p, p + 1, user, purpose);
    var rest :| ValidRun(s2, rest) && SerialRun(s2, rest) && After(s2, rest) == two;
    Prepended(s1, a2, rest);
    Prepended(s, a1, [a2] + rest);
    run := [a1] + ([a2] + rest);
  }

  lemma TwoAtLeast(ids: set<Id>, id1: Id, id2: Id)
    requires id1 in ids && id2 in ids && id1 != id2
    ensures |ids| >= 2
  {
    assert ids == {id1, id2} + (ids - {id1, id2});
  }

  lemma ReachesOn(s: State, mid: State, s': State)
    requires Reaches(s, mid) && Reaches(mid, s')
    ensures Reaches(s, s')
  {
    var first :| ValidRun(s, first) && SerialRun(s, first) && After(s, first) == mid;
    RunThenReaches(s, first, s');
  }

  lemma {:induction false} RunThenReaches(s: State, run: seq<Action>, s': State)
    requires ValidRun(s, run) && SerialRun(s, run) && Reaches(After(s, run), s')
    ensures Reaches(s, s')
    decreases |run|
  {
    if run != [] {
      RunThenReaches(Next(s, run[0]), run[1..], s');
      ReachesByStep(s, run[0], s');
    }
  }

  lemma SerialKeepsOne(s: State, user: User, purpose: Purpose, s': State)
    requires Inv(s) && PairInv(s, user, purpose) && Reaches(s, s')
    ensures |Usable(s', user, purpose)| <= 1
  {
    var run :| ValidRun(s, run) && SerialRun(s, run) && After(s, run) == s';
    PairInvRun(s, run, user, purpose);
    AtMostOne(s', user, purpose);
  }

  /**
   The serial condition is exact. After any run with serial issues, starting one more issue is safe, in
   that whatever serial steps follow at most one token of the pair is ever usable, iff no issue for the
   pair is still under way.
   */
  lemma {:induction false} SafeStartIff(clock: int, run: seq<Action>, s: State, start: Action)
    requires SerialRun(Initial(clock), run) && ValidRun(Initial(clock), run) && s == After(Initial(clock), run)
    requires start.StartIssue? && Enabled(s, start)
    ensures Serial(s, start) <==>
      forall s' | Reaches(Next(s, start), s') :: |Usable(s', start.user, start.purpose)| <= 1
  {
    InvRun(Initial(clock), run);
    InvStep(s, start);
    if Serial(s, start) {
      PairInvRun(Initial(clock), run, start.user, start.purpose);
      PairInvStep(s, start, start.user, start.purpose);
      forall s' | Reaches(Next(s, start), s')
        ensures |Usable(s', start.user, start.purpose)| <= 1
      {
        SerialKeepsOne(Next(s, start), start.user, start.purpose, s');
      }
    } else {
      var p :| p in s.processes && IssuesFor(s.processes[p], start.user, start.purpose);
      var s' := OverlapLeavesTwo(Next(s, start), p, start.p, start.user, start.purpose);
    }
  }
}
