/**
 The deadline assumption of both strategies: what a claimant that outlives its deadline can do to the one
 that has taken the key over, without assuming anything about time.
 */
module IdempotencyDeadlines {
  import opened Optional
  import opened RedisStore
  import opened IdempotencyErrors
  import opened IdempotencyRepository
  import D = DurableStrategy
  import S = DurableSafety
  import R = RedisStrategy

  // ---- The Redis strategy ----

  /** A claimant whose record has not reached its TTL. */
  predicate RedisInTime(s: R.State, r: nat) {
    r in s.requests && R.InFlight(s.requests[r].phase) && s.clock < R.Until(s.requests[r].phase)
  }

  /** It still finds its own pending record under the key. */
  predicate RedisHolds(s: R.State, r: nat)
    requires r in s.requests && R.InFlight(s.requests[r].phase)
  {
    var q := s.requests[r];
    q.key in s.store && s.store[q.key] == Entry(R.Pending(q.hash, r), Some(R.Until(q.phase)))
  }

  ghost predicate RedisAllHold(s: R.State) {
    forall r | RedisInTime(s, r) :: RedisHolds(s, r)
  }

  predicate RedisNumbered(s: R.State) {
    forall r | r in s.requests :: r < s.arrivals
  }

  /** Nobody but `r` is in time on the key of `r`. */
  ghost predicate RedisAlone(s: R.State, r: nat)
    requires r in s.requests
  {
    forall other | other != r && RedisInTime(s, other) :: s.requests[other].key != s.requests[r].key
  }

  /** Can be read off the state: the write is no mark or delete, or comes in time, or meets nobody in time. */
  ghost predicate RedisHarmless(s: R.State, a: R.Action)
    requires R.Enabled(s, a)
  {
    a.Mark? || a.Delete? ==> RedisInTime(s, a.r) || RedisAlone(s, a.r)
  }

  lemma RedisBystander(s: R.State, a: R.Action, r: nat)
    requires R.Enabled(s, a) && RedisNumbered(s) && RedisInTime(R.Next(s, a), r)
    requires RedisInTime(s, r) ==> RedisHolds(s, r)
    requires a.Mark? || a.Delete? ==> r in s.requests && s.requests[a.r].key != s.requests[r].key
    ensures RedisHolds(R.Next(s, a), r)
  {
  }

  lemma RedisRobs(s: R.State, a: R.Action, r: nat)
    requires R.Enabled(s, a) && (a.Mark? || a.Delete?) && r != a.r && RedisInTime(s, r)
    requires s.requests[a.r].key == s.requests[r].key
    ensures RedisInTime(R.Next(s, a), r) && !RedisHolds(R.Next(s, a), r)
  {
  }

  /** The exact condition, in any run: a step leaves every in-time claimant its record iff it is harmless. */
  lemma {:induction false} RedisKeptIff(s: R.State, a: R.Action)
    requires R.Enabled(s, a) && RedisNumbered(s) && RedisAllHold(s)
    ensures RedisNumbered(R.Next(s, a))
    ensures RedisAllHold(R.Next(s, a)) <==> RedisHarmless(s, a)
  {
    var s' := R.Next(s, a);
    if RedisHarmless(s, a) {
      forall r | RedisInTime(s', r)
        ensures RedisHolds(s', r)
      {
        if a.Mark? || a.Delete? {
          assert RedisInTime(s, r) && r != a.r;
          assert s.requests[a.r].key != s.requests[r].key by {
            if RedisInTime(s, a.r) {
              assert RedisHolds(s, a.r) && RedisHolds(s, r);
            }
          }
        }
        RedisBystander(s, a, r);
      }
    } else {
      var r :| r != a.r && RedisInTime(s, r) && s.requests[r].key == s.requests[a.r].key;
      RedisRobs(s, a, r);
    }
  }

  /** So while every step is harmless, at most one handler per key is in flight and in time. */
  lemma RedisOneInTime(s: R.State, r1: nat, r2: nat)
    requires RedisAllHold(s) && RedisInTime(s, r1) && RedisInTime(s, r2) && s.requests[r1].key == s.requests[r2].key
    ensures r1 == r2
  {
    assert RedisHolds(s, r1) && RedisHolds(s, r2);
  }

  /** Two handlers for one key, both in time. */
  ghost predicate RedisTwoRun(s: R.State, r1: nat, r2: nat) {
    && r1 != r2 && RedisInTime(s, r1) && RedisInTime(s, r2)
    && s.requests[r1].phase.Running? && s.requests[r2].phase.Running? && s.requests[r1].key == s.requests[r2].key
  }

  ghost predicate RedisReaches(s: R.State, s': R.State)
  {
    exists run :: RedisRun(s, run, s')
  }

  ghost predicate RedisRun(s: R.State, run: seq<R.Action>, s': R.State)
    decreases |run|
  {
    if run == [] then s == s'
    else R.Enabled(s, run[0]) && RedisRun(R.Next(s, run[0]), run[1..], s')
  }

  lemma RedisReachesSelf(s: R.State)
    ensures RedisReaches(s, s)
  {
    assert RedisRun(s, [], s);
  }

  lemma RedisReachesBy(s: R.State, a: R.Action, s': R.State)
    requires R.Enabled(s, a) && RedisReaches(R.Next(s, a), s')
    ensures RedisReaches(s, s')
  {
    var rest :| RedisRun(R.Next(s, a), rest, s');
    assert ([a] + rest)[1..] == rest;
    assert RedisRun(s, [a] + rest, s');
  }

  /** A request for a key with nothing stored arrives, looks and claims. */
  lemma RedisClaims(s: R.State, k: Key, hash: Hash) returns (s': R.State)
    requires RedisNumbered(s) && Get(s.store, k, s.clock).None?
    ensures RedisReaches(s, s') && RedisNumbered(s') && s'.clock == s.clock && s'.arrivals == s.arrivals + 1
    ensures s'.requests.Keys == s.requests.Keys + {s.arrivals}
    ensures forall r | r in s.requests :: s'.requests[r] == s.requests[r]
    ensures s'.requests[s.arrivals] == R.Request(k, hash, 60, R.Phase.Running(s.clock + 300_000))
    ensures s'.store == s.store[k := Entry(R.Pending(hash, s.arrivals), Some(s.clock + 300_000))]
  {
    var r := s.arrivals;
    var s1 := R.Next(s, R.Arrive(k, hash, 60));
    var s2 := R.Next(s1, R.Look(r));
    s' := R.Next(s2, R.Create(r));
    RedisReachesSelf(s');
    RedisReachesBy(s2, R.Create(r), s');
    RedisReachesBy(s1, R.Look(r), s');
    RedisReachesBy(s, R.Arrive(k, hash, 60), s');
  }

  /** Whenever a late claimant is about to delete while another handler is running in time, a third may start. */
  lemma RedisLateDeleteLetsTwoRun(s: R.State, late: nat, r: nat) returns (s': R.State)
    requires RedisNumbered(s) && late in s.requests && s.requests[late].phase.Deleting? && late != r
    requires RedisInTime(s, r) && s.requests[r].phase.Running? && s.requests[r].key == s.requests[late].key
    ensures RedisReaches(s, s') && RedisTwoRun(s', r, s.arrivals)
  {
    var deleted := R.Next(s, R.Delete(late));
    s' := RedisClaims(deleted, s.requests[r].key, s.requests[r].hash);
    RedisReachesBy(s, R.Delete(late), s');
  }

  /** And it happens: the first claimant stalls for 300 seconds and then fails. */
  lemma RedisDeadlineNeeded(k: Key, hash: Hash) returns (s': R.State)
    ensures RedisReaches(R.Initial(0), s') && RedisTwoRun(s', 1, 2)
  {
    var first := RedisClaims(R.Initial(0), k, hash);
    var later := R.Next(first, R.Tick(300_000));
    var second := RedisClaims(later, k, hash);
    var ends := R.HandlerEnds(0, D.Threw(Http("Timeout", "GatewayTimeoutException", 504)));
    var failed := R.Next(second, ends);
    s' := RedisLateDeleteLetsTwoRun(failed, 0, 1);
    RedisReachesBy(second, ends, s');
    RedisReachesOn(later, second, s');
    RedisReachesBy(first, R.Tick(300_000), s');
    RedisReachesOn(R.Initial(0), first, s');
  }

  lemma RedisReachesOn(s: R.State, mid: R.State, s': R.State)
    requires RedisReaches(s, mid) && RedisReaches(mid, s')
    ensures RedisReaches(s, s')
  {
    var run :| RedisRun(s, run, mid);
    RedisRunOn(s, run, mid, s');
  }

  lemma {:induction false} RedisRunOn(s: R.State, run: seq<R.Action>, mid: R.State, s': R.State)
    requires RedisRun(s, run, mid) && RedisReaches(mid, s')
    ensures RedisReaches(s, s')
    decreases |run|
  {
    if run != [] {
      RedisRunOn(R.Next(s, run[0]), run[1..], mid, s');
      RedisReachesBy(s, run[0], s');
    }
  }

  // ---- The durable strategy ----

  /** A claimant whose row has not passed its expiry. */
  predicate InTime(s: D.State, r: nat) {
    r in s.requests && D.InFlight(s.requests[r].phase) && s.clock <= S.Until(s.requests[r].phase)
  }

  /** Its row is there, and nobody but the sweep has resolved it. */
  predicate Holds(s: D.State, r: nat)
    requires r in s.requests && D.InFlight(s.requests[r].phase)
  {
    var q := s.requests[r];
    && q.key in s.rows && s.rows[q.key].claim == r && s.rows[q.key].expiresAt == S.Until(q.phase)
    && (s.rows[q.key].status == InProgress
        || (s.rows[q.key].status == Failed && s.rows[q.key].error == Some(TIMED_OUT)))
  }

  ghost predicate AllHold(s: D.State) {
    forall r | InTime(s, r) :: Holds(s, r)
  }

  /** What holds of every run: requests are numbered, and what is marked is what a handler ended with. */
  predicate Plain(s: D.State) {
    forall r | r in s.requests :: r < s.arrivals && S.ResultInv(s.requests[r].phase)
  }

  ghost predicate Alone(s: D.State, r: nat)
    requires r in s.requests
  {
    forall other | other != r && InTime(s, other) :: s.requests[other].key != s.requests[r].key
  }

  /** A delete is unguarded; a mark is guarded only by the row being open, not by whose it is. */
  ghost predicate Harmless(s: D.State, a: D.Action)
    requires D.Enabled(s, a)
  {
    && (a.DeleteRow? ==> InTime(s, a.r) || Alone(s, a.r))
    && (a.Mark? ==> InTime(s, a.r) || Alone(s, a.r) || !D.Settles(s, a.r))
  }

  lemma PlainStep(s: D.State, a: D.Action)
    requires D.Enabled(s, a) && Plain(s)
    ensures Plain(D.Next(s, a))
  {
  }

  lemma ClaimKeeps(s: D.State, a: D.Action, r: nat)
    requires a.Claim? && D.Enabled(s, a) && InTime(D.Next(s, a), r)
    requires InTime(s, r) ==> Holds(s, r)
    ensures Holds(D.Next(s, a), r)
  {
  }

  lemma MarkKeeps(s: D.State, a: D.Action, r: nat)
    requires (a.Mark? || a.DeleteRow?) && D.Enabled(s, a) && InTime(s, r) && Holds(s, r) && r != a.r
    requires s.requests[a.r].key != s.requests[r].key || (a.Mark? && !D.Settles(s, a.r))
    ensures Holds(D.Next(s, a), r)
  {
  }

  lemma OtherKeeps(s: D.State, a: D.Action, r: nat)
    requires !a.Claim? && !a.Mark? && !a.DeleteRow? && D.Enabled(s, a) && Plain(s) && InTime(D.Next(s, a), r)
    requires InTime(s, r) ==> Holds(s, r)
    ensures Holds(D.Next(s, a), r)
  {
  }

  lemma Robs(s: D.State, a: D.Action, r: nat)
    requires D.Enabled(s, a) && Plain(s) && InTime(s, r) && Holds(s, r)
    requires (a.DeleteRow? || (a.Mark? && D.Settles(s, a.r))) && r != a.r
    requires s.requests[a.r].key == s.requests[r].key
    ensures InTime(D.Next(s, a), r) && !Holds(D.Next(s, a), r)
  {
    if a.Mark? {
      var p := s.requests[a.r].phase;
      assert S.ResultInv(p);
      assert p.outcome != Error(TIMED_OUT);
    }
  }

  /** The exact condition, in any run: a step leaves every in-time claimant its row iff it is harmless. */
  lemma {:induction false} KeptIff(s: D.State, a: D.Action)
    requires D.Enabled(s, a) && Plain(s) && AllHold(s)
    ensures Plain(D.Next(s, a))
    ensures AllHold(D.Next(s, a)) <==> Harmless(s, a)
  {
    PlainStep(s, a);
    var s' := D.Next(s, a);
    if Harmless(s, a) {
      forall r | InTime(s', r)
        ensures Holds(s', r)
      {
        if a.Claim? {
          ClaimKeeps(s, a, r);
        } else if a.Mark? || a.DeleteRow? {
          assert r != a.r && InTime(s, r);
          if InTime(s, a.r) {
            assert Holds(s, a.r) && Holds(s, r);
          }
          MarkKeeps(s, a, r);
        } else {
          OtherKeeps(s, a, r);
        }
      }
    } else {
      var r :| r != a.r && InTime(s, r) && s.requests[r].key == s.requests[a.r].key;
      Robs(s, a, r);
    }
  }

  /** So while every step is harmless, at most one handler per key is in flight and in time. */
  lemma OneInTime(s: D.State, r1: nat, r2: nat)
    requires AllHold(s) && InTime(s, r1) && InTime(s, r2) && s.requests[r1].key == s.requests[r2].key
    ensures r1 == r2
  {
    assert Holds(s, r1) && Holds(s, r2);
  }

  ghost predicate Run(s: D.State, run: seq<D.Action>, s': D.State)
    decreases |run|
  {
    if run == [] then s == s'
    else D.Enabled(s, run[0]) && Run(D.Next(s, run[0]), run[1..], s')
  }

  ghost predicate Reaches(s: D.State, s': D.State) {
    exists run :: Run(s, run, s')
  }

  lemma ReachesSelf(s: D.State)
    ensures Reaches(s, s)
  {
    assert Run(s, [], s);
  }

  lemma ReachesBy(s: D.State, a: D.Action, s': D.State)
    requires D.Enabled(s, a) && Reaches(D.Next(s, a), s')
    ensures Reaches(s, s')
  {
    var rest :| Run(D.Next(s, a), rest, s');
    assert ([a] + rest)[1..] == rest;
    assert Run(s, [a] + rest, s');
  }

  lemma {:induction false} RunOn(s: D.State, run: seq<D.Action>, mid: D.State, s': D.State)
    requires Run(s, run, mid) && Reaches(mid, s')
    ensures Reaches(s, s')
    decreases |run|
  {
    if run != [] {
      RunOn(D.Next(s, run[0]), run[1..], mid, s');
      ReachesBy(s, run[0], s');
    }
  }

  lemma ReachesOn(s: D.State, mid: D.State, s': D.State)
    requires Reaches(s, mid) && Reaches(mid, s')
    ensures Reaches(s, s')
  {
    var run :| Run(s, run, mid);
    RunOn(s, run, mid, s');
  }

  ghost predicate TwoRun(s: D.State, r1: nat, r2: nat) {
    && r1 != r2 && InTime(s, r1) && InTime(s, r2)
    && s.requests[r1].phase.Running? && s.requests[r2].phase.Running? && s.requests[r1].key == s.requests[r2].key
  }

  /** One step that touches nothing but the requests. */
  lemma Moves(s: D.State, a: D.Action, r: nat, q: D.Request) returns (s': D.State)
    requires Plain(s) && D.Enabled(s, a) && (a.Arrive? || a.ReadCache? || a.ReadTable? || a.HandlerEnds?)
    requires D.RequestsAfter(s, a) == s.requests[r := q]
    ensures Reaches(s, s') && Plain(s') && s'.clock == s.clock && s'.cache == s.cache && s'.rows == s.rows
    ensures s'.requests == s.requests[r := q] && s'.arrivals == if a.Arrive? then s.arrivals + 1 else s.arrivals
  {
    s' := D.Next(s, a);
    PlainStep(s, a);
    ReachesSelf(s');
    ReachesBy(s, a, s');
  }

  lemma Arrives(s: D.State, k: Key, hash: Hash) returns (s': D.State)
    requires Plain(s)
    ensures Reaches(s, s') && Plain(s') && s'.clock == s.clock && s'.cache == s.cache && s'.rows == s.rows
    ensures s'.arrivals == s.arrivals + 1
    ensures s'.requests == s.requests[s.arrivals := D.Request(k, hash, 60, D.LookInCache(false))]
  {
    s' := Moves(s, D.Arrive(k, hash, 60), s.arrivals, D.Request(k, hash, 60, D.LookInCache(false)));
  }

  /** Both reads of a request for a key with no row and no cached record find nothing. */
  lemma Misses(s: D.State, r: nat, k: Key, hash: Hash) returns (s': D.State)
    requires Plain(s) && k !in s.rows && Get(s.cache, k, s.clock).None?
    requires r in s.requests && s.requests[r] == D.Request(k, hash, 60, D.LookInCache(false))
    ensures Reaches(s, s') && Plain(s') && s'.clock == s.clock && s'.cache == s.cache && s'.rows == s.rows
    ensures s'.arrivals == s.arrivals && s'.requests == s.requests[r := D.Request(k, hash, 60, D.Claiming)]
  {
    var missed := Moves(s, D.ReadCache(r), r, D.Request(k, hash, 60, D.LookInTable(false)));
    s' := Moves(missed, D.ReadTable(r), r, D.Request(k, hash, 60, D.Claiming));
    ReachesOn(s, missed, s');
  }

  lemma Wins(s: D.State, r: nat, k: Key, hash: Hash) returns (s': D.State)
    requires Plain(s) && k !in s.rows && r in s.requests && s.requests[r] == D.Request(k, hash, 60, D.Claiming)
    ensures Reaches(s, s') && Plain(s') && s'.clock == s.clock && s'.cache == s.cache && s'.arrivals == s.arrivals
    ensures s'.requests == s.requests[r := D.Request(k, hash, 60, D.Phase.Running(s.clock + 60_000))]
    ensures s'.rows == s.rows[k := Claimed(hash, 60, s.clock, r)]
  {
    var claim := D.Action.Claim(r);
    s' := D.Next(s, claim);
    PlainStep(s, claim);
    ReachesSelf(s');
    ReachesBy(s, claim, s');
  }

  lemma Asks(s: D.State, k: Key, hash: Hash) returns (s': D.State)
    requires Plain(s) && k !in s.rows && Get(s.cache, k, s.clock).None?
    ensures Reaches(s, s') && Plain(s') && s'.clock == s.clock && s'.cache == s.cache && s'.rows == s.rows
    ensures s'.arrivals == s.arrivals + 1 && s'.requests == s.requests[s.arrivals := D.Request(k, hash, 60, D.Claiming)]
  {
    var arrived := Arrives(s, k, hash);
    s' := Misses(arrived, s.arrivals, k, hash);
    ReachesOn(s, arrived, s');
  }

  /** Together: a request arrives, finds nothing, and claims with a TTL of a minute. */
  lemma Claims(s: D.State, k: Key, hash: Hash) returns (s': D.State)
    requires Plain(s) && k !in s.rows && Get(s.cache, k, s.clock).None?
    ensures Reaches(s, s') && Plain(s') && s'.clock == s.clock && s'.arrivals == s.arrivals + 1 && s'.cache == s.cache
    ensures s'.requests == s.requests[s.arrivals := D.Request(k, hash, 60, D.Phase.Running(s.clock + 60_000))]
    ensures s'.rows == s.rows[k := Claimed(hash, 60, s.clock, s.arrivals)]
  {
    var asked := Asks(s, k, hash);
    s' := Wins(asked, s.arrivals, k, hash);
    ReachesOn(s, asked, s');
  }

  /** Whenever a late claimant is about to delete while another handler is running in time, a third may start. */
  lemma LateDeleteLetsTwoRun(s: D.State, late: nat, r: nat) returns (s': D.State)
    requires Plain(s) && late in s.requests && s.requests[late].phase.Deleting? && late != r
    requires InTime(s, r) && s.requests[r].phase.Running? && s.requests[r].key == s.requests[late].key
    requires Get(s.cache, s.requests[r].key, s.clock).None?
    ensures Reaches(s, s') && TwoRun(s', r, s.arrivals)
  {
    var deleted := D.Next(s, D.DeleteRow(late));
    PlainStep(s, D.DeleteRow(late));
    s' := Claims(deleted, s.requests[r].key, s.requests[r].hash);
    ReachesBy(s, D.DeleteRow(late), s');
  }

  /** The first claimant outlives its row, and the daily delete removes it. */
  lemma Outlived(s: D.State, k: Key, hash: Hash) returns (s': D.State)
    requires Plain(s) && s.clock == 0 && k in s.rows && s.rows[k] == Claimed(hash, 60, 0, 0)
    ensures Reaches(s, s') && Plain(s') && s'.clock == 60_001 && s'.arrivals == s.arrivals && s'.cache == s.cache
    ensures s'.requests == s.requests && k !in s'.rows
  {
    var later := D.Next(s, D.Tick(60_001));
    s' := D.Next(later, D.DeleteExpired);
    ReachesSelf(s');
    ReachesBy(later, D.DeleteExpired, s');
    ReachesBy(s, D.Tick(60_001), s');
  }

  /** Its handler fails at last, in a retryable way. */
  lemma Fails(s: D.State, r: nat) returns (s': D.State)
    requires Plain(s) && r in s.requests && s.requests[r].phase.Running?
    ensures Reaches(s, s') && Plain(s') && s'.clock == s.clock && s'.cache == s.cache && s'.arrivals == s.arrivals
    ensures s'.requests == s.requests[r := s.requests[r].(phase := D.Deleting(s.requests[r].phase.until))]
  {
    var ends := D.HandlerEnds(r, D.Threw(Http("Timeout", "GatewayTimeoutException", 504)));
    s' := Moves(s, ends, r, s.requests[r].(phase := D.Deleting(s.requests[r].phase.until)));
  }

  lemma FirstGone(k: Key, hash: Hash) returns (s: D.State)
    ensures Reaches(D.Initial(0), s) && Plain(s) && s.clock == 60_001 && s.arrivals == 1 && s.cache == map[] && k !in s.rows
    ensures s.requests == map[0 := D.Request(k, hash, 60, D.Phase.Running(60_000))]
  {
    var first := Claims(D.Initial(0), k, hash);
    s := Outlived(first, k, hash);
    ReachesOn(D.Initial(0), first, s);
  }

  lemma SecondRuns(k: Key, hash: Hash) returns (s: D.State)
    ensures Reaches(D.Initial(0), s) && Plain(s) && s.clock == 60_001 && s.arrivals == 2 && s.cache == map[]
    ensures s.requests == map[0 := D.Request(k, hash, 60, D.Phase.Running(60_000)),
                              1 := D.Request(k, hash, 60, D.Phase.Running(120_001))]
  {
    var freed := FirstGone(k, hash);
    s := Claims(freed, k, hash);
    ReachesOn(D.Initial(0), freed, s);
  }

  /** And it happens. */
  lemma DeadlineNeeded(k: Key, hash: Hash) returns (s': D.State)
    ensures Reaches(D.Initial(0), s') && TwoRun(s', 1, 2)
  {
    var second := SecondRuns(k, hash);
    var failed := Fails(second, 0);
    s' := LateDeleteLetsTwoRun(failed, 0, 1);
    ReachesOn(second, failed, s');
    ReachesOn(D.Initial(0), second, s');
  }
}
