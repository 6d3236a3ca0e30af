/**
 No event is ever stuck: from every reachable state, crashes and late marks behind it, one idle
 instance can deliver everything that is still pending or locked.
 */
module OutboxProgress {
  import opened EventRouter
  import opened OutboxRepository
  import opened OutboxPolicy
  import opened OutboxProtocol

  ghost predicate Reaches(router: Router, s: State, s': State) {
    exists run | ValidRun(router, s, run) :: After(router, s, run) == s'
  }

  lemma ReachesSelf(router: Router, s: State)
    ensures Reaches(router, s, s)
  {
    assert ValidRun(router, s, []) && After(router, s, []) == s;
  }

  lemma ReachesByStep(router: Router, s: State, a: Action, s': State)
    requires Enabled(router, s, a) && Reaches(router, Next(router, s, a), s')
    ensures Reaches(router, s, s')
  {
    var rest :| ValidRun(router, Next(router, s, a), rest) && After(router, Next(router, s, a), rest) == s';
    Prepended(router, s, a, rest);
  }

  lemma ReachesOn(router: Router, s: State, mid: State, s': State)
    requires Reaches(router, s, mid) && Reaches(router, mid, s')
    ensures Reaches(router, s, s')
  {
    var first :| ValidRun(router, s, first) && After(router, s, first) == mid;
    var second :| ValidRun(router, mid, second) && After(router, mid, second) == s';
    RunsCompose(router, s, first, second);
  }

  // ---- One task ----

  /** Every queue.add of a task succeeds, one after the other. */
  lemma {:induction false} AckAll(router: Router, s: State, k: TaskKey, routes: seq<Route>) returns (s': State)
    requires k in s.tasks && k.1 in s.rows && s.tasks[k].phase.Sending?
    requires forall route | route in routes :: route in RoutesOf(router, s, k.1)
    ensures Reaches(router, s, s')
    ensures s'.rows == s.rows && s'.clock == s.clock && s'.tasks.Keys == s.tasks.Keys
    ensures forall other | other in s.tasks && other != k :: s'.tasks[other] == s.tasks[other]
    ensures s'.tasks[k].phase.Sending? && s.tasks[k].phase.acked <= s'.tasks[k].phase.acked
    ensures forall route | route in routes :: route in s'.tasks[k].phase.acked
    decreases |routes|
  {
    if routes == [] {
      s' := s;
      ReachesSelf(router, s);
    } else {
      assert routes[0] in routes;
      var a := AddAcked(k, routes[0]);
      var mid := Next(router, s, a);
      s' := AckAll(router, mid, k, routes[1..]);
      ReachesByStep(router, s, a, s');
      assert routes[0] in mid.tasks[k].phase.acked;
    }
  }

  /** `s'` differs from `s` in that the rows `ids`, held by `inst`, have been published. */
  ghost predicate Delivered(s: State, s': State, inst: Instance, ids: set<EventId>) {
    && s'.rows.Keys == s.rows.Keys && s'.clock == s.clock
    && (forall id | id in s.rows ::
          if id in ids then s'.rows[id].status == Published else s'.rows[id] == s.rows[id])
    && (forall k | k in s'.tasks :: k in s.tasks && !(k.0 == inst && k.1 in ids))
    && (forall k | k in s.tasks && !(k.0 == inst && k.1 in ids) :: k in s'.tasks && s'.tasks[k] == s.tasks[k])
  }

  lemma PublishOne(router: Router, s: State, k: TaskKey) returns (s': State)
    requires k in s.tasks && k.1 in s.rows && s.tasks[k].phase.Sending?
    ensures Reaches(router, s, s') && Delivered(s, s', k.0, {k.1})
  {
    var acked := AckAll(router, s, k, RoutesOf(router, s, k.1));
    s' := Next(router, acked, Publish(k, false));
    ReachesSelf(router, s');
    ReachesByStep(router, acked, Publish(k, false), s');
    ReachesOn(router, s, acked, s');
    assert forall key | key in s'.tasks :: key != k;
  }

  lemma {:induction false} PublishBatch(router: Router, s: State, inst: Instance, ids: set<EventId>)
    returns (s': State)
    requires forall id | id in ids :: id in s.rows && (inst, id) in s.tasks && s.tasks[(inst, id)].phase.Sending?
    ensures Reaches(router, s, s') && Delivered(s, s', inst, ids)
    decreases |ids|
  {
    if ids == {} {
      s' := s;
      ReachesSelf(router, s);
    } else {
      var id :| id in ids;
      var mid := PublishOne(router, s, (inst, id));
      s' := PublishBatch(router, mid, inst, ids - {id});
      ReachesOn(router, s, mid, s');
    }
  }

  // ---- All batches ----

  /** Nothing is locked and everything pending is due. */
  predicate Ready(s: State) {
    forall id | id in s.rows ::
      s.rows[id].status != Locked && (s.rows[id].status == Pending ==> Due(s.rows[id], s.clock))
  }

  function PendingIds(s: State): set<EventId> {
    set id | id in s.rows && s.rows[id].status == Pending
  }

  lemma ClaimSome(router: Router, s: State, inst: Instance) returns (claimed: State, ids: set<EventId>)
    requires Ready(s) && Idle(s, inst) && PendingIds(s) != {}
    ensures ids <= PendingIds(s) && ids != {}
    ensures Enabled(router, s, Claim(inst, ids, {})) && claimed == Next(router, s, Claim(inst, ids, {}))
  {
    var pool := DueIds(s.rows, s.clock, {});
    assert pool == PendingIds(s);
    ids := OldestExists(s.rows, pool, BATCH_SIZE);
    assert |pool| > 0;
    claimed := Next(router, s, Claim(inst, ids, {}));
  }

  lemma ClaimedAreReady(router: Router, s: State, inst: Instance, ids: set<EventId>)
    requires Enabled(router, s, Claim(inst, ids, {})) && ids <= s.rows.Keys
    ensures
      var claimed := Next(router, s, Claim(inst, ids, {}));
      && claimed.rows.Keys == s.rows.Keys && claimed.clock == s.clock
      && (forall id | id in ids :: (inst, id) in claimed.tasks && claimed.tasks[(inst, id)].phase.Sending?)
      && (forall k | k in claimed.tasks :: k.0 == inst ==> k.1 in ids)
      && (forall id | id in s.rows && id !in ids :: claimed.rows[id] == s.rows[id])
  {
    var claimed := Next(router, s, Claim(inst, ids, {}));
    forall id | id in ids
      ensures (inst, id) in claimed.tasks && claimed.tasks[(inst, id)].phase.Sending?
    {
      assert (inst, id) in ClaimedTasks(s, inst, ids);
    }
  }

  lemma DrainOneBatch(router: Router, s: State, inst: Instance) returns (s': State, ids: set<EventId>)
    requires Ready(s) && Idle(s, inst) && PendingIds(s) != {}
    ensures ids <= PendingIds(s) && ids != {}
    ensures Reaches(router, s, s') && s'.rows.Keys == s.rows.Keys && s'.clock == s.clock && Idle(s', inst)
    ensures forall id | id in s.rows ::
              if id in ids then s'.rows[id].status == Published else s'.rows[id] == s.rows[id]
  {
    var claimed;
    claimed, ids := ClaimSome(router, s, inst);
    ClaimedAreReady(router, s, inst, ids);
    s' := PublishBatch(router, claimed, inst, ids);
    ReachesByStep(router, s, Claim(inst, ids, {}), s');
  }

  lemma {:induction false} DrainEverything(router: Router, s: State, inst: Instance) returns (s': State)
    requires Ready(s) && Idle(s, inst)
    ensures Reaches(router, s, s') && s'.rows.Keys == s.rows.Keys
    ensures forall id | id in s.rows ::
              if s.rows[id].status == Pending then s'.rows[id].status == Published else s'.rows[id] == s.rows[id]
    decreases |PendingIds(s)|
  {
    if PendingIds(s) == {} {
      s' := s;
      ReachesSelf(router, s);
      forall id | id in s.rows
        ensures s.rows[id].status != Pending
      {
        assert id !in PendingIds(s);
      }
    } else {
      var mid, ids := DrainOneBatch(router, s, inst);
      assert PendingIds(mid) == PendingIds(s) - ids;
      s' := DrainEverything(router, mid, inst);
      ReachesOn(router, s, mid, s');
    }
  }

  // ---- Waiting out every lease and backoff ----

  lemma {:induction false} Horizon(rows: Table) returns (t: int)
    ensures forall id | id in rows && rows[id].nextAttemptAt.Some? :: rows[id].nextAttemptAt.value <= t
    ensures forall id | id in rows && rows[id].lockExpiresAt.Some? :: rows[id].lockExpiresAt.value < t
    decreases |rows|
  {
    if rows == map[] {
      t := 0;
    } else {
      var id :| id in rows;
      assert (rows - {id}).Keys == rows.Keys - {id};
      var u := Horizon(rows - {id});
      assert forall other | other in rows :: other == id || other in rows - {id};
      var r := rows[id];
      var v := if r.nextAttemptAt.Some? && r.nextAttemptAt.value > u then r.nextAttemptAt.value else u;
      t := if r.lockExpiresAt.Some? && r.lockExpiresAt.value >= v then r.lockExpiresAt.value + 1 else v;
    }
  }

  lemma WaitAndRelease(router: Router, s: State) returns (s': State)
    requires Safe(router, s)
    ensures Reaches(router, s, s') && Ready(s') && s'.rows.Keys == s.rows.Keys && s'.tasks == s.tasks
    ensures forall id | id in s.rows ::
              if s.rows[id].status == Locked then s'.rows[id].status == Pending else s'.rows[id] == s.rows[id]
  {
    var t := Horizon(s.rows);
    var wait := Tick(if t > s.clock then t - s.clock else 0);
    var later := Next(router, s, wait);
    s' := Next(router, later, Release);
    ReachesSelf(router, s');
    ReachesByStep(router, later, Release, s');
    ReachesByStep(router, s, wait, s');
    forall id | id in s.rows
      ensures s'.rows[id].status != Locked && (s'.rows[id].status == Pending ==> Due(s'.rows[id], s'.clock))
      ensures if s.rows[id].status == Locked then s'.rows[id].status == Pending else s'.rows[id] == s.rows[id]
    {
      assert RowSafe(router, s, id);
    }
  }

  lemma {:induction false} Unused(ks: set<TaskKey>) returns (inst: Instance)
    ensures forall k | k in ks :: k.0 < inst
    decreases |ks|
  {
    if ks == {} {
      inst := 0;
    } else {
      var k :| k in ks;
      var rest := Unused(ks - {k});
      inst := if k.0 >= rest then k.0 + 1 else rest;
    }
  }

  /** Everything that waited in `s` is published in `s'`; the rest of the table is untouched. */
  ghost predicate Cleared(s: State, s': State) {
    forall id | id in s.rows ::
      id in s'.rows &&
      if s.rows[id].status in {Pending, Locked} then s'.rows[id].status == Published
      else s'.rows[id] == s.rows[id]
  }

  lemma SafeStateClears(router: Router, s: State) returns (s': State)
    requires Safe(router, s)
    ensures Reaches(router, s, s') && Cleared(s, s')
  {
    var ready := WaitAndRelease(router, s);
    var inst := Unused(ready.tasks.Keys);
    s' := DrainEverything(router, ready, inst);
    ReachesOn(router, s, ready, s');
    assert Cleared(s, s');
  }

  /**
   Main result: after any run, some finite continuation publishes every event that is pending or
   locked, and leaves the published and dead-lettered ones exactly as they are.
   */
  lemma NoEventIsStuck(router: Router, clock: int, run: seq<Action>) returns (s': State)
    requires ValidRun(router, Initial(clock), run)
    ensures Reaches(router, After(router, Initial(clock), run), s')
    ensures Cleared(After(router, Initial(clock), run), s')
  {
    SafeRun(router, Initial(clock), run);
    s' := SafeStateClears(router, After(router, Initial(clock), run));
  }
}
