/**
 One processor instance draining the table on its own. Every queue.add and every statement may
 fail at any time (the nondeterministic choices, counted as refusals and outages); a statement that
 fails has not committed; the clock moves between statements. The rows of a batch are handled one
 after the other here; OutboxProtocol covers every interleaving and lost replies.
 */
module OutboxProcessor {
  import opened EventRouter
  import opened OutboxRepository
  import opened OutboxPolicy
  import opened OutboxPotential
  import OutboxProtocol
  import Totals

  class Clock {
    var time: int

    constructor (start: int)
      ensures time == start
    {
      time := start;
    }

    method Now() returns (now: int)
      modifies this
      ensures now == time >= old(time)
    {
      var passed: int :| passed >= 0;
      time := time + passed;
      now := time;
    }
  }

  class Connection {
    /** Statements that have failed so far. */
    var outages: nat

    constructor ()
      ensures outages == 0
    {
      outages := 0;
    }

    /** Whether the next statement goes through. */
    method Execute() returns (ok: bool)
      modifies this
      ensures outages == old(outages) + if ok then 0 else 1
    {
      ok := *;
      outages := outages + if ok then 0 else 1;
    }
  }

  class JobQueues {
    var jobs: map<OutboxProtocol.JobKey, Route>
    /** Calls to add that have failed so far. */
    var refusals: nat
    /** Every call to add so far, in order, whether it failed or not. */
    ghost var calls: seq<(EventId, Route)>

    constructor ()
      ensures jobs == map[] && refusals == 0 && calls == []
    {
      jobs, refusals, calls := map[], 0, [];
    }

    /** May fail before or after the job was stored; success means it is stored. */
    method Add(id: EventId, route: Route) returns (ok: bool)
      modifies this
      ensures jobs == old(jobs) || jobs == OutboxProtocol.Added(old(jobs), id, route)
      ensures ok ==> jobs == OutboxProtocol.Added(old(jobs), id, route)
      ensures refusals == old(refusals) + if ok then 0 else 1
      ensures calls == old(calls) + [(id, route)]
    {
      calls := calls + [(id, route)];
      var stored: bool, replied: bool := *, *;
      if stored && (route.queue, id) !in jobs {
        jobs := jobs[(route.queue, id) := route];
      }
      ok := stored && replied;
      refusals := refusals + if ok then 0 else 1;
    }
  }

  /** One call for each route, in the order of the routes. */
  function CallsFor(id: EventId, routes: seq<Route>): (calls: seq<(EventId, Route)>)
    ensures |calls| == |routes| && forall i | 0 <= i < |routes| :: calls[i] == (id, routes[i])
  {
    seq(|routes|, i requires 0 <= i < |routes| => (id, routes[i]))
  }

  /** Jobs are only ever added, and only for the given event. */
  ghost predicate OnlyAdds(before: map<OutboxProtocol.JobKey, Route>, after: map<OutboxProtocol.JobKey, Route>, id: EventId) {
    && (forall j | j in before :: j in after && after[j] == before[j])
    && (forall j | j in after && j !in before :: j.1 == id)
  }

  ghost predicate AllQueued(router: Router, jobs: map<OutboxProtocol.JobKey, Route>, id: EventId, eventType: string) {
    forall route | route in Resolve(router, eventType) :: (route.queue, id) in jobs
  }

  /** Rows and jobs are kept; a row that became published is in every queue its routes name. */
  ghost predicate Accounted(router: Router, rows: Table, rows': Table,
                            jobs: map<OutboxProtocol.JobKey, Route>, jobs': map<OutboxProtocol.JobKey, Route>)
  {
    && rows'.Keys == rows.Keys
    && (forall j | j in jobs :: j in jobs' && jobs'[j] == jobs[j])
    && (forall id | id in rows' ::
          && rows'[id].eventType == rows[id].eventType
          && (rows'[id].status == Published && rows[id].status != Published ==>
                AllQueued(router, jobs', id, rows[id].eventType)))
  }

  /** Rows a table may hold when nobody marks late. */
  ghost predicate WithinBudget(rows: Table) {
    forall id | id in rows :: InBudget(rows[id])
  }

  predicate InBudget(r: Row) {
    Shape(r) && (r.status in {Pending, Locked} ==> r.publishAttempts < MAX_PUBLISH_ATTEMPTS)
  }

  /** How the handling of one claimed row may end. */
  datatype Ending = MarkedPublished | MarkedFailed(error: string, nextAttemptAt: int) | Rejected

  ghost predicate Ended(before: Table, after: Table, id: EventId, inst: Instance, how: Ending, now: int)
    requires id in before
  {
    match how
    case MarkedPublished => after == before[id := PublishRow(before[id], inst, now)]
    case MarkedFailed(error, next) =>
      after == before[id := FailRow(before[id], error, next, IsDeadLetter(before[id].publishAttempts), now)]
    case Rejected => after == before
  }

  /** `rows'` differs from `rows` only in rows of `ids`. */
  ghost predicate OnlyTouches(rows: Table, rows': Table, ids: set<EventId>) {
    rows'.Keys == rows.Keys && forall id | id in rows && id !in ids :: rows'[id] == rows[id]
  }

  /** A claimed row that has been dealt with: published, or with one more failed attempt on record. */
  predicate Dealt(before: Row, after: Row) {
    if after.status == Published then after.publishAttempts == before.publishAttempts
    else
      && after.status == (if IsDeadLetter(before.publishAttempts) then Failed else Pending)
      && after.publishAttempts == before.publishAttempts + 1
  }

  /**
   What handling the locked rows `ids` may do: nothing to other rows, no weight gained, jobs only added
   and behind every newly published row; with no outage every row of `ids` is dealt with, and with no fault
   at all it is published.
   */
  ghost predicate Progress(router: Router, rows: Table, rows': Table,
                           jobs: map<OutboxProtocol.JobKey, Route>, jobs': map<OutboxProtocol.JobKey, Route>,
                           ids: set<EventId>, noOutage: bool, noFault: bool)
  {
    && ids <= rows.Keys
    && WithinBudget(rows') && Accounted(router, rows, rows', jobs, jobs') && OnlyTouches(rows, rows', ids)
    && (forall id | id in ids :: Weight(rows'[id]) <= Weight(rows[id]))
    && (noOutage ==> forall id | id in ids :: Dealt(rows[id], rows'[id]))
    && (noFault ==> forall id | id in ids :: rows'[id].status == Published)
  }

  /** What one batch does: each claimed row spends at least one unit of potential, and is dealt with as above. */
  ghost predicate BatchDone(router: Router, rows: Table, rows': Table,
                            jobs: map<OutboxProtocol.JobKey, Route>, jobs': map<OutboxProtocol.JobKey, Route>,
                            batch: set<EventId>, noOutage: bool, noFault: bool)
  {
    && batch <= rows.Keys && WithinBudget(rows') && Potential(rows') <= Potential(rows) - |batch|
    && Accounted(router, rows, rows', jobs, jobs') && OnlyTouches(rows, rows', batch)
    && (noOutage ==> forall id | id in batch :: Dealt(rows[id], rows'[id]))
    && (noFault ==> forall id | id in batch :: rows'[id].status == Published)
  }

  /** What any number of batches do. */
  ghost predicate Drained(router: Router, rows: Table, rows': Table,
                          jobs: map<OutboxProtocol.JobKey, Route>, jobs': map<OutboxProtocol.JobKey, Route>, noFault: bool)
  {
    && WithinBudget(rows') && Potential(rows') <= Potential(rows)
    && Accounted(router, rows, rows', jobs, jobs')
    && (noFault ==> forall id | id in rows :: rows'[id] == rows[id] || rows'[id].status == Published)
  }

  ghost predicate NothingDueBut(rows: Table, now: int, busy: set<EventId>) {
    forall id | id in rows && Due(rows[id], now) :: id in busy
  }

  class OutboxProcessorService {
    const instanceId: Instance
    const router: Router
    const repository: OutboxKyselyRepository
    const connection: Connection
    const queues: JobQueues
    const clock: Clock

    constructor (instanceId: Instance, router: Router, repository: OutboxKyselyRepository, connection: Connection,
                 queues: JobQueues, clock: Clock)
      ensures this.instanceId == instanceId && this.router == router && this.repository == repository
      ensures this.connection == connection && this.queues == queues && this.clock == clock
    {
      this.instanceId, this.router, this.repository := instanceId, router, repository;
      this.connection, this.queues, this.clock := connection, queues, clock;
    }

    /** Schedules the next attempt, or dead-letters; if even that statement fails, the row stays locked. */
    method HandleFailure(id: EventId, row: Row, error: string) returns (how: Ending)
      requires id in repository.rows && repository.rows[id] == row
      modifies repository, connection, clock
      ensures clock.time >= old(clock.time) && connection.outages >= old(connection.outages)
      ensures if connection.outages == old(connection.outages) then how.MarkedFailed? else how.Rejected?
      ensures how.MarkedFailed? ==>
                && how.error == error
                && old(clock.time) + Backoff(row.publishAttempts) <= how.nextAttemptAt
                && how.nextAttemptAt <= clock.time + Backoff(row.publishAttempts)
      ensures Ended(old(repository.rows), repository.rows, id, instanceId, how, clock.time)
    {
      var attempts := row.publishAttempts + 1;
      var deadLetter := attempts >= MAX_PUBLISH_ATTEMPTS;
      var noticed := clock.Now();
      var nextAttemptAt := noticed + Backoff(row.publishAttempts);
      var now := clock.Now();
      var committed := connection.Execute();
      if !committed {
        return Rejected;
      }
      repository.MarkFailed(id, error, nextAttemptAt, deadLetter, now);
      how := MarkedFailed(error, nextAttemptAt);
    }

    /** A row is marked published once every queue its routes name has accepted it, and only then. */
    method ProcessRow(id: EventId, row: Row) returns (how: Ending)
      requires id in repository.rows && repository.rows[id] == row
      modifies repository, connection, queues, clock
      ensures clock.time >= old(clock.time)
      ensures connection.outages >= old(connection.outages) && queues.refusals >= old(queues.refusals)
      ensures Ended(old(repository.rows), repository.rows, id, instanceId, how, clock.time)
      ensures how.MarkedPublished? ==> AllQueued(router, queues.jobs, id, row.eventType)
      ensures how.MarkedPublished? <==>
                connection.outages == old(connection.outages) && queues.refusals == old(queues.refusals)
      ensures connection.outages == old(connection.outages) ==> !how.Rejected?
      ensures OnlyAdds(old(queues.jobs), queues.jobs, id)
      ensures queues.calls == old(queues.calls) + CallsFor(id, Resolve(router, row.eventType))
    {
      var routes := Resolve(router, row.eventType);
      var now := clock.Now();
      if routes == [] {
        var committed := connection.Execute();
        if !committed {
          return Rejected;
        }
        repository.MarkPublished({id}, instanceId, now);
        return MarkedPublished;
      }
      var ok := SendAll(id, routes);
      if ok {
        now := clock.Now();
        var committed := connection.Execute();
        if committed {
          repository.MarkPublished({id}, instanceId, now);
          return MarkedPublished;
        }
      }
      how := HandleFailure(id, row, "publish failed");
    }

    /** All the routes' queue.add calls are made, whichever of them fail. */
    method SendAll(id: EventId, routes: seq<Route>) returns (ok: bool)
      modifies queues
      ensures queues.refusals >= old(queues.refusals)
      ensures ok <==> queues.refusals == old(queues.refusals)
      ensures OnlyAdds(old(queues.jobs), queues.jobs, id)
      ensures ok ==> forall route | route in routes :: (route.queue, id) in queues.jobs
      ensures queues.calls == old(queues.calls) + CallsFor(id, routes)
    {
      ok := true;
      var i := 0;
      while i < |routes|
        invariant 0 <= i <= |routes|
        invariant queues.refusals >= old(queues.refusals)
        invariant ok <==> queues.refusals == old(queues.refusals)
        invariant OnlyAdds(old(queues.jobs), queues.jobs, id)
        invariant ok ==> forall route | route in routes[..i] :: (route.queue, id) in queues.jobs
        invariant queues.calls == old(queues.calls) + CallsFor(id, routes[..i])
      {
        var accepted := queues.Add(id, routes[i]);
        ok := ok && accepted;
        i := i + 1;
      }
    }

    /** Since the tables were `rows0` and `jobs0` and the fault counts these, the rows `done` have been handled. */
    ghost predicate Handled(rows0: Table, jobs0: map<OutboxProtocol.JobKey, Route>, outages0: nat, refusals0: nat,
                            done: set<EventId>)
      reads repository, connection, queues
    {
      && connection.outages >= outages0 && queues.refusals >= refusals0
      && Progress(router, rows0, repository.rows, jobs0, queues.jobs, done, connection.outages == outages0,
                  connection.outages == outages0 && queues.refusals == refusals0)
    }

    /** One settled promise: whatever processRow did, also a rejection, the batch goes on. */
    method SettleRow(id: EventId, row: Row, ghost rows0: Table, ghost jobs0: map<OutboxProtocol.JobKey, Route>,
                     ghost outages0: nat, ghost refusals0: nat, ghost done: set<EventId>, ghost done': set<EventId>)
      requires Handled(rows0, jobs0, outages0, refusals0, done) && done' == done + {id}
      requires id in rows0 && id !in done && rows0[id] == row && row.status == Locked
      modifies repository, connection, queues, clock
      ensures clock.time >= old(clock.time)
      ensures Handled(rows0, jobs0, outages0, refusals0, done')
    {
      ghost var rows, jobs := repository.rows, queues.jobs;
      assert rows[id] == row;
      var how := ProcessRow(id, row);
      ProgressByRow(router, rows0, rows, repository.rows, jobs0, jobs, queues.jobs, done, id, instanceId, how, clock.time,
                    connection.outages == outages0,
                    connection.outages == outages0 && queues.refusals == refusals0);
    }

    /** Promise.allSettled over the claimed rows: one row's failure does not stop the others. */
    method HandleRows(claimed: Table)
      requires WithinBudget(repository.rows)
      requires claimed.Keys <= repository.rows.Keys
      requires forall id | id in claimed :: repository.rows[id] == claimed[id] && claimed[id].status == Locked
      modifies repository, connection, queues, clock
      ensures clock.time >= old(clock.time)
      ensures Handled(old(repository.rows), old(queues.jobs), old(connection.outages), old(queues.refusals), claimed.Keys)
    {
      ghost var rows0, jobs0 := repository.rows, queues.jobs;
      ghost var outages0, refusals0 := connection.outages, queues.refusals;
      var todo := claimed.Keys;
      NoProgress(router, rows0, jobs0);
      while todo != {}
        invariant todo <= claimed.Keys
        invariant clock.time >= old(clock.time)
        invariant Handled(rows0, jobs0, outages0, refusals0, claimed.Keys - todo)
        decreases |todo|
      {
        var id :| id in todo;
        ghost var done := claimed.Keys - todo;
        todo := todo - {id};
        SettleRow(id, claimed[id], rows0, jobs0, outages0, refusals0, done, claimed.Keys - todo);
      }
      assert claimed.Keys - todo == claimed.Keys;
    }

    /**
     Claims a batch and handles each row; 0 means nothing due was claimable, or the claim failed.
     `busy` are the rows that other transactions held locked, `batch` the rows claimed.
     */
    method ProcessBatch() returns (rowCount: nat, failed: bool, claimedAt: int,
                                   ghost busy: set<EventId>, ghost batch: set<EventId>)
      requires WithinBudget(repository.rows)
      modifies repository, connection, queues, clock
      ensures old(clock.time) <= claimedAt <= clock.time
      ensures connection.outages >= old(connection.outages) && queues.refusals >= old(queues.refusals)
      ensures rowCount == |batch| && (failed ==> batch == {} && connection.outages > old(connection.outages))
      ensures !failed ==> OldestDue(old(repository.rows), claimedAt, busy, BATCH_SIZE, batch)
      ensures batch == {} ==> repository.rows == old(repository.rows)
      ensures BatchDone(router, old(repository.rows), repository.rows, old(queues.jobs), queues.jobs, batch,
                        connection.outages == old(connection.outages),
                        connection.outages == old(connection.outages) && queues.refusals == old(queues.refusals))
    {
      var others: set<EventId> := *;
      busy, batch := others, {};
      rowCount, failed := 0, false;
      claimedAt := clock.Now();
      ghost var rows, jobs := repository.rows, queues.jobs;
      NothingDone(router, rows, jobs);
      var reached := connection.Execute();
      if !reached {
        failed := true;
        return;
      }
      var claimed := repository.ClaimBatch(BATCH_SIZE, instanceId, LOCK_MS, claimedAt, others);
      batch := claimed.Keys;
      ClaimHandled(router, rows, batch, instanceId, claimedAt, others, jobs);
      if claimed.Keys == {} {
        return;
      }
      rowCount := |claimed.Keys|;
      HandleRows(claimed);
      ClaimThenHandle(router, rows, batch, instanceId, claimedAt, repository.rows, jobs, queues.jobs,
                      connection.outages == old(connection.outages),
                      connection.outages == old(connection.outages) && queues.refusals == old(queues.refusals));
    }

    /**
     Batches until one comes back empty. It ends because every batch spends potential. Afterwards nothing
     is due but what others hold, unless the last claim failed; and with no fault on the way, every row is
     as it was or published, and everything due at the start that others do not hold is published.
     */
    method Drain() returns (failed: bool, lastClaimAt: int, ghost busy: set<EventId>)
      requires WithinBudget(repository.rows)
      modifies repository, connection, queues, clock
      ensures old(clock.time) <= lastClaimAt <= clock.time
      ensures connection.outages >= old(connection.outages) && queues.refusals >= old(queues.refusals)
      ensures failed ==> connection.outages > old(connection.outages)
      ensures !failed ==> NothingDueBut(repository.rows, lastClaimAt, busy)
      ensures Drained(router, old(repository.rows), repository.rows, old(queues.jobs), queues.jobs,
                      connection.outages == old(connection.outages) && queues.refusals == old(queues.refusals))
      ensures connection.outages == old(connection.outages) && queues.refusals == old(queues.refusals) ==>
                forall id | id in old(repository.rows) && Due(old(repository.rows)[id], old(clock.time)) && id !in busy ::
                  repository.rows[id].status == Published
    {
      while true
        invariant clock.time >= old(clock.time)
        invariant connection.outages >= old(connection.outages) && queues.refusals >= old(queues.refusals)
        invariant Drained(router, old(repository.rows), repository.rows, old(queues.jobs), queues.jobs,
                          connection.outages == old(connection.outages) && queues.refusals == old(queues.refusals))
        decreases Potential(repository.rows)
      {
        BudgetLeft(repository.rows);
        ghost var rows, jobs, batch := repository.rows, queues.jobs, {};
        var rowCount;
        rowCount, failed, lastClaimAt, busy, batch := ProcessBatch();
        DrainedOn(router, old(repository.rows), rows, repository.rows, old(queues.jobs), jobs, queues.jobs, batch,
                  connection.outages == old(connection.outages),
                  connection.outages == old(connection.outages) && queues.refusals == old(queues.refusals));
        if rowCount == 0 {
          if !failed {
            EmptyClaimIffNothingDue(rows, lastClaimAt, busy, BATCH_SIZE, batch);
          }
          break;
        }
        BudgetLeft(repository.rows);
      }
    }
  }

  lemma BudgetLeft(rows: Table)
    requires WithinBudget(rows)
    ensures Potential(rows) >= 0
  {
    Totals.SumNonNegative(Weights(rows));
  }

  lemma ClaimAccounted(router: Router, rows: Table, ids: set<EventId>, inst: Instance, now: int,
                       jobs: map<OutboxProtocol.JobKey, Route>)
    requires ids <= rows.Keys
    ensures Accounted(router, rows, Claimed(rows, ids, inst, now, LOCK_MS), jobs, jobs)
    ensures OnlyTouches(rows, Claimed(rows, ids, inst, now, LOCK_MS), ids)
    ensures ids == {} ==> Claimed(rows, ids, inst, now, LOCK_MS) == rows
  {
  }

  lemma ClaimHandled(router: Router, rows: Table, ids: set<EventId>, inst: Instance, now: int, busy: set<EventId>,
                     jobs: map<OutboxProtocol.JobKey, Route>)
    requires WithinBudget(rows) && OldestDue(rows, now, busy, BATCH_SIZE, ids)
    ensures WithinBudget(Claimed(rows, ids, inst, now, LOCK_MS))
    ensures Potential(Claimed(rows, ids, inst, now, LOCK_MS)) == Potential(rows) - |ids|
    ensures Accounted(router, rows, Claimed(rows, ids, inst, now, LOCK_MS), jobs, jobs)
    ensures OnlyTouches(rows, Claimed(rows, ids, inst, now, LOCK_MS), ids) && ids <= rows.Keys
    ensures ids == {} ==> Claimed(rows, ids, inst, now, LOCK_MS) == rows
  {
    ClaimSpends(rows, ids, inst, now, busy);
    assert forall id | id in ids :: id in DueIds(rows, now, busy);
    ClaimAccounted(router, rows, ids, inst, now, jobs);
  }

  lemma ClaimThenHandle(router: Router, rows: Table, ids: set<EventId>, inst: Instance, now: int, rows': Table,
                        jobs: map<OutboxProtocol.JobKey, Route>, jobs': map<OutboxProtocol.JobKey, Route>,
                        noOutage: bool, noFault: bool)
    requires ids <= rows.Keys
    requires Potential(Claimed(rows, ids, inst, now, LOCK_MS)) == Potential(rows) - |ids|
    requires Progress(router, Claimed(rows, ids, inst, now, LOCK_MS), rows', jobs, jobs', ids, noOutage, noFault)
    ensures BatchDone(router, rows, rows', jobs, jobs', ids, noOutage, noFault)
  {
    var claimed := Claimed(rows, ids, inst, now, LOCK_MS);
    PotentialFalls(claimed, rows', ids);
    AccountedFromClaim(router, rows, claimed, ids, inst, now, rows', jobs, jobs');
  }

  lemma NothingDone(router: Router, rows: Table, jobs: map<OutboxProtocol.JobKey, Route>)
    requires WithinBudget(rows)
    ensures forall noOutage, noFault :: BatchDone(router, rows, rows, jobs, jobs, {}, noOutage, noFault)
  {
  }

  lemma PotentialFalls(rows: Table, rows': Table, ids: set<EventId>)
    requires OnlyTouches(rows, rows', ids) && ids <= rows.Keys
    requires forall id | id in ids :: Weight(rows'[id]) <= Weight(rows[id])
    ensures Potential(rows') <= Potential(rows)
  {
    Totals.SumMonotone(Weights(rows), Weights(rows'));
  }

  lemma AccountedFromClaim(router: Router, rows: Table, claimed: Table, ids: set<EventId>, inst: Instance, now: int,
                           rows': Table, jobs: map<OutboxProtocol.JobKey, Route>,
                           jobs': map<OutboxProtocol.JobKey, Route>)
    requires claimed == Claimed(rows, ids, inst, now, LOCK_MS) && Accounted(router, claimed, rows', jobs, jobs')
    ensures Accounted(router, rows, rows', jobs, jobs')
  {
    assert Accounted(router, rows, claimed, jobs, jobs);
    AccountedOn(router, rows, claimed, rows', jobs, jobs, jobs');
  }

  lemma DrainedOn(router: Router, rows: Table, rows': Table, rows'': Table,
                  jobs: map<OutboxProtocol.JobKey, Route>, jobs': map<OutboxProtocol.JobKey, Route>,
                  jobs'': map<OutboxProtocol.JobKey, Route>, batch: set<EventId>, noOutage: bool, noFault: bool)
    requires Drained(router, rows, rows', jobs, jobs', noFault)
    requires BatchDone(router, rows', rows'', jobs', jobs'', batch, noOutage, noFault)
    ensures Drained(router, rows, rows'', jobs, jobs'', noFault)
    ensures batch != {} ==> Potential(rows'') < Potential(rows')
  {
    AccountedOn(router, rows, rows', rows'', jobs, jobs', jobs'');
    if batch != {} {
      assert |batch| > 0;
    }
  }

  /** Whatever the ending, the row stays within its budget and gains no weight. */
  lemma RowHandled(before: Table, after: Table, id: EventId, inst: Instance, how: Ending, now: int)
    requires WithinBudget(before) && id in before && before[id].status == Locked
    requires Ended(before, after, id, inst, how, now)
    ensures WithinBudget(after)
    ensures id in after && after == before[id := after[id]] && Weight(after[id]) <= Weight(before[id])
    ensures after[id].eventType == before[id].eventType
    ensures after[id].status == Published <==> how.MarkedPublished?
    ensures !how.Rejected? ==> Dealt(before[id], after[id])
  {
    match how {
      case MarkedPublished =>
      case MarkedFailed(_, _) =>
      case Rejected => assert before == before[id := before[id]];
    }
  }

  lemma NoProgress(router: Router, rows: Table, jobs: map<OutboxProtocol.JobKey, Route>)
    requires WithinBudget(rows)
    ensures forall noOutage, noFault :: Progress(router, rows, rows, jobs, jobs, {}, noOutage, noFault)
  {
  }

  /** Handling the rows `done` and then row `id` is handling them all. */
  lemma ProgressByRow(router: Router, rows: Table, rows': Table, rows'': Table,
                      jobs: map<OutboxProtocol.JobKey, Route>, jobs': map<OutboxProtocol.JobKey, Route>,
                      jobs'': map<OutboxProtocol.JobKey, Route>, done: set<EventId>, id: EventId,
                      inst: Instance, how: Ending, now: int, noOutage: bool, noFault: bool)
    requires Progress(router, rows, rows', jobs, jobs', done, noOutage, noFault)
    requires id !in done && id in rows && rows[id].status == Locked
    requires Ended(rows', rows'', id, inst, how, now) && OnlyAdds(jobs', jobs'', id)
    requires how.MarkedPublished? ==> AllQueued(router, jobs'', id, rows[id].eventType)
    requires (noOutage ==> !how.Rejected?) && (noFault ==> how.MarkedPublished?)
    ensures Progress(router, rows, rows'', jobs, jobs'', done + {id}, noOutage, noFault)
  {
    RowHandled(rows', rows'', id, inst, how, now);
    AccountedOneRow(router, rows', rows'', id, jobs', jobs'');
    AccountedOn(router, rows, rows', rows'', jobs, jobs', jobs'');
  }

  lemma AccountedOneRow(router: Router, rows: Table, rows': Table, id: EventId,
                        jobs: map<OutboxProtocol.JobKey, Route>, jobs': map<OutboxProtocol.JobKey, Route>)
    requires id in rows && id in rows' && rows' == rows[id := rows'[id]]
    requires rows'[id].eventType == rows[id].eventType && OnlyAdds(jobs, jobs', id)
    requires rows'[id].status == Published ==> AllQueued(router, jobs', id, rows[id].eventType)
    ensures Accounted(router, rows, rows', jobs, jobs')
  {
  }

  lemma AccountedOn(router: Router, rows: Table, rows': Table, rows'': Table,
                    jobs: map<OutboxProtocol.JobKey, Route>, jobs': map<OutboxProtocol.JobKey, Route>,
                    jobs'': map<OutboxProtocol.JobKey, Route>)
    requires Accounted(router, rows, rows', jobs, jobs') && Accounted(router, rows', rows'', jobs', jobs'')
    ensures Accounted(router, rows, rows'', jobs, jobs'')
  {
  }
}
