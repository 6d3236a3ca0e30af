/**
 The outbox delivery protocol as a state machine. Any number of processor instances share the
 outbox_events table and the job queues. One action is one SQL statement, one queue.add, one
 reaction inside a process, or the passing of time; actions interleave in any order.

 `log` is an observer: it records what happened to each event and influences nothing.
 */
module OutboxProtocol {
  import opened Optional
  import opened EventRouter
  import opened OutboxRepository
  import opened OutboxPolicy

  /** What one processRow call is doing: waiting for queue.add replies, or reporting a failure. */
  datatype Phase =
    | Sending(acked: set<Route>)
    | Failing(at: int, error: string)

  /** One row in the hands of one instance, with the snapshot that claimBatch returned. */
  datatype Task = Task(attempts: nat, claimedAt: int, leaseEnd: int, phase: Phase)

  type TaskKey = (Instance, EventId)

  datatype Log = Log(claims: nat, releases: nat, firstFailureAt: Option<int>, deadAt: Option<int>)

  /** Jobs are keyed by queue and job id; the job id of every route of an event is the event's id. */
  type JobKey = (string, EventId)

  datatype State = State(
    clock: int,
    rows: Table,
    tasks: map<TaskKey, Task>,
    jobs: map<JobKey, Route>,
    log: map<EventId, Log>)

  datatype Action =
    /** Commands committed these events. */
    | Insert(events: map<EventId, NewEvent>)
    /** An instance with no row in hand claims a batch; `busy` rows are locked by other transactions. */
    | Claim(inst: Instance, ids: set<EventId>, busy: set<EventId>)
    /** queue.add succeeded and its reply arrived. */
    | AddAcked(key: TaskKey, route: Route)
    /** A queue.add whose reply nobody awaits any more took effect. */
    | AddLands(id: EventId, route: Route)
    /** The catch branch of processRow, which covers only events with routes: computes the next attempt time. */
    | Catch(key: TaskKey, error: string)
    /** markPublished committed; with replyLost the process does not learn of it. */
    | Publish(key: TaskKey, replyLost: bool)
    /** markFailed committed. */
    | RecordFailure(key: TaskKey)
    /** The process crashed, or processRow rejected: the row is left as it is. */
    | Abandon(key: TaskKey)
    | Release
    | Tick(ms: nat)

  function RoutesOf(router: Router, s: State, id: EventId): seq<Route>
    requires id in s.rows
  {
    Resolve(router, s.rows[id].eventType)
  }

  ghost predicate Idle(s: State, inst: Instance) {
    forall k | k in s.tasks :: k.0 != inst
  }

  ghost predicate Enabled(router: Router, s: State, a: Action) {
    match a
    case Insert(events) => events.Keys !! s.rows.Keys
    case Claim(inst, ids, busy) => Idle(s, inst) && OldestDue(s.rows, s.clock, busy, BATCH_SIZE, ids)
    case AddAcked(k, route) =>
      k in s.tasks && s.tasks[k].phase.Sending? && k.1 in s.rows && route in RoutesOf(router, s, k.1)
    case AddLands(id, route) => id in s.rows && route in RoutesOf(router, s, id)
    case Catch(k, _) =>
      k in s.tasks && s.tasks[k].phase.Sending? && k.1 in s.rows && RoutesOf(router, s, k.1) != []
    case Publish(k, _) =>
      && k in s.tasks && s.tasks[k].phase.Sending? && k.1 in s.rows
      && forall route | route in RoutesOf(router, s, k.1) :: route in s.tasks[k].phase.acked
    case RecordFailure(k) => k in s.tasks && s.tasks[k].phase.Failing?
    case Abandon(k) => k in s.tasks
    case Release => true
    case Tick(_) => true
  }

  /** queue.add with a job id already present leaves the existing job alone. */
  function Added(jobs: map<JobKey, Route>, id: EventId, route: Route): map<JobKey, Route> {
    if (route.queue, id) in jobs then jobs else jobs[(route.queue, id) := route]
  }

  function ClaimedTasks(s: State, inst: Instance, ids: set<EventId>): map<TaskKey, Task> {
    map id | id in ids && id in s.rows ::
      (inst, id) := Task(s.rows[id].publishAttempts, s.clock, s.clock + LOCK_MS, Sending({}))
  }

  function LogClaims(log: map<EventId, Log>, ids: set<EventId>): map<EventId, Log> {
    map id | id in log :: if id in ids then log[id].(claims := log[id].claims + 1) else log[id]
  }

  function LogReleases(log: map<EventId, Log>, ids: set<EventId>): map<EventId, Log> {
    map id | id in log :: if id in ids then log[id].(releases := log[id].releases + 1) else log[id]
  }

  function LogFailure(log: map<EventId, Log>, id: EventId, at: int, dead: bool): map<EventId, Log> {
    if id !in log then log
    else
      log[id := log[id].(
        firstFailureAt := if log[id].firstFailureAt.Some? then log[id].firstFailureAt else Some(at),
        deadAt := if dead then Some(at) else log[id].deadAt)]
  }

  ghost function Next(router: Router, s: State, a: Action): State
    requires Enabled(router, s, a)
  {
    match a
    case Insert(events) =>
      s.(rows := Inserted(s.rows, events, s.clock),
         log := s.log + map id | id in events :: Log(0, 0, None, None))
    case Claim(inst, ids, busy) =>
      s.(rows := Claimed(s.rows, ids, inst, s.clock, LOCK_MS),
         tasks := s.tasks + ClaimedTasks(s, inst, ids),
         log := LogClaims(s.log, ids))
    case AddAcked(k, route) =>
      s.(jobs := Added(s.jobs, k.1, route),
         tasks := s.tasks[k := s.tasks[k].(phase := Sending(s.tasks[k].phase.acked + {route}))])
    case AddLands(id, route) => s.(jobs := Added(s.jobs, id, route))
    case Catch(k, error) => s.(tasks := s.tasks[k := s.tasks[k].(phase := Failing(s.clock, error))])
    case Publish(k, replyLost) =>
      s.(rows := MarkedPublished(s.rows, {k.1}, k.0, s.clock),
         tasks := if replyLost then s.tasks else s.tasks - {k})
    case RecordFailure(k) =>
      var t := s.tasks[k];
      var dead := IsDeadLetter(t.attempts);
      s.(rows := MarkedFailed(s.rows, k.1, t.phase.error, t.phase.at + Backoff(t.attempts), dead, s.clock),
         tasks := s.tasks - {k},
         log := LogFailure(s.log, k.1, t.phase.at, dead))
    case Abandon(k) => s.(tasks := s.tasks - {k})
    case Release => s.(rows := Released(s.rows, s.clock), log := LogReleases(s.log, ExpiredIds(s.rows, s.clock)))
    case Tick(ms) => s.(clock := s.clock + ms)
  }

  function Initial(clock: int): State {
    State(clock, map[], map[], map[], map[])
  }

  ghost predicate ValidRun(router: Router, s: State, run: seq<Action>)
    decreases |run|
  {
    run == [] || (Enabled(router, s, run[0]) && ValidRun(router, Next(router, s, run[0]), run[1..]))
  }

  ghost function After(router: Router, s: State, run: seq<Action>): State
    requires ValidRun(router, s, run)
    decreases |run|
  {
    if run == [] then s else After(router, Next(router, s, run[0]), run[1..])
  }

  lemma {:induction false} RunsCompose(router: Router, s: State, first: seq<Action>, second: seq<Action>)
    requires ValidRun(router, s, first) && ValidRun(router, After(router, s, first), second)
    ensures ValidRun(router, s, first + second)
    ensures After(router, s, first + second) == After(router, After(router, s, first), second)
    decreases |first|
  {
    if first == [] {
      assert first + second == second;
    } else {
      assert (first + second)[0] == first[0] && (first + second)[1..] == first[1..] + second;
      RunsCompose(router, Next(router, s, first[0]), first[1..], second);
    }
  }

  /** A run may be built one action at a time from its end. */
  lemma Prepended(router: Router, s: State, a: Action, rest: seq<Action>)
    requires Enabled(router, s, a) && ValidRun(router, Next(router, s, a), rest)
    ensures ValidRun(router, s, [a] + rest)
    ensures After(router, s, [a] + rest) == After(router, Next(router, s, a), rest)
  {
    assert ([a] + rest)[1..] == rest;
  }

  // ---- Safety in every run: crashes, stalls, late marks and lost replies included ----

  ghost predicate Queued(router: Router, s: State, id: EventId)
    requires id in s.rows
  {
    forall route | route in RoutesOf(router, s, id) :: (route.queue, id) in s.jobs
  }

  ghost predicate RowSafe(router: Router, s: State, id: EventId)
    requires id in s.rows
  {
    && Shape(s.rows[id])
    && (s.rows[id].status == Published ==> Queued(router, s, id))
    && (s.rows[id].status == Failed ==> s.rows[id].publishAttempts >= MAX_PUBLISH_ATTEMPTS)
  }

  ghost predicate TaskSafe(router: Router, s: State, k: TaskKey)
    requires k in s.tasks
  {
    && k.1 in s.rows
    && s.tasks[k].attempts <= s.rows[k.1].publishAttempts
    && (s.tasks[k].phase.Sending? ==>
          forall route | route in s.tasks[k].phase.acked :: (route.queue, k.1) in s.jobs)
  }

  ghost predicate JobSafe(router: Router, s: State, j: JobKey)
    requires j in s.jobs
  {
    j.1 in s.rows && s.jobs[j] in RoutesOf(router, s, j.1) && s.jobs[j].queue == j.0
  }

  ghost predicate Safe(router: Router, s: State) {
    && s.log.Keys == s.rows.Keys
    && (forall id | id in s.rows :: RowSafe(router, s, id))
    && (forall k | k in s.tasks :: TaskSafe(router, s, k))
    && (forall j | j in s.jobs :: JobSafe(router, s, j))
  }

  /** No step forgets an event, changes its type, takes back an attempt, or drops or replaces a job. */
  ghost predicate Grows(s: State, s': State) {
    && (forall id | id in s.rows ::
          && id in s'.rows && s'.rows[id].eventType == s.rows[id].eventType
          && s'.rows[id].occurredAt == s.rows[id].occurredAt
          && s'.rows[id].publishAttempts >= s.rows[id].publishAttempts)
    && (forall j | j in s.jobs :: j in s'.jobs && s'.jobs[j] == s.jobs[j])
  }

  lemma StepGrows(router: Router, s: State, a: Action)
    requires Enabled(router, s, a)
    requires a.RecordFailure? ==> a.key.1 in s.rows
    ensures Grows(s, Next(router, s, a))
  {
  }

  lemma RowSafeStep(router: Router, s: State, a: Action, id: EventId)
    requires Enabled(router, s, a) && id in Next(router, s, a).rows
    requires id in s.rows ==> RowSafe(router, s, id)
    requires (a.Publish? || a.RecordFailure?) ==> TaskSafe(router, s, a.key)
    ensures RowSafe(router, Next(router, s, a), id)
  {
    StepGrows(router, s, a);
    match a {
      case Insert(events) =>
      case Claim(inst, ids, busy) =>
      case Publish(k, replyLost) =>
      case RecordFailure(k) =>
      case Release =>
      case _ =>
    }
  }

  lemma TaskSafeStep(router: Router, s: State, a: Action, k: TaskKey)
    requires Enabled(router, s, a) && k in Next(router, s, a).tasks
    requires k in s.tasks ==> TaskSafe(router, s, k)
    requires a.RecordFailure? ==> a.key.1 in s.rows
    ensures TaskSafe(router, Next(router, s, a), k)
  {
    StepGrows(router, s, a);
    match a {
      case Claim(inst, ids, busy) =>
      case AddAcked(_, route) =>
      case _ =>
    }
  }

  lemma JobSafeStep(router: Router, s: State, a: Action, j: JobKey)
    requires Enabled(router, s, a) && j in Next(router, s, a).jobs
    requires j in s.jobs ==> JobSafe(router, s, j)
    requires a.RecordFailure? ==> a.key.1 in s.rows
    ensures JobSafe(router, Next(router, s, a), j)
  {
    StepGrows(router, s, a);
  }

  lemma SafeStep(router: Router, s: State, a: Action)
    requires Safe(router, s) && Enabled(router, s, a)
    ensures Safe(router, Next(router, s, a))
  {
    var s' := Next(router, s, a);
    if a.Publish? || a.RecordFailure? {
      assert TaskSafe(router, s, a.key);
    }
    forall id | id in s'.rows
      ensures RowSafe(router, s', id)
    {
      RowSafeStep(router, s, a, id);
    }
    forall k | k in s'.tasks
      ensures TaskSafe(router, s', k)
    {
      TaskSafeStep(router, s, a, k);
    }
    forall j | j in s'.jobs
      ensures JobSafe(router, s', j)
    {
      JobSafeStep(router, s, a, j);
    }
  }

  lemma {:induction false} SafeRun(router: Router, s: State, run: seq<Action>)
    requires Safe(router, s) && ValidRun(router, s, run)
    ensures Safe(router, After(router, s, run))
    decreases |run|
  {
    if run != [] {
      SafeStep(router, s, run[0]);
      SafeRun(router, Next(router, s, run[0]), run[1..]);
    }
  }

  /**
   In every run from an empty table, however badly it goes: the lock columns are set exactly on
   locked rows, a row that still has to be delivered has a next attempt time, a published event
   is in every queue its routes name, and a dead-lettered event failed at least five times.
   */
  lemma NothingStranded(router: Router, clock: int, run: seq<Action>, id: EventId)
    requires ValidRun(router, Initial(clock), run)
    requires id in After(router, Initial(clock), run).rows
    ensures
      var s := After(router, Initial(clock), run);
      var r := s.rows[id];
      && (r.status == Locked <==> r.lockedAt.Some?) && (r.lockedAt.Some? <==> r.lockedBy.Some?)
      && (r.lockedBy.Some? <==> r.lockExpiresAt.Some?)
      && (r.status in {Pending, Locked} ==> r.nextAttemptAt.Some?)
      && (r.status == Published ==> forall route | route in RoutesOf(router, s, id) :: (route.queue, id) in s.jobs)
      && (r.status == Failed ==> r.publishAttempts >= 5 && r.nextAttemptAt.None?)
  {
    SafeRun(router, Initial(clock), run);
    assert RowSafe(router, After(router, Initial(clock), run), id);
  }

  /** A claim takes 25 events, or all that are due and not locked by others; and holds each of them for 30 seconds. */
  lemma ClaimSize(router: Router, s: State, inst: Instance, ids: set<EventId>, busy: set<EventId>, id: EventId)
    requires Enabled(router, s, Claim(inst, ids, busy)) && id in ids
    ensures |ids| < 25 ==>
      forall other | other in s.rows && other !in busy && s.rows[other].status == Pending
                     && s.rows[other].nextAttemptAt.Some? && s.rows[other].nextAttemptAt.value <= s.clock :: other in ids
    ensures
      var s' := Next(router, s, Claim(inst, ids, busy));
      && |ids| <= 25 && id in s'.rows && (inst, id) in s'.tasks
      && s'.rows[id].lockedBy == Some(inst) && s'.rows[id].lockExpiresAt == Some(s.clock + 30_000)
      && s'.tasks[(inst, id)].leaseEnd == s.clock + 30_000
  {
    ClaimTakesOldestDue(s.rows, s.clock, busy, BATCH_SIZE, ids);
    assert (inst, id) in ClaimedTasks(s, inst, ids);
  }

  /** Whatever one instance does to one of its rows, or the end of it, no other task is touched. */
  lemma OtherTasksStay(router: Router, s: State, a: Action, k: TaskKey)
    requires Enabled(router, s, a) && k in s.tasks
    requires a.AddAcked? || a.Catch? || a.Publish? || a.RecordFailure? || a.Abandon? ==> a.key != k
    ensures k in Next(router, s, a).tasks && Next(router, s, a).tasks[k] == s.tasks[k]
    ensures a.Abandon? ==> Next(router, s, a) == s.(tasks := s.tasks - {a.key})
  {
  }

  /** An add that takes effect late still stores its job, unless one is there, and touches nothing but the queue. */
  lemma LandsLate(router: Router, s: State, id: EventId, route: Route)
    requires Enabled(router, s, AddLands(id, route))
    ensures
      var s' := Next(router, s, AddLands(id, route));
      && s' == s.(jobs := s'.jobs) && (route.queue, id) in s'.jobs
      && s'.jobs == if (route.queue, id) in s.jobs then s.jobs else s.jobs[(route.queue, id) := route]
  {
  }

  // ---- Delivery per queue and per route ----

  ghost predicate DistinctQueues(routes: seq<Route>) {
    forall r1, r2 | r1 in routes && r2 in routes && r1.queue == r2.queue :: r1 == r2
  }

  ghost predicate DeliveredPerRoute(router: Router, s: State, id: EventId)
    requires id in s.rows
  {
    forall route | route in RoutesOf(router, s, id) ::
      (route.queue, id) in s.jobs && s.jobs[(route.queue, id)] == route
  }

  /**
   All routes of an event share one job id, so a queue keeps only the first of them. A published
   event has a job of its own for every route exactly when no two of its routes share a queue.
   */
  lemma PublishedPerRouteIffDistinctQueues(router: Router, clock: int, run: seq<Action>, id: EventId)
    requires ValidRun(router, Initial(clock), run)
    requires id in After(router, Initial(clock), run).rows
    requires After(router, Initial(clock), run).rows[id].status == Published
    ensures
      var s := After(router, Initial(clock), run);
      DeliveredPerRoute(router, s, id) <==> DistinctQueues(RoutesOf(router, s, id))
  {
    var s := After(router, Initial(clock), run);
    SafeRun(router, Initial(clock), run);
    var routes := RoutesOf(router, s, id);
    assert RowSafe(router, s, id);
    if DistinctQueues(routes) {
      forall route | route in routes
        ensures (route.queue, id) in s.jobs && s.jobs[(route.queue, id)] == route
      {
        assert JobSafe(router, s, (route.queue, id));
      }
    }
  }

  /** An event with two routes on one queue, published with a job for the first of them only. */
  lemma SharedQueueLosesRoute(first: Route, second: Route)
    requires first.queue == second.queue && first.job != second.job
    ensures
      var router: Router := map["e" := [first, second]];
      exists run: seq<Action> | ValidRun(router, Initial(0), run) ::
        var s := After(router, Initial(0), run);
        && 7 in s.rows && s.rows[7].status == Published
        && s.jobs == map[(first.queue, 7) := first] && !DeliveredPerRoute(router, s, 7)
  {
    var router: Router := map["e" := [first, second]];
    var k := (1, 7);
    var insert := Insert(map[7 := NewEvent("e", 0)]);
    var inserted := Next(router, Initial(0), insert);
    var claimed := ClaimSeven(router, inserted, k);
    var sent, jobs := BothAcked(router, claimed, k, first, second);
    Prepended(router, inserted, Claim(1, {7}, {}), sent);
    Prepended(router, Initial(0), insert, [Claim(1, {7}, {})] + sent);
    var run := [insert] + ([Claim(1, {7}, {})] + sent);
    var s := After(router, Initial(0), run);
    assert second in RoutesOf(router, s, 7);
  }

  lemma ClaimSeven(router: Router, s: State, k: TaskKey) returns (claimed: State)
    requires k == (1, 7) && s.tasks == map[] && s.jobs == map[] && s.clock == 0
    requires s.rows == map[7 := Fresh(NewEvent("e", 0), 0)]
    ensures Enabled(router, s, Claim(1, {7}, {})) && claimed == Next(router, s, Claim(1, {7}, {}))
    ensures claimed.jobs == map[] && claimed.clock == 0
    ensures claimed.tasks == map[k := Task(0, 0, LOCK_MS, Sending({}))]
    ensures claimed.rows == map[7 := ClaimRow(Fresh(NewEvent("e", 0), 0), 1, 0, LOCK_MS)]
  {
    assert DueIds(s.rows, 0, {}) == {7};
    claimed := Next(router, s, Claim(1, {7}, {}));
    assert claimed.tasks == map[k := Task(0, 0, LOCK_MS, Sending({}))];
  }

  lemma BothAcked(router: Router, s: State, k: TaskKey, first: Route, second: Route)
    returns (run: seq<Action>, s': State)
    requires k == (1, 7) && router == map["e" := [first, second]] && first.queue == second.queue
    requires s.jobs == map[] && s.tasks == map[k := Task(0, 0, LOCK_MS, Sending({}))]
    requires 7 in s.rows && s.rows[7].eventType == "e"
    ensures ValidRun(router, s, run) && After(router, s, run) == s'
    ensures 7 in s'.rows && s'.rows[7].status == Published && s'.rows[7].eventType == "e"
    ensures s'.jobs == map[(first.queue, 7) := first]
  {
    var one := Next(router, s, AddAcked(k, first));
    assert one.tasks[k] == Task(0, 0, LOCK_MS, Sending({} + {first}));
    var two := Next(router, one, AddAcked(k, second));
    assert two.tasks[k] == Task(0, 0, LOCK_MS, Sending({} + {first} + {second}));
    s' := Next(router, two, Publish(k, false));
    Prepended(router, two, Publish(k, false), []);
    Prepended(router, one, AddAcked(k, second), [Publish(k, false)] + []);
    Prepended(router, s, AddAcked(k, first), [AddAcked(k, second)] + ([Publish(k, false)] + []));
    run := [AddAcked(k, first)] + ([AddAcked(k, second)] + ([Publish(k, false)] + []));
  }
}
