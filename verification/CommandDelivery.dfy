/** From a committed command to the job queues: the outbox end to end. */
module CommandDelivery {
  import opened EventRouter
  import opened OutboxRepository
  import opened OutboxProtocol
  import opened OutboxProgress
  import D = DatabaseContext

  lemma {:induction false} RunGrows(router: Router, s: State, run: seq<Action>)
    requires Safe(router, s) && ValidRun(router, s, run)
    ensures Grows(s, After(router, s, run))
    decreases |run|
  {
    if run != [] {
      var s1 := Next(router, s, run[0]);
      if run[0].RecordFailure? {
        assert TaskSafe(router, s, run[0].key);
      }
      StepGrows(router, s, run[0]);
      SafeStep(router, s, run[0]);
      RunGrows(router, s1, run[1..]);
    }
  }

  /** The `i`-th event of a command is published, with a job in every queue its type is routed to. */
  ghost predicate InItsQueues(router: Router, s: State, id: EventId, e: NewEvent) {
    && id in s.rows
    && s.rows[id].status == Published
    && s.rows[id].eventType == e.eventType
    && forall route | route in Resolve(router, e.eventType) :: (route.queue, id) in s.jobs
  }

  ghost predicate FreshRow(s: State, id: EventId, e: NewEvent) {
    id in s.rows && s.rows[id] == Fresh(e, s.clock)
  }

  /** The rows from `first` on are those of `events`, just inserted. */
  ghost predicate JustInserted(s: State, first: EventId, events: seq<NewEvent>) {
    forall i | 0 <= i < |events| :: FreshRow(s, first + i, events[i])
  }

  ghost predicate AllInQueues(router: Router, s: State, first: EventId, events: seq<NewEvent>) {
    forall i | 0 <= i < |events| :: InItsQueues(router, s, first + i, events[i])
  }

  lemma ClearedMeansDelivered(router: Router, s: State, s': State, id: EventId, e: NewEvent)
    requires Safe(router, s) && Reaches(router, s, s') && Cleared(s, s')
    requires FreshRow(s, id, e)
    ensures InItsQueues(router, s', id, e)
  {
    var rest :| ValidRun(router, s, rest) && After(router, s, rest) == s';
    RunGrows(router, s, rest);
    SafeRun(router, s, rest);
    assert RowSafe(router, s', id) && Queued(router, s', id);
  }

  lemma AllDelivered(router: Router, s: State, s': State, first: EventId, events: seq<NewEvent>)
    requires Safe(router, s) && Reaches(router, s, s') && Cleared(s, s') && JustInserted(s, first, events)
    ensures AllInQueues(router, s', first, events)
  {
    forall i | 0 <= i < |events|
      ensures InItsQueues(router, s', first + i, events[i])
    {
      assert FreshRow(s, first + i, events[i]);
      ClearedMeansDelivered(router, s, s', first + i, events[i]);
    }
  }

  lemma CommitIsInsert(router: Router, s: State, db: D.Databases, r: D.Request) returns (insert: Action)
    requires s.rows == db.outbox && s.clock == r.now && D.OutcomeOf(r) == D.Committed
    requires forall id | id in db.outbox :: id < db.nextId
    ensures Enabled(router, s, insert)
    ensures Next(router, s, insert).rows == D.Perform(db, r).outbox
    ensures JustInserted(Next(router, s, insert), db.nextId, D.EmittedEvents(r.operation))
  {
    var events := D.EmittedEvents(r.operation);
    var rows := D.Numbered(events, db.nextId);
    insert := Insert(rows);
    forall i | 0 <= i < |events|
      ensures FreshRow(Next(router, s, insert), db.nextId + i, events[i])
    {
      assert D.Slot(db.nextId + i, db.nextId, |events|);
    }
  }

  lemma CommitFromSafeState(router: Router, s: State, db: D.Databases, r: D.Request)
    returns (inserted: State, s': State)
    requires Safe(router, s) && s.rows == db.outbox && s.clock == r.now && D.OutcomeOf(r) == D.Committed
    requires forall id | id in db.outbox :: id < db.nextId
    ensures Reaches(router, s, inserted) && inserted.rows == D.Perform(db, r).outbox
    ensures Reaches(router, inserted, s') && AllInQueues(router, s', db.nextId, D.EmittedEvents(r.operation))
  {
    var insert := CommitIsInsert(router, s, db, r);
    inserted := Next(router, s, insert);
    ReachesSelf(router, inserted);
    ReachesByStep(router, s, insert, inserted);
    SafeStep(router, s, insert);
    s' := SafeStateClears(router, inserted);
    AllDelivered(router, inserted, s', db.nextId, D.EmittedEvents(r.operation));
  }

  /**
   Whatever the processors have been through, committing a command is one step of the delivery
   protocol, and from there some finite continuation delivers every event the command emitted.
   */
  lemma CommittedEventsAreDeliverable(
      router: Router, clock: int, run: seq<Action>, db: D.Databases, r: D.Request)
    returns (inserted: State, s': State)
    requires ValidRun(router, Initial(clock), run) && D.OutcomeOf(r) == D.Committed
    requires After(router, Initial(clock), run).rows == db.outbox && After(router, Initial(clock), run).clock == r.now
    requires forall id | id in db.outbox :: id < db.nextId
    ensures Reaches(router, After(router, Initial(clock), run), inserted)
    ensures inserted.rows == D.Perform(db, r).outbox
    ensures Reaches(router, inserted, s')
    ensures AllInQueues(router, s', db.nextId, D.EmittedEvents(r.operation))
  {
    SafeRun(router, Initial(clock), run);
    inserted, s' := CommitFromSafeState(router, After(router, Initial(clock), run), db, r);
  }

  // ---- Commands and processors in one machine ----

  /** Both databases' logs beside the delivery protocol, whose rows are the outbox table. */
  datatype System = System(operational: seq<D.Write>, analytics: seq<D.Write>, nextId: EventId, protocol: State)

  /** A whole command, or one step of a processor, of the release job, or of time. */
  datatype Event = Command(r: D.Request) | Process(a: Action)

  ghost predicate Can(router: Router, y: System, e: Event) {
    match e
    case Command(r) => r.now == y.protocol.clock
    case Process(a) => !a.Insert? && Enabled(router, y.protocol, a)
  }

  function Stored(y: System): D.Databases {
    D.Databases(y.operational, y.analytics, y.protocol.rows, y.nextId)
  }

  /** A command does to the databases what the transaction does; its new rows enter the protocol as one Insert. */
  ghost function Then(router: Router, y: System, e: Event): System
    requires Can(router, y, e) && forall id | id in y.protocol.rows :: id < y.nextId
  {
    match e
    case Command(r) =>
      var db := D.Perform(Stored(y), r);
      System(db.operational, db.analytics, db.nextId,
             if D.OutcomeOf(r) == D.Committed
             then Next(router, y.protocol, Insert(D.Numbered(D.EmittedEvents(r.operation), y.nextId)))
             else y.protocol)
    case Process(a) => y.(protocol := Next(router, y.protocol, a))
  }

  function Asked(e: Event): seq<D.Request> {
    if e.Command? then [e.r] else []
  }

  /** The requests of a run, in order. */
  function Requests(events: seq<Event>): seq<D.Request> {
    if events == [] then []
    else Requests(events[..|events| - 1]) + Asked(events[|events| - 1])
  }

  /** Row `id` is that of the event, whatever the processors have made of its status since. */
  ghost predicate RowOf(s: State, id: EventId, e: D.Stamped) {
    id in s.rows && s.rows[id].eventType == e.event.eventType && s.rows[id].occurredAt == e.event.occurredAt
  }

  ghost predicate Holds(s: State, committed: seq<D.Stamped>) {
    && (forall id | id in s.rows :: id < |committed|)
    && (forall i | 0 <= i < |committed| :: RowOf(s, i, committed[i]))
  }

  ghost predicate SystemInv(router: Router, y: System, requests: seq<D.Request>) {
    && Safe(router, y.protocol)
    && Holds(y.protocol, D.CommittedEvents(requests)) && y.nextId == |D.CommittedEvents(requests)|
    && y.operational == D.CommittedWrites(requests)
    && y.analytics == D.Performed(NEW_DATABASES, requests).analytics
  }

  const EMPTY_LOG: seq<D.Write> := []
  const NEW_DATABASES: D.Databases := D.Databases(EMPTY_LOG, EMPTY_LOG, map[], 0)

  ghost predicate Goes(router: Router, before: System, e: Event, y: System) {
    && (forall id | id in before.protocol.rows :: id < before.nextId)
    && Can(router, before, e) && y == Then(router, before, e)
  }

  /** The run is possible from the empty system, and ends in `y`. */
  ghost predicate Leads(router: Router, clock: int, events: seq<Event>, y: System)
    decreases |events|
  {
    if events == [] then y == System(EMPTY_LOG, EMPTY_LOG, 0, Initial(clock))
    else
      var earlier, last := events[..|events| - 1], events[|events| - 1];
      exists before: System :: Leads(router, clock, earlier, before) && Goes(router, before, last, y)
  }

  lemma ProcessKeepsRows(router: Router, s: State, a: Action, committed: seq<D.Stamped>)
    requires Safe(router, s) && !a.Insert? && Enabled(router, s, a) && Holds(s, committed)
    ensures Holds(Next(router, s, a), committed)
  {
    if a.RecordFailure? {
      assert TaskSafe(router, s, a.key);
    }
    StepGrows(router, s, a);
    forall i | 0 <= i < |committed|
      ensures RowOf(Next(router, s, a), i, committed[i])
    {
      assert RowOf(s, i, committed[i]);
    }
    assert Next(router, s, a).rows.Keys == s.rows.Keys;
  }

  lemma CommitAddsRows(router: Router, s: State, committed: seq<D.Stamped>, events: seq<NewEvent>)
    requires Holds(s, committed)
    ensures
      var insert := Insert(D.Numbered(events, |committed|));
      Enabled(router, s, insert) && Holds(Next(router, s, insert), committed + D.Stamp(events, s.clock))
  {
    var added := D.Numbered(events, |committed|);
    var s' := Next(router, s, Insert(added));
    var all := committed + D.Stamp(events, s.clock);
    forall i | 0 <= i < |all|
      ensures RowOf(s', i, all[i])
    {
      if i < |committed| {
        assert RowOf(s, i, committed[i]) && !D.Slot(i, |committed|, |events|);
      } else {
        assert D.Slot(i, |committed|, |events|);
      }
    }
    forall id | id in s'.rows
      ensures id < |all|
    {
      assert id in s.rows || D.Slot(id, |committed|, |events|);
    }
  }

  lemma OneMoreRequest(requests: seq<D.Request>, r: D.Request)
    ensures D.CommittedEvents(requests + [r]) ==
            D.CommittedEvents(requests)
            + if D.OutcomeOf(r) == D.Committed then D.Stamp(D.EmittedEvents(r.operation), r.now) else []
    ensures D.CommittedWrites(requests + [r]) ==
            D.CommittedWrites(requests)
            + if D.OutcomeOf(r) == D.Committed then D.OperationalWrites(r.operation) else []
    ensures D.Performed(NEW_DATABASES, requests + [r]) == D.Perform(D.Performed(NEW_DATABASES, requests), r)
  {
    assert (requests + [r])[..|requests|] == requests;
  }

  lemma CommandStep(router: Router, y: System, r: D.Request, requests: seq<D.Request>)
    requires SystemInv(router, y, requests) && Can(router, y, Command(r))
    ensures SystemInv(router, Then(router, y, Command(r)), requests + [r])
  {
    OneMoreRequest(requests, r);
    if D.OutcomeOf(r) == D.Committed {
      var events := D.EmittedEvents(r.operation);
      CommitAddsRows(router, y.protocol, D.CommittedEvents(requests), events);
      SafeStep(router, y.protocol, Insert(D.Numbered(events, y.nextId)));
    }
  }

  lemma ProcessStep(router: Router, y: System, a: Action, requests: seq<D.Request>)
    requires SystemInv(router, y, requests) && Can(router, y, Process(a))
    ensures SystemInv(router, Then(router, y, Process(a)), requests + [])
  {
    assert requests + [] == requests;
    ProcessKeepsRows(router, y.protocol, a, D.CommittedEvents(requests));
    SafeStep(router, y.protocol, a);
  }

  lemma EventStep(router: Router, before: System, e: Event, y: System, requests: seq<D.Request>)
    requires SystemInv(router, before, requests) && Goes(router, before, e, y)
    ensures SystemInv(router, y, requests + Asked(e))
  {
    match e {
      case Command(r) => CommandStep(router, before, r, requests);
      case Process(a) => ProcessStep(router, before, a, requests);
    }
  }

  lemma EmptySystem(router: Router, clock: int)
    ensures SystemInv(router, System(EMPTY_LOG, EMPTY_LOG, 0, Initial(clock)), [])
  {
  }

  lemma {:induction false} SystemRun(router: Router, clock: int, events: seq<Event>, y: System)
    requires Leads(router, clock, events, y)
    ensures SystemInv(router, y, Requests(events))
    decreases |events|
  {
    if events == [] {
      EmptySystem(router, clock);
    } else {
      var earlier, last := events[..|events| - 1], events[|events| - 1];
      var before: System :| Leads(router, clock, earlier, before) && Goes(router, before, last, y);
      SystemRun(router, clock, earlier, before);
      EventStep(router, before, last, y, Requests(earlier));
    }
  }

  /**
   The outbox over whole runs of the whole system, commands and processors in any order: the table holds
   exactly the events of the committed commands, in emit order, beside exactly their writes; the analytics
   database what the same commands would leave with no processor at work; every job is
   one that such an event is routed to; and a published event is in every queue its type is routed to.
   */
  lemma {:induction false} NothingLostNothingInvented(router: Router, clock: int, events: seq<Event>, y: System)
    requires Leads(router, clock, events, y)
    ensures
      var committed := D.CommittedEvents(Requests(events));
      && y.operational == D.CommittedWrites(Requests(events))
      && y.analytics == D.Performed(NEW_DATABASES, Requests(events)).analytics
      && (forall id | id in y.protocol.rows :: id < |committed|)
      && (forall i | 0 <= i < |committed| :: RowOf(y.protocol, i, committed[i]))
      && (forall j | j in y.protocol.jobs ::
            && j.1 < |committed| && y.protocol.jobs[j].queue == j.0
            && y.protocol.jobs[j] in Resolve(router, committed[j.1].event.eventType))
      && (forall i | 0 <= i < |committed| && i in y.protocol.rows && y.protocol.rows[i].status == Published ::
            forall route | route in Resolve(router, committed[i].event.eventType) :: (route.queue, i) in y.protocol.jobs)
  {
    SystemRun(router, clock, events, y);
    var s, committed := y.protocol, D.CommittedEvents(Requests(events));
    forall i: EventId | i < |committed|
      ensures i in s.rows && RowSafe(router, s, i)
    {
      assert RowOf(s, i, committed[i]);
    }
    forall j | j in s.jobs
      ensures j.1 < |committed| && s.jobs[j].queue == j.0 && s.jobs[j] in Resolve(router, committed[j.1].event.eventType)
    {
      assert JobSafe(router, s, j) && RowOf(s, j.1, committed[j.1]);
    }
  }
}
