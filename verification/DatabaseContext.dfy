/**
 Commands: one transaction holds a command's domain writes and the outbox rows of the events it emitted.
 Analytics writes go over another connection, outside that transaction.
 */
module DatabaseContext {
  import opened Optional
  import opened OutboxRepository

  datatype Write = Write(relation: string, row: string)

  /** What an operation does with its context, in order; it ends early if it throws. */
  datatype Step = WriteOperational(w: Write) | WriteAnalytics(w: Write) | Emit(events: seq<NewEvent>) | Throw
  type Operation = seq<Step>

  datatype Fault = NoFault | SettingFails | PublishFails | CommitFails

  datatype Request = Request(platform: bool, storeId: Option<string>, operation: Operation, fault: Fault, now: int)

  datatype Outcome = Committed | Unauthorized | SettingThrew | OperationThrew | PublishThrew | CommitThrew

  /** Outbox ids are time-ordered; the model numbers rows in insertion order. */
  datatype Databases = Databases(operational: seq<Write>, analytics: seq<Write>, outbox: Table, nextId: EventId)

  // ---- What an operation leaves behind ----

  function OperationalWrites(steps: seq<Step>): seq<Write> {
    if steps == [] then []
    else OperationalWrites(steps[..|steps| - 1]) + match steps[|steps| - 1] { case WriteOperational(w) => [w] case _ => [] }
  }

  function AnalyticsWrites(steps: seq<Step>): seq<Write> {
    if steps == [] then []
    else AnalyticsWrites(steps[..|steps| - 1]) + match steps[|steps| - 1] { case WriteAnalytics(w) => [w] case _ => [] }
  }

  function EmittedEvents(steps: seq<Step>): seq<NewEvent> {
    if steps == [] then []
    else EmittedEvents(steps[..|steps| - 1]) + match steps[|steps| - 1] { case Emit(events) => events case _ => [] }
  }

  lemma Associative<T>(a: seq<T>, b: seq<T>, c: seq<T>)
    ensures (a + b) + c == a + (b + c)
  {
  }

  /** The events are collected step by step, in the order of the steps. */
  lemma {:induction false} EmittedInOrder(a: seq<Step>, b: seq<Step>)
    ensures EmittedEvents(a + b) == EmittedEvents(a) + EmittedEvents(b)
    decreases |b|
  {
    if b == [] {
      assert a + b == a;
    } else {
      var n := |b| - 1;
      var last := match b[n] { case Emit(events) => events case _ => [] };
      assert (a + b)[..|a + b| - 1] == a + b[..n];
      EmittedInOrder(a, b[..n]);
      assert EmittedEvents(a + b) == EmittedEvents(a + b[..n]) + last;
      Associative(EmittedEvents(a), EmittedEvents(b[..n]), last);
    }
  }

  /** So are the operational writes. */
  lemma {:induction false} OperationalInOrder(a: seq<Step>, b: seq<Step>)
    ensures OperationalWrites(a + b) == OperationalWrites(a) + OperationalWrites(b)
    decreases |b|
  {
    if b == [] {
      assert a + b == a;
    } else {
      var n := |b| - 1;
      var whole := a + b;
      assert whole[..|whole| - 1] == a + b[..n] && whole[|whole| - 1] == b[n];
      OperationalInOrder(a, b[..n]);
    }
  }

  /** And the analytics writes. */
  lemma {:induction false} AnalyticsInOrder(a: seq<Step>, b: seq<Step>)
    ensures AnalyticsWrites(a + b) == AnalyticsWrites(a) + AnalyticsWrites(b)
    decreases |b|
  {
    if b == [] {
      assert a + b == a;
    } else {
      var n := |b| - 1;
      var whole := a + b;
      assert whole[..|whole| - 1] == a + b[..n] && whole[|whole| - 1] == b[n];
      AnalyticsInOrder(a, b[..n]);
    }
  }

  lemma Extended(steps: seq<Step>, i: nat)
    requires i < |steps|
    ensures
      var before, after := steps[..i], steps[..i + 1];
      && EmittedEvents(after) == EmittedEvents(before) + (match steps[i] { case Emit(events) => events case _ => [] })
      && OperationalWrites(after)
         == OperationalWrites(before) + (match steps[i] { case WriteOperational(w) => [w] case _ => [] })
      && AnalyticsWrites(after)
         == AnalyticsWrites(before) + (match steps[i] { case WriteAnalytics(w) => [w] case _ => [] })
  {
    assert steps[..i + 1][..i] == steps[..i];
  }

  /** One step adds what it says to one list, and nothing to the others. */
  lemma OneStep(step: Step)
    ensures EmittedEvents([step]) == match step { case Emit(events) => events case _ => [] }
    ensures OperationalWrites([step]) == match step { case WriteOperational(w) => [w] case _ => [] }
    ensures AnalyticsWrites([step]) == match step { case WriteAnalytics(w) => [w] case _ => [] }
  {
    assert [step][..0] == [];
  }

  /** How many steps are done before a throw, or before the end. */
  function Stop(steps: seq<Step>): (n: nat)
    ensures n <= |steps|
  {
    if steps == [] || steps[0].Throw? then 0 else 1 + Stop(steps[1..])
  }

  lemma {:induction false} StopsAt(steps: seq<Step>, i: nat)
    requires i <= |steps| && (i < |steps| ==> steps[i].Throw?)
    requires forall j | 0 <= j < i :: !steps[j].Throw?
    ensures Stop(steps) == i
    decreases i
  {
    if i > 0 {
      StopsAt(steps[1..], i - 1);
    }
  }

  function Done(steps: seq<Step>): seq<Step> {
    steps[..Stop(steps)]
  }

  predicate Authorized(r: Request) {
    r.platform || (r.storeId.Some? && r.storeId.value != "")
  }

  /** The first thing to go wrong, in the order of the code. Only a store's command sets the store on its transaction. */
  function OutcomeOf(r: Request): Outcome {
    if !Authorized(r) then Unauthorized
    else if !r.platform && r.fault == SettingFails then SettingThrew
    else if Stop(r.operation) < |r.operation| then OperationThrew
    else if EmittedEvents(r.operation) != [] && r.fault == PublishFails then PublishThrew
    else if r.fault == CommitFails then CommitThrew
    else Committed
  }

  lemma {:induction false} StopsShortIff(steps: seq<Step>)
    ensures Stop(steps) < |steps| <==> Throw in steps
    ensures Throw !in Done(steps)
    decreases |steps|
  {
    if steps != [] && !steps[0].Throw? {
      StopsShortIff(steps[1..]);
      assert steps == [steps[0]] + steps[1..];
      assert Done(steps) == [steps[0]] + Done(steps[1..]);
    }
  }

  lemma {:induction false} EmitsIff(steps: seq<Step>)
    ensures EmittedEvents(steps) != [] <==> exists step :: step in steps && step.Emit? && step.events != []
    decreases |steps|
  {
    if steps != [] {
      var n := |steps| - 1;
      EmitsIff(steps[..n]);
      assert steps == steps[..n] + [steps[n]];
    }
  }

  /**
   A command commits iff it is a platform command or comes with a store, and nothing goes wrong on the way:
   the store is set, the operation does not throw, the events if any are published, and the commit succeeds.
   Without a store it is refused, and does nothing at all.
   */
  lemma CommitsIff(db: Databases, r: Request)
    ensures OutcomeOf(r) == Committed <==>
      && (r.platform || (r.storeId.Some? && r.storeId.value != ""))
      && (r.platform || r.fault != SettingFails)
      && Throw !in r.operation
      && (r.fault == PublishFails ==> forall step | step in r.operation && step.Emit? :: step.events == [])
      && r.fault != CommitFails
    ensures !r.platform && (r.storeId.None? || r.storeId.value == "") ==>
      OutcomeOf(r) == Unauthorized && Perform(db, r) == db
    ensures !r.platform && r.fault == SettingFails ==> OutcomeOf(r) != Committed && Perform(db, r) == db
  {
    StopsShortIff(r.operation);
    EmitsIff(r.operation);
  }

  predicate Slot(id: EventId, first: EventId, count: nat) {
    first <= id < first + count
  }

  function Numbered(events: seq<NewEvent>, first: EventId): (rows: map<EventId, NewEvent>)
    ensures forall id :: id in rows <==> Slot(id, first, |events|)
  {
    map id: EventId | first <= id < first + |events| && Slot(id, first, |events|) :: events[id - first]
  }

  /** The operation is entered unless it is refused or the setting fails. */
  predicate Entered(r: Request) {
    Authorized(r) && (r.platform || r.fault != SettingFails)
  }

  function Perform(db: Databases, r: Request): Databases {
    var logged := if Entered(r) then db.(analytics := db.analytics + AnalyticsWrites(Done(r.operation))) else db;
    if OutcomeOf(r) != Committed then logged
    else
      var events := EmittedEvents(r.operation);
      logged.(
        operational := db.operational + OperationalWrites(r.operation),
        outbox := Inserted(db.outbox, Numbered(events, db.nextId), r.now),
        nextId := db.nextId + |events|)
  }

  lemma InsertedNothing(rows: Table, first: EventId, now: int)
    ensures Inserted(rows, Numbered([], first), now) == rows
  {
  }

  class DatabaseContextService {
    var operational: seq<Write>
    var analytics: seq<Write>
    var nextId: EventId
    const outbox: OutboxKyselyRepository

    function State(): Databases
      reads this, outbox
    {
      Databases(operational, analytics, outbox.rows, nextId)
    }

    predicate Valid()
      reads this, outbox
    {
      forall id | id in outbox.rows :: id < nextId
    }

    constructor ()
      ensures State() == Databases([], [], map[], 0) && Valid()
      ensures fresh(outbox)
    {
      operational, analytics, nextId := [], [], 0;
      outbox := new OutboxKyselyRepository();
    }

    method PlatformCommand(operation: Operation, fault: Fault, now: int) returns (outcome: Outcome)
      requires Valid()
      modifies this, outbox
      ensures Valid()
      ensures State() == Perform(old(State()), Request(true, None, operation, fault, now))
      ensures outcome == OutcomeOf(Request(true, None, operation, fault, now))
    {
      outcome := Transaction(operation, fault, now);
    }

    method Command(storeId: Option<string>, operation: Operation, fault: Fault, now: int) returns (outcome: Outcome)
      requires Valid()
      modifies this, outbox
      ensures Valid()
      ensures State() == Perform(old(State()), Request(false, storeId, operation, fault, now))
      ensures outcome == OutcomeOf(Request(false, storeId, operation, fault, now))
    {
      if storeId.None? || storeId.value == "" {
        return Unauthorized;
      }
      if fault == SettingFails {
        return SettingThrew;
      }
      outcome := Transaction(operation, fault, now);
    }

    /**
     The transaction both kinds of command run. Everything is written in place, and put back if the
     operation, the publishing or the commit fails; nobody else looks in between.
     */
    method Transaction(operation: Operation, fault: Fault, now: int) returns (outcome: Outcome)
      requires Valid()
      modifies this, outbox
      ensures Valid()
      ensures State() == Perform(old(State()), Request(true, None, operation, fault, now))
      ensures outcome == OutcomeOf(Request(true, None, operation, fault, now))
    {
      var savedOperational, savedRows, savedId := operational, outbox.rows, nextId;
      var events := RunOperation(operation);
      if Stop(operation) < |operation| {
        outcome := OperationThrew;
      } else {
        assert Done(operation) == operation;
        outcome := Publish(events, fault, now);
        if outcome == Committed && fault == CommitFails {
          outcome := CommitThrew;
        }
      }
      if outcome != Committed {
        operational, outbox.rows, nextId := savedOperational, savedRows, savedId;
      }
    }

    /** The operation, up to its end or its throw; what it emits is pushed onto one list. */
    method RunOperation(operation: Operation) returns (events: seq<NewEvent>)
      modifies this
      ensures events == EmittedEvents(Done(operation))
      ensures State() == old(State()).(operational := old(operational) + OperationalWrites(Done(operation)),
                                       analytics := old(analytics) + AnalyticsWrites(Done(operation)))
    {
      events := [];
      var i := 0;
      while i < |operation| && !operation[i].Throw?
        invariant 0 <= i <= |operation| && forall j | 0 <= j < i :: !operation[j].Throw?
        invariant events == EmittedEvents(operation[..i])
        invariant operational == old(operational) + OperationalWrites(operation[..i])
        invariant analytics == old(analytics) + AnalyticsWrites(operation[..i])
        invariant nextId == old(nextId) && outbox.rows == old(outbox.rows)
      {
        Extended(operation, i);
        match operation[i] {
          case WriteOperational(w) => operational := operational + [w];
          case WriteAnalytics(w) => analytics := analytics + [w];
          case Emit(es) => events := events + es;
        }
        i := i + 1;
      }
      StopsAt(operation, i);
    }

    /** publishAll, skipped when nothing was emitted. */
    method Publish(events: seq<NewEvent>, fault: Fault, now: int) returns (outcome: Outcome)
      requires Valid()
      modifies this, outbox
      ensures outcome == if events != [] && fault == PublishFails then PublishThrew else Committed
      ensures outcome == Committed ==>
                Valid() && State() == old(State()).(outbox := Inserted(old(outbox.rows), Numbered(events, old(nextId)), now),
                                                    nextId := old(nextId) + |events|)
      ensures operational == old(operational) && analytics == old(analytics)
    {
      outcome := Committed;
      if |events| > 0 {
        if fault == PublishFails {
          return PublishThrew;
        }
        outbox.Insert(Numbered(events, nextId), now);
        nextId := nextId + |events|;
      } else {
        InsertedNothing(outbox.rows, nextId, now);
      }
    }
  }

  // ---- Whole sequences of commands ----

  function Performed(db: Databases, requests: seq<Request>): Databases {
    if requests == [] then db
    else Perform(Performed(db, requests[..|requests| - 1]), requests[|requests| - 1])
  }

  /** An emitted event with the instant its command inserted it. */
  datatype Stamped = Stamped(event: NewEvent, at: int)

  function Stamp(events: seq<NewEvent>, at: int): (stamped: seq<Stamped>)
    ensures |stamped| == |events| && forall i | 0 <= i < |events| :: stamped[i] == Stamped(events[i], at)
  {
    seq(|events|, i requires 0 <= i < |events| => Stamped(events[i], at))
  }

  /** The events of the committed commands, in order. */
  function CommittedEvents(requests: seq<Request>): seq<Stamped> {
    if requests == [] then []
    else
      var r := requests[|requests| - 1];
      CommittedEvents(requests[..|requests| - 1])
        + if OutcomeOf(r) == Committed then Stamp(EmittedEvents(r.operation), r.now) else []
  }

  function CommittedWrites(requests: seq<Request>): seq<Write> {
    if requests == [] then []
    else
      var r := requests[|requests| - 1];
      CommittedWrites(requests[..|requests| - 1])
        + if OutcomeOf(r) == Committed then OperationalWrites(r.operation) else []
  }

  ghost predicate FreshAt(rows: Table, id: EventId, e: Stamped) {
    id in rows && rows[id] == Fresh(e.event, e.at)
  }

  /** `rows` holds exactly one fresh row per event, in order. */
  ghost predicate HoldsExactly(rows: Table, events: seq<Stamped>) {
    && (forall id | id in rows :: id < |events|)
    && (forall i | 0 <= i < |events| :: FreshAt(rows, i, events[i]))
  }

  lemma CommitAppends(rows: Table, committed: seq<Stamped>, events: seq<NewEvent>, at: int)
    requires HoldsExactly(rows, committed)
    ensures HoldsExactly(Inserted(rows, Numbered(events, |committed|), at), committed + Stamp(events, at))
  {
    var all, added := committed + Stamp(events, at), Numbered(events, |committed|);
    forall i | 0 <= i < |all|
      ensures FreshAt(Inserted(rows, added, at), i, all[i])
    {
      if i < |committed| {
        assert FreshAt(rows, i, committed[i]);
        assert !Slot(i, |committed|, |events|);
      } else {
        assert Slot(i, |committed|, |events|);
      }
    }
    forall id | id in Inserted(rows, added, at)
      ensures id < |all|
    {
      assert id in rows || Slot(id, |committed|, |events|);
    }
  }

  /**
   Transactional outbox. After any sequence of commands, whichever of them were refused or failed in the
   operation, in publishing or at commit, the outbox holds exactly the events of the committed commands,
   one row each, in emit order; and the operational writes are exactly those of the same commands.
   */
  lemma {:induction false} TransactionalOutbox(requests: seq<Request>)
    ensures
      var db := Performed(Databases([], [], map[], 0), requests);
      && HoldsExactly(db.outbox, CommittedEvents(requests))
      && db.nextId == |CommittedEvents(requests)|
      && db.operational == CommittedWrites(requests)
  {
    if requests != [] {
      var n := |requests| - 1;
      var r := requests[n];
      TransactionalOutbox(requests[..n]);
      if OutcomeOf(r) == Committed {
        var before := Performed(Databases([], [], map[], 0), requests[..n]);
        CommitAppends(before.outbox, CommittedEvents(requests[..n]), EmittedEvents(r.operation), r.now);
      }
    }
  }

  /** Analytics writes are not part of the transaction: a command that rolls back leaves behind those it had made. */
  lemma AnalyticsSurviveRollback(db: Databases, r: Request)
    requires OutcomeOf(r) != Committed
    ensures Perform(db, r) == db <==> (!Entered(r) || AnalyticsWrites(Done(r.operation)) == [])
  {
    if Entered(r) {
      var kept := AnalyticsWrites(Done(r.operation));
      assert |db.analytics + kept| == |db.analytics| + |kept|;
      if kept == [] {
        assert db.analytics + kept == db.analytics;
      }
    }
  }

  /** Writes on both connections before a throw: the analytics writes stay, in order, and all else is rolled back. */
  lemma ThrownHalfWay(db: Databases, platform: bool, a: Write, o: Write, b: Write, c: Write, e: NewEvent, now: int)
    ensures
      var steps := [WriteAnalytics(a), WriteOperational(o), Emit([e]), WriteAnalytics(b), Throw, WriteAnalytics(c)];
      var r := Request(platform, Some("store"), steps, NoFault, now);
      OutcomeOf(r) == OperationThrew && Perform(db, r) == db.(analytics := db.analytics + [a, b])
  {
    var steps := [WriteAnalytics(a), WriteOperational(o), Emit([e]), WriteAnalytics(b), Throw, WriteAnalytics(c)];
    StopsAt(steps, 4);
    FourSteps(steps, a, o, b, e);
  }

  lemma FourSteps(steps: seq<Step>, a: Write, o: Write, b: Write, e: NewEvent)
    requires |steps| >= 4 && steps[..4] == [WriteAnalytics(a), WriteOperational(o), Emit([e]), WriteAnalytics(b)]
    ensures AnalyticsWrites(steps[..4]) == [a, b]
  {
    Extended(steps, 0);
    Extended(steps, 1);
    Extended(steps, 2);
    Extended(steps, 3);
    assert AnalyticsWrites(steps[..1]) == [a];
  }

  /** A committed command appends its operational writes, and numbers its rows on from the last. */
  lemma CommittedAppends(db: Databases, r: Request)
    requires OutcomeOf(r) == Committed
    ensures
      var db' := Perform(db, r);
      && db'.operational == db.operational + OperationalWrites(r.operation)
      && db'.analytics == db.analytics + AnalyticsWrites(r.operation)
      && db'.nextId == db.nextId + |EmittedEvents(r.operation)|
      && forall id | id in db'.outbox :: id in db.outbox || db.nextId <= id < db'.nextId
  {
    StopsShortIff(r.operation);
    assert Done(r.operation) == r.operation;
    forall id | id in Perform(db, r).outbox && id !in db.outbox
      ensures Slot(id, db.nextId, |EmittedEvents(r.operation)|)
    {
    }
  }

  /** What a command that does not commit is told: the first thing to go wrong. */
  lemma FailsAs(r: Request)
    requires r.platform || (r.storeId.Some? && r.storeId.value != "")
    ensures OutcomeOf(r) == SettingThrew <==> !r.platform && r.fault == SettingFails
    ensures OutcomeOf(r) == OperationThrew <==> Throw in r.operation && (r.platform || r.fault != SettingFails)
    ensures OutcomeOf(r) == PublishThrew <==>
      Throw !in r.operation && r.fault == PublishFails && exists step :: step in r.operation && step.Emit? && step.events != []
    ensures OutcomeOf(r) == CommitThrew <==> Throw !in r.operation && r.fault == CommitFails
  {
    StopsShortIff(r.operation);
    EmitsIff(r.operation);
  }

  /** Rows are numbered in the order of the events, and each holds its event's columns. */
  lemma TwoRows(first: NewEvent, second: NewEvent, now: int)
    ensures
      var rows := Inserted(map[], Numbered([first, second], 0), now);
      && rows.Keys == {0, 1}
      && rows[0].eventType == first.eventType && rows[0].occurredAt == first.occurredAt
      && rows[1].eventType == second.eventType && rows[1].occurredAt == second.occurredAt
  {
    var events := Numbered([first, second], 0);
    assert Slot(0, 0, 2) && Slot(1, 0, 2);
    forall id: EventId
      ensures id in Inserted(map[], events, now) <==> id in {0, 1}
    {
      assert id in events <==> Slot(id, 0, 2);
    }
  }

  /** Two emits in one command, on an empty outbox: the first event gets the first row. */
  lemma EmitOrderIsRowOrder(first: NewEvent, second: NewEvent, now: int)
    ensures
      var r := Request(true, None, [Emit([first]), Emit([second])], NoFault, now);
      var db := Perform(Databases([], [], map[], 0), r);
      && OutcomeOf(r) == Committed && db.nextId == 2 && db.outbox.Keys == {0, 1}
      && db.outbox[0].eventType == first.eventType && db.outbox[0].occurredAt == first.occurredAt
      && db.outbox[1].eventType == second.eventType && db.outbox[1].occurredAt == second.occurredAt
  {
    var r := Request(true, None, [Emit([first]), Emit([second])], NoFault, now);
    CommitsIff(Databases([], [], map[], 0), r);
    TwoEmits(first, second);
    TwoRows(first, second, now);
  }

  lemma TwoEmits(first: NewEvent, second: NewEvent)
    ensures EmittedEvents([Emit([first]), Emit([second])]) == [first, second]
  {
    assert [Emit([first]), Emit([second])] == [Emit([first])] + [Emit([second])];
    EmittedInOrder([Emit([first])], [Emit([second])]);
    OneStep(Emit([first]));
    OneStep(Emit([second]));
  }
}
