/**
 Wake-up coalescing inside one processor instance. The process is single-threaded; an event below
 is one uninterrupted stretch of code, from one await to the next. Notifications and the cron
 trigger processing at any moment, also while earlier calls of triggerProcessing are suspended.
 */
module WakeUp {
  import opened Optional
  import opened OutboxRepository
  import opened OutboxPolicy

  /** Where a suspended call of triggerProcessing stands. */
  datatype Stage = AwaitingClaim | HandlingBatch | DrainEnded

  /** The claim that ended a drain, and how it was answered. */
  datatype LastClaim = LastClaim(serial: nat, at: int, rows: Table, busy: set<EventId>, failed: bool)

  /**
   The two flags, and one entry for every suspended call. The rest observes: events are numbered,
   `lastTrigger` and `drainBegan` are the numbers of the latest trigger and drain start.
   */
  datatype State = State(
    isProcessing: bool,
    needsAnotherPass: bool,
    calls: map<nat, Stage>,
    serial: nat,
    triggers: nat,
    drains: nat,
    lastTrigger: nat,
    drainBegan: nat,
    lastClaim: Option<LastClaim>)

  datatype Event =
    | Trigger
    | ClaimAnswered(call: nat, at: int, rows: Table, busy: set<EventId>, ids: set<EventId>)
    | ClaimFailed(call: nat)
    | BatchHandled(call: nat)
    | LoopTest(call: nat)

  const INITIAL: State := State(false, false, map[], 1, 0, 0, 0, 0, None)

  ghost predicate Enabled(s: State, e: Event) {
    match e
    case Trigger => true
    case ClaimAnswered(c, at, rows, busy, ids) =>
      c in s.calls && s.calls[c] == AwaitingClaim && OldestDue(rows, at, busy, BATCH_SIZE, ids)
    case ClaimFailed(c) => c in s.calls && s.calls[c] == AwaitingClaim
    case BatchHandled(c) => c in s.calls && s.calls[c] == HandlingBatch
    case LoopTest(c) => c in s.calls && s.calls[c] == DrainEnded
  }

  function Next(s: State, e: Event): State {
    var n := s.(serial := s.serial + 1);
    match e
    case Trigger =>
      var t := n.(triggers := s.triggers + 1, lastTrigger := s.serial);
      if s.isProcessing then t.(needsAnotherPass := true)
      else
        t.(isProcessing := true, needsAnotherPass := false, calls := s.calls[s.serial := AwaitingClaim],
           drains := s.drains + 1, drainBegan := s.serial)
    case ClaimAnswered(c, at, rows, busy, ids) =>
      if ids == {} then
        n.(calls := s.calls[c := DrainEnded], lastClaim := Some(LastClaim(s.serial, at, rows, busy, false)))
      else n.(calls := s.calls[c := HandlingBatch])
    case ClaimFailed(c) =>
      n.(calls := s.calls[c := DrainEnded], lastClaim := Some(LastClaim(s.serial, 0, map[], {}, true)))
    case BatchHandled(c) => n.(calls := s.calls[c := AwaitingClaim])
    case LoopTest(c) =>
      if s.needsAnotherPass then
        n.(needsAnotherPass := false, calls := s.calls[c := AwaitingClaim],
           drains := s.drains + 1, drainBegan := s.serial)
      else n.(isProcessing := false, calls := s.calls - {c})
  }

  /** The claim that ended the latest drain came after it began and was refused or found nothing due. */
  ghost predicate DrainedDry(s: State) {
    && s.lastClaim.Some?
    && s.drainBegan < s.lastClaim.value.serial
    && (s.lastClaim.value.failed
        || forall id | id in s.lastClaim.value.rows && Due(s.lastClaim.value.rows[id], s.lastClaim.value.at) ::
             id in s.lastClaim.value.busy)
  }

  ghost predicate Inv(s: State) {
    && (s.isProcessing <==> s.calls != map[])
    && (forall c1, c2 | c1 in s.calls && c2 in s.calls :: c1 == c2)
    && (s.needsAnotherPass ==> s.isProcessing)
    && s.drains + (if s.needsAnotherPass then 1 else 0) <= s.triggers
    && s.lastTrigger < s.serial && s.drainBegan < s.serial
    && (s.needsAnotherPass || s.lastTrigger <= s.drainBegan)
    && (s.triggers > 0 || s.isProcessing ==> s.drains > 0)
    && ((s.drains > 0 && forall c | c in s.calls :: s.calls[c] == DrainEnded) ==> DrainedDry(s))
  }

  lemma InvStep(s: State, e: Event)
    requires Inv(s) && Enabled(s, e)
    ensures Inv(Next(s, e))
  {
    match e {
      case Trigger =>
        if !s.isProcessing {
          assert Next(s, e).calls == map[s.serial := AwaitingClaim];
          assert s.serial in Next(s, e).calls;
        }
      case ClaimAnswered(c, at, rows, busy, ids) =>
        EmptyClaimIffNothingDue(rows, at, busy, BATCH_SIZE, ids);
        assert Next(s, e).calls[c] != AwaitingClaim;
      case ClaimFailed(c) =>
      case BatchHandled(c) => assert Next(s, e).calls[c] == AwaitingClaim;
      case LoopTest(c) =>
        assert forall other | other in s.calls :: other == c;
        if s.needsAnotherPass {
          assert Next(s, e).calls[c] == AwaitingClaim;
        }
    }
  }

  ghost predicate ValidRun(s: State, run: seq<Event>)
    decreases |run|
  {
    run == [] || (Enabled(s, run[0]) && ValidRun(Next(s, run[0]), run[1..]))
  }

  ghost function After(s: State, run: seq<Event>): State
    decreases |run|
  {
    if run == [] then s else After(Next(s, run[0]), run[1..])
  }

  lemma {:induction false} InvRun(s: State, run: seq<Event>)
    requires Inv(s) && ValidRun(s, run)
    ensures Inv(After(s, run))
    decreases |run|
  {
    if run != [] {
      InvStep(s, run[0]);
      InvRun(Next(s, run[0]), run[1..]);
    }
  }

  /**
   At most one drain is active, needsAnotherPass is only ever set while one is, and there are never
   more drains than triggers. No wake-up is lost: when the processor is idle, its last drain began
   no earlier than the last trigger, and ended with a claim that either failed or found that every
   due row was locked by another transaction.
   */
  lemma NoLostWakeUp(run: seq<Event>)
    requires ValidRun(INITIAL, run)
    ensures
      var s := After(INITIAL, run);
      && |s.calls| <= 1
      && (s.needsAnotherPass ==> s.isProcessing)
      && s.drains <= s.triggers
      && (!s.isProcessing && s.triggers > 0 ==> s.lastTrigger <= s.drainBegan && DrainedDry(s))
  {
    InvRun(INITIAL, run);
    var s := After(INITIAL, run);
    if |s.calls| > 0 {
      var c :| c in s.calls;
      assert s.calls.Keys == {c};
    }
  }

  /** The service's own two fields, with the suspended calls and the observer kept beside them. */
  class OutboxProcessorWakeUp {
    var isProcessing: bool
    var needsAnotherPass: bool
    ghost var seen: State

    ghost predicate Valid()
      reads this
    {
      seen.isProcessing == isProcessing && seen.needsAnotherPass == needsAnotherPass && Inv(seen)
    }

    constructor ()
      ensures Valid() && seen == INITIAL
    {
      isProcessing, needsAnotherPass := false, false;
      seen := INITIAL;
    }

    /** The part of triggerProcessing before its first await; the result says whether to start a drain. */
    method TriggerProcessing() returns (startDrain: bool)
      requires Valid()
      modifies this
      ensures Valid() && seen == Next(old(seen), Trigger)
      ensures startDrain <==> old(seen).calls == map[]
    {
      InvStep(seen, Trigger);
      seen := Next(seen, Trigger);
      if isProcessing {
        needsAnotherPass := true;
        return false;
      }
      isProcessing := true;
      needsAnotherPass := false;
      startDrain := true;
    }

    /** The part of triggerProcessing after a drain: another pass, or leave through finally. */
    method AfterDrain(ghost call: nat) returns (startDrain: bool)
      requires Valid() && Enabled(seen, LoopTest(call))
      modifies this
      ensures Valid() && seen == Next(old(seen), LoopTest(call))
      ensures startDrain <==> call in seen.calls
    {
      InvStep(seen, LoopTest(call));
      seen := Next(seen, LoopTest(call));
      if needsAnotherPass {
        needsAnotherPass := false;
        return true;
      }
      isProcessing := false;
      startDrain := false;
    }
  }
}
