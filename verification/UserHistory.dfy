/** What holds after any run of user commands, thrown or not, and what the event history alone tells. */
module UserHistory {
  import opened Optional
  import opened User
  import S = UserSecurity

  // ---- Reading the history ----

  /** What a reader of the events knows of the user. */
  datatype View = Unregistered | Known(status: Status, emailVerifiedAt: Option<int>, lockedUntil: Option<int>)

  function Read(v: View, e: Event): View {
    if e.Registered? then Known(Pending, None, None)
    else if v.Unregistered? then v
    else if e.EmailVerified? then v.(emailVerifiedAt := Some(e.verifiedAt))
    else if e.StatusEnabled? then v.(status := Active)
    else if e.StatusDisabled? then v.(status := Disabled)
    else if e.StatusSuspended? then v.(status := Suspended)
    else if e.LoginLocked? then v.(lockedUntil := Some(e.lockout.until))
    else if e.LoggedIn? then v.(lockedUntil := None)
    else v
  }

  function Fold(v: View, events: seq<Event>): View
    decreases |events|
  {
    if events == [] then v else Fold(Read(v, events[0]), events[1..])
  }

  lemma {:induction false} FoldConcat(v: View, a: seq<Event>, b: seq<Event>)
    ensures Fold(v, a + b) == Fold(Fold(v, a), b)
    decreases |a|
  {
    if a == [] {
      assert a + b == b;
    } else {
      assert (a + b)[1..] == a[1..] + b;
      FoldConcat(Read(v, a[0]), a[1..], b);
    }
  }

  // ---- Runs ----

  datatype Action = Do(command: Command) | Pull

  /** A user with what has been pulled from its buffer so far, and what is still in it. */
  datatype Trace = Trace(user: UserState, pulled: seq<Event>, buffer: seq<Event>)

  function Begin(passwordHash: string, names: Names, createdAt: int): Trace {
    Trace(Created(passwordHash, names), [], [Registered(createdAt)])
  }

  function Next(t: Trace, a: Action): Trace {
    match a
    case Pull => Trace(t.user, t.pulled + t.buffer, [])
    case Do(c) => var o := Apply(t.user, c); Trace(o.state, t.pulled, t.buffer + o.raised)
  }

  function Run(t: Trace, actions: seq<Action>): Trace
    decreases |actions|
  {
    if actions == [] then t else Run(Next(t, actions[0]), actions[1..])
  }

  // ---- Invariants ----

  /** The view `v` read from the history agrees with the user. A password change lifts a lock without an event. */
  predicate Agrees(v: View, s: UserState) {
    && v.Known?
    && v.status == s.status
    && v.emailVerifiedAt == s.emailVerifiedAt
    && (s.security.lockoutUntil.Some? ==> v.lockedUntil == s.security.lockoutUntil)
  }

  predicate Sound(s: UserState) {
    && (s.status == Pending <==> s.emailVerifiedAt.None?)
    && (s.phoneVerifiedAt.Some? ==> s.phone.Some?)
    && (s.deletedAt.Some? ==> s.emailVerifiedAt.Some?)
    && S.MfaConsistent(s.security)
    && (s.security.lockoutUntil.Some? <==> s.security.failedLoginAttempts >= S.MAX_FAILED_ATTEMPTS)
    && (s.security.lockoutUntil.Some? <==> s.security.lockoutReason.Some?)
  }

  lemma ActiveOnlyKeepsSound(s: UserState, c: Command)
    requires Sound(s) && CanPerformActions(s)
    ensures Sound(ActiveOnly(s, c).state)
  {
  }

  lemma CommandKeepsSound(s: UserState, c: Command)
    requires Sound(s)
    ensures Sound(Apply(s, c).state)
  {
    if CanPerformActions(s) {
      ActiveOnlyKeepsSound(s, c);
    }
  }

  /** At most two events, folded one by one. */
  lemma FoldRaised(v: View, s: UserState, c: Command)
    ensures
      var raised := Apply(s, c).raised;
      && |raised| <= 2
      && (|raised| == 0 ==> Fold(v, raised) == v)
      && (|raised| == 1 ==> Fold(v, raised) == Read(v, raised[0]))
      && (|raised| == 2 ==>
            Fold(v, raised) == Read(Read(v, raised[0]), raised[1]) && raised[0].EmailVerified? && raised[1].StatusEnabled?)
  {
    var raised := Apply(s, c).raised;
    if |raised| == 1 {
      assert raised[1..] == [];
    } else if |raised| == 2 {
      assert raised[1..][1..] == [];
      assert Fold(v, raised) == Fold(Read(v, raised[0]), raised[1..]) == Read(Read(v, raised[0]), raised[1]);
    }
  }

  /** The events raised by one command take a reader's view along with the state. */
  lemma CommandKeepsAgreement(v: View, s: UserState, c: Command)
    requires Agrees(v, s)
    ensures Agrees(Fold(v, Apply(s, c).raised), Apply(s, c).state)
  {
    FoldRaised(v, s, c);
  }

  ghost predicate TraceInv(t: Trace) {
    Sound(t.user) && Agrees(Fold(Unregistered, t.pulled + t.buffer), t.user)
  }

  lemma TraceInvStep(t: Trace, a: Action)
    requires TraceInv(t)
    ensures TraceInv(Next(t, a))
  {
    match a
    case Pull =>
      assert t.pulled + t.buffer + [] == t.pulled + t.buffer;
    case Do(c) =>
      var o := Apply(t.user, c);
      CommandKeepsSound(t.user, c);
      assert t.pulled + (t.buffer + o.raised) == t.pulled + t.buffer + o.raised;
      FoldConcat(Unregistered, t.pulled + t.buffer, o.raised);
      CommandKeepsAgreement(Fold(Unregistered, t.pulled + t.buffer), t.user, c);
  }

  lemma {:induction false} TraceInvRun(t: Trace, actions: seq<Action>)
    requires TraceInv(t)
    ensures TraceInv(Run(t, actions))
    decreases |actions|
  {
    if actions != [] {
      TraceInvStep(t, actions[0]);
      TraceInvRun(Next(t, actions[0]), actions[1..]);
    }
  }

  lemma BeginInv(passwordHash: string, names: Names, createdAt: int)
    ensures TraceInv(Begin(passwordHash, names, createdAt))
  {
    var t := Begin(passwordHash, names, createdAt);
    assert t.pulled + t.buffer == t.buffer && t.buffer[1..] == [];
    assert Fold(Unregistered, t.buffer) == Read(Unregistered, t.buffer[0]);
  }

  /**
   Event history folds to state. After any run from creation, with pulls anywhere and commands that may
   throw, the pulled events followed by the buffered ones fold to the status and the verification time,
   and to the lock if one is set; the status is pending exactly while the email is unverified; and MFA
   is enabled exactly when it has an enabling time.
   */
  lemma HistoryFoldsToState(passwordHash: string, names: Names, createdAt: int, actions: seq<Action>)
    ensures
      var t := Run(Begin(passwordHash, names, createdAt), actions);
      Agrees(Fold(Unregistered, t.pulled + t.buffer), t.user) && Sound(t.user)
  {
    BeginInv(passwordHash, names, createdAt);
    TraceInvRun(Begin(passwordHash, names, createdAt), actions);
  }

  // ---- The lock in the history ----

  /** The one call that lifts a lock and tells nobody: it can be read off the user before the call. */
  predicate LiftsSilently(s: UserState, c: Command) {
    c.ChangePassword? && c.newHash.Some? && CanPerformActions(s) && s.security.lockoutUntil.Some?
  }

  /** A reader who knows the lock goes on knowing it, exactly unless it is lifted by a password change. */
  lemma LockToldIff(v: View, s: UserState, c: Command)
    requires Agrees(v, s) && v.lockedUntil == s.security.lockoutUntil
    ensures
      var v' := Fold(v, Apply(s, c).raised);
      v'.Known? && (v'.lockedUntil == Apply(s, c).state.security.lockoutUntil <==> !LiftsSilently(s, c))
  {
    FoldRaised(v, s, c);
  }

  predicate TellsLock(e: Event) {
    e.LoginLocked? || e.LoggedIn?
  }

  /** A reader who missed that goes on missing it, until a login succeeds or a new lockout begins. */
  lemma LockRetoldIff(v: View, s: UserState, c: Command)
    requires Agrees(v, s) && v.lockedUntil != s.security.lockoutUntil
    ensures
      var o := Apply(s, c);
      var v' := Fold(v, o.raised);
      v'.Known? && (v'.lockedUntil == o.state.security.lockoutUntil <==> exists e :: e in o.raised && TellsLock(e))
  {
    FoldRaised(v, s, c);
    var raised := Apply(s, c).raised;
    if |raised| == 1 {
      assert raised[0] in raised;
    }
  }

  /** Whether the history is behind on the lock after one more action, if `missed` says whether it was before. */
  predicate MissedAfter(s: UserState, a: Action, missed: bool) {
    if a.Pull? then missed
    else if LiftsSilently(s, a.command) then true
    else missed && !exists e :: e in Apply(s, a.command).raised && TellsLock(e)
  }

  /** Whether, over a run, a lock was lifted silently and nothing told of the lock since. */
  predicate Missed(t: Trace, actions: seq<Action>, missed: bool)
    decreases |actions|
  {
    if actions == [] then missed
    else Missed(Next(t, actions[0]), actions[1..], MissedAfter(t.user, actions[0], missed))
  }

  ghost predicate LockTold(t: Trace) {
    var v := Fold(Unregistered, t.pulled + t.buffer);
    v.Known? && v.lockedUntil == t.user.security.lockoutUntil
  }

  lemma LockStep(t: Trace, c: Command)
    requires TraceInv(t)
    ensures LockTold(Next(t, Do(c))) <==>
      if LockTold(t) then !LiftsSilently(t.user, c)
      else exists e :: e in Apply(t.user, c).raised && TellsLock(e)
  {
    var o := Apply(t.user, c);
    assert t.pulled + (t.buffer + o.raised) == t.pulled + t.buffer + o.raised;
    FoldConcat(Unregistered, t.pulled + t.buffer, o.raised);
    if LockTold(t) {
      LockToldIff(Fold(Unregistered, t.pulled + t.buffer), t.user, c);
    } else {
      LockRetoldIff(Fold(Unregistered, t.pulled + t.buffer), t.user, c);
    }
  }

  lemma LockActionStep(t: Trace, a: Action, missed: bool)
    requires TraceInv(t) && (LockTold(t) <==> !missed)
    ensures LockTold(Next(t, a)) <==> !MissedAfter(t.user, a, missed)
  {
    if a.Pull? {
      assert t.pulled + t.buffer + [] == t.pulled + t.buffer;
    } else {
      LockStep(t, a.command);
    }
  }

  lemma {:induction false} LockRun(t: Trace, actions: seq<Action>, missed: bool)
    requires TraceInv(t) && (LockTold(t) <==> !missed)
    ensures LockTold(Run(t, actions)) <==> !Missed(t, actions, missed)
    decreases |actions|
  {
    if actions != [] {
      TraceInvStep(t, actions[0]);
      LockActionStep(t, actions[0], missed);
      LockRun(Next(t, actions[0]), actions[1..], MissedAfter(t.user, actions[0], missed));
    }
  }

  /**
   Over any run from creation, the pulled and buffered events fold to the lock, set or not, exactly unless
   a password change lifted a lock and neither a login nor a new lockout has been recorded since.
   */
  lemma {:induction false} HistoryTellsLockIff(passwordHash: string, names: Names, createdAt: int, actions: seq<Action>)
    ensures
      var t := Begin(passwordHash, names, createdAt);
      LockTold(Run(t, actions)) <==> !Missed(t, actions, false)
  {
    var t := Begin(passwordHash, names, createdAt);
    BeginInv(passwordHash, names, createdAt);
    assert t.pulled + t.buffer == t.buffer && t.buffer[1..] == [];
    assert Fold(Unregistered, t.buffer) == Read(Unregistered, t.buffer[0]);
    LockRun(t, actions, false);
  }

  function Fails(n: nat): seq<Action> {
    if n == 0 then [] else [Do(RecordFailedLogin(0))] + Fails(n - 1)
  }

  lemma {:induction false} FailsLock(t: Trace, n: nat)
    requires CanPerformActions(t.user) && t.user.security.lockoutUntil.None?
    requires n > 0 && t.user.security.failedLoginAttempts + n == S.MAX_FAILED_ATTEMPTS
    ensures CanPerformActions(Run(t, Fails(n)).user) && Run(t, Fails(n)).user.security.lockoutUntil.Some?
    decreases n
  {
    assert Fails(n)[1..] == Fails(n - 1);
    if n > 1 {
      FailsLock(Next(t, Do(RecordFailedLogin(0))), n - 1);
    } else {
      assert Run(t, Fails(1)) == Next(t, Do(RecordFailedLogin(0)));
    }
  }

  lemma {:induction false} RunConcat(t: Trace, a: seq<Action>, b: seq<Action>)
    ensures Run(t, a + b) == Run(Run(t, a), b)
    decreases |a|
  {
    if a == [] {
      assert a + b == b;
    } else {
      assert (a + b)[1..] == a[1..] + b;
      RunConcat(Next(t, a[0]), a[1..], b);
    }
  }

  /** It happens: verify, fail ten times, change the password; the history still says locked. */
  lemma SilentLift(passwordHash: string, names: Names, newHash: string) returns (actions: seq<Action>)
    ensures Missed(Begin(passwordHash, names, 0), actions, false)
    ensures !LockTold(Run(Begin(passwordHash, names, 0), actions))
  {
    var t := Begin(passwordHash, names, 0);
    var verified := Next(t, Do(VerifyEmail(0)));
    var before := [Do(VerifyEmail(0))] + Fails(10);
    assert before[1..] == Fails(10);
    FailsLock(verified, 10);
    var last: seq<Action> := [Do(ChangePassword(0, Some(newHash)))];
    actions := before + last;
    RunConcat(t, before, last);
    var s := Run(t, before);
    assert Run(s, last) == Next(s, last[0]) by { assert last[1..] == []; }
    BeginInv(passwordHash, names, 0);
    TraceInvRun(t, before);
    LockStep(s, last[0].command);
    HistoryTellsLockIff(passwordHash, names, 0, actions);
  }

  // ---- What never comes back ----

  /** `s'` undoes nothing that is final in `s`. */
  predicate KeepsFinal(s: UserState, s': UserState) {
    && (s.status == Disabled ==> s'.status == Disabled)
    && (s.status != Pending ==> s'.status != Pending)
    && (s.emailVerifiedAt.Some? ==> s'.emailVerifiedAt == s.emailVerifiedAt)
    && (s.deletedAt.Some? ==> s'.deletedAt == s.deletedAt)
  }

  lemma CommandKeepsFinal(s: UserState, c: Command)
    ensures KeepsFinal(s, Apply(s, c).state)
  {
  }

  /** Disabled is absorbing, a verified email stays verified at the same instant, a deletion stays. */
  lemma {:induction false} NeverUndone(t: Trace, actions: seq<Action>)
    ensures KeepsFinal(t.user, Run(t, actions).user)
    decreases |actions|
  {
    if actions != [] {
      if actions[0].Do? {
        CommandKeepsFinal(t.user, actions[0].command);
      }
      NeverUndone(Next(t, actions[0]), actions[1..]);
    }
  }

  lemma DeletionFreezesCommand(s: UserState, c: Command)
    requires Sound(s) && s.deletedAt.Some?
    ensures Apply(s, c).state == s.(status := Apply(s, c).state.status)
  {
  }

  /** Once deleted, a user's status is all that a run of commands can still change. */
  lemma {:induction false} DeletionFreezes(t: Trace, actions: seq<Action>)
    requires Sound(t.user) && t.user.deletedAt.Some?
    ensures Run(t, actions).user == t.user.(status := Run(t, actions).user.status)
    decreases |actions|
  {
    if actions != [] {
      if actions[0].Do? {
        CommandKeepsSound(t.user, actions[0].command);
        DeletionFreezesCommand(t.user, actions[0].command);
      }
      DeletionFreezes(Next(t, actions[0]), actions[1..]);
    }
  }

  // ---- The authentication gate ----

  /** A login is let through exactly for an active or suspended, undeleted user outside a lockout window. */
  lemma GateCharacterised(s: UserState, now: int)
    ensures BlockedBecause(s, now).None? <==>
      s.deletedAt.None? && s.status in {Active, Suspended} && !S.IsLockedOut(s.security, now)
    ensures BlockedBecause(s, now).Some? ==>
      && Apply(s, RecordFailedLogin(now)) == Done(s, [AuthenticationBlocked(BlockedBecause(s, now).value)])
      && Apply(s, RecordSuccessfulLogin(now)) == Apply(s, RecordFailedLogin(now))
  {
  }

  /** From a verified email on, a login opens the account unless it is disabled, deleted or locked out. */
  lemma OpenAfterVerification(s: UserState, now: int)
    requires Sound(s)
    ensures BlockedBecause(s, now).None? <==>
      && s.emailVerifiedAt.Some? && s.status != Disabled && s.deletedAt.None?
      && !S.IsLockedOut(s.security, now)
  {
  }

  /** Repeated failed logins of one user, with everything they raise. */
  function FailedLogins(s: UserState, times: seq<int>): (UserState, seq<Event>) {
    if times == [] then (s, [])
    else
      var (s', raised) := FailedLogins(s, times[..|times| - 1]);
      var o := Apply(s', RecordFailedLogin(times[|times| - 1]));
      (o.state, raised + o.raised)
  }

  function LockoutsIn(events: seq<Event>): seq<S.Lockout> {
    if events == [] then []
    else
      var earlier, e := LockoutsIn(events[..|events| - 1]), events[|events| - 1];
      if e.LoginLocked? then earlier + [e.lockout] else earlier
  }

  function BlockedIn(events: seq<Event>): nat {
    if events == [] then 0
    else BlockedIn(events[..|events| - 1]) + if events[|events| - 1].AuthenticationBlocked? then 1 else 0
  }

  lemma OneMore(events: seq<Event>, e: Event)
    ensures LockoutsIn(events + [e]) == LockoutsIn(events) + if e.LoginLocked? then [e.lockout] else []
    ensures BlockedIn(events + [e]) == BlockedIn(events) + if e.AuthenticationBlocked? then 1 else 0
  {
    assert (events + [e])[..|events|] == events;
  }

  predicate Tallied(s: UserState, s': UserState, raised: seq<Event>, r: S.FailureRun, attempts: nat) {
    && s' == s.(security := r.state.(lastLoginAttemptedAt := s'.security.lastLoginAttemptedAt))
    && LockoutsIn(raised) == r.lockouts
    && attempts == |r.counted| + BlockedIn(raised)
  }

  lemma TallyStep(s: UserState, s1: UserState, raised: seq<Event>, r: S.FailureRun, attempts: nat, now: int)
    requires s.deletedAt.None? && s.status in {Active, Suspended} && Tallied(s, s1, raised, r, attempts)
    ensures
      var o := FailedLogin(s1, now);
      Tallied(s, o.state, raised + o.raised, S.AfterFailure(r, now), attempts + 1)
  {
    var o := FailedLogin(s1, now);
    if S.IsLockedOut(r.state, now) {
      OneMore(raised, AuthenticationBlocked(LockedOut));
    } else if o.raised == [] {
      assert raised + o.raised == raised;
    } else {
      assert o.raised == [o.raised[0]];
      OneMore(raised, o.raised[0]);
    }
  }

  /**
   The gate does not disturb the count: failed logins of an open account with a fresh counter count and
   lock exactly as the security entity alone would, and each attempt is either counted or blocked.
   */
  lemma {:induction false} FailedLoginsCountOrBlock(s: UserState, times: seq<int>)
    requires s.deletedAt.None? && s.status in {Active, Suspended} && s.security == S.CREATED
    ensures Tallied(s, FailedLogins(s, times).0, FailedLogins(s, times).1, S.Failures(times), |times|)
  {
    if times != [] {
      var n := |times| - 1;
      FailedLoginsCountOrBlock(s, times[..n]);
      var (s1, raised) := FailedLogins(s, times[..n]);
      TallyStep(s, s1, raised, S.Failures(times[..n]), n, times[n]);
    }
  }

  /**
   And the lock opens again: after such failures a login goes through exactly if fewer than ten of them were
   counted, or the last that was counted is more than half an hour ago.
   */
  lemma LoginAfterFailures(s: UserState, times: seq<int>, now: int)
    requires s.deletedAt.None? && s.status in {Active, Suspended} && s.security == S.CREATED
    requires S.NonDecreasing(times) && times != []
    ensures
      var counted := S.Failures(times).counted;
      var raised := Apply(FailedLogins(s, times).0, RecordSuccessfulLogin(now)).raised;
      && counted != []
      && (raised == [LoggedIn] <==> |counted| < 10 || now > counted[|counted| - 1] + 1_800_000)
      && (raised == [AuthenticationBlocked(LockedOut)] <==> raised != [LoggedIn])
  {
    FailedLoginsCountOrBlock(s, times);
    S.LockColumns(times);
    S.RunInvHolds(times);
  }

  // ---- The TOTP secret ----

  predicate SecretHeld(s: UserState) {
    s.security.mfaType == Some(S.Totp) ==> s.security.mfaSecret.Some?
  }

  /** The one call after which a TOTP set-up is left without its secret: it throws, but the set-up has begun. */
  predicate BeginsWithoutSecret(s: UserState, c: Command) {
    && CanPerformActions(s) && s.security.mfaStatus == S.Disabled
    && c.StartMfaSetup? && c.kind == S.Totp
    && (c.secret.None? || c.kid.None? || c.kid.value == "")
  }

  /** A user holding its secret keeps holding it, unless a set-up is begun without one. */
  lemma SecretLostIff(s: UserState, c: Command)
    requires Sound(s) && SecretHeld(s)
    ensures SecretHeld(Apply(s, c).state) <==> !BeginsWithoutSecret(s, c)
    ensures BeginsWithoutSecret(s, c) <==> Apply(s, c).error == Some(MfaRejected(S.SecretRequired))
  {
  }

  predicate SetUpsCarrySecret(t: Trace, actions: seq<Action>)
    decreases |actions|
  {
    actions != [] ==>
      && !(actions[0].Do? && BeginsWithoutSecret(t.user, actions[0].command))
      && SetUpsCarrySecret(Next(t, actions[0]), actions[1..])
  }

  lemma {:induction false} SecretHeldOverRuns(t: Trace, actions: seq<Action>)
    requires Sound(t.user) && SecretHeld(t.user) && SetUpsCarrySecret(t, actions)
    ensures SecretHeld(Run(t, actions).user)
    decreases |actions|
  {
    if actions != [] {
      if actions[0].Do? {
        SecretLostIff(t.user, actions[0].command);
        CommandKeepsSound(t.user, actions[0].command);
      }
      SecretHeldOverRuns(Next(t, actions[0]), actions[1..]);
    }
  }

  /** The condition is needed: a rejected TOTP set-up can be completed, enabling MFA with no secret. */
  lemma EnabledWithoutSecret(passwordHash: string, names: Names)
    ensures
      var rejected := Apply(Apply(Created(passwordHash, names), VerifyEmail(1)).state, StartMfaSetup(S.Totp, None, None));
      var completed := Apply(rejected.state, CompleteMfaSetup);
      && rejected.error.Some? && completed.error.None?
      && completed.state.security.mfaStatus == S.Enabled
      && completed.state.security.mfaType == Some(S.Totp) && completed.state.security.mfaSecret.None?
  {
  }

  // ---- What a throwing command leaves behind ----

  /** The field changes its value. */
  predicate Takes(c: Change, current: Option<string>) {
    Chosen(c, current) != current
  }

  /** The names that are set before the first refused field, or before the phone, are as they were. */
  predicate LeavesNames(n: Names, first: Change, last: Change, display: Change) {
    first.Refused?
    || (!Takes(first, n.first)
        && (last.Refused?
            || (!Takes(last, n.last) && (display.Refused? || !Takes(display, n.display)))))
  }

  /** The two calls that change the user even if they throw. Can be read off the user and the call. */
  predicate MayHalfApply(s: UserState, c: Command) {
    || BeginsWithoutSecret(s, c)
    || (c.UpdateProfile? && CanPerformActions(s) && !LeavesNames(s.names, c.first, c.last, c.display))
  }

  lemma ProfileThrowIff(s: UserState, c: Command)
    requires c.UpdateProfile? && CanPerformActions(s) && Apply(s, c).error.Some?
    ensures Apply(s, c).state == s <==> LeavesNames(s.names, c.first, c.last, c.display)
  {
    var (names, ok) := NamesUpdated(s.names, c.first, c.last, c.display);
    assert Apply(s, c).state == s.(names := names);
  }

  /** A command that throws changes nothing, exactly unless it is one of those. It never raises an event. */
  lemma ThrowChangesNothingIff(s: UserState, c: Command)
    requires Apply(s, c).error.Some?
    ensures Apply(s, c).raised == []
    ensures Apply(s, c).state == s <==> !MayHalfApply(s, c)
  {
    if c.UpdateProfile? && CanPerformActions(s) {
      ProfileThrowIff(s, c);
    }
  }

  /** The run without its commands that throw. */
  function Succeeding(t: Trace, actions: seq<Action>): seq<Action>
    decreases |actions|
  {
    if actions == [] then []
    else
      var rest := Succeeding(Next(t, actions[0]), actions[1..]);
      if actions[0].Do? && Apply(t.user, actions[0].command).error.Some? then rest else [actions[0]] + rest
  }

  /** No command of the run throws half-applied. */
  predicate ThrowsCleanly(t: Trace, actions: seq<Action>)
    decreases |actions|
  {
    actions != [] ==>
      && (actions[0].Do? && Apply(t.user, actions[0].command).error.Some? ==> !MayHalfApply(t.user, actions[0].command))
      && ThrowsCleanly(Next(t, actions[0]), actions[1..])
  }

  /** Then the commands that throw may as well never have been called: user, pulled and buffered events are the same. */
  lemma {:induction false} ThrowsCanBeDropped(t: Trace, actions: seq<Action>)
    requires ThrowsCleanly(t, actions)
    ensures Run(t, Succeeding(t, actions)) == Run(t, actions)
    decreases |actions|
  {
    if actions != [] {
      var rest := Succeeding(Next(t, actions[0]), actions[1..]);
      ThrowsCanBeDropped(Next(t, actions[0]), actions[1..]);
      if actions[0].Do? && Apply(t.user, actions[0].command).error.Some? {
        ThrowChangesNothingIff(t.user, actions[0].command);
        assert t.buffer + [] == t.buffer;
      } else {
        assert ([actions[0]] + rest)[1..] == rest;
      }
    }
  }

  /** The condition is needed: a profile update refused for its last name has changed the first. */
  lemma HalfUpdatedProfile(passwordHash: string, names: Names, value: string)
    requires names.first != Some(value)
    ensures
      var user := Apply(Created(passwordHash, names), VerifyEmail(1)).state;
      var o := Apply(user, UpdateProfile(Accepted(value), Refused, Keep, Keep));
      && o.error == Some(ValueRefused)
      && o.state == user.(names := user.names.(first := Some(value))) != user
  {
    var user := Apply(Created(passwordHash, names), VerifyEmail(1)).state;
    ProfileThrowIff(user, UpdateProfile(Accepted(value), Refused, Keep, Keep));
  }
}
