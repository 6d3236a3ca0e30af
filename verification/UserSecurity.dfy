/** Failed-login counting, the lockout window, and the MFA state machine. Instants are milliseconds. */
module UserSecurity {
  import opened Optional

  datatype MfaType = Email | Totp
  datatype MfaStatus = Pending | Enabled | Disabled

  datatype Security = Security(
    failedLoginAttempts: nat,
    lastLoginAttemptedAt: Option<int>,
    lockoutUntil: Option<int>,
    lockoutReason: Option<string>,
    lastPasswordChangeAt: Option<int>,
    mfaStatus: MfaStatus,
    mfaType: Option<MfaType>,
    mfaSecret: Option<string>,
    mfaSecretKid: Option<string>,
    mfaEnabledAt: Option<int>,
    mfaLastUsedAt: Option<int>)

  datatype Lockout = Lockout(until: int, failedAttempts: nat)

  datatype MfaError = AlreadyEnabled | SetupInProgress | SetupNotInProgress | NotEnabled | SecretRequired

  const MAX_FAILED_ATTEMPTS: nat := 10
  const LOCKOUT_MS: int := 1_800_000
  const LOCKOUT_REASON: string := "Too many failed login attempts"

  const CREATED: Security := Security(0, None, None, None, None, Disabled, None, None, None, None, None)

  predicate IsLockedOut(s: Security, now: int) {
    s.lockoutUntil.Some? && s.lockoutUntil.value >= now
  }

  function Unlocked(s: Security): Security {
    s.(failedLoginAttempts := 0, lockoutUntil := None, lockoutReason := None)
  }

  /** The state after a failed login, and the lockout event it emits, if any. */
  function FailedLogin(s: Security, now: int): (Security, seq<Lockout>) {
    var seen := s.(lastLoginAttemptedAt := Some(now));
    var n := s.failedLoginAttempts + 1;
    if IsLockedOut(s, now) then (seen, [])
    else if n < MAX_FAILED_ATTEMPTS then (seen.(failedLoginAttempts := n), [])
    else
      (seen.(failedLoginAttempts := n, lockoutUntil := Some(now + LOCKOUT_MS), lockoutReason := Some(LOCKOUT_REASON)),
       [Lockout(now + LOCKOUT_MS, n)])
  }

  function SuccessfulLogin(s: Security, now: int): Security {
    Unlocked(s.(lastLoginAttemptedAt := Some(now)))
  }

  function PasswordChanged(s: Security, now: int): Security {
    Unlocked(s.(lastPasswordChangeAt := Some(now)))
  }

  function MfaSetupCompleted(s: Security, now: int): (Security, Option<MfaError>) {
    if s.mfaStatus == Enabled then (s, Some(AlreadyEnabled))
    else if s.mfaStatus != Pending then (s, Some(SetupNotInProgress))
    else (s.(mfaStatus := Enabled, mfaEnabledAt := Some(now)), None)
  }

  /** A missing TOTP secret is noticed only after the status and type have been set. */
  function MfaSetupStarted(s: Security, now: int, kind: MfaType, secret: Option<string>, kid: Option<string>)
    : (Security, Option<MfaError>)
  {
    if s.mfaStatus == Enabled then (s, Some(AlreadyEnabled))
    else if s.mfaStatus == Pending then (s, Some(SetupInProgress))
    else
      var begun := s.(mfaStatus := Pending, mfaType := Some(kind));
      if kind == Email then MfaSetupCompleted(begun, now)
      else if secret.None? || kid.None? || kid.value == "" then (begun, Some(SecretRequired))
      else (begun.(mfaSecret := secret, mfaSecretKid := kid), None)
  }

  function MfaDisabled(s: Security): (Security, Option<MfaError>) {
    if s.mfaStatus != Enabled then (s, Some(NotEnabled))
    else
      (s.(mfaStatus := Disabled, mfaType := None, mfaSecret := None, mfaSecretKid := None, mfaEnabledAt := None), None)
  }

  function MfaUsed(s: Security, now: int): (Security, Option<MfaError>) {
    if s.mfaStatus != Enabled then (s, Some(NotEnabled)) else (s.(mfaLastUsedAt := Some(now)), None)
  }

  /** MFA columns that agree with each other, whatever has been attempted. */
  predicate MfaConsistent(s: Security) {
    && (s.mfaStatus == Enabled <==> s.mfaEnabledAt.Some?)
    && (s.mfaStatus == Disabled <==> s.mfaType.None?)
    && (s.mfaSecret.Some? <==> s.mfaSecretKid.Some?)
    && (s.mfaSecret.Some? ==> s.mfaType == Some(Totp))
  }

  class UserSecurityEntity {
    var failedLoginAttempts: nat
    var lastLoginAttemptedAt: Option<int>
    var lockoutUntil: Option<int>
    var lockoutReason: Option<string>
    var lastPasswordChangeAt: Option<int>
    var mfaStatus: MfaStatus
    var mfaType: Option<MfaType>
    var mfaSecret: Option<string>
    var mfaSecretKid: Option<string>
    var mfaEnabledAt: Option<int>
    var mfaLastUsedAt: Option<int>

    function Snapshot(): Security
      reads this
    {
      Security(failedLoginAttempts, lastLoginAttemptedAt, lockoutUntil, lockoutReason, lastPasswordChangeAt,
               mfaStatus, mfaType, mfaSecret, mfaSecretKid, mfaEnabledAt, mfaLastUsedAt)
    }

    constructor ()
      ensures Snapshot() == CREATED
    {
      failedLoginAttempts, lastLoginAttemptedAt, lockoutUntil, lockoutReason := 0, None, None, None;
      lastPasswordChangeAt, mfaStatus, mfaType := None, Disabled, None;
      mfaSecret, mfaSecretKid, mfaEnabledAt, mfaLastUsedAt := None, None, None, None;
    }

    method RecordFailedLogin(now: int) returns (events: seq<Lockout>)
      modifies this
      ensures (Snapshot(), events) == FailedLogin(old(Snapshot()), now)
    {
      lastLoginAttemptedAt := Some(now);
      events := [];
      if lockoutUntil.Some? && lockoutUntil.value >= now {
        return;
      }
      failedLoginAttempts := failedLoginAttempts + 1;
      if failedLoginAttempts >= MAX_FAILED_ATTEMPTS {
        lockoutUntil := Some(now + LOCKOUT_MS);
        lockoutReason := Some(LOCKOUT_REASON);
        events := [Lockout(now + LOCKOUT_MS, failedLoginAttempts)];
      }
    }

    method Unlock()
      modifies this
      ensures Snapshot() == Unlocked(old(Snapshot()))
    {
      failedLoginAttempts := 0;
      lockoutUntil := None;
      lockoutReason := None;
    }

    method RecordSuccessfulLogin(now: int)
      modifies this
      ensures Snapshot() == SuccessfulLogin(old(Snapshot()), now)
    {
      lastLoginAttemptedAt := Some(now);
      Unlock();
    }

    method RecordPasswordChange(now: int)
      modifies this
      ensures Snapshot() == PasswordChanged(old(Snapshot()), now)
    {
      lastPasswordChangeAt := Some(now);
      Unlock();
    }

    method StartMfaSetup(now: int, kind: MfaType, secret: Option<string>, kid: Option<string>)
      returns (error: Option<MfaError>)
      modifies this
      ensures (Snapshot(), error) == MfaSetupStarted(old(Snapshot()), now, kind, secret, kid)
    {
      if mfaStatus == Enabled {
        return Some(AlreadyEnabled);
      }
      if mfaStatus == Pending {
        return Some(SetupInProgress);
      }
      mfaStatus := Pending;
      mfaType := Some(kind);
      if kind == Email {
        error := CompleteMfaSetup(now);
        return;
      }
      if secret.None? || kid.None? || kid.value == "" {
        return Some(SecretRequired);
      }
      mfaSecret := secret;
      mfaSecretKid := kid;
      error := None;
    }

    method CompleteMfaSetup(now: int) returns (error: Option<MfaError>)
      modifies this
      ensures (Snapshot(), error) == MfaSetupCompleted(old(Snapshot()), now)
    {
      if mfaStatus == Enabled {
        return Some(AlreadyEnabled);
      }
      if mfaStatus != Pending {
        return Some(SetupNotInProgress);
      }
      mfaStatus := Enabled;
      mfaEnabledAt := Some(now);
      error := None;
    }

    method DisableMfa() returns (error: Option<MfaError>)
      modifies this
      ensures (Snapshot(), error) == MfaDisabled(old(Snapshot()))
    {
      if mfaStatus != Enabled {
        return Some(NotEnabled);
      }
      mfaStatus := Disabled;
      mfaType, mfaSecret, mfaSecretKid, mfaEnabledAt := None, None, None, None;
      error := None;
    }

    method RecordMfaUsed(now: int) returns (error: Option<MfaError>)
      modifies this
      ensures (Snapshot(), error) == MfaUsed(old(Snapshot()), now)
    {
      if mfaStatus != Enabled {
        return Some(NotEnabled);
      }
      mfaLastUsedAt := Some(now);
      error := None;
    }
  }

  // ---- Lockout over whole runs of failed logins ----

  /** The state, the lockout events, and the times of the failures that were counted. */
  datatype FailureRun = FailureRun(state: Security, lockouts: seq<Lockout>, counted: seq<int>)

  function Failures(times: seq<int>): FailureRun {
    if times == [] then FailureRun(CREATED, [], [])
    else AfterFailure(Failures(times[..|times| - 1]), times[|times| - 1])
  }

  predicate NonDecreasing(times: seq<int>) {
    forall i, j | 0 <= i <= j < |times| :: times[i] <= times[j]
  }

  /** What holds of a run of failed logins whose first came at `first` and last at `last`. */
  ghost predicate RunInv(r: FailureRun, first: int, last: int) {
    var n := |r.counted|;
    && r.state.failedLoginAttempts == n > 0
    && r.counted[0] == first <= r.counted[n - 1] <= last
    && r.state.lockoutUntil == (if n < 10 then None else Some(r.counted[n - 1] + LOCKOUT_MS))
    && |r.lockouts| == (if n < 10 then 0 else n - 9)
    && (forall j | 0 <= j < |r.lockouts| :: r.lockouts[j] == Lockout(r.counted[9 + j] + LOCKOUT_MS, 10 + j))
    && (forall i, j | 9 <= i < j < n :: r.counted[j] > r.counted[i] + LOCKOUT_MS)
    && (n >= 10 ==> r.counted[n - 1] >= first + (n - 10) * 1_800_000)
  }

  function AfterFailure(r: FailureRun, now: int): FailureRun {
    var (s', events) := FailedLogin(r.state, now);
    FailureRun(s', r.lockouts + events, if IsLockedOut(r.state, now) then r.counted else r.counted + [now])
  }

  lemma RunInvStep(r: FailureRun, first: int, last: int, now: int)
    requires RunInv(r, first, last) && last <= now
    ensures RunInv(AfterFailure(r, now), first, now)
  {
    var r' := AfterFailure(r, now);
    var n := |r.counted|;
    if !IsLockedOut(r.state, now) {
      assert r'.counted == r.counted + [now];
      if n >= 9 {
        assert r'.lockouts == r.lockouts + [Lockout(now + LOCKOUT_MS, n + 1)];
      }
      if n >= 10 {
        assert now >= first + (n - 10) * 1_800_000 + LOCKOUT_MS;
      }
    }
  }

  lemma {:induction false} RunInvHolds(times: seq<int>)
    requires NonDecreasing(times) && times != []
    ensures RunInv(Failures(times), times[0], times[|times| - 1])
  {
    var n := |times|;
    var earlier := times[..n - 1];
    if n == 1 {
      assert Failures(earlier) == FailureRun(CREATED, [], []);
    } else {
      RunInvHolds(earlier);
      assert earlier[0] == times[0] && earlier[n - 2] == times[n - 2];
      RunInvStep(Failures(earlier), times[0], times[n - 2], times[n - 1]);
    }
  }

  lemma CountedWithin(r: FailureRun, first: int, last: int)
    requires RunInv(r, first, last)
    ensures |r.counted| <= 10 + (last - first) / 1_800_000
  {
    var k, elapsed := |r.counted| - 10, last - first;
    if k > 0 {
      var q := elapsed / 1_800_000;
      assert k * 1_800_000 <= elapsed < (q + 1) * 1_800_000;
    }
  }

  /**
   Lockout bound. Over any run of failed logins at non-decreasing times, with no success or password
   change in between: at most ten are counted plus one per full half hour elapsed; from the tenth
   on, any two counted failures are more than half an hour apart; and exactly the tenth and every later one
   emits a lockout event, ending half an hour after it, with the right count.
   */
  lemma {:induction false} LockoutBound(times: seq<int>, r: FailureRun, first: int, last: int)
    requires NonDecreasing(times) && times != [] && r == Failures(times)
    requires first == times[0] && last == times[|times| - 1]
    ensures |r.counted| <= 10 + (last - first) / 1_800_000
    ensures forall i, j | 9 <= i < j < |r.counted| :: r.counted[j] > r.counted[i] + 1_800_000
    ensures |r.lockouts| == (if |r.counted| > 9 then |r.counted| - 9 else 0)
    ensures forall j | 0 <= j < |r.lockouts| :: r.lockouts[j] == Lockout(r.counted[9 + j] + 1_800_000, 10 + j)
  {
    RunInvHolds(times);
    CountedWithin(r, first, last);
  }

  /**
   A lockout ends. The next failure is counted exactly if fewer than ten were, or if it comes more than half
   an hour after the last that was counted; at that very instant it still is not.
   */
  lemma {:induction false} CountedIff(times: seq<int>, i: nat)
    requires NonDecreasing(times) && i < |times|
    ensures
      var before, after := Failures(times[..i]).counted, Failures(times[..i + 1]).counted;
      if |before| < 10 || times[i] > before[|before| - 1] + 1_800_000 then after == before + [times[i]]
      else after == before
  {
    var earlier, more := times[..i], times[..i + 1];
    assert more[..i] == earlier && more[i] == times[i];
    if i == 0 {
      assert Failures(earlier) == FailureRun(CREATED, [], []);
    } else {
      RunInvHolds(earlier);
    }
  }

  /** The columns after such a run: the count, the last attempt, and from the tenth on when the lock ends, and why. */
  lemma {:induction false} LockColumns(times: seq<int>)
    requires NonDecreasing(times) && times != []
    ensures
      var r := Failures(times);
      var n := |r.counted|;
      && r.state.failedLoginAttempts == n && r.state.lastLoginAttemptedAt == Some(times[|times| - 1])
      && r.state.lockoutUntil == (if n < 10 then None else Some(r.counted[n - 1] + 1_800_000))
      && r.state.lockoutReason == (if n < 10 then None else Some("Too many failed login attempts"))
      && r.state.lastPasswordChangeAt.None? && r.state.mfaStatus == Disabled && r.state.mfaType.None?
      && r.state.mfaSecret.None? && r.state.mfaSecretKid.None?
      && r.state.mfaEnabledAt.None? && r.state.mfaLastUsedAt.None?
    decreases |times|
  {
    RunInvHolds(times);
    var n := |times| - 1;
    if n > 0 {
      RunInvHolds(times[..n]);
      LockColumns(times[..n]);
    } else {
      assert Failures(times[..n]) == FailureRun(CREATED, [], []);
    }
  }

  /** A login and a password change forgive every failure, and each stamps its own instant. */
  lemma Forgives(s: Security, now: int)
    ensures
      var s' := SuccessfulLogin(s, now);
      && s'.failedLoginAttempts == 0 && s'.lockoutUntil.None? && s'.lockoutReason.None?
      && s'.lastLoginAttemptedAt == Some(now) && s'.lastPasswordChangeAt == s.lastPasswordChangeAt
      && SameMfa(s, s')
    ensures
      var s' := PasswordChanged(s, now);
      && s'.failedLoginAttempts == 0 && s'.lockoutUntil.None? && s'.lockoutReason.None?
      && s'.lastLoginAttemptedAt == s.lastLoginAttemptedAt && s'.lastPasswordChangeAt == Some(now)
      && SameMfa(s, s')
  {
  }

  predicate SameMfa(s: Security, s': Security) {
    && s'.mfaStatus == s.mfaStatus && s'.mfaType == s.mfaType && s'.mfaSecret == s.mfaSecret
    && s'.mfaSecretKid == s.mfaSecretKid && s'.mfaEnabledAt == s.mfaEnabledAt && s'.mfaLastUsedAt == s.mfaLastUsedAt
  }

  predicate SameLogins(s: Security, s': Security) {
    && s'.failedLoginAttempts == s.failedLoginAttempts && s'.lastLoginAttemptedAt == s.lastLoginAttemptedAt
    && s'.lockoutUntil == s.lockoutUntil && s'.lockoutReason == s.lockoutReason
    && s'.lastPasswordChangeAt == s.lastPasswordChangeAt
  }

  // ---- The life of an MFA set-up ----

  /** TOTP: set up with its secret and key id, completed, used, and disabled without a trace but the last use. */
  lemma TotpLife(s: Security, secret: string, kid: string, started: int, completed: int, used: int)
    requires s.mfaStatus == Disabled && kid != ""
    ensures
      var (begun, e1) := MfaSetupStarted(s, started, Totp, Some(secret), Some(kid));
      var (enabled, e2) := MfaSetupCompleted(begun, completed);
      var (inUse, e3) := MfaUsed(enabled, used);
      var (off, e4) := MfaDisabled(inUse);
      && e1.None? && begun.mfaStatus == Pending && begun.mfaType == Some(Totp) && begun.mfaSecret == Some(secret)
      && begun.mfaSecretKid == Some(kid) && begun.mfaEnabledAt == s.mfaEnabledAt && begun.mfaLastUsedAt == s.mfaLastUsedAt
      && e2.None? && enabled == begun.(mfaStatus := Enabled, mfaEnabledAt := Some(completed))
      && e3.None? && inUse == enabled.(mfaLastUsedAt := Some(used))
      && e4.None? && off.mfaStatus == Disabled && off.mfaType.None? && off.mfaSecret.None? && off.mfaSecretKid.None?
      && off.mfaEnabledAt.None? && off.mfaLastUsedAt == Some(used)
      && SameLogins(s, begun) && SameLogins(s, off)
  {
  }

  /** MFA by email is enabled at once, and keeps no secret, whatever is passed. */
  lemma EmailIsEnabledAtOnce(s: Security, now: int, secret: Option<string>, kid: Option<string>)
    requires s.mfaStatus == Disabled
    ensures MfaSetupStarted(s, now, Email, secret, kid)
         == (s.(mfaStatus := Enabled, mfaType := Some(Email), mfaEnabledAt := Some(now)), None)
  {
  }

  /** Each MFA command succeeds in exactly one status; elsewhere it changes nothing and says what is in the way. */
  lemma MfaSucceedsIff(s: Security, now: int, kind: MfaType, secret: Option<string>, kid: Option<string>)
    ensures
      var (s', e) := MfaSetupStarted(s, now, kind, secret, kid);
      && (e.None? <==> s.mfaStatus == Disabled && (kind == Email || (secret.Some? && kid.Some? && kid.value != "")))
      && (s.mfaStatus == Enabled ==> s' == s && e == Some(AlreadyEnabled))
      && (s.mfaStatus == Pending ==> s' == s && e == Some(SetupInProgress))
      && (s.mfaStatus == Disabled && e.Some? ==>
            s' == s.(mfaStatus := Pending, mfaType := Some(Totp)) && e == Some(SecretRequired))
    ensures
      var (s', e) := MfaSetupCompleted(s, now);
      && (e.None? <==> s.mfaStatus == Pending)
      && (s.mfaStatus == Enabled ==> s' == s && e == Some(AlreadyEnabled))
      && (s.mfaStatus == Disabled ==> s' == s && e == Some(SetupNotInProgress))
    ensures
      var (s', e) := MfaDisabled(s);
      (e.None? <==> s.mfaStatus == Enabled) && (e.Some? ==> s' == s && e == Some(NotEnabled))
    ensures
      var (s', e) := MfaUsed(s, now);
      (e.None? <==> s.mfaStatus == Enabled) && (e.Some? ==> s' == s && e == Some(NotEnabled))
  {
  }
}
