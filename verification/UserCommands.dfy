/** What each user command does, in the columns and events a caller sees. */
module UserCommands {
  import opened Optional
  import opened User
  import S = UserSecurity

  // ---- The gate ----

  /**
   A lock keeps logins out up to and including the instant at which it ends, and lets them through from then on:
   the right password logs in and forgives, and a wrong one is counted.
   */
  lemma GateOpens(s: UserState, now: int, until: int)
    requires s.deletedAt.None? && s.status in {Active, Suspended} && s.security.lockoutUntil == Some(until)
    ensures
      var o := Apply(s, RecordSuccessfulLogin(now));
      if now > until
      then o.raised == [LoggedIn] && o.state.security.lockoutUntil.None? && o.state.security.failedLoginAttempts == 0
      else o.raised == [AuthenticationBlocked(LockedOut)] && o.state == s
    ensures
      var o := Apply(s, RecordFailedLogin(now));
      if now > until then o.state.security.failedLoginAttempts == s.security.failedLoginAttempts + 1
      else o.raised == [AuthenticationBlocked(LockedOut)] && o.state == s
  {
  }

  /** Without a lock they go through; the tenth failure in a row locks for half an hour, and says so. */
  lemma TenthLocks(s: UserState, now: int)
    requires s.deletedAt.None? && s.status in {Active, Suspended} && s.security.lockoutUntil.None?
    ensures Apply(s, RecordSuccessfulLogin(now)).raised == [LoggedIn]
    ensures
      var o := Apply(s, RecordFailedLogin(now));
      var n := s.security.failedLoginAttempts + 1;
      && o.state.security.failedLoginAttempts == n && o.state.security.lastLoginAttemptedAt == Some(now)
      && if n < 10 then o.raised == [] && o.state.security.lockoutUntil.None?
         else o.raised == [LoginLocked(S.Lockout(now + 1_800_000, n))]
              && o.state.security.lockoutUntil == Some(now + 1_800_000)
  {
  }

  /** A deleted, pending or disabled user is told so, in this order, and nothing changes. */
  lemma BlockedUser(s: UserState, now: int, c: Command)
    requires c == RecordFailedLogin(now) || c == RecordSuccessfulLogin(now)
    requires s.deletedAt.Some? || s.status in {Status.Pending, Status.Disabled}
    ensures Apply(s, c).state == s && Apply(s, c).error.None?
    ensures Apply(s, c).raised ==
      [AuthenticationBlocked(if s.deletedAt.Some? then AccountDeleted
                             else if s.status == Status.Pending then AccountPending else AccountDisabled)]
  {
  }

  // ---- The life of an account ----

  /** Registration leaves a pending user; verifying its email activates it, once, and says both. */
  lemma Registration(passwordHash: string, names: Names, verified: int, again: int)
    ensures
      var s := Created(passwordHash, names);
      var o := Apply(s, VerifyEmail(verified));
      && s.status == Status.Pending && s.passwordHash == passwordHash && s.names == names && s.emailVerifiedAt.None?
      && s.phone.None? && s.phoneVerifiedAt.None? && s.deletedAt.None?
      && s.security.failedLoginAttempts == 0 && s.security.lockoutUntil.None? && s.security.mfaStatus == S.Disabled
      && o.error.None? && o.state == s.(status := Active, emailVerifiedAt := Some(verified))
      && o.raised == [EmailVerified(verified), StatusEnabled(Some("User email successfully verified."))]
      && Apply(o.state, VerifyEmail(again)) == Outcome(o.state, [], None)
  {
  }

  /** An email is verified at `now` iff it was not yet, and the user is pending, or active and undeleted. */
  lemma EmailVerifiedIff(s: UserState, now: int)
    requires s.emailVerifiedAt.None?
    ensures
      var o := Apply(s, VerifyEmail(now));
      && (o.error.None? <==> s.status == Status.Pending || (s.status == Active && s.deletedAt.None?))
      && (o.error.None? ==> o.state == s.(emailVerifiedAt := Some(now), status := Active))
      && (o.error.Some? ==> o.state == s && o.error == Some(UserNotActive))
  {
  }

  /** Which status a command leads to, whatever its reason. */
  predicate Leads(c: Command, to: Status, raised: Event) {
    || (c.Disable? && to == Status.Disabled && raised == StatusDisabled(c.reason))
    || (c.Enable? && to == Active && raised == StatusEnabled(c.reason))
    || (c.Suspend? && to == Suspended && raised == StatusSuspended(c.reason))
  }

  /**
   Active and suspended users can be enabled, suspended and disabled; a pending user none of these, and a
   disabled one only disabled again. The status is all that changes, and a change is told with its reason.
   */
  lemma StatusChangesIff(s: UserState, c: Command, to: Status, raised: Event)
    requires Leads(c, to, raised)
    ensures
      var o := Apply(s, c);
      && (o.error.None? <==> s.status in {Active, Suspended} || s.status == to)
      && (o.error.Some? ==> o.state == s && o.error == Some(InvalidTransition(s.status, to)))
      && (o.error.None? ==> o.state == s.(status := to))
      && o.raised == if o.error.None? && s.status != to then [raised] else []
  {
  }

  // ---- Commands of an active user ----

  /** Everything else is refused to a user who is not active, or deleted, and then changes nothing. */
  lemma RefusedUnlessActive(s: UserState, c: Command)
    requires s.status != Active || s.deletedAt.Some?
    requires c.VerifyPhone? || c.ChangePassword? || c.UpdateProfile? || c.StartMfaSetup? || c.CompleteMfaSetup?
          || c.DisableMfa? || c.RecordMfaUse? || c.SoftDelete?
    ensures Apply(s, c) == Outcome(s, [], Some(UserNotActive))
  {
  }

  /** A new password: its hash is stored, the change is stamped and every failed login is forgiven. */
  lemma PasswordReplaced(s: UserState, now: int, newHash: Option<string>)
    requires s.status == Active && s.deletedAt.None?
    ensures
      var o := Apply(s, ChangePassword(now, newHash));
      && o.raised == []
      && (newHash.None? ==> o.error == Some(ValueRefused) && o.state == s)
      && (newHash.Some? ==>
            && o.error.None? && o.state == s.(passwordHash := newHash.value, security := o.state.security)
            && o.state.security.lastPasswordChangeAt == Some(now)
            && o.state.security.failedLoginAttempts == 0 && o.state.security.lockoutUntil.None?)
  {
  }

  predicate TakenFrom(c: Change, before: Option<string>, after: Option<string>) {
    after == match c { case Accepted(v) => Some(v) case Erase => None case Keep => before case Refused => before }
  }

  /** A profile update that goes through sets each field given, and no other; a phone given is unverified again. */
  lemma ProfileTaken(s: UserState, first: Change, last: Change, display: Change, newPhone: Change)
    requires s.status == Active && s.deletedAt.None?
    ensures
      var o := Apply(s, UpdateProfile(first, last, display, newPhone));
      && (o.error.None? <==> !first.Refused? && !last.Refused? && !display.Refused? && !newPhone.Refused? && !newPhone.Erase?)
      && o.raised == []
      && (o.error.None? ==>
            && TakenFrom(first, s.names.first, o.state.names.first)
            && TakenFrom(last, s.names.last, o.state.names.last)
            && TakenFrom(display, s.names.display, o.state.names.display)
            && o.state.phone == (if newPhone.Accepted? then Some(newPhone.value) else s.phone)
            && o.state.phoneVerifiedAt == (if newPhone.Accepted? then None else s.phoneVerifiedAt)
            && o.state == s.(names := o.state.names, phone := o.state.phone, phoneVerifiedAt := o.state.phoneVerifiedAt))
  {
  }

  /** One that is refused keeps the names before the refused field, and leaves phone and all else alone. */
  lemma ProfileRefused(s: UserState, first: Change, last: Change, display: Change, newPhone: Change)
    requires s.status == Active && s.deletedAt.None?
    requires Apply(s, UpdateProfile(first, last, display, newPhone)).error.Some?
    ensures
      var o := Apply(s, UpdateProfile(first, last, display, newPhone));
      var names := o.state.names;
      && o.error == Some(ValueRefused) && o.state == s.(names := names)
      && TakenFrom(first, s.names.first, names.first)
      && (if first.Refused? then names.last == s.names.last else TakenFrom(last, s.names.last, names.last))
      && (if first.Refused? || last.Refused? then names.display == s.names.display
          else TakenFrom(display, s.names.display, names.display))
  {
  }

  /** A phone is verified once, at the first instant given; without a phone there is nothing to verify. */
  lemma PhoneVerifiedOnce(s: UserState, now: int, again: int)
    requires s.status == Active && s.deletedAt.None? && s.phoneVerifiedAt.None?
    ensures
      var o := Apply(s, VerifyPhone(now));
      if s.phone.None? then o == Outcome(s, [], Some(PhoneNotProvided))
      else o == Outcome(s.(phoneVerifiedAt := Some(now)), [], None)
           && Apply(o.state, VerifyPhone(again)) == Outcome(o.state, [], None)
  {
  }

  /** A deletion is stamped, and nothing else; a second one is refused. */
  lemma DeletedOnce(s: UserState, now: int, again: int)
    requires s.status == Active && s.deletedAt.None?
    ensures
      var o := Apply(s, SoftDelete(now));
      && o == Outcome(s.(deletedAt := Some(now)), [], None)
      && Apply(o.state, SoftDelete(again)) == Outcome(o.state, [], Some(UserNotActive))
  {
  }

  /**
   A TOTP set-up of an active user, from start to finish: the secret and the id of its key are kept while it lasts,
   the enabling is stamped with instant 0, a use with its own, and nothing is raised.
   */
  lemma TotpOfUser(s: UserState, secret: string, kid: string, used: int)
    requires s.status == Active && s.deletedAt.None? && s.security.mfaStatus == S.Disabled && kid != ""
    ensures
      var begun := Apply(s, StartMfaSetup(S.Totp, Some(secret), Some(kid)));
      var enabled := Apply(begun.state, CompleteMfaSetup);
      var inUse := Apply(enabled.state, RecordMfaUse(used));
      var off := Apply(inUse.state, DisableMfa);
      && begun.error.None? && enabled.error.None? && inUse.error.None? && off.error.None?
      && begun.raised == enabled.raised == inUse.raised == off.raised == []
      && inUse.state == s.(security := s.security.(mfaStatus := S.Enabled, mfaType := Some(S.Totp),
                                                   mfaSecret := Some(secret), mfaSecretKid := Some(kid),
                                                   mfaEnabledAt := Some(0), mfaLastUsedAt := Some(used)))
      && off.state == s.(security := s.security.(mfaType := None, mfaSecret := None, mfaSecretKid := None,
                                                 mfaEnabledAt := None, mfaLastUsedAt := Some(used)))
  {
  }

  /** An MFA command in the wrong status throws the entity's error: already enabled, no set-up, not enabled. */
  lemma MfaThrowsOfUser(s: UserState, secret: Option<string>, kid: Option<string>, used: int)
    requires s.status == Active && s.deletedAt.None?
    ensures s.security.mfaStatus != S.Enabled ==>
      && Apply(s, DisableMfa) == Outcome(s, [], Some(MfaRejected(S.NotEnabled)))
      && Apply(s, RecordMfaUse(used)) == Outcome(s, [], Some(MfaRejected(S.NotEnabled)))
    ensures s.security.mfaStatus == S.Enabled ==>
      && Apply(s, CompleteMfaSetup) == Outcome(s, [], Some(MfaRejected(S.AlreadyEnabled)))
      && Apply(s, StartMfaSetup(S.Totp, secret, kid)) == Outcome(s, [], Some(MfaRejected(S.AlreadyEnabled)))
    ensures s.security.mfaStatus == S.Disabled ==>
      && Apply(s, CompleteMfaSetup) == Outcome(s, [], Some(MfaRejected(S.SetupNotInProgress)))
      && Apply(s, StartMfaSetup(S.Email, secret, kid)) ==
           Outcome(s.(security := s.security.(mfaStatus := S.Enabled, mfaType := Some(S.Email), mfaEnabledAt := Some(0))),
                   [], None)
  {
  }
}
