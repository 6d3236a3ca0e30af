/**
 The user aggregate: status transitions, the authentication gate, and the events each command raises.
 A command either succeeds or throws; what a throwing command has already changed stays changed.
 */
module User {
  import opened Optional
  import S = UserSecurity

  datatype Status = Active | Suspended | Pending | Disabled
  datatype BlockReason = AccountDisabled | AccountPending | AccountDeleted | LockedOut

  datatype Event =
    | Registered(registeredAt: int)
    | EmailVerified(verifiedAt: int)
    | StatusEnabled(reason: Option<string>)
    | StatusDisabled(reason: Option<string>)
    | StatusSuspended(reason: Option<string>)
    | LoginLocked(lockout: S.Lockout)
    | LoggedIn
    | AuthenticationBlocked(why: BlockReason)

  datatype Error =
    | UserNotActive
    | InvalidTransition(from: Status, to: Status)
    | PhoneNotProvided
    | ValueRefused
    | MfaRejected(mfa: S.MfaError)

  datatype Names = Names(first: Option<string>, last: Option<string>, display: Option<string>)

  /** A profile field as the value objects see it: not given, given empty, accepted, or refused. */
  datatype Change = Keep | Erase | Accepted(value: string) | Refused

  datatype UserState = UserState(
    status: Status,
    emailVerifiedAt: Option<int>,
    names: Names,
    phone: Option<string>,
    phoneVerifiedAt: Option<int>,
    passwordHash: string,
    deletedAt: Option<int>,
    security: S.Security)

  datatype Command =
    | VerifyEmail(now: int)
    | VerifyPhone(now: int)
    /** `newHash` is what PasswordHash.create makes of the given hash; it refuses empty and short ones. */
    | ChangePassword(now: int, newHash: Option<string>)
    | UpdateProfile(first: Change, last: Change, display: Change, newPhone: Change)
    | Disable(reason: Option<string>)
    | Enable(reason: Option<string>)
    | Suspend(reason: Option<string>)
    | RecordFailedLogin(now: int)
    | RecordSuccessfulLogin(now: int)
    | StartMfaSetup(kind: S.MfaType, secret: Option<string>, kid: Option<string>)
    | CompleteMfaSetup
    | DisableMfa
    | RecordMfaUse(now: int)
    | SoftDelete(now: int)

  datatype Outcome = Outcome(state: UserState, raised: seq<Event>, error: Option<Error>)

  const VERIFIED_REASON: Option<string> := Some("User email successfully verified.")

  function Created(passwordHash: string, names: Names): UserState {
    UserState(Pending, None, names, None, None, passwordHash, None, S.CREATED)
  }

  predicate AllowedTransition(from: Status, to: Status) {
    match from
    case Active => to == Suspended || to == Disabled
    case Suspended => to == Active || to == Disabled
    case Disabled => false
    case Pending => false
  }

  predicate CanPerformActions(s: UserState) {
    s.status == Active && s.deletedAt.None?
  }

  /** Why a login at `now` is blocked, if it is. */
  function BlockedBecause(s: UserState, now: int): Option<BlockReason> {
    if s.deletedAt.Some? then Some(AccountDeleted)
    else if s.status == Pending then Some(AccountPending)
    else if s.status == Disabled then Some(AccountDisabled)
    else if S.IsLockedOut(s.security, now) then Some(LockedOut)
    else None
  }

  function Done(s: UserState, raised: seq<Event>): Outcome { Outcome(s, raised, None) }

  function Threw(s: UserState, error: Error): Outcome { Outcome(s, [], Some(error)) }

  function MoveTo(s: UserState, to: Status, raised: Event): Outcome {
    if s.status == to then Done(s, [])
    else if !AllowedTransition(s.status, to) then Threw(s, InvalidTransition(s.status, to))
    else Done(s.(status := to), [raised])
  }

  function AfterMfa(s: UserState, r: (S.Security, Option<S.MfaError>)): Outcome {
    if r.1.None? then Done(s.(security := r.0), []) else Threw(s.(security := r.0), MfaRejected(r.1.value))
  }

  function Locks(lockouts: seq<S.Lockout>): seq<Event> {
    seq(|lockouts|, i requires 0 <= i < |lockouts| => LoginLocked(lockouts[i]))
  }

  function EmailVerifiedNow(s: UserState, now: int): Outcome {
    if s.emailVerifiedAt.Some? then Done(s, [])
    else if s.status != Pending && !CanPerformActions(s) then Threw(s, UserNotActive)
    else if s.status == Pending then
      Done(s.(emailVerifiedAt := Some(now), status := Active), [EmailVerified(now), StatusEnabled(VERIFIED_REASON)])
    else Done(s.(emailVerifiedAt := Some(now)), [EmailVerified(now)])
  }

  function FailedLogin(s: UserState, now: int): Outcome {
    var blocked := BlockedBecause(s, now);
    if blocked.Some? then Done(s, [AuthenticationBlocked(blocked.value)])
    else
      var (security', lockouts) := S.FailedLogin(s.security, now);
      Done(s.(security := security'), Locks(lockouts))
  }

  function SuccessfulLogin(s: UserState, now: int): Outcome {
    var blocked := BlockedBecause(s, now);
    if blocked.Some? then Done(s, [AuthenticationBlocked(blocked.value)])
    else Done(s.(security := S.SuccessfulLogin(s.security, now)), [LoggedIn])
  }

  function Chosen(c: Change, current: Option<string>): Option<string> {
    match c
    case Accepted(v) => Some(v)
    case Erase => None
    case _ => current
  }

  /** Fields are taken one by one; a refused one throws and leaves those before it changed. */
  function NamesUpdated(n: Names, first: Change, last: Change, display: Change): (Names, bool) {
    var n1 := n.(first := Chosen(first, n.first));
    var n2 := n1.(last := Chosen(last, n.last));
    if first.Refused? then (n, false)
    else if last.Refused? then (n1, false)
    else if display.Refused? then (n2, false)
    else (n2.(display := Chosen(display, n.display)), true)
  }

  /** An empty phone is refused. */
  function ProfileUpdated(s: UserState, first: Change, last: Change, display: Change, newPhone: Change): Outcome {
    var (names, ok) := NamesUpdated(s.names, first, last, display);
    var named := s.(names := names);
    if !ok || newPhone.Refused? || newPhone.Erase? then Threw(named, ValueRefused)
    else if newPhone.Accepted? then Done(named.(phone := Some(newPhone.value), phoneVerifiedAt := None), [])
    else Done(named, [])
  }

  /** Commands that only an active, undeleted user may run. The aggregate passes instant 0 to the MFA set-up. */
  function ActiveOnly(s: UserState, c: Command): Outcome {
    match c
    case VerifyPhone(now) =>
      if s.phone.None? then Threw(s, PhoneNotProvided)
      else if s.phoneVerifiedAt.Some? then Done(s, [])
      else Done(s.(phoneVerifiedAt := Some(now)), [])
    case ChangePassword(now, newHash) =>
      if newHash.None? then Threw(s, ValueRefused)
      else Done(s.(passwordHash := newHash.value, security := S.PasswordChanged(s.security, now)), [])
    case UpdateProfile(first, last, display, newPhone) => ProfileUpdated(s, first, last, display, newPhone)
    case StartMfaSetup(kind, secret, kid) => AfterMfa(s, S.MfaSetupStarted(s.security, 0, kind, secret, kid))
    case CompleteMfaSetup => AfterMfa(s, S.MfaSetupCompleted(s.security, 0))
    case DisableMfa => AfterMfa(s, S.MfaDisabled(s.security))
    case RecordMfaUse(now) => AfterMfa(s, S.MfaUsed(s.security, now))
    case SoftDelete(now) => if s.deletedAt.Some? then Done(s, []) else Done(s.(deletedAt := Some(now)), [])
    case _ => Done(s, [])
  }

  function Apply(s: UserState, c: Command): Outcome {
    match c
    case VerifyEmail(now) => EmailVerifiedNow(s, now)
    case Disable(reason) => MoveTo(s, Disabled, StatusDisabled(reason))
    case Enable(reason) => MoveTo(s, Active, StatusEnabled(reason))
    case Suspend(reason) => MoveTo(s, Suspended, StatusSuspended(reason))
    case RecordFailedLogin(now) => FailedLogin(s, now)
    case RecordSuccessfulLogin(now) => SuccessfulLogin(s, now)
    case _ => if !CanPerformActions(s) then Threw(s, UserNotActive) else ActiveOnly(s, c)
  }

  class UserAggregate {
    var status: Status
    var emailVerifiedAt: Option<int>
    var firstName: Option<string>
    var lastName: Option<string>
    var displayName: Option<string>
    var phone: Option<string>
    var phoneVerifiedAt: Option<int>
    var passwordHash: string
    var deletedAt: Option<int>
    const security: S.UserSecurityEntity
    var domainEvents: seq<Event>

    function State(): UserState
      reads this, security
    {
      UserState(status, emailVerifiedAt, Names(firstName, lastName, displayName), phone, phoneVerifiedAt,
                passwordHash, deletedAt, security.Snapshot())
    }

    /** Command `c` was carried out from `before`: state, outcome and buffered events are those of `Apply`. */
    predicate Did(before: UserState, buffered: seq<Event>, c: Command, error: Option<Error>)
      reads this, security
    {
      var o := Apply(before, c);
      State() == o.state && error == o.error && domainEvents == buffered + o.raised
    }

    constructor (hash: string, names: Names, createdAt: int)
      ensures State() == Created(hash, names) && domainEvents == [Registered(createdAt)]
      ensures fresh(security)
    {
      status, emailVerifiedAt, phone, phoneVerifiedAt := Pending, None, None, None;
      firstName, lastName, displayName := names.first, names.last, names.display;
      passwordHash, deletedAt := hash, None;
      security := new S.UserSecurityEntity();
      domainEvents := [Registered(createdAt)];
    }

    method PullDomainEvents() returns (events: seq<Event>)
      modifies this
      ensures events == old(domainEvents) && domainEvents == [] && State() == old(State())
    {
      events := domainEvents;
      domainEvents := [];
    }

    method VerifyEmail(now: int) returns (error: Option<Error>)
      modifies this
      ensures Did(old(State()), old(domainEvents), Command.VerifyEmail(now), error)
    {
      error := None;
      if emailVerifiedAt.Some? {
        return;
      }
      if status != Pending && !CanPerformActions(State()) {
        return Some(UserNotActive);
      }
      emailVerifiedAt := Some(now);
      domainEvents := domainEvents + [EmailVerified(now)];
      if status == Pending {
        status := Active;
        domainEvents := domainEvents + [StatusEnabled(VERIFIED_REASON)];
      }
    }

    method VerifyPhone(now: int) returns (error: Option<Error>)
      modifies this
      ensures Did(old(State()), old(domainEvents), Command.VerifyPhone(now), error)
    {
      error := None;
      if !CanPerformActions(State()) {
        return Some(UserNotActive);
      }
      if phone.None? {
        return Some(PhoneNotProvided);
      }
      if phoneVerifiedAt.Some? {
        return;
      }
      phoneVerifiedAt := Some(now);
    }

    method ChangePassword(now: int, newHash: Option<string>) returns (error: Option<Error>)
      modifies this, security
      ensures Did(old(State()), old(domainEvents), Command.ChangePassword(now, newHash), error)
    {
      error := None;
      if !CanPerformActions(State()) {
        return Some(UserNotActive);
      }
      if newHash.None? {
        return Some(ValueRefused);
      }
      passwordHash := newHash.value;
      security.RecordPasswordChange(now);
    }

    method UpdateNames(first: Change, last: Change, display: Change) returns (ok: bool)
      modifies this`firstName, this`lastName, this`displayName
      ensures (Names(firstName, lastName, displayName), ok) ==
              NamesUpdated(old(Names(firstName, lastName, displayName)), first, last, display)
    {
      if first.Refused? {
        return false;
      }
      firstName := Chosen(first, firstName);
      if last.Refused? {
        return false;
      }
      lastName := Chosen(last, lastName);
      if display.Refused? {
        return false;
      }
      displayName := Chosen(display, displayName);
      ok := true;
    }

    method UpdateProfile(first: Change, last: Change, display: Change, newPhone: Change) returns (error: Option<Error>)
      modifies this
      ensures Did(old(State()), old(domainEvents), Command.UpdateProfile(first, last, display, newPhone), error)
    {
      error := None;
      if !CanPerformActions(State()) {
        return Some(UserNotActive);
      }
      ghost var before := State();
      var ok := UpdateNames(first, last, display);
      assert State() == before.(names := State().names);
      assert Apply(before, Command.UpdateProfile(first, last, display, newPhone))
          == ProfileUpdated(before, first, last, display, newPhone);
      if !ok || newPhone.Refused? || newPhone.Erase? {
        return Some(ValueRefused);
      }
      if newPhone.Accepted? {
        phone := Some(newPhone.value);
        phoneVerifiedAt := None;
      }
    }

    method Disable(reason: Option<string>) returns (error: Option<Error>)
      modifies this
      ensures Did(old(State()), old(domainEvents), Command.Disable(reason), error)
    {
      error := None;
      if status == Disabled {
        return;
      }
      if !AllowedTransition(status, Disabled) {
        return Some(InvalidTransition(status, Disabled));
      }
      status := Disabled;
      domainEvents := domainEvents + [StatusDisabled(reason)];
    }

    method Enable(reason: Option<string>) returns (error: Option<Error>)
      modifies this
      ensures Did(old(State()), old(domainEvents), Command.Enable(reason), error)
    {
      error := None;
      if status == Active {
        return;
      }
      if !AllowedTransition(status, Active) {
        return Some(InvalidTransition(status, Active));
      }
      status := Active;
      domainEvents := domainEvents + [StatusEnabled(reason)];
    }

    method Suspend(reason: Option<string>) returns (error: Option<Error>)
      modifies this
      ensures Did(old(State()), old(domainEvents), Command.Suspend(reason), error)
    {
      error := None;
      if status == Suspended {
        return;
      }
      if !AllowedTransition(status, Suspended) {
        return Some(InvalidTransition(status, Suspended));
      }
      status := Suspended;
      domainEvents := domainEvents + [StatusSuspended(reason)];
    }

    method RecordFailedLogin(now: int) returns (error: Option<Error>)
      modifies this, security
      ensures Did(old(State()), old(domainEvents), Command.RecordFailedLogin(now), error)
    {
      error := None;
      var blocked := BlockedBecause(State(), now);
      if blocked.None? {
        var lockouts := security.RecordFailedLogin(now);
        var i := 0;
        ghost var s := State();
        while i < |lockouts|
          invariant 0 <= i <= |lockouts| && State() == s
          invariant domainEvents == old(domainEvents) + Locks(lockouts)[..i]
        {
          domainEvents := domainEvents + [LoginLocked(lockouts[i])];
          i := i + 1;
        }
        assert Locks(lockouts)[..i] == Locks(lockouts);
      } else {
        domainEvents := domainEvents + [AuthenticationBlocked(blocked.value)];
      }
    }

    method RecordSuccessfulLogin(now: int) returns (error: Option<Error>)
      modifies this, security
      ensures Did(old(State()), old(domainEvents), Command.RecordSuccessfulLogin(now), error)
    {
      error := None;
      var blocked := BlockedBecause(State(), now);
      if blocked.None? {
        security.RecordSuccessfulLogin(now);
        domainEvents := domainEvents + [LoggedIn];
      } else {
        domainEvents := domainEvents + [AuthenticationBlocked(blocked.value)];
      }
    }

    method StartMfaSetup(kind: S.MfaType, secret: Option<string>, kid: Option<string>) returns (error: Option<Error>)
      modifies this, security
      ensures Did(old(State()), old(domainEvents), Command.StartMfaSetup(kind, secret, kid), error)
    {
      if !CanPerformActions(State()) {
        return Some(UserNotActive);
      }
      var rejected := security.StartMfaSetup(0, kind, secret, kid);
      error := if rejected.Some? then Some(MfaRejected(rejected.value)) else None;
    }

    method CompleteMfaSetup() returns (error: Option<Error>)
      modifies this, security
      ensures Did(old(State()), old(domainEvents), Command.CompleteMfaSetup, error)
    {
      if !CanPerformActions(State()) {
        return Some(UserNotActive);
      }
      var rejected := security.CompleteMfaSetup(0);
      error := if rejected.Some? then Some(MfaRejected(rejected.value)) else None;
    }

    method DisableMfa() returns (error: Option<Error>)
      modifies this, security
      ensures Did(old(State()), old(domainEvents), Command.DisableMfa, error)
    {
      if !CanPerformActions(State()) {
        return Some(UserNotActive);
      }
      var rejected := security.DisableMfa();
      error := if rejected.Some? then Some(MfaRejected(rejected.value)) else None;
    }

    method RecordMfaUse(now: int) returns (error: Option<Error>)
      modifies this, security
      ensures Did(old(State()), old(domainEvents), Command.RecordMfaUse(now), error)
    {
      if !CanPerformActions(State()) {
        return Some(UserNotActive);
      }
      var rejected := security.RecordMfaUsed(now);
      error := if rejected.Some? then Some(MfaRejected(rejected.value)) else None;
    }

    method SoftDelete(now: int) returns (error: Option<Error>)
      modifies this
      ensures Did(old(State()), old(domainEvents), Command.SoftDelete(now), error)
    {
      error := None;
      if !CanPerformActions(State()) {
        return Some(UserNotActive);
      }
      if deletedAt.Some? {
        return;
      }
      deletedAt := Some(now);
    }
  }
}
