/**
 * The user account manager: registration, look-ups, role grants and revokes,
 * status changes, deletion, password reset and the login-time update, over a
 * store of user records keyed by id and an append-only sequence of audit
 * events.
 *
 * The error handler of the PHP code aborts the request; here it becomes a
 * `Failed` outcome returned at that point, after which nothing else runs.
 */
module Accounts {
  import opened Common
  import opened Strings
  import opened Entities

  /** The failures the manager reports, one per call of the error handler. */
  datatype Error =
    | InvalidEmailLength
    | InvalidFirstNameLength
    | InvalidLastNameLength
    | InvalidPasswordLength
    | UserAlreadyExists(email: string)
    | InvalidVisitorInfo
    | UserNotFound(id: int)
    | EmailNotFoundForId(id: int)
    | IdNotFoundForEmail(email: string)
    | IdentifierNotFound(identifier: string)
    | UserInfoNotFound(id: int)
    | StatusNotFound(id: int)
    | RoleAlreadyGranted(role: string)
    | RoleNotGranted(role: string)
    | FlushFailed
  {
    /** The HTTP status code passed to the error handler with the message. */
    function Code(): int {
      match this
      case UserNotFound(_) => 404
      case EmailNotFoundForId(_) => 404
      case IdNotFoundForEmail(_) => 404
      case IdentifierNotFound(_) => 404
      case UserInfoNotFound(_) => 404
      case StatusNotFound(_) => 404
      case FlushFailed => 500
      case _ => 400
    }

    predicate IsLengthError() {
      InvalidEmailLength? || InvalidFirstNameLength? || InvalidLastNameLength? || InvalidPasswordLength?
    }
  }

  /** A mutating operation either completes or fails with an error. */
  datatype Outcome = Done | Failed(error: Error)

  /** The only severity this manager writes. */
  datatype Level = Info

  /** What the manager hands to the log writer: a component tag, a message and a level. */
  datatype LogEvent = LogEvent(name: string, message: string, level: Level)

  const ManagerTag := "user-manager"
  const RolePrefix := "ROLE_"
  const DefaultRole := "ROLE_USER"
  const ActiveStatus := "active"
  const UnknownVisitor := "Unknown"

  /**
   * The role format rule applied before every role comparison or update:
   * upper-case the role, then prefix `ROLE_` unless it already starts so.
   */
  function NormalizeRole(role: string): (r: string)
    ensures StartsWith(r, RolePrefix) && NoLowercase(r)
    ensures |r| == |role| || |r| == |role| + |RolePrefix|
  {
    var upper := Upper(role);
    if StartsWith(upper, RolePrefix) then upper else RolePrefix + upper
  }

  /**
   * Normalisation ends with the upper-cased role itself, and adds the prefix
   * exactly when the upper-cased role does not already start with it.
   */
  lemma NormalizeRoleEndsWithRole(role: string)
    ensures |NormalizeRole(role)| == |role| <==> StartsWith(Upper(role), RolePrefix)
    ensures NormalizeRole(role)[|NormalizeRole(role)| - |role|..] == Upper(role)
  {
    var r, upper := NormalizeRole(role), Upper(role);
    if !StartsWith(upper, RolePrefix) {
      assert r == RolePrefix + upper;
      assert r[|RolePrefix|..] == upper;
    }
  }

  /** A role is left unchanged by normalisation exactly when it is already in normal form. */
  lemma {:induction false} NormalizeRoleFixedPoints(role: string)
    ensures NormalizeRole(role) == role <==> StartsWith(role, RolePrefix) && NoLowercase(role)
  {
    if StartsWith(role, RolePrefix) && NoLowercase(role) {
      UpperKeepsUppercase(role);
    }
  }

  /** Normalising twice is normalising once, so the has-role check inside a grant sees the same role. */
  lemma {:induction false} NormalizeRoleIdempotent(role: string)
    ensures NormalizeRole(NormalizeRole(role)) == NormalizeRole(role)
  {
    NormalizeRoleFixedPoints(NormalizeRole(role));
  }

  /**
   * Normalisation upper-cases and prefixes but keeps every other byte, so a
   * normalised role is not confined to upper-case letters and underscores.
   */
  lemma NormalizedRoleKeepsOtherBytes()
    ensures NormalizeRole("a-1") == "ROLE_A-1"
  {
    assert Upper("a-1") == "A-1";
  }

  /** Revoking `user` from an account whose only role is the default one leaves it with no role at all. */
  lemma RevokingDefaultRoleLeavesNone()
    ensures {DefaultRole} - {NormalizeRole("user")} == {}
  {
    assert Upper("user") == "USER";
    assert NormalizeRole("user") == RolePrefix + "USER" == DefaultRole;
  }

  predicate LengthWithin(s: string, lo: nat, hi: nat) {
    lo <= |s| <= hi
  }

  /** PHP's `$v == null`: true for null and, by loose comparison, for the empty string. */
  predicate LooselyNull(v: Option<string>) {
    v.None? || v.value == ""
  }

  predicate EmailTaken(users: map<int, User>, email: string) {
    exists id | id in users :: users[id].email == Some(email)
  }

  /** No two stored users share an email address. */
  ghost predicate UniqueEmails(users: map<int, User>) {
    forall i, j | i in users && j in users && users[i].email.Some? && users[i].email == users[j].email :: i == j
  }

  /** Every stored record carries the id it is stored under, below the next id to hand out. */
  ghost predicate WellKeyed(users: map<int, User>, nextId: int) {
    forall id | id in users :: users[id].id == id && id < nextId
  }

  /**
   * The checks of a registration, in the order the manager makes them: the
   * four trimmed lengths, then a duplicate email, then the visitor context.
   */
  function RegistrationError(users: map<int, User>, email: string, firstName: string, lastName: string,
                             password: string, visitorIp: Option<string>, visitorAgent: Option<string>): (r: Option<Error>)
    ensures r.None? <==>
      && LengthWithin(Trim(email), 2, 255) && LengthWithin(Trim(firstName), 2, 255)
      && LengthWithin(Trim(lastName), 2, 255) && LengthWithin(Trim(password), 6, 255)
      && !EmailTaken(users, Trim(email))
      && !LooselyNull(visitorIp) && !LooselyNull(visitorAgent)
    ensures !LengthWithin(Trim(email), 2, 255) ==> r == Some(InvalidEmailLength)
    ensures LengthWithin(Trim(email), 2, 255) && !LengthWithin(Trim(firstName), 2, 255) ==>
      r == Some(InvalidFirstNameLength)
    ensures
      && LengthWithin(Trim(email), 2, 255) && LengthWithin(Trim(firstName), 2, 255)
      && !LengthWithin(Trim(lastName), 2, 255)
      ==> r == Some(InvalidLastNameLength)
    ensures
      && LengthWithin(Trim(email), 2, 255) && LengthWithin(Trim(firstName), 2, 255)
      && LengthWithin(Trim(lastName), 2, 255) && !LengthWithin(Trim(password), 6, 255)
      ==> r == Some(InvalidPasswordLength)
    ensures r.Some? && !r.value.IsLengthError() ==>
      && LengthWithin(Trim(email), 2, 255) && LengthWithin(Trim(firstName), 2, 255)
      && LengthWithin(Trim(lastName), 2, 255) && LengthWithin(Trim(password), 6, 255)
    ensures r.Some? && !r.value.IsLengthError() && EmailTaken(users, Trim(email)) ==> r == Some(UserAlreadyExists(Trim(email)))
    ensures
      && LengthWithin(Trim(email), 2, 255) && LengthWithin(Trim(firstName), 2, 255)
      && LengthWithin(Trim(lastName), 2, 255) && LengthWithin(Trim(password), 6, 255)
      && EmailTaken(users, Trim(email))
      ==> r == Some(UserAlreadyExists(Trim(email)))
    ensures r == Some(InvalidVisitorInfo) ==> !EmailTaken(users, Trim(email))
    ensures
      && LengthWithin(Trim(email), 2, 255) && LengthWithin(Trim(firstName), 2, 255)
      && LengthWithin(Trim(lastName), 2, 255) && LengthWithin(Trim(password), 6, 255)
      && !EmailTaken(users, Trim(email)) && (LooselyNull(visitorIp) || LooselyNull(visitorAgent))
      ==> r == Some(InvalidVisitorInfo)
  {
    var e, f, l, p := Trim(email), Trim(firstName), Trim(lastName), Trim(password);
    if !LengthWithin(e, 2, 255) then Some(InvalidEmailLength)
    else if !LengthWithin(f, 2, 255) then Some(InvalidFirstNameLength)
    else if !LengthWithin(l, 2, 255) then Some(InvalidLastNameLength)
    else if !LengthWithin(p, 6, 255) then Some(InvalidPasswordLength)
    else if EmailTaken(users, e) then Some(UserAlreadyExists(e))
    else if LooselyNull(visitorIp) || LooselyNull(visitorAgent) then Some(InvalidVisitorInfo)
    else None
  }

  /** The record a successful registration stores. */
  function NewUser(id: int, email: string, firstName: string, lastName: string, passwordHash: string,
                   ipAddress: string, userAgent: string, now: Time): User
  {
    User(id, Some(email), Some(firstName), Some(lastName), passwordHash, {DefaultRole},
         Some(now), Some(now), Some(ipAddress), Some(userAgent), Some(ActiveStatus))
  }

  /**
   * Once a registration has been stored, the same email (up to surrounding
   * blanks) is taken, a second registration with it is refused as a
   * duplicate, and emails stay unique.
   */
  lemma {:induction false} RegisteredEmailIsTaken(users: map<int, User>, id: int, email: string, again: string,
                                                  firstName: string, lastName: string, password: string,
                                                  visitorIp: Option<string>, visitorAgent: Option<string>,
                                                  passwordHash: string, now: Time)
    requires RegistrationError(users, email, firstName, lastName, password, visitorIp, visitorAgent).None?
    requires id !in users
    requires Trim(again) == Trim(email)
    ensures var stored := users[id := NewUser(id, Trim(email), Trim(firstName), Trim(lastName), passwordHash,
                                              visitorIp.value, visitorAgent.value, now)];
      && EmailTaken(stored, Trim(email))
      && RegistrationError(stored, again, firstName, lastName, password, visitorIp, visitorAgent)
         == Some(UserAlreadyExists(Trim(email)))
      && (UniqueEmails(users) ==> UniqueEmails(stored))
  {
    var stored := users[id := NewUser(id, Trim(email), Trim(firstName), Trim(lastName), passwordHash,
                                      visitorIp.value, visitorAgent.value, now)];
    assert stored[id].email == Some(Trim(email));
    assert EmailTaken(stored, Trim(email));
    if UniqueEmails(users) {
      AddPreservesUniqueEmails(users, id, stored[id]);
    }
  }

  lemma AddPreservesUniqueEmails(users: map<int, User>, id: int, u: User)
    requires UniqueEmails(users) && id !in users
    requires u.email.Some? ==> !EmailTaken(users, u.email.value)
    ensures UniqueEmails(users[id := u])
  {
  }

  lemma UpdatePreservesUniqueEmails(users: map<int, User>, id: int, u: User)
    requires UniqueEmails(users) && id in users && u.email == users[id].email
    ensures UniqueEmails(users[id := u])
  {
    var m := users[id := u];
    forall i, j | i in m && j in m && m[i].email.Some? && m[i].email == m[j].email
      ensures i == j
    {
      assert users[i].email == m[i].email && users[j].email == m[j].email;
    }
  }

  /** Every field `getUserInfo` requires to be non-null is present. */
  predicate Complete(u: User) {
    && u.email.Some? && u.firstName.Some? && u.lastName.Some?
    && u.registerTime.Some? && u.lastLoginTime.Some?
    && u.ipAddress.Some? && u.userAgent.Some? && u.status.Some?
  }

  /** The account information returned to API clients (time formatting is not modelled). */
  datatype UserInfo = UserInfo(
    email: string,
    firstName: string,
    lastName: string,
    roles: set<string>,
    registerTime: Time,
    lastLoginTime: Time,
    ipAddress: string,
    userAgent: string,
    status: string)

  /** The message `user: <email> updated status to: <status> old status was: <old status>`; a missing old status prints as nothing. */
  function StatusChangeMessage(email: string, status: string, oldStatus: Option<string>): string {
    "user: " + email + " updated status to: " + status + " old status was: " + oldStatus.GetOr("")
  }

  class UserManager {
    /** The user table, keyed by id. */
    var users: map<int, User>
    /** Every audit event the manager has written, oldest first. */
    var logs: seq<LogEvent>
    /** The id the store hands to the next inserted user. */
    var nextId: int
    /** The password hasher, an opaque dependency. */
    const hashPassword: string -> string

    ghost predicate Valid()
      reads this
    {
      WellKeyed(users, nextId) && UniqueEmails(users)
    }

    constructor (stored: map<int, User>, firstFreeId: int, hasher: string -> string)
      requires WellKeyed(stored, firstFreeId) && UniqueEmails(stored)
      ensures Valid()
      ensures users == stored && logs == [] && nextId == firstFreeId && hashPassword == hasher
    {
      users := stored;
      logs := [];
      nextId := firstFreeId;
      hashPassword := hasher;
    }

    /** `getUserIdByEmail`: the id of the user registered under `email`. */
    function GetUserIdByEmail(email: string): (r: Result<int, Error>)
      reads this
      requires Valid()
      ensures r.Ok? ==> r.value in users && users[r.value].email == Some(email)
      ensures r.Err? ==> r.error == IdNotFoundForEmail(email) && !EmailTaken(users, email)
    {
      if EmailTaken(users, email) then
        var id :| id in users && users[id].email == Some(email);
        Ok(id)
      else
        Err(IdNotFoundForEmail(email))
    }

    /** `checkIfUserEmailAlreadyRegistered`: the repository finds a user by this email. */
    function CheckIfUserEmailAlreadyRegistered(email: string): (registered: bool)
      reads this
      requires Valid()
      ensures registered <==> GetUserIdByEmail(email).Ok?
    {
      EmailTaken(users, email)
    }

    /** `getUserEmailById`: the email of user `id`; missing user and null email both fail. */
    function GetUserEmailById(id: int): (r: Result<string, Error>)
      reads this
      ensures r.Ok? <==> id in users && users[id].email.Some?
      ensures r.Ok? ==> users[id].email == Some(r.value)
      ensures r.Err? ==> r.error == EmailNotFoundForId(id)
    {
      if id in users && users[id].email.Some? then Ok(users[id].email.value) else Err(EmailNotFoundForId(id))
    }

    /** The two look-ups are inverse to each other on the stored users. */
    lemma EmailIdRoundTrip(id: int)
      requires Valid()
      requires GetUserEmailById(id).Ok?
      ensures GetUserIdByEmail(GetUserEmailById(id).value) == Ok(id)
    {
      var email := GetUserEmailById(id).value;
      assert users[id].email == Some(email);
      assert EmailTaken(users, email);
    }

    /** `getUserInfo`: all-or-nothing, any null field is a not-found failure. */
    function GetUserInfo(id: int): (r: Result<UserInfo, Error>)
      reads this
      ensures id !in users ==> r == Err(UserNotFound(id))
      ensures id in users && !Complete(users[id]) ==> r == Err(UserInfoNotFound(id))
      ensures r.Ok? <==> id in users && Complete(users[id])
      ensures r.Ok? ==>
        var u := users[id];
        && u.email == Some(r.value.email) && u.firstName == Some(r.value.firstName)
        && u.lastName == Some(r.value.lastName) && u.roles == r.value.roles
        && u.registerTime == Some(r.value.registerTime) && u.lastLoginTime == Some(r.value.lastLoginTime)
        && u.ipAddress == Some(r.value.ipAddress) && u.userAgent == Some(r.value.userAgent)
        && u.status == Some(r.value.status)
    {
      if id !in users then Err(UserNotFound(id))
      else
        var u := users[id];
        if !Complete(u) then Err(UserInfoNotFound(id))
        else Ok(UserInfo(u.email.value, u.firstName.value, u.lastName.value, u.roles, u.registerTime.value,
                         u.lastLoginTime.value, u.ipAddress.value, u.userAgent.value, u.status.value))
    }

    /** `getUserStatus`: the stored status; agrees with the status in the account information. */
    function GetUserStatus(id: int): (r: Result<string, Error>)
      reads this
      ensures id !in users ==> r == Err(UserNotFound(id))
      ensures r.Ok? <==> id in users && users[id].status.Some?
      ensures r.Ok? ==> users[id].status == Some(r.value)
      ensures id in users && users[id].status.None? ==> r == Err(StatusNotFound(id))
      ensures GetUserInfo(id).Ok? ==> r == Ok(GetUserInfo(id).value.status)
    {
      if id !in users then Err(UserNotFound(id))
      else if users[id].status.None? then Err(StatusNotFound(id))
      else Ok(users[id].status.value)
    }

    /** `checkIfUserHasRole`: whether the normalised role is in the user's role collection. */
    function CheckIfUserHasRole(id: int, role: string): (r: Result<bool, Error>)
      reads this
      ensures r.Ok? <==> id in users
      ensures r.Ok? ==> (r.value <==> NormalizeRole(role) in users[id].roles)
      ensures r.Err? ==> r.error == UserNotFound(id)
    {
      var normalized := NormalizeRole(role);
      if id !in users then Err(UserNotFound(id)) else Ok(normalized in users[id].roles)
    }

    /**
     * `registerUser`: validates, then stores one new active user with role
     * `ROLE_USER` and the trimmed fields, and writes one audit event.
     */
    method RegisterUser(email: string, firstName: string, lastName: string, password: string,
                        visitorIp: Option<string>, visitorAgent: Option<string>, now: Time, flushFails: bool)
      returns (r: Outcome)
      requires Valid()
      modifies this
      ensures Valid()
      ensures var check := RegistrationError(old(users), email, firstName, lastName, password, visitorIp, visitorAgent);
        r == if check.Some? then Failed(check.value) else if flushFails then Failed(FlushFailed) else Done
      ensures r.Failed? ==> users == old(users) && logs == old(logs) && nextId == old(nextId)
      ensures r.Done? ==>
        && nextId == old(nextId) + 1
        && users == old(users)[old(nextId) := NewUser(old(nextId), Trim(email), Trim(firstName), Trim(lastName),
                                                    hashPassword(Trim(password)), visitorIp.value, visitorAgent.value, now)]
        && logs == old(logs) + [LogEvent(ManagerTag, "new user registered: " + Trim(email), Info)]
      ensures r.Done? ==>
        && CheckIfUserEmailAlreadyRegistered(Trim(email))
        && GetUserInfo(old(nextId)) == Ok(UserInfo(Trim(email), Trim(firstName), Trim(lastName), {DefaultRole}, now, now,
                                                  visitorIp.value, visitorAgent.value, ActiveStatus))
    {
      var check := RegistrationError(users, email, firstName, lastName, password, visitorIp, visitorAgent);
      if check.Some? {
        return Failed(check.value);
      }
      var e, f, l, p := Trim(email), Trim(firstName), Trim(lastName), Trim(password);
      var passwordHash := hashPassword(p);
      var user := NewUser(nextId, e, f, l, passwordHash, visitorIp.value, visitorAgent.value, now);
      if flushFails {
        return Failed(FlushFailed);
      }
      AddPreservesUniqueEmails(users, nextId, user);
      users := users[nextId := user];
      nextId := nextId + 1;
      logs := logs + [LogEvent(ManagerTag, "new user registered: " + e, Info)];
      assert users[old(nextId)] == user && Complete(user);
      assert EmailTaken(users, e);
      r := Done;
    }

    /**
     * `updateUserDataOnLogin`: finds the user by email and records the login
     * time and the visitor's address and agent, `Unknown` standing in for null.
     */
    method UpdateUserDataOnLogin(identifier: string, visitorIp: Option<string>, visitorAgent: Option<string>,
                                 now: Time, flushFails: bool)
      returns (r: Outcome)
      requires Valid()
      modifies this
      ensures Valid()
      ensures r == if !old(EmailTaken(users, identifier)) then Failed(IdentifierNotFound(identifier))
                   else if flushFails then Failed(FlushFailed) else Done
      ensures r.Failed? ==> users == old(users)
      ensures r.Done? ==>
        var id := old(GetUserIdByEmail(identifier)).value;
        users == old(users)[id := old(users)[id].(lastLoginTime := Some(now),
                                                  ipAddress := Some(visitorIp.GetOr(UnknownVisitor)),
                                                  userAgent := Some(visitorAgent.GetOr(UnknownVisitor)))]
      ensures logs == old(logs) && nextId == old(nextId)
    {
      var found := GetUserIdByEmail(identifier);
      if found.Err? {
        return Failed(IdentifierNotFound(identifier));
      }
      var id := found.value;
      var ipAddress := visitorIp.GetOr(UnknownVisitor);
      var userAgent := visitorAgent.GetOr(UnknownVisitor);
      var user := users[id].(lastLoginTime := Some(now), ipAddress := Some(ipAddress), userAgent := Some(userAgent));
      if flushFails {
        return Failed(FlushFailed);
      }
      UpdatePreservesUniqueEmails(users, id, user);
      users := users[id := user];
      r := Done;
    }

    /**
     * `deleteUser`: the email is resolved first, so an unknown id (or a null
     * email) fails there; on success only that user is removed and the event
     * names the removed email.
     */
    method DeleteUser(id: int, flushFails: bool) returns (r: Outcome)
      requires Valid()
      modifies this
      ensures Valid()
      ensures r == if old(GetUserEmailById(id)).Err? then Failed(EmailNotFoundForId(id))
                   else if flushFails then Failed(FlushFailed) else Done
      ensures r.Failed? ==> users == old(users) && logs == old(logs)
      ensures r.Done? ==>
        && users == old(users) - {id}
        && logs == old(logs) + [LogEvent(ManagerTag, "user deleted: " + old(users)[id].email.value, Info)]
      ensures nextId == old(nextId)
    {
      var email := GetUserEmailById(id);
      if email.Err? {
        return Failed(email.error);
      }
      if flushFails {
        return Failed(FlushFailed);
      }
      users := users - {id};
      logs := logs + [LogEvent(ManagerTag, "user deleted: " + email.value, Info)];
      r := Done;
    }

    /**
     * `updateUserStatus`: any string is accepted as the new status. The
     * email for the event is read after the change is flushed, so a null
     * email fails after the change has been stored and writes no event.
     */
    method UpdateUserStatus(id: int, status: string, flushFails: bool) returns (r: Outcome)
      requires Valid()
      modifies this
      ensures Valid()
      ensures r == if id !in old(users) then Failed(UserNotFound(id))
                   else if flushFails then Failed(FlushFailed)
                   else if old(users)[id].email.None? then Failed(EmailNotFoundForId(id))
                   else Done
      ensures users == if id in old(users) && !flushFails then old(users)[id := old(users)[id].(status := Some(status))]
                       else old(users)
      ensures logs == if r.Done?
                      then old(logs) + [LogEvent(ManagerTag, StatusChangeMessage(old(users)[id].email.value, status,
                                                                                  old(users)[id].status), Info)]
                      else old(logs)
      ensures nextId == old(nextId)
      ensures id in old(users) && !flushFails ==> GetUserStatus(id) == Ok(status)
    {
      if id !in users {
        return Failed(UserNotFound(id));
      }
      var oldStatus := users[id].status;
      var user := users[id].(status := Some(status));
      if flushFails {
        return Failed(FlushFailed);
      }
      UpdatePreservesUniqueEmails(users, id, user);
      users := users[id := user];
      var email := GetUserEmailById(id);
      if email.Err? {
        return Failed(email.error);
      }
      logs := logs + [LogEvent(ManagerTag, StatusChangeMessage(email.value, status, oldStatus), Info)];
      r := Done;
    }

    /**
     * `resetUserPassword`: stores the freshly generated 16-character string
     * itself as the password and returns it. `generated` is the output of the
     * random generator.
     */
    method ResetUserPassword(id: int, generated: string, flushFails: bool) returns (r: Result<string, Error>)
      requires |generated| == 16
      requires Valid()
      modifies this
      ensures Valid()
      ensures r.Err? ==> r.error == (if id !in old(users) then UserNotFound(id)
                                    else if flushFails then FlushFailed else EmailNotFoundForId(id))
      ensures r.Ok? <==> id in old(users) && !flushFails && old(users)[id].email.Some?
      ensures r.Ok? ==> r.value == generated && |r.value| == 16
      ensures users == if id in old(users) && !flushFails then old(users)[id := old(users)[id].(password := generated)]
                       else old(users)
      ensures logs == if r.Ok?
                      then old(logs) + [LogEvent(ManagerTag, "user password reset: " + old(users)[id].email.value, Info)]
                      else old(logs)
      ensures nextId == old(nextId)
    {
      if id !in users {
        return Err(UserNotFound(id));
      }
      var password := generated;
      var user := users[id].(password := password);
      if flushFails {
        return Err(FlushFailed);
      }
      UpdatePreservesUniqueEmails(users, id, user);
      users := users[id := user];
      var email := GetUserEmailById(id);
      if email.Err? {
        return Err(email.error);
      }
      logs := logs + [LogEvent(ManagerTag, "user password reset: " + email.value, Info)];
      r := Ok(password);
    }

    /**
     * `addRoleToUser`: refuses a role the user already has; otherwise adds
     * the normalised role, after which the has-role check answers true.
     */
    method AddRoleToUser(id: int, role: string, flushFails: bool) returns (r: Outcome)
      requires Valid()
      modifies this
      ensures Valid()
      ensures r == if id !in old(users) then Failed(UserNotFound(id))
                   else if NormalizeRole(role) in old(users)[id].roles then Failed(RoleAlreadyGranted(NormalizeRole(role)))
                   else if flushFails then Failed(FlushFailed)
                   else if old(users)[id].email.None? then Failed(EmailNotFoundForId(id))
                   else Done
      ensures users == if id in old(users) && NormalizeRole(role) !in old(users)[id].roles && !flushFails
                       then old(users)[id := old(users)[id].(roles := old(users)[id].roles + {NormalizeRole(role)})]
                       else old(users)
      ensures logs == if r.Done?
                      then old(logs) + [LogEvent(ManagerTag, "user role added: " + old(users)[id].email.value
                                                             + " - " + NormalizeRole(role), Info)]
                      else old(logs)
      ensures nextId == old(nextId)
      ensures r.Done? ==> CheckIfUserHasRole(id, role) == Ok(true)
    {
      var normalized := NormalizeRole(role);
      if id !in users {
        return Failed(UserNotFound(id));
      }
      var has := CheckIfUserHasRole(id, normalized);
      NormalizeRoleIdempotent(role);
      if has.Ok? && has.value {
        return Failed(RoleAlreadyGranted(normalized));
      }
      var user := users[id].(roles := users[id].roles + {normalized});
      if flushFails {
        return Failed(FlushFailed);
      }
      UpdatePreservesUniqueEmails(users, id, user);
      users := users[id := user];
      var email := GetUserEmailById(id);
      if email.Err? {
        return Failed(email.error);
      }
      logs := logs + [LogEvent(ManagerTag, "user role added: " + email.value + " - " + normalized, Info)];
      r := Done;
    }

    /**
     * `removeRoleFromUser`: refuses a role the user does not have; otherwise
     * removes the normalised role, after which the has-role check answers false.
     */
    method RemoveRoleFromUser(id: int, role: string, flushFails: bool) returns (r: Outcome)
      requires Valid()
      modifies this
      ensures Valid()
      ensures r == if id !in old(users) then Failed(UserNotFound(id))
                   else if NormalizeRole(role) !in old(users)[id].roles then Failed(RoleNotGranted(NormalizeRole(role)))
                   else if flushFails then Failed(FlushFailed)
                   else if old(users)[id].email.None? then Failed(EmailNotFoundForId(id))
                   else Done
      ensures users == if id in old(users) && NormalizeRole(role) in old(users)[id].roles && !flushFails
                       then old(users)[id := old(users)[id].(roles := old(users)[id].roles - {NormalizeRole(role)})]
                       else old(users)
      ensures logs == if r.Done?
                      then old(logs) + [LogEvent(ManagerTag, "user role removed: " + old(users)[id].email.value
                                                             + " - " + NormalizeRole(role), Info)]
                      else old(logs)
      ensures nextId == old(nextId)
      ensures r.Done? ==> CheckIfUserHasRole(id, role) == Ok(false)
    {
      var normalized := NormalizeRole(role);
      if id !in users {
        return Failed(UserNotFound(id));
      }
      var has := CheckIfUserHasRole(id, normalized);
      NormalizeRoleIdempotent(role);
      if has.Ok? && !has.value {
        return Failed(RoleNotGranted(normalized));
      }
      var user := users[id].(roles := users[id].roles - {normalized});
      if flushFails {
        return Failed(FlushFailed);
      }
      UpdatePreservesUniqueEmails(users, id, user);
      users := users[id := user];
      var email := GetUserEmailById(id);
      if email.Err? {
        return Failed(email.error);
      }
      logs := logs + [LogEvent(ManagerTag, "user role removed: " + email.value + " - " + normalized, Info)];
      r := Done;
    }
  }
}
