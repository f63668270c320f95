/** The admin service's user handlers. Each handler runs to completion or
    ends by throwing; a thrown error carries the status set just before it,
    or none when a library call threw, in which case the error middleware
    (not part of this model) chooses the status. Password hashing, token
    signing and the random salt are parameters. */
module UserService {
  import opened Js
  import opened UserSchema

  /** How a request fails: with a status and a message the handler chose,
      or by an error thrown from a library call with no status set. */
  datatype Failure = Refused(status: int, message: string) | Threw

  datatype Outcome<T> = Ok(status: int, value: T) | Err(failure: Failure)

  const FieldsMessage: string := "Please enter all required fields"
  const PasswordMessage: string := "Password must be at least 8 characters long and contain lowercase, uppercase letters, and a number"
  const ExistsMessage: string := "User already exists"
  const CredentialsMessage: string := "Invalid credentials"
  const AdminsOnlyMessage: string := "Access denied: Admins only"
  const NotFoundMessage: string := "User not found"
  const RemovedMessage: string := "User removed"

  datatype RegisterBody = RegisterBody(
    firstName: Option<string>, secondName: Option<string>, middleInitial: Option<string>,
    email: Option<string>, password: Option<string>, course: Option<string>)

  datatype UpdateBody = UpdateBody(
    firstName: Option<string>, secondName: Option<string>, email: Option<string>,
    role: Option<string>, course: Option<string>)

  /** The registration answer: no password field. */
  datatype Registered = Registered(id: string, firstName: string, secondName: string, email: string,
                                   course: string, token: string)

  /** The login answer: no password field. */
  datatype LoggedIn = LoggedIn(id: string, firstName: string, secondName: string, email: string,
                               role: string, token: string)

  datatype Updated = Updated(id: string, firstName: string, secondName: string, email: string,
                             role: string, course: string)

  /** Every required registration field is present and non-empty. */
  predicate RequiredFieldsPresent(b: RegisterBody) {
    Truthy(b.firstName) && Truthy(b.secondName) && Truthy(b.email) && Truthy(b.password) && Truthy(b.course)
  }

  // ---------------------------------------------------------------------
  // The password rule
  // ---------------------------------------------------------------------

  predicate IsAsciiAlnum(c: char) {
    IsLower(c) || IsUpper(c) || IsDigit(c)
  }

  /** The rule the registration message states: at least eight characters,
      only ASCII letters and digits, and at least one lowercase letter, one
      uppercase letter and one digit. */
  predicate PasswordAccepted(p: string) {
    |p| >= 8
    && (forall i :: 0 <= i < |p| ==> IsAsciiAlnum(p[i]))
    && (exists i :: 0 <= i < |p| && IsLower(p[i]))
    && (exists i :: 0 <= i < |p| && IsUpper(p[i]))
    && (exists i :: 0 <= i < |p| && IsDigit(p[i]))
  }

  datatype CharClass = LowerLetter | UpperLetter | Digit

  predicate InClass(c: char, k: CharClass) {
    match k
    case LowerLetter => IsLower(c)
    case UpperLetter => IsUpper(c)
    case Digit => IsDigit(c)
  }

  /** The characters a regular-expression `.` does not match. */
  predicate IsLineTerminator(c: char) {
    c == '\n' || c == '\r' || c == '\U{2028}' || c == '\U{2029}'
  }

  /** `(?=.*[k])` at the start: a character of class `k` that only
      `.`-matching characters precede. */
  predicate Lookahead(s: string, k: CharClass) {
    exists i :: 0 <= i < |s| && InClass(s[i], k) && forall j :: 0 <= j < i ==> !IsLineTerminator(s[j])
  }

  /** `/^(?=.*[a-z])(?=.*[A-Z])(?=.*\d)[a-zA-Z\d]{8,}$/.test(s)`, as a
      JavaScript regular expression without flags reads it. */
  predicate PasswordRegex(s: string) {
    Lookahead(s, LowerLetter) && Lookahead(s, UpperLetter) && Lookahead(s, Digit)
    && |s| >= 8 && forall i :: 0 <= i < |s| ==> IsAsciiAlnum(s[i])
  }

  lemma {:induction false} LookaheadInAlnum(s: string, k: CharClass, i: int)
    requires forall j :: 0 <= j < |s| ==> IsAsciiAlnum(s[j])
    requires 0 <= i < |s| && InClass(s[i], k)
    ensures Lookahead(s, k)
  {
    forall j | 0 <= j < i ensures !IsLineTerminator(s[j]) {
      assert IsAsciiAlnum(s[j]);
    }
  }

  /** The regular expression accepts exactly the passwords the rule describes. */
  lemma {:induction false} PasswordRegexMeans(s: string)
    ensures PasswordRegex(s) <==> PasswordAccepted(s)
  {
    if PasswordAccepted(s) {
      var l :| 0 <= l < |s| && IsLower(s[l]);
      var u :| 0 <= u < |s| && IsUpper(s[u]);
      var d :| 0 <= d < |s| && IsDigit(s[d]);
      LookaheadInAlnum(s, LowerLetter, l);
      LookaheadInAlnum(s, UpperLetter, u);
      LookaheadInAlnum(s, Digit, d);
    }
    if PasswordRegex(s) {
      var l :| 0 <= l < |s| && InClass(s[l], LowerLetter);
      var u :| 0 <= u < |s| && InClass(s[u], UpperLetter);
      var d :| 0 <= d < |s| && InClass(s[d], Digit);
      assert IsLower(s[l]) && IsUpper(s[u]) && IsDigit(s[d]);
    }
  }

  /** The document registration asks the store to create: the password is
      the hash, the role takes its default, and neither a course id nor an
      id number is supplied, so the schema's validation always rejects it. */
  function RegistrationDoc(b: RegisterBody, freshId: string, now: int, hashed: string): (u: UserDoc)
    requires RequiredFieldsPresent(b)
    ensures u.password == hashed && u.role == DefaultRole && u.email == b.email.value
    ensures !ValidUser(u)
  {
    NewUserDoc(freshId, now, b.firstName.value, b.secondName.value, b.middleInitial, b.email.value,
               hashed, b.course.value, None, None, None)
  }

  /** The record after an update: each of first name, second name, email,
      role and course takes the new value when it is truthy; `updatedAt`
      moves to `now` only when a field actually changed. */
  function ApplyUserUpdate(u: UserDoc, b: UpdateBody, now: int): UserDoc {
    var patched := u.(firstName := Or(b.firstName, u.firstName), secondName := Or(b.secondName, u.secondName),
                      email := Or(b.email, u.email), role := Or(b.role, u.role), course := Or(b.course, u.course));
    if patched == u then u else patched.(updatedAt := now)
  }

  /** An update keeps a field unless a truthy value was sent for it, never
      touches the id, password, middle initial, course id, id number or
      creation time, and keeps a valid record valid. */
  lemma {:induction false} UserUpdateKeeps(u: UserDoc, b: UpdateBody, now: int)
    ensures var r := ApplyUserUpdate(u, b, now);
      && (Truthy(b.firstName) ==> r.firstName == b.firstName.value)
      && (!Truthy(b.firstName) ==> r.firstName == u.firstName)
      && (Truthy(b.secondName) ==> r.secondName == b.secondName.value)
      && (!Truthy(b.secondName) ==> r.secondName == u.secondName)
      && (Truthy(b.email) ==> r.email == b.email.value)
      && (!Truthy(b.email) ==> r.email == u.email)
      && (Truthy(b.role) ==> r.role == b.role.value)
      && (!Truthy(b.role) ==> r.role == u.role)
      && (Truthy(b.course) ==> r.course == b.course.value)
      && (!Truthy(b.course) ==> r.course == u.course)
      && r.id == u.id && r.password == u.password && r.middleInitial == u.middleInitial
      && r.courseId == u.courseId && r.idNo == u.idNo && r.createdAt == u.createdAt
      && (ValidUser(u) ==> ValidUser(r))
  {
  }

  /** A user stored without a course id or an id number stays invalid
      through any update, since updateUser never sends those fields, so its
      save always fails. */
  lemma {:induction false} UpdateCannotSupplyCourseId(u: UserDoc, b: UpdateBody, now: int)
    requires u.courseId.None? || u.idNo.None?
    ensures !ValidUser(ApplyUserUpdate(u, b, now))
  {
  }

  /** Nothing sent, nothing changed: not even `updatedAt`. */
  lemma {:induction false} EmptyUpdateIsIdentity(u: UserDoc, now: int)
    ensures ApplyUserUpdate(u, UpdateBody(None, None, None, None, None), now) == u
  {
  }

  /** The listing: every user whose role is not `admin`, without passwords. */
  function NonAdmins(users: map<string, UserDoc>): (r: map<string, PublicUser>)
    ensures forall id :: id in r <==> id in users && users[id].role != AdminRole
    ensures forall id :: id in r ==> r[id] == Public(users[id])
  {
    map id | id in users && users[id].role != AdminRole :: Public(users[id])
  }

  class UserStore {
    var users: map<string, UserDoc>

    /** Each user sits under its own id and the email and id-number indexes
        are unique. Stored users are not assumed to pass the current schema:
        the service itself cannot create one that does. */
    ghost predicate Valid()
      reads this
    {
      (forall id :: id in users ==> users[id].id == id) && UniqueKeys(users)
    }

    constructor ()
      ensures Valid() && users == map[]
    {
      users := map[];
    }

    predicate EmailTaken(email: string)
      reads this
    {
      exists id :: id in users && users[id].email == email
    }

    /** Another user than `id` already holds the email or the id number of `u`. */
    predicate ClashesWithOther(id: string, u: UserDoc)
      reads this
    {
      exists other :: other in users && other != id
        && (users[other].email == u.email || (u.idNo.Some? && users[other].idNo == u.idNo))
    }

    /** `User.create`: validation, then the insert, which the unique
        indexes refuse when the email or id number is taken. */
    method Create(u: UserDoc, transportOk: bool) returns (created: bool)
      requires Valid()
      modifies this
      ensures Valid()
      ensures created <==> transportOk && ValidUser(u) && u.id !in old(users) && !old(ClashesWithOther(u.id, u))
      ensures users == if created then old(users)[u.id := u] else old(users)
    {
      created := transportOk && ValidUser(u) && u.id !in users && !ClashesWithOther(u.id, u);
      if created {
        users := users[u.id := u];
      }
    }

    /** `user.save()` on a loaded user. */
    method Save(u: UserDoc, transportOk: bool) returns (saved: bool)
      requires Valid() && u.id in users
      modifies this
      ensures Valid()
      ensures saved <==> transportOk && ValidUser(u) && !old(ClashesWithOther(u.id, u))
      ensures users == if saved then old(users)[u.id := u] else old(users)
    {
      saved := transportOk && ValidUser(u) && !ClashesWithOther(u.id, u);
      if saved {
        users := users[u.id := u];
      }
    }

    /** registerUser. The checks run in order: required fields, password
        rule, existing email; the store's create then always refuses the
        document, so no registration is ever stored. */
    method RegisterUser(body: RegisterBody, freshId: string, now: int, salt: string,
                        hash: (string, string) -> string, sign: string -> string, createOk: bool)
      returns (r: Outcome<Registered>)
      requires Valid()
      modifies this
      ensures Valid()
      ensures users == old(users)
      ensures !RequiredFieldsPresent(body) ==> r == Err(Refused(400, FieldsMessage))
      ensures RequiredFieldsPresent(body) && !PasswordAccepted(body.password.value) ==>
        r == Err(Refused(400, PasswordMessage))
      ensures RequiredFieldsPresent(body) && PasswordAccepted(body.password.value) ==>
        r == if old(EmailTaken(body.email.value)) then Err(Refused(400, ExistsMessage)) else Err(Threw)
    {
      if !RequiredFieldsPresent(body) {
        return Err(Refused(400, FieldsMessage));
      }
      var password := body.password.value;
      PasswordRegexMeans(password);
      if !PasswordRegex(password) {
        return Err(Refused(400, PasswordMessage));
      }
      if EmailTaken(body.email.value) {
        return Err(Refused(400, ExistsMessage));
      }
      var hashed := hash(password, salt);
      var doc := RegistrationDoc(body, freshId, now, hashed);
      var created := Create(doc, createOk);
      if created {
        return Ok(201, Registered(doc.id, doc.firstName, doc.secondName, doc.email, doc.course, sign(doc.id)));
      }
      return Err(Threw);
    }

    /** loginUser: only an admin with the right password gets a token. A
        known email without a password makes the comparison throw. */
    method LoginUser(email: string, password: Option<string>, compare: (string, string) -> bool, sign: string -> string)
      returns (r: Outcome<LoggedIn>)
      requires Valid()
      ensures !EmailTaken(email) ==> r == Err(Refused(400, CredentialsMessage))
      ensures EmailTaken(email) && password.None? ==> r == Err(Threw)
      ensures forall id :: id in users && users[id].email == email && password.Some? ==>
        r == (if !compare(password.value, users[id].password) then Err(Refused(400, CredentialsMessage))
              else if users[id].role != AdminRole then Err(Refused(403, AdminsOnlyMessage))
              else Ok(200, LoggedIn(id, users[id].firstName, users[id].secondName, email, users[id].role, sign(id))))
    {
      if !EmailTaken(email) {
        return Err(Refused(400, CredentialsMessage));
      }
      var id :| id in users && users[id].email == email;
      var user := users[id];
      if password.None? {
        return Err(Threw);
      }
      if !compare(password.value, user.password) {
        return Err(Refused(400, CredentialsMessage));
      }
      if user.role != AdminRole {
        return Err(Refused(403, AdminsOnlyMessage));
      }
      return Ok(200, LoggedIn(user.id, user.firstName, user.secondName, user.email, user.role, sign(user.id)));
    }

    /** getAllUsersExceptAdmin: a missing requester throws on `.role`; a
        non-admin gets 403; an admin gets every non-admin user, and never
        404, because the query answers a list even when it is empty. */
    function GetAllUsersExceptAdmin(requester: Option<PublicUser>): (r: Outcome<map<string, PublicUser>>)
      reads this
      ensures requester.None? ==> r == Err(Threw)
      ensures requester.Some? && requester.value.role != AdminRole ==> r == Err(Refused(403, AdminsOnlyMessage))
      ensures requester.Some? && requester.value.role == AdminRole ==>
        r.Ok? && r.status == 200
        && (forall id :: id in r.value <==> id in users && users[id].role != AdminRole)
        && (forall id :: id in r.value ==> r.value[id] == Public(users[id]))
    {
      if requester.None? then Err(Threw)
      else if requester.value.role != AdminRole then Err(Refused(403, AdminsOnlyMessage))
      else Ok(200, NonAdmins(users))
    }

    /** updateUser: 404 for an unknown id; otherwise the patched record is
        saved, and a save that fails (a record the schema rejects, such as
        one stored without a course id, an email another user holds, a
        store error) throws. */
    method UpdateUser(id: string, body: UpdateBody, now: int, saveOk: bool) returns (r: Outcome<Updated>)
      requires Valid()
      modifies this
      ensures Valid()
      ensures id !in old(users) ==> r == Err(Refused(404, NotFoundMessage)) && users == old(users)
      ensures id in old(users) ==>
        var u := ApplyUserUpdate(old(users)[id], body, now);
        if saveOk && ValidUser(u) && !old(ClashesWithOther(id, u))
        then r == Ok(200, Updated(id, u.firstName, u.secondName, u.email, u.role, u.course))
             && users == old(users)[id := u]
        else r == Err(Threw) && users == old(users)
    {
      if id !in users {
        return Err(Refused(404, NotFoundMessage));
      }
      var user := users[id];
      UserUpdateKeeps(user, body, now);
      var updated := ApplyUserUpdate(user, body, now);
      var saved := Save(updated, saveOk);
      if !saved {
        return Err(Threw);
      }
      return Ok(200, Updated(updated.id, updated.firstName, updated.secondName, updated.email, updated.role, updated.course));
    }

    /** getUserById: the user without its password, or 404. */
    function GetUserById(id: string): (r: Outcome<PublicUser>)
      reads this
      ensures r.Ok? <==> id in users
      ensures r.Ok? ==> r == Ok(200, Public(users[id]))
      ensures r.Err? ==> r == Err(Refused(404, NotFoundMessage))
    {
      if id in users then Ok(200, Public(users[id])) else Err(Refused(404, NotFoundMessage))
    }

    /** deleteUserById: only an admin requester may delete; exactly the
        named user is removed. */
    method DeleteUserById(requester: Option<PublicUser>, id: string, deleteOk: bool) returns (r: Outcome<string>)
      requires Valid()
      modifies this
      ensures Valid()
      ensures r.Ok? <==> requester.Some? && requester.value.role == AdminRole && deleteOk && id in old(users)
      ensures r.Ok? ==> r == Ok(200, RemovedMessage) && users == old(users) - {id}
      ensures !r.Ok? ==> users == old(users)
      ensures requester.None? ==> r == Err(Threw)
      ensures requester.Some? && requester.value.role != AdminRole ==> r == Err(Refused(403, AdminsOnlyMessage))
      ensures requester.Some? && requester.value.role == AdminRole && deleteOk && id !in old(users) ==>
        r == Err(Refused(404, NotFoundMessage))
      ensures requester.Some? && requester.value.role == AdminRole && !deleteOk ==> r == Err(Threw)
    {
      if requester.None? {
        return Err(Threw);
      }
      if requester.value.role != AdminRole {
        return Err(Refused(403, AdminsOnlyMessage));
      }
      if !deleteOk {
        return Err(Threw);
      }
      if id !in users {
        return Err(Refused(404, NotFoundMessage));
      }
      users := users - {id};
      return Ok(200, RemovedMessage);
    }
  }
}
