/** The records of the time service: one reading-time entry per user and
    book, and the service's own view of a user. */
module TimeSchema {
  import opened Js

  /** An entry's `timeSpent` is a number of seconds; the schema sets no
      lower bound on it. */
  datatype TimeEntry = TimeEntry(id: string, userId: string, bookId: string, courseId: Option<string>, timeSpent: int)

  /** The schema's validation: user id, book id and course id are required. */
  predicate ValidEntry(e: TimeEntry) {
    Required(e.userId) && Required(e.bookId) && Truthy(e.courseId)
  }

  /** `new TimeSpent({...})`: `timeSpent` defaults to 0 when not given. */
  function NewTimeEntry(freshId: string, userId: string, bookId: string, courseId: Option<string>,
                        timeSpent: Option<int>): (e: TimeEntry)
    ensures e.timeSpent == (if timeSpent.Some? then timeSpent.value else 0)
  {
    TimeEntry(freshId, userId, bookId, courseId, if timeSpent.Some? then timeSpent.value else 0)
  }

  /** An entry built without a course id never passes validation. */
  lemma {:induction false} EntryWithoutCourseInvalid(freshId: string, userId: string, bookId: string, timeSpent: Option<int>)
    ensures !ValidEntry(NewTimeEntry(freshId, userId, bookId, None, timeSpent))
  {
  }

  datatype TimeUser = TimeUser(id: string, username: string, email: string, password: string, role: string)

  const Roles: set<string> := {"user", "admin"}

  /** Username, email and password are required, and the role is one of
      `user` and `admin`. */
  predicate ValidTimeUser(u: TimeUser) {
    Required(u.username) && Required(u.email) && Required(u.password) && u.role in Roles
  }

  /** The `unique` indexes on username and on email. */
  predicate UniqueUsers(users: map<string, TimeUser>) {
    (forall a, b :: a in users && b in users && users[a].username == users[b].username ==> a == b)
    && (forall a, b :: a in users && b in users && users[a].email == users[b].email ==> a == b)
  }

  /** A new user: an absent role takes the default `user`. */
  function NewTimeUser(freshId: string, username: string, email: string, password: string,
                       role: Option<string>): (u: TimeUser)
    ensures role.None? ==> u.role == "user"
    ensures role.Some? ==> u.role == role.value
  {
    TimeUser(freshId, username, email, password, if role.Some? then role.value else "user")
  }

  /** The default role passes the enum, and a role outside it never does. */
  lemma {:induction false} DefaultRoleValid(freshId: string, username: string, email: string, password: string, role: Option<string>)
    requires Required(username) && Required(email) && Required(password)
    ensures ValidTimeUser(NewTimeUser(freshId, username, email, password, role))
        <==> role.None? || role.value == "user" || role.value == "admin"
  {
  }
}
