/** The user record of the admin service and the constraints its schema
    puts on a collection of such records. */
module UserSchema {
  import opened Js

  /** A stored user. `middleInitial`, `courseId` and `idNo` may be absent;
      the timestamps are the automatic `createdAt` and `updatedAt`. */
  datatype UserDoc = UserDoc(
    id: string,
    firstName: string,
    secondName: string,
    middleInitial: Option<string>,
    email: string,
    password: string,
    course: string,
    courseId: Option<string>,
    idNo: Option<string>,
    role: string,
    createdAt: int,
    updatedAt: int)

  /** A user as the service sends it out: every field but the password. */
  datatype PublicUser = PublicUser(
    id: string,
    firstName: string,
    secondName: string,
    middleInitial: Option<string>,
    email: string,
    course: string,
    courseId: Option<string>,
    idNo: Option<string>,
    role: string,
    createdAt: int,
    updatedAt: int)

  const DefaultRole: string := "user"
  const AdminRole: string := "admin"

  /** The schema's validation: first name, second name, email, password,
      course, course id and id number are required; the middle initial is
      optional; the role is any string. */
  predicate ValidUser(u: UserDoc) {
    Required(u.firstName) && Required(u.secondName) && Required(u.email) && Required(u.password)
    && Required(u.course) && Truthy(u.courseId) && Truthy(u.idNo)
  }

  /** The `unique` indexes on `email` and on `idNo`. */
  predicate UniqueKeys(users: map<string, UserDoc>) {
    (forall a, b :: a in users && b in users && users[a].email == users[b].email ==> a == b)
    && (forall a, b :: a in users && b in users && users[a].idNo.Some? && users[a].idNo == users[b].idNo ==> a == b)
  }

  /** A fresh document: an absent role takes the default `user`, and both
      timestamps are the creation time. */
  function NewUserDoc(freshId: string, now: int, firstName: string, secondName: string,
                      middleInitial: Option<string>, email: string, password: string, course: string,
                      courseId: Option<string>, idNo: Option<string>, role: Option<string>): (u: UserDoc)
    ensures u.role == (if role.Some? then role.value else DefaultRole)
    ensures u.createdAt == now && u.updatedAt == now
  {
    UserDoc(freshId, firstName, secondName, middleInitial, email, password, course, courseId, idNo,
            if role.Some? then role.value else DefaultRole, now, now)
  }

  /** `select('-password')`. */
  function Public(u: UserDoc): PublicUser {
    PublicUser(u.id, u.firstName, u.secondName, u.middleInitial, u.email, u.course,
               u.courseId, u.idNo, u.role, u.createdAt, u.updatedAt)
  }

  /** A document created without a course id or without an id number never
      passes validation, whatever else it holds. */
  lemma {:induction false} MissingCourseIdInvalid(freshId: string, now: int, firstName: string, secondName: string,
                               middleInitial: Option<string>, email: string, password: string, course: string,
                               idNo: Option<string>, role: Option<string>)
    ensures !ValidUser(NewUserDoc(freshId, now, firstName, secondName, middleInitial, email, password, course,
                                  None, idNo, role))
    ensures !ValidUser(NewUserDoc(freshId, now, firstName, secondName, middleInitial, email, password, course,
                                  idNo, None, role))
  {
  }
}
