# Reading-platform micro-services in Dafny

This project models the request handlers of three small Express/Mongoose
services that together run an ePub reading platform:

- the **file service** stores books. Each book is an ePub file and a cover
  image held in a blob store (Cloudinary), plus a database record that
  locates them and carries the title, author and description;
- the **admin service** registers and authenticates users, guards its
  routes with a bearer-token check and an admin-only check, and lets an
  admin list, edit and delete users;
- the **time service** accumulates the seconds each user spends reading
  each book and renders durations as text such as `1h 2m 5s`.

Each handler is a method or function over explicit state:

- **`FileService.AssetStore`** holds the blob store (`blobs`), the book
  collection (`records`) and a ghost log of every blob-store call.
- **`UserService.UserStore`** holds the admin service's user collection.
- **`TimeService.TimeStore`** holds the time service's users and its time
  entries, in collection order.

The outcome of every external call is a parameter: an upload, a destroy, a
database save or delete, a fresh uuid, the clock, bcrypt's salt, hash and
compare, and JWT sign and verify. A handler's contract therefore states the
exact reply and the exact new state for every combination of outcomes,
including failures part-way through. Each collection's schema validation
(`required`, `enum`, defaults) is a predicate that every create and every
save checks again, as Mongoose does. A stored document is not assumed to
pass the current schema, because documents written before a field became
required stay in the collection. What each store keeps invariant is only
what the database enforces: each document sits under its own id, and the
`unique` indexes hold. The time entries have no unique index, so one user
and book may have several entries.

The model follows the code as written. Points where the code may surprise
a reader:

- `updateFile` destroys the old blob before it uploads the new one, and
  never checks the destroy's result string.
- `saveTimeSpent` says in its 400 message that the time must be
  "positive", but it accepts 0.
- `registerUser` never stores a user. The schema requires `courseId` and
  `idNo`, which the handler does not supply, so `User.create` always throws.
- `saveTimeSpent` gives 500 for a user and book pair that has no entry yet.
  The new entry has no `courseId`, which the schema requires.

Modules:

- `Js` (`js.dfy`): JavaScript conventions. Absent and falsy strings,
  `a || b`, `split(' ')`/`join(' ')`, ASCII case folding and `trim`'s
  whitespace.
- `TimeFormat` (`time_format.dfy`): `convertTime`, an independent
  description of its output, a parser for that output, and the round trip
  between them.
- `BookSchema` (`file_model.dfy`) and `FileService` (`file_controller.dfy`).
- `UserSchema` (`user_model.dfy`), `UserService` (`user_controller.dfy`)
  and `AuthMiddleware` (`auth_middleware.dfy`).
- `TimeSchema` (`time_model.dfy`) and `TimeService` (`time_controller.dfy`).

## Model

| member | source | states |
|---|---|---|
| Js.Or | admin_service_api/controllers/userController.js:135-139 | `v \|\| fallback` on a body field: the sent value when it is present and non-empty, otherwise the fallback |
| Js.Split | admin_service_api/middleware/authMiddleware.js:12 | `split(' ')` always yields at least one piece |
| Js.SplitPrefix | admin_service_api/middleware/authMiddleware.js:12 | splitting a text that starts with a space-free word glues that word to the first piece of the rest |
| Js.SplitJoin | time-service-api/controllers/timeController.js:13-21 | `split(' ')` undoes `join(' ')` on space-free words |
| Js.Lower | file-service-api/controllers/fileController.js:226 | the `i` option's case folding keeps the length and folds each character on its own |
| TimeFormat.TruncRem | time-service-api/controllers/timeController.js:7-9 | JavaScript `%` by a positive divisor: the dividend minus the quotient rounded toward zero times the divisor, so in [0, b) for a non-negative dividend and in (-b, 0] for a negative one |
| TimeFormat.Components | time-service-api/controllers/timeController.js:6-9 | for a non-negative duration, the hours are non-negative, the minutes and seconds are below 60, and h·3600 + m·60 + s is the duration; for a negative one, all three are non-positive |
| TimeFormat.NatToStringDigits | time-service-api/controllers/timeController.js:13-19 | the `${n}` rendering is all decimal digits, with no leading zero |
| TimeFormat.ParseNatToString | time-service-api/controllers/timeController.js:13-19 | the `${n}` rendering reads back as n |
| TimeFormat.TrimStart | time-service-api/controllers/timeController.js:21 | the text with exactly its leading whitespace removed: a suffix of the input, every dropped character is whitespace, and the result does not start with whitespace |
| TimeFormat.TrimEnd | time-service-api/controllers/timeController.js:21 | the text with exactly its trailing whitespace removed: a prefix of the input, every dropped character is whitespace, and the result does not end with whitespace |
| TimeFormat.AccumulateSpaced | time-service-api/controllers/timeController.js:11-20 | the string built before trimming is each positive part followed by its separator, in the order h, m, s |
| TimeFormat.SpacedTrimmed | time-service-api/controllers/timeController.js:21 | trimming that string removes only the single trailing space, leaving the parts joined by single spaces |
| TimeFormat.ConvertTime | time-service-api/controllers/timeController.js:5-22 | convertTime itself; its meaning is stated by ConvertTimeIsJoinedParts, ConvertTimeRoundTrip, ConvertTimeEmpty, ConvertTimeTrimmed and ConvertTimeNeverZeroPlaceholder |
| TimeFormat.ConvertTimeIsJoinedParts | time-service-api/controllers/timeController.js:5-22 | convertTime of a non-negative duration is exactly its positive parts, in order, separated by single spaces |
| TimeFormat.PartsTotal | time-service-api/controllers/timeController.js:6-20 | the parts add up to the duration they were taken from |
| TimeFormat.ParseJoinParts | time-service-api/controllers/timeController.js:12-21 | the joined rendering of any parts reads back as their total |
| TimeFormat.ConvertTimeRoundTrip | time-service-api/controllers/timeController.js:5-22 | round trip: the text for any non-negative number of seconds reads back as that number, so the format loses no information |
| TimeFormat.ConvertTimeEmpty | time-service-api/controllers/timeController.js:5-22 | convertTime gives the empty string if and only if the duration is zero or negative |
| TimeFormat.ConvertTimeTrimmed | time-service-api/controllers/timeController.js:21 | the output never starts or ends with whitespace |
| TimeFormat.ZeroPlaceholderParses | time-service-api/controllers/timeController.js:40 | the placeholder `0m 0s` reads as zero seconds |
| TimeFormat.ConvertTimeNeverZeroPlaceholder | time-service-api/controllers/timeController.js:37-40 | no duration converts to the placeholder `0m 0s` |
| TimeSchema.NewTimeEntry | time-service-api/models/TimeSpent.js:16-20 | a new entry's `timeSpent` defaults to 0 |
| TimeSchema.ValidEntry | time-service-api/models/TimeSpent.js:4-15 | the entry schema's required fields; EntryWithoutCourseInvalid states that an entry without a course id fails it |
| TimeSchema.EntryWithoutCourseInvalid | time-service-api/models/TimeSpent.js:12-15 | an entry built without a course id never passes validation |
| TimeSchema.NewTimeUser | time-service-api/models/User.js:18-22 | a new user's role defaults to `user` |
| TimeSchema.ValidTimeUser | time-service-api/models/User.js:4-22 | the time-service user schema's required fields and role enum; DefaultRoleValid states when a new user passes it |
| TimeSchema.DefaultRoleValid | time-service-api/models/User.js:4-22 | a user with the required fields is valid if and only if its role is absent, `user` or `admin` |
| TimeService.FindFirst | time-service-api/controllers/timeController.js:68 | `findOne`: the first entry for the user and book, or none if and only if no entry matches |
| TimeService.TotalFor | time-service-api/controllers/timeController.js:111-117 | the `$match`/`$group` sum of a user's entries; TotalForAdd, TotalWithoutEntries and TotalNonNegative state its properties |
| TimeService.TotalForAdd | time-service-api/controllers/timeController.js:111-114 | adding to one entry adds the same amount to its user's aggregate total and leaves every other user's total unchanged |
| TimeService.TotalWithoutEntries | time-service-api/controllers/timeController.js:116-119 | a user with no entries totals 0, which renders as the empty string |
| TimeService.TotalNonNegative | time-service-api/controllers/timeController.js:111-117 | totals of non-negative entries are non-negative |
| TimeService.TimeStore.Insert | time-service-api/controllers/timeController.js:73-76 | saving a new entry: appended exactly when it passes validation and the write succeeds |
| TimeService.TimeStore.Replace | time-service-api/controllers/timeController.js:71-76 | saving a loaded entry validates it again and replaces it in place exactly when it is valid and the write succeeds |
| TimeService.TimeStore.SaveTimeSpent | time-service-api/controllers/timeController.js:48-82 | 400 for a non-number or a negative number; 404 for an unknown user; half the value, rounded down, is added to the first matching entry, which is stored with 200 and the user's total grows by exactly that if and only if the entry passes validation and the save succeeds, and 500 with nothing changed otherwise; a new pair gets 500 and stores nothing; other users' totals never change |
| TimeService.TimeStore.GetTimeSpentByUserAndBook | time-service-api/controllers/timeController.js:25-45 | 404 if and only if the user is unknown; otherwise 200, with convertTime of the first matching entry's time when there is one, and the placeholder `0m 0s` if and only if there is none |
| TimeService.TimeStore.GetAllTimeSpent | time-service-api/controllers/timeController.js:85-97 | every entry, in order, with all its fields and its time formatted |
| TimeService.TimeStore.GetTotalTimeSpentByUser | time-service-api/controllers/timeController.js:100-124 | 404 for an unknown user, otherwise the formatted sum of the user's entries (0 when there are none) |
| BookSchema.ValidBook | file-service-api/models/File.js:6-16 | the book schema's required fields; NewBookValid and UpdateKeepsValid state when records pass it |
| BookSchema.NewBookValid | file-service-api/models/File.js:5-17 | a new record is valid if and only if both locators are complete and a non-empty title and author were given; the description plays no part |
| FileService.ApplyUpdate | file-service-api/controllers/fileController.js:177-212 | the record an update produces; UpdateChangesOnlySupplied and UpdateKeepsValid state its properties |
| FileService.UpdateChangesOnlySupplied | file-service-api/controllers/fileController.js:176-212 | an update never changes the id or upload date; each locator and text field changes only when a replacement or a truthy value was supplied |
| FileService.UpdateKeepsValid | file-service-api/controllers/fileController.js:176-214 | a valid record stays valid through an update with complete new locators |
| FileService.IsEpubName | file-service-api/controllers/fileController.js:226 | `/\.epub$/i` under the database's regular-expression rules; EpubNameEnds, EpubExtensionMatches and OtherEndingsDoNotMatch state what it accepts |
| FileService.EpubNameEnds | file-service-api/controllers/fileController.js:226 | `/\.epub$/i` matches if and only if the name ends in `.epub` in any ASCII case, optionally followed by one final newline |
| FileService.EpubExtensionMatches | file-service-api/controllers/fileController.js:226 | any name followed by `.epub`, in any case, matches |
| FileService.OtherEndingsDoNotMatch | file-service-api/controllers/fileController.js:226 | a name ending in anything but `b`, `B` or a newline never matches |
| FileService.EpubFiles | file-service-api/controllers/fileController.js:226 | the filter keeps exactly the records whose name matches, unchanged |
| FileService.AssetStore.Upload | file-service-api/controllers/fileController.js:23-35 | one upload call is logged, and the blob is stored under the returned public id only when the upload succeeds |
| FileService.AssetStore.Destroy | file-service-api/controllers/fileController.js:104 | one destroy call is logged, and the blob is removed only when the store answers `ok` |
| FileService.AssetStore.Replace | file-service-api/controllers/fileController.js:158-174 | destroy the old blob and, unless that throws, upload the new one; it goes through if and only if the destroy answered and the upload succeeded |
| FileService.AssetStore.ReplaceAssets | file-service-api/controllers/fileController.js:150-207 | the ePub is replaced first, then the cover, stopping at the first replacement that fails; the exact calls made and the resulting blobs |
| FileService.AssetStore.Save | file-service-api/controllers/fileController.js:214 | `save()` writes if and only if the record is valid, the write succeeds and an insert's id is new |
| FileService.AssetStore.UploadFiles | file-service-api/controllers/fileController.js:11-71 | 500 when a part is missing and 400 for a non-ePub mimetype, both with no call made; then the ePub upload and the cover upload in that order; 201 with the new record if and only if both uploads and the save succeed; a failure after an upload leaves that blob stored |
| FileService.AssetStore.GetFile | file-service-api/controllers/fileController.js:74-86 | as written: the record with 200, or 500 for a missing id |
| FileService.AssetStore.MissingFileAnswers500 | file-service-api/controllers/fileController.js:78-79 | for a missing record, the handler as written answers 500 where the intended one answers 404 |
| FileService.AssetStore.GetFileIntended | file-service-api/controllers/fileController.js:74-86 | as intended: 200 with the record if and only if it exists, otherwise 404 |
| FileService.AssetStore.DeleteFile | file-service-api/controllers/fileController.js:89-136 | 404 with no call for an unknown id; otherwise the ePub destroy (raw), then the cover destroy only if the first answered `ok`; 200 and the record removed if and only if both answered `ok` and the delete succeeded, 500 otherwise with the record kept |
| FileService.AssetStore.UpdateFile | file-service-api/controllers/fileController.js:138-220 | 404 for an unknown id; 400 for a non-ePub part, with no call made; otherwise the exact calls and blobs, and 200 with the patched record stored if and only if every replacement, validation and the save succeed; when the old ePub is destroyed and the new upload fails, the kept record points at a blob that no longer exists |
| FileService.AssetStore.GetAllFiles | file-service-api/controllers/fileController.js:224-232 | exactly the records whose original name matches `/\.epub$/i`, unchanged |
| UserSchema.NewUserDoc | admin_service_api/models/userModel.js:5-15 | an absent role takes the default `user`; both timestamps are the creation time |
| UserSchema.ValidUser | admin_service_api/models/userModel.js:5-13 | the user schema's required fields; MissingCourseIdInvalid, RegistrationDoc and UpdateCannotSupplyCourseId state when documents fail it |
| UserSchema.MissingCourseIdInvalid | admin_service_api/models/userModel.js:11-12 | a document without a course id, or without an id number, never passes validation |
| UserService.PasswordRegex | admin_service_api/controllers/userController.js:22 | the password regular expression read literally, lookaheads included; PasswordRegexMeans states what it accepts |
| UserService.PasswordRegexMeans | admin_service_api/controllers/userController.js:22-23 | the password regular expression accepts a string if and only if it has at least 8 characters, only ASCII letters and digits, and at least one lowercase letter, one uppercase letter and one digit |
| UserService.LookaheadInAlnum | admin_service_api/controllers/userController.js:22 | in an all-alphanumeric string, each lookahead finds any character of its class |
| UserService.RegistrationDoc | admin_service_api/controllers/userController.js:37-48 | the document created holds the hash, not the password, and the default role, and it never passes validation |
| UserService.ApplyUserUpdate | admin_service_api/controllers/userController.js:135-139 | the user after the five `\|\|` assignments; UserUpdateKeeps, EmptyUpdateIsIdentity and UpdateCannotSupplyCourseId state its properties |
| UserService.UserUpdateKeeps | admin_service_api/controllers/userController.js:135-141 | each of first name, second name, email, role and course takes the sent value when it is truthy and keeps its old value otherwise; the id, password, middle initial, course id, id number and creation time never change; a valid user stays valid |
| UserService.UpdateCannotSupplyCourseId | admin_service_api/controllers/userController.js:135-141 | a user stored without a course id or an id number stays invalid through any update, so its save always fails |
| UserService.EmptyUpdateIsIdentity | admin_service_api/controllers/userController.js:135-141 | an update that sends nothing changes nothing, not even `updatedAt` |
| UserService.NonAdmins | admin_service_api/controllers/userController.js:109 | exactly the users whose role is not `admin`, without passwords |
| UserService.UserStore.Create | admin_service_api/controllers/userController.js:41-48 | `User.create` inserts if and only if the document is valid, its id is new, no other user holds its email or id number, and the write succeeds |
| UserService.UserStore.Save | admin_service_api/controllers/userController.js:141 | `user.save()` writes if and only if the user is valid, no other user holds its email or id number, and the write succeeds |
| UserService.UserStore.RegisterUser | admin_service_api/controllers/userController.js:13-63 | 400 for a missing field, then 400 for a password the rule rejects, then 400 for an email in use; every other request throws from `create`; the collection never changes |
| UserService.UserStore.LoginUser | admin_service_api/controllers/userController.js:69-95 | 400 for an unknown email or a wrong password; a known email without a password throws from the comparison; 403 for a non-admin; and the admin's fields with a token for the user's id otherwise |
| UserService.UserStore.GetAllUsersExceptAdmin | admin_service_api/controllers/userController.js:101-117 | no requester throws; a non-admin gets 403; an admin gets 200 with exactly the non-admin users, without passwords, and never 404 |
| UserService.UserStore.UpdateUser | admin_service_api/controllers/userController.js:123-151 | 404 for an unknown id; otherwise the patched user is stored and returned if and only if it passes validation, no other user holds its email or id number, and the write succeeds, and the request throws with nothing changed otherwise |
| UserService.UserStore.GetUserById | admin_service_api/controllers/userController.js:157-166 | 200 with the user, without its password, if and only if it exists, otherwise 404 |
| UserService.UserStore.DeleteUserById | admin_service_api/controllers/userController.js:171-187 | no requester throws; a non-admin gets 403; an admin removes exactly the named user (200), gets 404 when there is none, and a delete call that fails throws |
| AuthMiddleware.BearerToken | admin_service_api/middleware/authMiddleware.js:12 | `split(' ')[1]`; BearerTokenAfterFirstWord and BareBearerRefused state what it yields |
| AuthMiddleware.BearerTokenAfterFirstWord | admin_service_api/middleware/authMiddleware.js:12 | the token is the word after the first space, whatever space-free word comes before it |
| AuthMiddleware.Protect | admin_service_api/middleware/authMiddleware.js:6-32 | 401 "no token" when the header is absent, empty or does not start with `Bearer`; otherwise 401 "Not authorized" for a missing or empty token, a failed verification or a lookup that throws; `next` if and only if all of these pass, with the named user without its password, or no user when it no longer exists |
| AuthMiddleware.Admin | admin_service_api/middleware/authMiddleware.js:35-42 | `next` if and only if there is a user whose role is `admin`, otherwise 403 |
| AuthMiddleware.BareBearerRefused | admin_service_api/middleware/authMiddleware.js:9-25 | the header `Bearer` alone is refused as not authorized, not as missing |
| AuthMiddleware.VerifiedBearerPasses | admin_service_api/middleware/authMiddleware.js:9-20 | `Bearer <t>` with a verified token passes with the named user, even one that has been removed |
| AuthMiddleware.RemovedUserStoppedByAdmin | admin_service_api/middleware/authMiddleware.js:18-42 | a token for a removed user passes `protect` with no user and is then stopped by `admin` with 403 |

## Left out

- Database reads that fail, and ids that fail to cast (`findById` throwing
  a CastError). Every lookup is a map lookup that answers, except the user
  lookup in `protect`, which may throw (a flag of `AuthMiddleware.Protect`).
  Writes, which can fail, carry an explicit success flag.
- Concurrency between requests, `console.log`/`console.error` logging, and
  the JSON bodies of replies. Replies keep the status, the returned data
  and, in the admin service, the error message.
- The admin service's error middleware is not part of this model. A library
  call that throws with no status set (`Err(Threw)`) leaves the status to
  that middleware.
- Multer's configuration and a request with no files at all (`req.files`
  undefined). Parts are present or absent per field.
- The servers, routes, database connections, Cloudinary configuration and
  message-queue files are not part of this model.
- JWT signing, verification and expiry are parameters. A verified token
  always carries a user id; a token whose payload has no `id` is not
  modelled.
- bcrypt's salt generation, hashing and comparison are parameters.
- UserService.UserStore.LoginUser: a request without an email
  (`findOne({ email: undefined })`) is not modelled. The email is always a
  string.
- TimeService.TimeStore.SaveTimeSpent: `timeSpent` is an unbounded integer.
  JavaScript numbers are doubles: fractions, `NaN` and infinities are not
  modelled, and neither is the rounding of values and sums beyond 2^53.
- TimeFormat.ConvertTimeRoundTrip: the round trip holds for the model's
  unbounded integers and decimal rendering. JavaScript renders `${n}` for
  n of 10^21 or more in exponent form (`1e+21`), which the model does not,
  so for such durations the real output does not read back.
- FileService.AssetStore.GetAllFiles: the reply is a map keyed by id, not an
  array in collection order, so the order of the listing is not modelled.
- UserService.UserStore.GetAllUsersExceptAdmin: the reply is a map keyed by
  id, not an array in collection order, so the order of the listing is not
  modelled.
- TimeService.TimeStore.GetAllTimeSpent: the Mongoose version key `__v`,
  which `...user._doc` also copies, is not in the model.
- Mongoose's `_id` generation and `Date.now` are parameters (a fresh id and
  `now`). `uploadDate` is an integer timestamp.
- The blob store's own behaviour beyond what a call answers is not
  modelled: URL generation, and whether a destroy of an unknown id answers
  `not found`.
- Mongoose type casting of non-string body values (numbers, arrays) into
  String paths is not modelled. Body fields are strings or absent.

## Findings

| source | as written | input that shows it | evidently intended | confidence | as-written member | corrected member |
|---|---|---|---|---|---|---|
| file-service-api/controllers/fileController.js:78 | a stray identifier `c` after `if (!file) {` is evaluated before the `return`; it is not defined, so the handler throws and the catch answers 500 | `GET` of an id with no record | 404 `File not found` for a missing record | not executed | FileService.AssetStore.MissingFileAnswers500 | FileService.AssetStore.GetFileIntended |
