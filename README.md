# Attendance and task system — a Dafny model of the server core

The system is an Express + Prisma back end with a Next.js client. It keeps
four tables: users, attendance rows, leave requests and tasks. Users sign up
and sign in, update their own profile and mark their attendance once a day.
They request leave, which an administrator approves or rejects. Approving
leave also writes a LEAVE attendance row for that day, in the same
transaction. Administrators create tasks and assign them to users. Users
submit their tasks and administrators approve or reject them. A letter grade
is computed from a user's PRESENT days over a date range. On the client, a
route guard sends requests without the right cookies to the sign-in page.

The model is split into these modules:

- `Common`: the reply envelope (`success`, HTTP status, message, optional
  data).
- `Text`: trimming, ASCII lower-casing, decimal digits and the UTF-16 length.
- `Clock`: days as ms since the epoch in UTC, the weekday, start and end of
  a day as `setHours` computes them, a mutable `JsDate`, and the
  `YYYY-MM-DDT00:00:00.000Z` day string.
- `Store`: the rows, the table invariants and the `Db` class whose map
  fields the controllers update.
- `Attendance`, `Leave`, `Tasks`, `Accounts` and `Auth`: one module per
  controller.
- `Middleware`: the client route guard.

Each controller handler is a function (read-only handlers) or a method
taking the `Db` (handlers that write). Its contract states the reply for every branch
and the new table contents. Error paths are modelled, not excluded.

Conventions:

- The JavaScript falsy tests (`!id`, `!name`) become `0` for an id and `""`
  for a string. A request field that may be left out of a Prisma update
  (`undefined`) is an `Option`.
- Time is an integer number of milliseconds in UTC. The current time is a
  parameter, `now`.
- Password hashing, password verification and token minting are
  parameters: a hash string, a verification predicate and a minting
  function.

## Model

| member | source | states |
|---|---|---|
| Store.InsertPresentKeeps | server/controllers/attendance.controller.js:8-13 | inserting a PRESENT row dated by a day (a midnight), for a user with no row that day, keeps the leave/attendance invariant and records the row |
| Store.InsertPendingKeeps | server/controllers/leave.controller.js:16-23 | inserting a PENDING leave request keeps the leave/attendance invariant |
| Store.RejectKeeps | server/controllers/leave.controller.js:237-240 | turning a PENDING request into REJECTED keeps the invariant (no LEAVE row refers to it) |
| Store.ApproveKeeps | server/controllers/leave.controller.js:137-192 | approving a PENDING request and adding its LEAVE row in one step keeps the invariant: every approved request has its LEAVE row, every LEAVE row an approved request, and no two approved requests share a (user, day), so the two correspond one to one; the LEAVE row is dated at midnight of the request's day, so every attendance date stays a day |
| Attendance.MarkAttendance | server/controllers/attendance.controller.js:5-22 | a user with a row on the day of `now` gets 409 and no change; an unknown user gets a 500; otherwise exactly one PRESENT row is added, dated at midnight of that day and created at `now`, and the invariant is kept |
| Attendance.RowsOf | server/controllers/attendance.controller.js:26-56 | the caller's rows are exactly the table's rows with that user id, values unchanged |
| Attendance.AttendanceToday | server/controllers/attendance.controller.js:60-125 | the rows of one user dated at midnight of `now`'s day, which with every stored date a day are exactly that user's rows on `now`'s day; when (user, date) is unique there is at most one |
| Attendance.GetAttendanceById | server/controllers/attendance.controller.js:130-162 | success exactly when the id is given and present, with that row; a missing id is a 400 and an unknown one a 404 |
| Attendance.GetAttendanceByUserId | server/controllers/attendance.controller.js:166-201 | success exactly when the user id is given (the 404 cannot fire on an array), with all of that user's rows |
| Attendance.RowsOn | server/controllers/attendance.controller.js:235-280 | the rows on a day are exactly the table's rows with that date |
| Attendance.GetAllAttendanceByDate | server/controllers/attendance.controller.js:283-335 | a missing date is a 400; otherwise a success whose message quotes the date's `toDateString()` text and whose rows are exactly those stored at midnight of that date's day, with their values; as the store keeps every attendance date a day, these are all the rows of that day |
| Attendance.GetAllAbsentAttendanceByDate | server/controllers/attendance.controller.js:355-392 | a missing date is a 400; otherwise a success with the users that have no row or an ABSENT row at midnight of the given instant's day, as the date column compares by day; with every stored date a day and none ABSENT, exactly the users with no row on that day |
| Attendance.PresentIsNotAbsent | server/controllers/attendance.controller.js:361-380 | a user marked PRESENT or on LEAVE that day is never listed as absent |
| Attendance.AbsenteesAreUnmarked | server/controllers/attendance.controller.js:361-380 | when no ABSENT row is ever stored, a user is listed as absent if and only if they have no row that day |
| Attendance.AbsenteesOn | server/controllers/attendance.controller.js:361-380 | the `OR` of `none: { date }` and `some: { date, status: 'ABSENT' }`: the users with no row on the date or an ABSENT row on it; its properties are `PresentIsNotAbsent` and `AbsenteesAreUnmarked` |
| Attendance.AbsentTodayAsWritten | server/controllers/attendance.controller.js:343 | the raw query as written: `a.id IS NULL OR (a.status = 'ABSENT' AND a.date = CURRENT_DATE)` over the left join |
| Attendance.AbsentTodayAsWrittenMissesAbsentee | server/controllers/attendance.controller.js:343 | a user with a row yesterday and none today is not listed as absent today |
| Attendance.AbsentTodayAsWrittenIsNeverMarked | server/controllers/attendance.controller.js:343 | with no stored ABSENT rows, the query lists exactly the users who have never had any attendance row |
| Attendance.AbsentToday | server/controllers/attendance.controller.js:338-351 | the intended query: with no stored ABSENT rows, a user is listed if and only if they have no row at midnight of `now`'s day (`CURRENT_DATE`) |
| Attendance.PresentCount | server/controllers/attendance.controller.js:410-419 | the number of the user's PRESENT rows created between the two bounds, inclusive; bounded by `PresentCountBounds` |
| Attendance.LetterGrade | server/controllers/attendance.controller.js:427-450 | the `switch (true)` over strict thresholds 90, 80, 70, 60 and 50; its bands are `GradeBands` and its order `GradeMonotone` |
| Attendance.GradeOf | server/controllers/attendance.controller.js:410-452 | the report `{ percentage, presentCount, totalDays, grade }` from the two instants; `ComputeGrade` is proved equal to it and `TotalDaysInclusive` describes its day count |
| Attendance.PercentageOf | server/controllers/attendance.controller.js:425-426 | `presentCount / diffDays * 100` as an exact ratio, with the IEEE cases of a zero divisor kept apart (Infinity, NaN) |
| Attendance.ComputeGrade | server/controllers/attendance.controller.js:410-450 | moving both dates in place with `setHours` and then counting gives the grade report: the PRESENT rows created from the start of the first day to the end of the last, `ceil` of the day difference, and the band |
| Attendance.AttendanceGrade | server/controllers/attendance.controller.js:396-456 | a missing user id or missing dates are 400s; otherwise success with the grade report for the caller |
| Attendance.AttendanceGradeByUserId | server/controllers/attendance.controller.js:459-516 | one 400 for a missing user id or dates; otherwise success with the grade report for the named user |
| Attendance.TotalDaysInclusive | server/controllers/attendance.controller.js:415-423 | because `setHours` moves the end to 23:59:59.999, `totalDays` is the number of calendar days counted inclusively |
| Attendance.PresentCountBounds | server/controllers/attendance.controller.js:410-419 | a PRESENT row inside the range is counted; a reversed range counts nothing |
| Attendance.ReversedRangeIsF | server/controllers/attendance.controller.js:422-450 | an end day before the start day gives no present days and grade F |
| Attendance.GradeBands | server/controllers/attendance.controller.js:427-450 | for a positive day count, the grade is A above 90%, B above 80%, C above 70%, D above 60%, E above 50%, else F |
| Attendance.NinetyPercentIsB | server/controllers/attendance.controller.js:428-432 | exactly 90% is a B, since the bands compare strictly |
| Attendance.GradeMonotone | server/controllers/attendance.controller.js:425-450 | more present days never give a worse grade |
| Leave.RequestRefusal | server/controllers/leave.controller.js:10-14 | a request is accepted exactly for a given weekday date not before now with a reason; a past date is reported before a weekend one |
| Leave.RequestLeave | server/controllers/leave.controller.js:5-28 | a refused request is a 400 and nothing is written; an unknown user is a 500; otherwise exactly one PENDING row is added under a fresh id |
| Leave.ApprovalRefusal | server/controllers/leave.controller.js:135-172 | approval goes ahead exactly when the id is given, the request exists and is PENDING, its date is neither past nor a weekend, and the user has no attendance row on the request's day; an unknown id is a 404 |
| Leave.DecidedIsRefused | server/controllers/leave.controller.js:147-149 | an already decided request is always refused as not PENDING |
| Leave.CommentOr | server/controllers/leave.controller.js:178 | the comment stored with a decision: the administrator's comment when one is given, else the fallback ("Leave Granted" here, "Leave Rejected" at line 239) |
| Leave.ApproveLeaveRequest | server/controllers/leave.controller.js:131-218 | the request becomes APPROVED and one LEAVE row is added for its user, dated at midnight of the request's day, together; any refusal leaves both tables unchanged |
| Leave.RejectLeaveRequest | server/controllers/leave.controller.js:222-245 | a PENDING request becomes REJECTED; a missing or decided one gets a success without change; attendance is never touched |
| Leave.LeavesOf | server/controllers/leave.controller.js:53-75 | the requests of one user, values unchanged |
| Leave.AllRequestsSplitByUser | server/controllers/leave.controller.js:32-127 | the whole-table reply and a user's reply agree: every request of that user in the table is in the user's reply with the same value, and the user's reply holds nothing else |
| Leave.GetLeaveRequestsByUser | server/controllers/leave.controller.js:105-127 | a missing user id is a 400; otherwise exactly that user's requests |
| Leave.GetLeaveRequestById | server/controllers/leave.controller.js:79-101 | a missing id is a 400; otherwise the request with that id, or no request, still as a success |
| Tasks.NewTask | server/controllers/task.controller.js:10-17 | a new task carries the given title, description, due date and assignee, is PENDING and has no comments and no submission time |
| Tasks.CreateTask | server/controllers/task.controller.js:5-23 | any missing field is a 400; an unknown assignee is a 500; otherwise exactly one new task is added under a fresh id |
| Tasks.PatchTask | server/controllers/task.controller.js:133-145 | each supplied field is written and every other field kept |
| Tasks.EmptyPatchIsIdentity | server/controllers/task.controller.js:133-145 | an update that supplies nothing changes nothing |
| Tasks.PatchIdempotent | server/controllers/task.controller.js:133-145 | the same update applied twice equals applying it once |
| Tasks.PatchLastWins | server/controllers/task.controller.js:133-145 | of two successive updates, the second wins on every field it supplies |
| Tasks.UpdateTask | server/controllers/task.controller.js:129-150 | a missing id is a 400; an unknown task or assignee is a 500 with no change; otherwise the task is replaced by its patch |
| Tasks.Submit | server/controllers/task.controller.js:237-245 | submission stamps the time and stores the comment when given; status and everything else are kept |
| Tasks.SubmitLastWins | server/controllers/task.controller.js:237-245 | a second submission overrides the first |
| Tasks.SubmitTask | server/controllers/task.controller.js:230-251 | without a caller it is a 400; a task the caller does not own (or no such task) is a 500 with no change; otherwise the task is replaced by its submission |
| Tasks.Review | server/controllers/task.controller.js:258-268 | review sets the status to the decision and stores the comment when given; everything else is kept |
| Tasks.ReviewIdempotent | server/controllers/task.controller.js:258-268 | reviewing twice with the same decision is reviewing once |
| Tasks.ReviewLastWins | server/controllers/task.controller.js:258-268 | of two reviews, the second decides |
| Tasks.SubmitReviewCommute | server/controllers/task.controller.js:237-268 | submission and review write disjoint fields, so their order does not matter |
| Tasks.ReviewTask | server/controllers/task.controller.js:254-274 | a missing id is a 400; an unknown task is a 500 with no change; otherwise the task is replaced by its review |
| Tasks.ApproveTask | server/controllers/task.controller.js:254-274 | review with decision APPROVED, with its 400 and 500 cases |
| Tasks.RejectTask | server/controllers/task.controller.js:277-297 | review with decision REJECTED, with its 400 and 500 cases |
| Tasks.TasksOf | server/controllers/task.controller.js:76-99 | the tasks of one assignee, values unchanged |
| Tasks.AllTasksSplitByUser | server/controllers/task.controller.js:26-99 | the whole-table reply and an assignee's reply agree: every task of that user in the table is in the user's reply with the same value, and the user's reply holds nothing else |
| Tasks.GetTaskById | server/controllers/task.controller.js:50-73 | a missing id is a 400; otherwise a success that carries the task exactly when it exists |
| Tasks.GetTasksByUserId | server/controllers/task.controller.js:76-99 | a missing user id is a 400; otherwise exactly that user's tasks |
| Tasks.GetTasks | server/controllers/task.controller.js:153-180 | without a caller it is a 400; otherwise exactly the caller's tasks |
| Tasks.GetTasksByIdAndUserId | server/controllers/task.controller.js:101-126 | a missing user id is a 400; otherwise the task with that id if the user owns it, else none |
| Tasks.DueToday | server/controllers/task.controller.js:188-202 | the caller's tasks whose due date falls on today's day |
| Tasks.GetTasksToday | server/controllers/task.controller.js:182-227 | without a caller it is a 400; no task due today is a success without data; otherwise the tasks due today |
| Accounts.ProfileOf | server/controllers/user.controller.js:38-48 | the profile projection copies every selected column |
| Accounts.ListingOf | server/controllers/user.controller.js:63-71 | the listing projection copies id, e-mail, name, role and phone |
| Accounts.ProjectionsIgnorePassword | server/controllers/user.controller.js:38-71 | neither projection depends on the stored password hash |
| Accounts.GetUser | server/controllers/user.controller.js:31-58 | the caller's profile, or a 404 when there is no such user |
| Accounts.GetUserById | server/controllers/user.controller.js:84-114 | a missing id is a 400 and an unknown one a 404; success exactly when the user exists, with its profile |
| Accounts.GetAllUsers | server/controllers/user.controller.js:61-81 | an empty table is a 404; otherwise one listing per user and no others |
| Accounts.PatchProfile | server/controllers/user.controller.js:12-21 | name, address and phone are written trimmed and the image as given, each only when supplied; e-mail, password and role are never written |
| Accounts.EmptyPatchIsIdentity | server/controllers/user.controller.js:12-21 | an update that supplies nothing changes nothing |
| Accounts.PatchIdempotent | server/controllers/user.controller.js:12-21 | the same update applied twice equals applying it once |
| Accounts.PatchStoresTrimmed | server/controllers/user.controller.js:17-19 | every text field the update writes has no white space at either end |
| Accounts.UpdateUser | server/controllers/user.controller.js:5-28 | a missing caller is a 400; an unknown one is a 500; otherwise the caller's row is replaced by its patch and nothing else changes |
| Text.TrimStart | server/controllers/auth.controller.js:73 | the leading-white-space half of `trim()`: no longer than its input, never starting with white space, and changed only when the input starts with white space |
| Text.TrimEnd | server/controllers/auth.controller.js:73 | the trailing-white-space half of `trim()`: no longer than its input, never ending with white space, and changed only when the input ends with white space |
| Text.Trim | server/controllers/auth.controller.js:73-77 | `String.prototype.trim` as the two halves in turn; its properties are `TrimEnds`, `TrimIdempotent` and `TrimNoSpace` |
| Text.TrimStartCuts | server/controllers/auth.controller.js:73 | `trimStart` removes a prefix made only of white space |
| Text.TrimEndCuts | server/controllers/auth.controller.js:73 | `trimEnd` removes a suffix made only of white space |
| Text.TrimEnds | server/controllers/auth.controller.js:73-77 | `trim` gives a contiguous slice of its input with no white space at either end |
| Text.TrimIdempotent | server/controllers/user.controller.js:17-19 | trimming twice is trimming once |
| Text.TrimNoSpace | server/controllers/auth.controller.js:74 | a string without white space is its own trim |
| Text.ToLower | server/controllers/auth.controller.js:62 | lower-casing keeps the length and maps every character separately |
| Text.LowerKeepsNonLetters | server/controllers/auth.controller.js:62 | lower-casing changes only A-Z and keeps a string free of white space |
| Text.LowerIdempotent | server/controllers/auth.controller.js:74 | lower-casing twice is lower-casing once |
| Text.Utf16Length | server/controllers/auth.controller.js:54 | `password.length` counts UTF-16 code units: between one and two per character |
| Text.Decimal | server/controllers/attendance.controller.js:94-96 | `String(n)`: at least one decimal digit and no leading zero |
| Text.DecimalRoundTrip | server/controllers/attendance.controller.js:93-97 | `String(n)` reads back as `n` |
| Text.DecimalLength | server/controllers/attendance.controller.js:93-97 | `String(n)` has four digits exactly for years 1000 to 9999 |
| Clock.StartOfDay | server/controllers/attendance.controller.js:415 | `setHours(0,0,0,0)` gives the first millisecond of the same day |
| Clock.EndOfDay | server/controllers/attendance.controller.js:416 | `setHours(23,59,59,999)` gives the last millisecond of the same day |
| Clock.Weekday | server/controllers/leave.controller.js:12 | `getDay()` is between 0 (Sunday) and 6 (Saturday) |
| Clock.CeilDiv | server/controllers/attendance.controller.js:423 | `Math.ceil(a / b)` for a positive divisor is the least q with a <= q*b |
| Clock.JsDate.SetStartOfDay | server/controllers/attendance.controller.js:415 | the date object is moved in place to the start of its day and the new time returned |
| Clock.JsDate.SetEndOfDay | server/controllers/attendance.controller.js:416 | the date object is moved in place to the end of its day and the new time returned |
| Clock.DayString | server/controllers/attendance.controller.js:93-97 | the template `${yyyy}-${mm}-${dd}T00:00:00.000Z` from the year, the zero-based month plus one and the day, both padded; described by `DayStringRoundTrip` |
| Clock.ParseDayString | server/controllers/attendance.controller.js:99-103 | the model's own reading of such a string into year, month and day, standing in for `new Date(todayString)`; unlike `new Date` it accepts years of any length and does not check the month and day ranges; `ParseDayShape` and `DayStringRoundTrip` relate it to `DayString` |
| Clock.Pad2 | server/controllers/attendance.controller.js:95-96 | `String(n).padStart(2,'0')` is two digits |
| Clock.Pad2Value | server/controllers/attendance.controller.js:95-96 | the padded string reads back as `n` |
| Clock.ParseDayShape | server/controllers/attendance.controller.js:97 | any year, two-digit month and two-digit day build a string the day parser accepts |
| Clock.DayStringRoundTrip | server/controllers/attendance.controller.js:93-97 | the built day string has 24 characters for four-digit years and parses back to the year, month (one-based) and day it was built from |
| Auth.EmailRegex | server/controllers/auth.controller.js:12 | `/^[^\s@]+@[^\s@]+\.[^\s@]+$/` (also line 50) as three non-empty runs without white space or `@`; its meaning is `EmailRegexMeaning` |
| Auth.EmailRegexMeaning | server/controllers/auth.controller.js:12 | the e-mail pattern holds exactly for a string without white space with exactly one `@`, not first, and a `.` after at least one character past the `@` and before the last character |
| Auth.StoredEmail | server/controllers/auth.controller.js:74 | for an e-mail without white space, `toLowerCase().trim()` is just the lower-cased e-mail, and it is lower case |
| Auth.StripSeparators | server/controllers/auth.controller.js:58 | removing white space and hyphens leaves none, and changes nothing when there are none |
| Auth.PhoneRegex | server/controllers/auth.controller.js:57 | `/^[\+]?[1-9][\d]{3,14}$/`: an optional `+`, then 4 to 15 digits the first of which is not `0` |
| Auth.ValidPhone | server/controllers/auth.controller.js:58 | the pattern tested on the number with white space and hyphens removed; `SeparatorsIgnored` and `PhoneWithoutSeparators` describe it |
| Auth.StripAppend | server/controllers/auth.controller.js:58 | removing separators distributes over concatenation |
| Auth.StripDropsSeparator | server/controllers/auth.controller.js:58 | one separator more or less in the input gives the same stripped phone |
| Auth.SeparatorsIgnored | server/controllers/auth.controller.js:57-58 | a phone number's validity does not depend on spaces or hyphens in it |
| Auth.PhoneWithoutSeparators | server/controllers/auth.controller.js:57-58 | a number with no separators is valid exactly when it matches the pattern itself |
| Auth.HasEmail | server/controllers/auth.controller.js:61-63 | the `findUnique`/`findFirst` on `email`: some stored user carries exactly that e-mail (also lines 15-19) |
| Auth.SignUpRefusal | server/controllers/auth.controller.js:47-65 | sign-up goes ahead exactly when all required fields are given, the e-mail and phone match, the password has at least 6 code units and the lower-cased e-mail is not taken; a taken e-mail is always refused, and a 409 means it was taken |
| Auth.NewUser | server/controllers/auth.controller.js:71-80 | the stored row has the trimmed name, address and phone, the trimmed lower-cased e-mail, the hash, the image, and role USER unless one is given |
| Auth.SignUpKeeps | server/controllers/auth.controller.js:61-80 | adding an accepted user keeps the e-mails unique and lower case |
| Auth.SignUp | server/controllers/auth.controller.js:42-100 | a refusal is its status and message with no change; otherwise exactly one user is added under a fresh id and the reply is a 201 with its profile, without the password |
| Auth.SignInRefusal | server/controllers/auth.controller.js:10-13 | sign-in gets past its checks exactly when both fields are given and the e-mail matches the pattern |
| Auth.Authenticate | server/controllers/auth.controller.js:15-35 | no user under the key is a 500; a failed verification is a 500; success returns that user's id, name, e-mail, role and a `Bearer` token, and with unique e-mails it succeeds exactly when the stored hash of the user under the key verifies |
| Auth.SignInAsWritten | server/controllers/auth.controller.js:6-39 | sign-in as written looks the user up by the e-mail exactly as typed |
| Auth.AsWrittenLookupMisses | server/controllers/auth.controller.js:15-19 | a user who signed up with a capital letter in the e-mail is not found under the typed e-mail, but is under its lower-cased form |
| Auth.AnnSignsUp | server/controllers/auth.controller.js:47-65 | a concrete form with a capitalised e-mail passes every sign-up check |
| Auth.SignInAsWrittenMissesMixedCase | server/controllers/auth.controller.js:15-19 | that user passes the sign-in checks with the same e-mail, yet the as-written lookup misses and the lower-cased one hits |
| Auth.SignIn | server/controllers/auth.controller.js:6-39 | the corrected sign-in looks the user up by the lower-cased e-mail, with the same replies |
| Auth.SignInFindsSignedUp | server/controllers/auth.controller.js:12-19 | every e-mail accepted by sign-up is found again by the corrected lookup, whatever its case |
| Middleware.Guard | client/middleware.js:3-15 | every redirect goes to `/signin`, and the sign-in and sign-up pages are always let through |
| Middleware.AreasDisjoint | client/middleware.js:8-13 | no path is in two of the admin area, the user area and the sign-in/sign-up pages |
| Middleware.AreasOpenToTheirRole | client/middleware.js:7-11 | with a token, ADMIN reaches every admin path and USER every user path |
| Middleware.AreasClosedToOthers | client/middleware.js:7-14 | an admin path is let through exactly for a token with role ADMIN, a user path exactly for a token with role USER |
| Middleware.NoTokenOnlyAuthPages | client/middleware.js:4-14 | without a token, a path is let through exactly when it is a sign-in or sign-up page |
| Middleware.OnlyTokenPresenceMatters | client/middleware.js:4-7 | the verdict depends on whether there is a token, not on its value |

## Left out

- Prisma's `include`, `select` and `orderBy`: replies carry whole rows (or the profile and listing projections) as maps keyed by id. Joined user columns and the ordering are not represented.
- Row `uuid`s, `createdAt` (except on attendance rows, where the grade uses it) and `updatedAt` are not represented.
- `ApiResponse` (server/utils) is not part of this model. Its helpers are assumed to reply with 200 for `success` (or the status given), 400 for `validationError`, 404 for `notFound` and the given status for `error`.
- The Prisma schema is not part of this model. It is assumed that a user's e-mail and an attendance row's (user, date) pair are unique, that foreign keys hold, and that the attendance `date` column holds a day: a value written to it is stored, and compared in a filter, as the midnight UTC of its day. The model carries this as `Store.AttendanceDatesAreDays` inside `Db.Valid()`: `markAttendance` dates its row at midnight of `now`'s day, and `approveLeaveRequest` checks for and writes its LEAVE row at midnight of the request's day, whatever time of day the request's date holds. Without this assumption the 409 of `markAttendance`, which needs a second mark on the same day to collide, could not happen. The model also relies on the schema's defaults: a new attendance row's `date` is today, a new task's status is PENDING, and a new user's role is USER. Inserting under a missing foreign key is modelled as the 500 the catch block returns.
- Concurrency: two requests racing past a check (sign-up's P2002 catch, or attendance's unique key) are not modelled. Each handler runs alone.
- `toLowerCase` is modelled for the ASCII letters A-Z only; any other character is left as it is. The white space `trim` and `\s` remove is JavaScript's full set.
- Floating point: the percentage is an exact ratio. Division by zero gives Infinity or NaN, as in JavaScript, but rounding in the percentage is not modelled.
- Time zones: the server is taken to run in UTC, so `setHours` and `getDay` act on UTC days.
- Ids that are not numbers are outside the model. Only `getUserById` (server/controllers/user.controller.js:86) calls `parseInt` before its `!id` test, so there NaN joins the missing id's 400, which the model's `0` covers. The other handlers with a `!id` test test the raw request value, so a non-numeric id passes the test, Prisma receives NaN and the catch block replies 500; the model has no such id.
- Tasks.GetTasksByIdAndUserId and Tasks.SubmitTask: `getTasksByIdandUserId` (server/controllers/task.controller.js:102,108) and `submitTask` (:231,238) never test the task id. A missing id becomes `parseInt(undefined)`, which is NaN, and the catch block replies 500. A missing task id is outside the model there: the model's `id` and `taskId` are numeric ids, and `0` is a real id 0, not a missing one.
- An invalid date string (one for which `new Date` is invalid), a role string that is not ADMIN or USER, and an attendance status outside the enumeration are not modelled.
- Password hashing, password verification and token signing are parameters of the model, not implementations.
- The Next.js `matcher` configuration, which decides which paths reach the guard, is not modelled. The guard is modelled for every path.
- `getAttendanceOfAllTime` (server/controllers/attendance.controller.js:205-231) returns the whole attendance table with joined users, so there is nothing to prove beyond what `Attendance.RowsOn` and `Attendance.RowsOf` show.
- `getAllAttendanceToday` is covered by `Attendance.RowsOn` at today's midnight; its reply envelope is not modelled separately.
- Attendance.GetAllAttendanceByDate: the day string built from `getFullYear`, `getMonth` and `getDate` (server/controllers/attendance.controller.js:290-294) is assumed to denote the UTC midnight of the given date's day; the model filters on that midnight directly. What is proved is only that the string parses back to the year, month and day it was built from (`Clock.DayStringRoundTrip`), with a parser that also takes years outside 1000-9999, which `new Date` does not. The same holds for `getAttendanceToday` and `getAllAttendanceToday`. The `toDateString()` text in the success message is a parameter.
- Clock.ParseDayString: it is the model's own day-string reader, not `new Date`. It accepts years of any length and any two digits as month and day, where `new Date` takes a four-digit year (or a signed six-digit one) and gives an Invalid Date for a month or day out of range.
- `getAllLeaveRequests` and `getAllTasks` return the whole table; `Leave.GetAllLeaveRequests` and `Tasks.GetAllTasks` have no contract of their own, and `Leave.AllRequestsSplitByUser` and `Tasks.AllTasksSplitByUser` relate them to the per-user replies.
- Tasks.SubmitTask: `submitComment` is an `Option`, so `null` and `undefined` are merged into `None`. Prisma would write a `null`.
- Auth.Authenticate: a password verification that throws, and a token that cannot be signed, are not modelled (they are the generic 500 of the catch block).

## Findings

| source | as written | input that shows it | evidently intended | confidence | as-written member | corrected member |
|---|---|---|---|---|---|---|
| server/controllers/attendance.controller.js:343 | `WHERE a.id IS NULL OR a.status = 'ABSENT' AND a.date = CURRENT_DATE` binds as `a.id IS NULL OR (…)` over a left join of all of a user's rows, so it lists only users who never had any row | user 1 with one PRESENT row yesterday and none today is not listed as absent today | users with no row today, or an ABSENT row today, as `getAllAbsentAttendanceByDate` computes | not executed | Attendance.AbsentTodayAsWritten (Attendance.AbsentTodayAsWrittenMissesAbsentee) | Attendance.AbsentToday |
| server/controllers/auth.controller.js:15-19 | sign-in looks up `email` as typed, while sign-up stores `email.toLowerCase().trim()` (line 74) | sign up as `Ann@mail.com`, then sign in with `Ann@mail.com`: the lookup finds no user | look the user up by the lower-cased e-mail | not executed | Auth.SignInAsWritten (Auth.SignInAsWrittenMissesMixedCase) | Auth.SignIn (Auth.SignInFindsSignedUp) |
