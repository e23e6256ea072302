# SAOP authentication, session and guarded writes — a Dafny model

SAOP (Sustainable Academic Operations Platform) is an academic portal. An
Express server serves three role-scoped routers (`/student`, `/faculty`,
`/admin`) and an `/auth` router. A React client keeps the session in browser
local storage. This project models the part of the system that decides who
is signed in and what a signed-in caller may change:

- **Server** (`AuthRoutes`, `StudentRoutes`, `FacultyRoutes`, `AdminRoutes`):
  - login, register and token verification;
  - every write path of the three role routers, with each path's
    validation, ownership checks, status codes and database effects.
  - The database is a set of in-memory tables with auto-increment ids
    (`Tables`).
  - The unique keys the handlers rely on (user email, course code, one
    submission per assignment and student) form the invariant `Valid`.
  - Every write path is proved to preserve `Valid`.
- **Middleware** (`Http.Guards`): `authenticateToken` and `authorizeRoles`
  are parameters. Every routed handler is proved to change nothing unless
  both guards admit the caller.
- **Client session store** (`ClientApi`): the API base URL, token and user
  persistence, the Authorization header and the 401 interceptor. Within one
  tab the invariant `HeaderInSync` says the header mirrors the stored token.
  Every session operation keeps it. A session loads in sync except when the
  stored token is the empty string: that token is falsy, so no header is set
  although a token is stored (`ClientApi.EmptyStoredTokenStartsOutOfSync`).
  Tabs share storage but each keeps its own header, so another tab's header
  goes stale when one tab signs in or out (`Layout.CrossTabSignOut`,
  `Layout.CrossTabSignInKeepsOldToken`).
- **Page frame** (`Layout`): the user re-read from storage, its resync on
  storage and auth-change events, sign-out, and which header, footer and
  sign-in/out controls are shown.
- **Login page** (`LoginPage`): role selection, the submit handler's
  validation order, and the deferred navigation from role to dashboard.
- **Data hooks** (`UseApi`): query and mutation option defaults, and the
  message `extractApiError` picks.

Foreign code is passed in as parameters: bcrypt, JWT signing and
verification, `JSON.stringify`/`JSON.parse`, and the middleware. The server
handlers take `fault: bool`. When true, the database raises an error other
than a duplicate key on the first statement. The handler then answers 500
and the database is unchanged.

The token and the user are stored by two separate calls. `setAuthToken` stores the token, sets the header and emits one auth-change event. `persistAuthUser` stores the user and emits no event. `ClientApi` models the two calls as they are written.

## Model

| member | source | states |
|---|---|---|
| AuthRoutes.Login | server/routes/auth.ts:9-61 | Any missing field is 400 before the database is touched; a database failure is 500. Otherwise the answer is 200 exactly when the first account matching email and role accepts the password, else 401 "Invalid credentials". A 200 carries the token signed for that first matching account and its public fields. |
| AuthRoutes.LoginSucceedsIffAccountAccepts | server/routes/auth.ts:20-38 | With unique emails, login succeeds exactly when some account with that email and role accepts the password. |
| AuthRoutes.WrongPasswordLooksLikeUnknownUser | server/routes/auth.ts:25-38 | A wrong password for an existing account gets the same response as an email that does not exist, so the reply reveals nothing. |
| AuthRoutes.DemoPasswordBypass | server/routes/auth.ts:31-34 | As written, "demo123" logs in to every account under its own email and role, whatever the stored hash and whatever bcrypt says. |
| AuthRoutes.LoginIntended | server/routes/auth.ts:9-61 | The login route with the literal removed: 200 exactly when the first matching account's hash matches the password by bcrypt, answered with that account's token and public fields. It keeps the same 400, 401 and 500 cases. |
| AuthRoutes.IntendedLoginRefusesDemoPassword | server/routes/auth.ts:31-34 | Without the literal, "demo123" is refused (401) for every account whose hash it does not match. |
| AuthRoutes.PublicUserIgnoresHash | server/routes/auth.ts:44-55 | The user sent back carries no password material: two rows that differ only in hash give the same user. It carries the row's id and role. |
| AuthRoutes.Register | server/routes/auth.ts:64-102 | 400 unless all five fields are truthy; 500 on a database failure; 409 when the email is taken under any role. Otherwise 201 with exactly one appended user row under a fresh id, with the hashed password. Any other answer leaves the database unchanged, and the unique keys are kept. |
| AuthRoutes.JwtSecret | server/routes/auth.ts:114 | The signing secret is the environment's when it is truthy, else the built-in default, so it is never empty. |
| AuthRoutes.HeaderToken | server/routes/auth.ts:106 | The token is present exactly when the header contains a space, and it never contains a space. |
| AuthRoutes.SchemeWordIgnored | server/routes/auth.ts:106 | Any space-free first word works as the scheme: "<anything> <token>" yields the token, and text after a further space is ignored. |
| AuthRoutes.Verify | server/routes/auth.ts:105-124 | No token gives 401 "No token provided". A token the verifier rejects gives 401 "Invalid token". Otherwise 200 with the decoded claims. No other status occurs. |
| StudentRoutes.EnrollIn | server/routes/student.ts:124-150 | 409 and no change when the student already has an enrolment row for the course, in any status. Otherwise exactly one active enrolment row is appended. Afterwards the student is always enrolled unless the database failed. |
| StudentRoutes.EnrollTwiceRefused | server/routes/student.ts:129-137 | Enrolling twice in a row: the second attempt is answered 409 and changes nothing. |
| StudentRoutes.Upsert | server/routes/student.ts:203-213 | The upsert keyed on assignment and student. The first row holding the key gets the new text and file path and keeps its id, grade and feedback; when no row holds the key, one row is appended. Rows for other keys are untouched, and the unique key and id discipline are preserved. |
| StudentRoutes.UpsertLeavesOneRow | server/routes/student.ts:203-213 | Under the unique key, after a submission exactly one row holds the key, and it carries the submitted text and file path. |
| StudentRoutes.Submit | server/routes/student.ts:184-221 | 404 and no change unless the assignment exists and the student has an enrolment row in its course. Otherwise the upsert runs with falsy text or path stored as NULL. |
| StudentRoutes.MaterialsFilter | server/routes/student.ts:226-234 | The course filter applies exactly when the query parameter is truthy, and it compares against the parameter's numeric value. |
| StudentRoutes.VisibleMaterials | server/routes/student.ts:224-258 | A material is listed exactly when its course exists, the student is actively enrolled in that course, and the course filter, if given, matches. |
| StudentRoutes.FalsyCourseParamIsNoFilter | server/routes/student.ts:231-234 | An empty `courseId` parameter lists the same materials as no parameter. |
| StudentRoutes.NewestFor | server/routes/student.ts:294-312 | The list holds only the student's own notifications, and its length is the smaller of 25 and the number they have. |
| StudentRoutes.NewestForIsNewestFirst | server/routes/student.ts:298-304 | The listing is exactly the user's notifications read newest first and cut at the limit, so no row is repeated or skipped. |
| StudentRoutes.NotificationsCapped | server/routes/student.ts:298-304 | A student with at least 25 notifications gets their 25 newest; one with fewer gets all of them, newest first. |
| StudentRoutes.MarkRows | server/routes/student.ts:321-326 | The row with that id and that owner is now read and otherwise unchanged; every other row is unchanged, and no id changes. |
| StudentRoutes.MarkRead | server/routes/student.ts:314-338 | 200 exactly when the database works and some notification has that id and belongs to the caller; otherwise 404 (or 500), so another user's notification is never touched. A 200 means the caller's row is now read. |
| StudentRoutes.Handle | server/routes/student.ts:124-338 | Every student handler keeps the database's unique keys, and the list handlers change nothing. |
| StudentRoutes.Route | server/routes/student.ts:12-13 | A failed authentication is answered by the guard with no change. When authentication and the "student" role check both pass, the request is handled as the token's user; otherwise nothing changes. The unique keys are kept. |
| FacultyRoutes.OrDefault | server/routes/faculty.ts:99 | The numeric default: an absent value or 0 takes the default, and any other value is kept. |
| FacultyRoutes.NewCourse | server/routes/faculty.ts:91-114 | 409 when the course code is already used; otherwise 201 with one appended course owned by the caller. Credits default to 3 and capacity to 100. Any other answer leaves the database unchanged. |
| FacultyRoutes.ActiveStudents | server/routes/faculty.ts:131-140 | A student is listed exactly when some active enrolment row links them to the course; there are never more entries than rows. |
| FacultyRoutes.ActiveStudentsProjection | server/routes/faculty.ts:131-140 | The list is the student-id column of the active enrolment rows, position by position: one entry per row, so a student enrolled twice is listed twice. |
| FacultyRoutes.Detail | server/routes/faculty.ts:117-150 | 404 unless the caller owns a course with that id; otherwise that course and its actively enrolled students. |
| FacultyRoutes.GradeRows | server/routes/faculty.ts:186-191 | The submission with that id gets the given grade and feedback and status "graded", with its other fields kept; every other row is unchanged, and no id changes. |
| FacultyRoutes.Grade | server/routes/faculty.ts:181-219 | The submission with that id is graded, and its student gets one "Assignment Graded" notification. An unknown id changes nothing and still reports success. |
| FacultyRoutes.GradeIgnoresOwnership | server/routes/faculty.ts:181-219 | A faculty member who owns no course can still grade any submission: the route has no ownership check. |
| FacultyRoutes.Upload | server/routes/faculty.ts:222-252 | 403 and no insert unless the caller owns the course; otherwise 201 with one appended material uploaded by the caller. |
| FacultyRoutes.NotifyAll | server/routes/faculty.ts:276-293 | The bulk insert: exactly one notification per recipient, appended in order, with existing rows kept. |
| FacultyRoutes.Announcement | server/routes/faculty.ts:255-302 | The corrected route, with the bulk insert working as intended. 403 and nothing inserted unless the caller owns the course. Otherwise the existing notifications are kept and one announcement per active enrolment row is appended, carrying the message and course id; the reply states that count in decimal. |
| FacultyRoutes.AnnouncementToEmptyCourse | server/routes/faculty.ts:285-297 | An owned course with no active students: success, "sent to 0 students", and the database unchanged. |
| FacultyRoutes.AnnouncementPerEnrolmentRow | server/routes/faculty.ts:270-291 | On an owned course the announcement succeeds and appends exactly one notification per active enrolment row, addressed to that row's student, in table order. |
| FacultyRoutes.AnnouncementAsWritten | server/routes/faculty.ts:255-302 | The route with its `VALUES ?` insert going through a prepared statement: 200 only for an owned course with no active students, 403 for an unowned course, 500 otherwise, and the database never changes. |
| FacultyRoutes.AnnouncementAsWrittenFailsWithStudents | server/routes/faculty.ts:286-291 | As written, an owned course with an active student gets 500 and no notification, where the intended route answers 200 and inserts notifications. |
| FacultyRoutes.Handle | server/routes/faculty.ts:91-302 | Every faculty handler keeps the unique keys, and course detail changes nothing. Announcements go to the corrected `Announcement`. |
| FacultyRoutes.Route | server/routes/faculty.ts:8-9 | When authentication and the "faculty" role check both pass, the request is handled as the token's user; otherwise the database does not change. |
| AdminRoutes.StatsOf | server/routes/admin.ts:12-39 | The figures are consistent: students plus faculty never exceed the number of users, and papers saved is always 45200. |
| AdminRoutes.NewUser | server/routes/admin.ts:98-127 | A role other than student or faculty is 400 before anything else. A created user is never an admin. A duplicate email is 409, and any non-201 answer changes nothing. |
| AdminRoutes.Delete | server/routes/admin.ts:130-141 | Only users are affected: surviving rows are original rows, and every row that is not the target or is an admin survives. |
| AdminRoutes.DeleteSparesAdmins | server/routes/admin.ts:134 | Admin accounts are never deleted; deleting an id no row has still answers 200 and changes nothing. |
| AdminRoutes.Handle | server/routes/admin.ts:12-141 | Every admin handler keeps the unique keys, and statistics change nothing. |
| AdminRoutes.Route | server/routes/admin.ts:8-9 | When authentication and the "admin" role check both pass, the request is handled; otherwise the database does not change. |
| Http.Admit | server/routes/student.ts:12-13 | The caller is admitted exactly when authentication succeeds and the role check raises no objection. A refusal is the guard's own response. |
| Http.OrNull | server/routes/student.ts:212 | A falsy string becomes NULL and a truthy one is kept. |
| ClientApi.ApiBaseUrl | client/lib/api.ts:18-20 | Never empty. A configured URL is used with one trailing slash dropped; an empty or lone-slash setting falls back to the default. |
| ClientApi.Bootstrap | client/lib/api.ts:37-45 | A truthy stored token sets the header to "Bearer <token>"; nothing else changes. |
| ClientApi.LoadSetsHeaderIffToken | client/lib/api.ts:31-45 | At load the header is set exactly when a window exists and a truthy token is stored. The session starts in sync unless the stored token is empty. |
| ClientApi.EmptyStoredTokenStartsOutOfSync | client/lib/api.ts:37-52 | An empty stored token sets no header at load, so header and storage disagree; `setAuthToken("")` followed by a reload reaches that state. |
| ClientApi.SetAuthToken | client/lib/api.ts:47-52 | Stores the token, sets the matching header and signals one auth change. The stored user is untouched, and the header stays in sync. |
| ClientApi.PersistAuthUser | client/lib/api.ts:62-69 | Writes or removes only the "user" entry, leaving the token, header and events alone. |
| ClientApi.ClearAuthToken | client/lib/api.ts:54-60 | Removes the token and user, drops the header and signals one auth change. |
| ClientApi.ClearTwiceSameState | client/lib/api.ts:54-60 | Clearing twice leaves the same storage and header as clearing once; only the event count differs. |
| ClientApi.SetThenClearLeavesNoSession | client/lib/api.ts:47-60 | Setting a token and then clearing it leaves no token, no user and no header. |
| ClientApi.NoWindowNoOps | client/lib/api.ts:26-69 | Without a window, every session operation changes nothing. |
| ClientApi.Emit | client/lib/api.ts:26-29 | One auth-change event is counted when a window exists and none otherwise; storage, header and redirect are untouched. |
| ClientApi.Intercept | client/lib/api.ts:71-82 | Successes pass through. Every error is re-rejected unchanged. Only a 401 clears the session and redirects to /login, and the header stays in sync. |
| UseApi.QueryConfig | client/hooks/use-api.ts:30-41 | Retry defaults to 1 and staleness to 30 seconds; every caller option, even an explicit undefined, overrides them. `key` and `fn` become `queryKey` and `queryFn`. |
| UseApi.CallerOverridesQueryDefaults | client/hooks/use-api.ts:35-41 | A caller's `retry` or `staleTime` always wins over the default. |
| UseApi.MutationConfig | client/hooks/use-api.ts:43-50 | `fn` becomes `mutationFn`, and all other options are passed through. |
| UseApi.FirstPresent | client/hooks/use-api.ts:54-59 | The `??` chain: the first candidate that is present, otherwise the fallback. |
| UseApi.ExtractApiError | client/hooks/use-api.ts:52-60 | No error gives the generic message. Otherwise the first present value of server error, server message and client message, else "Unable to complete the request." |
| UseApi.EmptyErrorFieldIsReturned | client/hooks/use-api.ts:55 | An empty server `error` is returned as the message: `??` skips only absent values. |
| UseApi.ServerErrorWins | client/hooks/use-api.ts:55 | A server `error` field always decides the message. |
| Layout.ReadUser | client/components/Layout.tsx:14-23 | Null without a window or without a truthy stored user; otherwise whatever parsing gives, with a parse failure read as null. |
| Layout.ReadUserAfterStoreOps | client/components/Layout.tsx:14-23 | Reading back a persisted user gives that user. After removing it or clearing the session it gives null, and setting a token leaves it as it was. |
| Layout.Mount | client/components/Layout.tsx:24-26 | The frame starts on the given path, and it shows a user only when a window exists and a non-empty "user" entry is stored. |
| Layout.MountShowsPersistedUser | client/components/Layout.tsx:14-26 | A frame mounted after a user was persisted shows that user; one mounted after the session was cleared shows nobody. |
| Layout.Resync | client/components/Layout.tsx:28-39 | An event re-reads the user and keeps the path. |
| Layout.ResyncDependsOnStorageOnly | client/components/Layout.tsx:28-39 | After an event, two frames on the same storage agree on the user, whatever each held before. |
| Layout.CrossTabSignOut | client/components/Layout.tsx:28-39 | When one tab clears the session, the other tab's next storage event leaves its frame unauthenticated. That tab keeps its old Authorization header, which no longer matches storage. |
| Layout.CrossTabSignInKeepsOldToken | client/components/Layout.tsx:28-39 | When one tab signs in with a new token and user, the other tab's frame shows the new user after its next storage event, but its requests still carry the previous token. |
| Layout.UnauthorizedEndsSession | client/lib/api.ts:71-82 | After a 401 on any call, the caller still sees the error, the client is sent to /login, and reading storage finds no user, so the frame is unauthenticated. |
| Layout.SignOut | client/components/Layout.tsx:41-45 | Sign-out clears the session and drops the user, and the frame lands on /login with no token, user or header left. |
| Layout.Render | client/components/Layout.tsx:47-53 | Only the login page renders the bare outlet; every other path is framed. |
| Layout.VisibilityRules | client/components/Layout.tsx:47-126 | Away from /login, on a path containing "/dashboard": Sign Out shows exactly when a user is held, and Home/Sign In and the footer are hidden. Elsewhere Home/Sign In and the footer show and Sign Out does not. The mobile control is Sign Out or Sign In, never both. |
| Layout.SignOutShowsLoginPage | client/components/Layout.tsx:41-53 | Right after sign-out the frame shows only the login page. |
| LoginPage.SelectRole | client/pages/Login.tsx:24-27 | Choosing a role clears any error and changes nothing else. |
| LoginPage.Submit | client/pages/Login.tsx:29-57 | No role gives "Please select your role" whatever the credentials; an empty email or password gives "Please enter your credentials". A navigation is scheduled exactly when both checks pass, and a refused submit changes only the error. |
| LoginPage.RoleCheckedFirst | client/pages/Login.tsx:32-35 | Without a role the role error wins and nothing starts loading. |
| LoginPage.TimerFires | client/pages/Login.tsx:46-56 | When the timer fires, loading ends and the page navigates to the dashboard of the role captured at submit. |
| LoginPage.ValidSubmitNavigates | client/pages/Login.tsx:42-56 | A valid submit sets loading; its timer then ends loading on the chosen role's dashboard. |
| LoginPage.DashboardPathsAreDashboards | client/pages/Login.tsx:49-55 | The three dashboards are distinct, none is /login, and each contains "/dashboard", so the frame treats it as a dashboard. |
| SharedApi.ParseRole | shared/api.ts:1 | Reading a role name gives back the role that has that name, and anything other than the three names is not a role. |
| SharedApi.RoleNameRoundTrip | shared/api.ts:1 | Role names are distinct and read back to their role. |
| Text.Split | server/routes/auth.ts:106 | `split(' ')`: splits at every separator; joining the fields back gives the input. |
| Text.IncludesIffOccurs | client/components/Layout.tsx:48 | `includes` holds exactly when the text occurs at some position. |
| Text.ParseDecimal | server/routes/student.ts:233 | `Number(...)` of a digit string gives a value exactly when the string is non-empty and all digits. |
| Text.ParseRendersBack | server/routes/faculty.ts:294 | A count rendered in decimal parses back to the same number. |
| Tables.Insert | server/routes/auth.ts:86-95 | An insert appends one row under a fresh auto-increment id and keeps the others. |

## Left out

- Read-only list and statistics queries that only join and sort are not modelled. This covers the student and faculty stats, course lists, assignments, schedule, faculty submissions, and admin students, faculty and activities. They change nothing, and their content is SQL projection.
- The `catch` branches are folded into the `fault` flag: a database error on the first statement. A failure part-way through a multi-statement handler is not modelled. An example is the grade update followed by the notification insert.
- A request body field that is absent (`undefined`) is folded into `fault`, because the database driver rejects undefined bind values. `None` in a field means JSON null.
- MySQL's case-insensitive collation and trailing-space rules for string comparison are not modelled; email, role and code comparisons are exact.
- The `authenticateToken`/`authorizeRoles` middleware, `generateToken`, `jwt.verify`, bcrypt and the JSON codec are not part of this model; they are parameters.
- Token expiry and the signing algorithm live inside `jwt.verify`, a parameter.
- Timers: the login page's 800 ms delay is a queue of pending navigations, without time.
- React rendering, styling and icons are not modelled. The view is reduced to which controls and regions are shown.
- Cascading deletes of rows that reference a deleted user are not modelled; the schema is not part of this model.
- Course `status` is not a column of the model, so the active-course count is a parameter of the statistics handler.
- AdminRoutes.StatsOf: states that students plus faculty is at most the user count and that the papers figure is 45200. It does not give each count as a closed formula.
- StudentRoutes.VisibleMaterials: the listing is in table order, not `ORDER BY uploaded_at DESC`. A material appears once even when the student has several active enrolment rows for its course, where the join would repeat it.
- FacultyRoutes.Upload: an absent body field is folded into `fault`, so such a request answers 500 even for a course the caller does not own, where the route answers 403 because the ownership query runs first.
- StudentRoutes.NewestFor: `ORDER BY created_at DESC` is taken as reverse table order, assuming rows are inserted in creation order. Ties in `created_at` are not modelled. The function's own contract states membership and length; the order and contents are proved by `StudentRoutes.NewestForIsNewestFirst`.
- FacultyRoutes.Handle: an announcement is dispatched to the corrected `Announcement`, not to the route as written (`AnnouncementAsWritten`, which answers 500 whenever the course has an active student; see "## Findings"). So the faculty router's contracts describe the intended announcement.
- FacultyRoutes.Detail: enrolled students are given as student ids in table order, not as joined user rows sorted by last and first name.
- FacultyRoutes.Grade: the grade is kept as the text that is rendered into the notification, not as a number.
- Text.ParseDecimal: `Number(...)` is narrowed to plain decimal digit strings. Signs, whitespace, exponents and fractions are treated as no number, which matches no row.
- SharedApi.ParseRole: the user object's `role` stays a string in the model, because the login route echoes the stored column unchecked.
- LoginPage.TimerFires: the page maps "admin" and "faculty" to their dashboards and sends everything else to the student dashboard. The model builds the path as "/" + role name + "/dashboard", and over the three-value role type the else-branch is the student case.

## Findings

| source | as written | input that shows it | evidently intended | confidence | as-written member | corrected member |
|---|---|---|---|---|---|---|
| server/routes/auth.ts:31-34 | the password check accepts the literal "demo123" for every account, before and regardless of the bcrypt comparison | `POST /auth/login` with any registered email and role and password "demo123" answers 200 with a token for that account | only a bcrypt match against the stored hash admits a login | high, not executed | AuthRoutes.DemoPasswordBypass | AuthRoutes.IntendedLoginRefusesDemoPassword |
| server/routes/faculty.ts:286-291 | the bulk insert passes an array of rows for the single placeholder in `VALUES ?`, and `query` sends it through `pool.execute`, a prepared statement, which cannot expand a placeholder into a row list (config/database.ts:33-35) | `POST /faculty/announcements` for an owned course with one active enrolment answers 500 "Failed to send announcement" and inserts nothing | one notification per active student is inserted and the reply is 200 with that count | medium, not executed | FacultyRoutes.AnnouncementAsWrittenFailsWithStudents | FacultyRoutes.AnnouncementPerEnrolmentRow |
