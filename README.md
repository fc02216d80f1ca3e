# TaskFlow in Dafny

A Dafny model of TaskFlow, a small task-management application. It has an Express/MongoDB REST backend and a React client. The model covers:

- **The backend's owner-scoped task pipeline.**
  - The task schema: constraints, defaults and timestamps.
  - The task controller: create, get, allow-listed update, delete, and the list query with its filter and sort.
  - The `protect` authorization gate.
  - The account handlers: register, login and the current user.
- **The client helpers that feed the backend.**
  - The HTTP client's base URL and `Authorization` header.
  - The session state.
  - The dashboard's query parameters, toggle and page state.
  - The task form.
  - The task card's overdue and label logic.
  - The filter panel.
- **The serverless entry point's decisions:** CORS, connection reuse and health.

Each component is one module:

| file | module | models |
|---|---|---|
| `wrappers.dfy` | `Wrappers` | `Option` and `Result` |
| `strings.dfy` | `Strings` | the JavaScript string operations used: `trim`, `startsWith`, `split`, ASCII case folding, substring search |
| `http.dfy` | `Http` | JSON bodies (`map<string, Value>`, `Value = Str \| Null`), JavaScript truthiness, handler errors |
| `users.dfy` | `Users` | user records, the password-free projections, `findById` and `findOne({ email })` |
| `task_schema.dfy` | `TaskSchema` | `backend/models/Task.js` as a validity predicate, per-field casts, a default-filler for creation and a patch for updates |
| `task_query.dfy` | `TaskQuery` | the query `getTasks` builds, its match predicate, and the sort order with its id tie-break |
| `task_store.dfy` | `TaskStore` | `taskController.js`: the `Store` class over `map<TaskId, Task>` with the five handlers |
| `auth_gate.dfy` | `AuthGate` | `protect`: bearer extraction, the three-way 401 classification, and the assignment to `req.user` |
| `credentials.dfy` | `Credentials` | `authController.js` over the `UserTable` class |
| `api_client.dfy` | `ApiClient` | `getBaseURL` and the request interceptor |
| `auth_context.dfy` | `AuthSession` | `AuthProvider`'s session state machine |
| `dashboard.dfy` | `Dashboard` | the `params` projection, the status toggle and the page's handlers |
| `task_form.dfy` | `TaskForm` | the form mapping, the submit payload, and the form and submitting state |
| `task_card.dfy` | `TaskCard` | the overdue predicate and the toggle label |
| `task_filters.dfy` | `TaskFilters` | the filter panel's state |
| `server_entry.dfy` | `ServerEntry` | `api/index.js`: allowed origins, the origin callback, `connectMongo`, health |
| `pipeline.dfy` | `Pipeline` | properties of client and server together |

### Parameters and modelling conventions

Foreign code becomes a function-typed parameter. This covers:

- `new Date(s)`: `DateParser = string -> Option<int>`, where `None` is an invalid date;
- `toISOString` and the date-fns `format`;
- `jwt.verify` (returns `Option<UserId>`; `None` stands for any throw);
- `generateToken`;
- the password hash and `matchPassword`.

The clock is a `now: int` parameter. Network responses are `Result`/`Option` values, and `window.confirm` is a `bool`. Dates are integer timestamps.

A handler's `res.status(n); throw new Error(msg)` is `Failure(Http(n, msg))`. A mongoose validation or cast failure is `Failure(SchemaViolation(path))`. Its HTTP status belongs to the error middleware, which is not part of this model.

Task ids are `nat`. Users are kept in a `seq<UserRecord>` whose positions are their ids: no handler removes a user.

### Choices where the code decides

- **Validation before lookup.** Update casts and validates the sanitized `$set` before the id-and-owner lookup. An invalid value sent for a missing task is therefore the schema error, not 404. This matches mongoose, which casts the update before it runs the query.
- **`updatedAt` on every update.** The timestamps option adds `updatedAt` to every `findOneAndUpdate`. A successful update therefore sets it to `now`, even when the sanitized `$set` is empty.
- **Absent due dates sort lowest.** When sorting by `dueDate`, a task with no date sorts below every dated task, which is MongoDB's order. Equal keys fall back to `_id` descending.

## Model

| member | source | states |
|---|---|---|
| TaskSchema.CastTitle | backend/models/Task.js:10-15 | a title is accepted iff it is a string whose trimmed text is non-empty and at most 140 UTF-16 code units long (JavaScript's `length`, so an astral character counts twice); the stored title is the trimmed text, which is then a valid title; otherwise the error names `title` |
| TaskSchema.CastDescription | backend/models/Task.js:16-20 | a description is accepted iff it is `null` or its trimmed text is at most 1000 UTF-16 code units long; `null` leaves it unset, a string is stored trimmed |
| TaskSchema.CastStatus | backend/models/Task.js:21-25 | a status is accepted iff it is `pending` or `completed`, and the stored status has that name |
| TaskSchema.CastPriority | backend/models/Task.js:26-30 | a priority is accepted iff it is `low`, `medium` or `high`, and the stored priority has that name |
| TaskSchema.ParseStatus | backend/models/Task.js:21-25 | the status enumeration check: a parsed status has the given name, and a rejected name belongs to no status |
| TaskSchema.ParsePriority | backend/models/Task.js:26-30 | the priority enumeration check, in both directions |
| TaskSchema.CastStatusOfName | backend/models/Task.js:21-25 | the status cast inverts the status name (round trip) |
| TaskSchema.CastPriorityOfName | backend/models/Task.js:26-30 | the priority cast inverts the priority name (round trip) |
| TaskSchema.CastTitleOfValid | backend/models/Task.js:10-15 | a title already stored passes the title cast unchanged |
| TaskSchema.CastDescriptionOfValid | backend/models/Task.js:16-20 | a stored description sent back as text passes the description cast unchanged |
| TaskSchema.CastDueDate | backend/controllers/taskController.js:56 | a truthy due date is parsed and is rejected iff invalid; a falsy one (`""`, `null`) gives no date |
| TaskSchema.NewTask | backend/models/Task.js:5-36 | creation succeeds exactly when the title, the description, a given status, a given priority and the due date each pass their cast, and a failure is a schema error naming a task field; a created task is valid, has the given id and owner, both timestamps `now`, the trimmed title and the cast description; a given status or priority is the cast one, an omitted status is pending and an omitted priority medium; a falsy due date is absent and a truthy one the parsed date; a whitespace-only title is rejected even though it passes the controller's truthiness check |
| TaskSchema.CreateWithTitleOnly | backend/models/Task.js:21-33 | a body holding only a valid title creates the task with that title, no description, pending, medium and no due date |
| TaskSchema.CastUpdates | backend/controllers/taskController.js:84-91 | the update validators: the update succeeds exactly when every present field passes its cast (a truthy unparseable `dueDate` fails), and a failure is a schema error naming a task field; the patch sets a field iff the sanitized body has its key, and then to the cast value: the trimmed title, the cast description, the named status and priority, the parsed date, or no date for a falsy `dueDate`; the patch keeps the schema's constraints |
| TaskSchema.CastKey | backend/controllers/taskController.js:84-91 | one key of `$set`: an absent key leaves its field alone and succeeds; a present key succeeds iff its value casts, setting the field to the cast value, and otherwise fails with the cast's error |
| TaskSchema.ApplyPatch | backend/controllers/taskController.js:88-92 | `$set` changes exactly the patched fields, keeps id, owner and `createdAt`, refreshes `updatedAt`, and keeps a valid task valid |
| TaskSchema.Valid | backend/models/Task.js:5-36 | the schema invariant of a stored task: a non-empty trimmed title of at most 140 and a trimmed description of at most 1000 UTF-16 units, so also at most that many characters |
| TaskQuery.ParsedBound | backend/controllers/taskController.js:16-25 | a date bound is kept iff the parameter is non-empty and parses, and is then the parsed date |
| TaskQuery.Matches | backend/controllers/taskController.js:6-29 | `Task.find(query)`'s test: only the owner's tasks match, and a query with no status, priority, date or title condition matches every one of them |
| TaskQuery.BuildQuery | backend/controllers/taskController.js:4-33 | a task matches the built query iff it belongs to the owner and meets each non-empty status, priority and title condition and each parseable date bound; sorting is by due date iff `sortBy` is exactly `dueDate`, ascending iff `sortOrder` is exactly `asc` |
| TaskQuery.UnparseableBoundIgnored | backend/controllers/taskController.js:16-25 | an unparseable `dueFrom` builds the same query as none; it is ignored, not rejected |
| TaskQuery.TitleSearchIgnoresCase | backend/controllers/taskController.js:27-29 | the title search folds ASCII case: upper-casing a title never changes whether it matches |
| TaskQuery.BeforeIsStrictTotalOrder | backend/controllers/taskController.js:31-36 | the sort with its `_id` tie-break is irreflexive, asymmetric, transitive, and total on tasks with distinct ids |
| TaskQuery.SortKey | backend/controllers/taskController.js:31-36 | the key of the sort: only the due-date sort meets a missing key, on tasks without a due date |
| TaskQuery.Before | backend/controllers/taskController.js:35-36 | the listing order: when the keys differ, a task precedes another iff its key is lower under `asc` and higher otherwise, a missing date being lowest; with equal keys only a higher id comes first |
| TaskQuery.TieBrokenByIdDescending | backend/controllers/taskController.js:36 | tasks with equal sort keys are listed by id, highest first |
| TaskQuery.Insert | backend/controllers/taskController.js:35-37 | inserting one task adds exactly that task to the listing (multiset and membership) |
| TaskQuery.InsertSorted | backend/controllers/taskController.js:35-37 | inserting a task with a new id into a sorted listing keeps it sorted |
| TaskStore.Sanitized | backend/controllers/taskController.js:75-82 | the sanitized body holds exactly the submitted keys that are allow-listed, with their submitted values |
| TaskStore.Sanitize | backend/controllers/taskController.js:76-82 | the `forEach` copy loop computes exactly `Sanitized` |
| TaskStore.ExtraKeysIgnored | backend/controllers/taskController.js:75-82 | keys outside the allow-list make no difference to what an update sets |
| TaskStore.UpdateWithoutAllowedKeys | backend/controllers/taskController.js:75-92 | an update with no allow-listed key casts to the empty patch and changes nothing but `updatedAt` |
| TaskStore.UpdateStatusOnly | backend/controllers/taskController.js:75-92 | an update that sets only a valid status changes only the status and `updatedAt` |
| TaskStore.UpdateTitleOnly | backend/controllers/taskController.js:75-92 | an update that sets only a valid title stores the trimmed title and changes nothing else but `updatedAt` |
| TaskStore.Store.Create | backend/controllers/taskController.js:42-60 | a falsy title fails with 400 and leaves the store unchanged; otherwise the outcome is the schema's, and on success exactly one task owned by the caller is added under the next id, which was unused, and the next id advances by one; on failure nothing changes; the store stays valid |
| TaskStore.Store.File | backend/controllers/taskController.js:50-57 | the insert of `Task.create`: a valid task carrying the next id is filed under that unused id, the next id advances by one, and the store stays valid |
| TaskStore.Store.GetById | backend/controllers/taskController.js:62-71 | found iff the id exists and belongs to the caller, otherwise 404 |
| TaskStore.Store.Update | backend/controllers/taskController.js:73-100 | a cast failure leaves every task unchanged; an id that is missing or owned by another user gives 404 and leaves every task unchanged; otherwise exactly that task becomes the patched task |
| TaskStore.Store.Delete | backend/controllers/taskController.js:102-111 | an owned task is removed, and only that task; otherwise 404 and nothing changes |
| TaskStore.Store.List | backend/controllers/taskController.js:3-40 | the listing holds exactly the stored tasks the request selects, each once and all owned by the caller, in sorted order |
| AuthGate.ExtractToken | backend/middleware/authMiddleware.js:7-10 | a token is found iff the header starts with exactly `Bearer ` and a non-space character follows; it is the run of non-space characters after the prefix |
| Users.FindById | backend/middleware/authMiddleware.js:19 | `User.findById` finds a user iff the id is a position of the table, and then the user stored there |
| Users.WithoutPassword | backend/middleware/authMiddleware.js:19 | `select('-password')` keeps the id, name, email and creation time and drops the password |
| Users.Profile | backend/controllers/authController.js:22-28 | the `user` object register and login send: id, name and email, without `createdAt` |
| AuthGate.Authenticate | backend/middleware/authMiddleware.js:4-31 | no token gives "token missing" whatever the verifier and the table; a token that fails to verify gives "invalid token"; a verified id naming no user gives "user not found"; otherwise the user without a password, and in a table filed by id it is the user with the verified id; every failure is a 401 |
| AuthGate.Protect | backend/middleware/authMiddleware.js:4-31 | on success `req.user` is set and `next()` is called with no error; on failure the status is 401 and `next` receives the error; `req.user` is assigned `null` only when the user is not found |
| Credentials.Login | backend/controllers/authController.js:32-57 | a falsy email or password gives 400; success iff the first user with that email has a matching password, returning 200 with that user's profile and a token for its id; every other failure is the same 401 |
| Credentials.LoginHidesWhichCredentialFailed | backend/controllers/authController.js:40-45 | an unknown email and a wrong password give the identical failure |
| Credentials.CurrentUser | backend/controllers/authController.js:59-68 | the profile of the attached user, including `createdAt`, with no lookup |
| Credentials.UserTable.Register | backend/controllers/authController.js:4-30 | falsy fields give 400 and a taken email 409, each with the table unchanged; otherwise exactly one user is appended under the next id and the response is 201 with the password-free profile and a token for that id; the unique-email invariant is kept |
| Credentials.LoginAfterRegister | backend/controllers/authController.js:19-56 | given a password check that accepts a stored password's own plaintext, logging in with the credentials just registered succeeds for the new user |
| ApiClient.BaseUrl | frontend/src/utils/apiClient.js:4-11 | a non-empty `VITE_API_URL` always wins; otherwise `/api` in production and the local server in development |
| ApiClient.AuthorizationValue | frontend/src/utils/apiClient.js:21 | the header is the `Bearer ` prefix followed by the token |
| ApiClient.HeaderRoundTrip | frontend/src/utils/apiClient.js:21 | for a non-empty token without spaces, the gate's parser reads back exactly the token the client sent |
| ApiClient.Intercept | frontend/src/utils/apiClient.js:18-24 | `Authorization` is set iff a non-empty token is stored; otherwise the headers are untouched |
| AuthSession.Session.FetchUser | frontend/src/context/AuthContext.jsx:15-34 | with no stored token nothing is requested; a profile signs the user in, so the session is authenticated; a failure removes the token and leaves `isAuthenticated` as it was; loading ends in every case |
| AuthSession.Session.Login | frontend/src/context/AuthContext.jsx:36-46 | success stores the token and the user and makes the session authenticated; failure changes neither and is rethrown |
| AuthSession.Session.Register | frontend/src/context/AuthContext.jsx:48-58 | success stores the token and the user and makes the session authenticated; failure changes neither and is rethrown |
| AuthSession.Session.Logout | frontend/src/context/AuthContext.jsx:60-64 | the token is removed, the user cleared, and the session is no longer authenticated |
| AuthSession.Session.IsAuthenticated | frontend/src/context/AuthContext.jsx:74 | `isAuthenticated` is `Boolean(user)`: a successful login, register or `/auth/me` sets it, logout clears it, a failed `/auth/me` leaves it as it was, and a stored token alone never sets it (a fresh session is not authenticated) |
| Dashboard.NonEmptyEntries | frontend/src/pages/DashboardPage.jsx:28-36 | the parameters are exactly the filters with a non-empty value, each with its value |
| Dashboard.BuildParams | frontend/src/pages/DashboardPage.jsx:28-36 | the `forEach` loop computes exactly `NonEmptyEntries` |
| Dashboard.DefaultParams | frontend/src/pages/DashboardPage.jsx:11-36 | the default filters send only `sortBy=createdAt` and `sortOrder=desc` |
| Dashboard.ToggledStatus | frontend/src/pages/DashboardPage.jsx:96 | the toggle gives `pending` iff the status was `completed`, and always one of the two |
| Dashboard.ToggleInvolution | frontend/src/pages/DashboardPage.jsx:96 | toggling twice gives back either valid status, and toggling once always changes it |
| Dashboard.ToggleBody | frontend/src/pages/DashboardPage.jsx:95-97 | the toggle request holds only a status, a valid one, different from the task's current status |
| Dashboard.Page.HandleCreate | frontend/src/pages/DashboardPage.jsx:55-64 | success bumps `refreshIndex` by one; failure leaves it and is rethrown |
| Dashboard.Page.HandleUpdate | frontend/src/pages/DashboardPage.jsx:66-76 | the request targets the edited task; success clears `editingTask` and bumps `refreshIndex`; failure keeps both and is rethrown |
| Dashboard.Page.HandleDelete | frontend/src/pages/DashboardPage.jsx:78-91 | an unconfirmed delete requests nothing and changes nothing; a confirmed success bumps `refreshIndex` |
| Dashboard.Page.HandleToggle | frontend/src/pages/DashboardPage.jsx:93-103 | the toggle body is sent; success bumps `refreshIndex` |
| Dashboard.Page.FinishFetch | frontend/src/pages/DashboardPage.jsx:38-49 | a response replaces the listing, a failure keeps it; loading ends either way |
| Dashboard.Page.BeginFetch | frontend/src/pages/DashboardPage.jsx:38-39 | `fetchTasks` starting: loading is set and the rest of the page state is unchanged |
| Dashboard.Page.StartEditing | frontend/src/pages/DashboardPage.jsx:122 | the card's edit button makes the given task the one being edited, changing nothing else |
| Dashboard.Page.StopEditing | frontend/src/pages/DashboardPage.jsx:159 | the form's cancel button (and the empty state's create button) clears the task being edited, changing nothing else |
| Dashboard.Page.SetFilters | frontend/src/pages/DashboardPage.jsx:113 | the filter panel's `onChange` replaces the filters, changing nothing else |
| TaskForm.FormFrom | frontend/src/components/TaskForm.jsx:17-24 | the edit form copies title, status and priority; an unset description becomes `""`; the due date becomes its day, or `""` without one |
| TaskForm.Payload | frontend/src/components/TaskForm.jsx:39-42 | the payload is the form except `dueDate`, which is `null` iff empty and otherwise the ISO form of the parsed date; an invalid date throws before anything is sent |
| TaskForm.FormState.SyncInitial | frontend/src/components/TaskForm.jsx:16-28 | the task's form when editing, the defaults otherwise |
| TaskForm.FormState.HandleChange | frontend/src/components/TaskForm.jsx:30-33 | only the named field changes |
| TaskForm.FormState.BeginSubmit | frontend/src/components/TaskForm.jsx:35-42 | `submitting` is set while the request is out, and cleared at once if building the payload throws |
| TaskForm.FormState.FinishSubmit | frontend/src/components/TaskForm.jsx:43-50 | the form resets only after a success in create mode; `submitting` ends on success and on failure |
| TaskCard.OverdueIsMonotone | frontend/src/components/TaskCard.jsx:17-18 | an overdue task stays overdue as time passes |
| TaskCard.IsOverdue | frontend/src/components/TaskCard.jsx:18 | the overdue highlight; `OverdueWhenPastDue`, `NotOverdue` and `OverdueIsMonotone` together pin it down |
| TaskCard.OverdueWhenPastDue | frontend/src/components/TaskCard.jsx:17-18 | the highlight is on for every pending task whose due date is strictly before now; with `NotOverdue`, exactly those tasks are highlighted |
| TaskCard.NotOverdue | frontend/src/components/TaskCard.jsx:17-18 | a task with no due date, a completed task, or one whose due date is now or later is never overdue |
| TaskCard.ToggleLabel | frontend/src/components/TaskCard.jsx:61 | the label is "Mark pending" iff the task is completed, and "Mark complete" otherwise |
| TaskCard.LabelMatchesToggle | frontend/src/components/TaskCard.jsx:61 | the label names the status the toggle sends, and toggling an overdue task clears its highlight |
| TaskFilters.InitialFiltersAreDashboardDefaults | frontend/src/components/TaskFilters.jsx:3-11 | the panel's defaults equal the dashboard's |
| TaskFilters.FilterPanel.constructor | frontend/src/components/TaskFilters.jsx:14 | the state starts as the initial value, or the defaults without one |
| TaskFilters.FilterPanel.MergeInitialValue | frontend/src/components/TaskFilters.jsx:16-18 | the new initial value's keys override and all other keys keep their values |
| TaskFilters.FilterPanel.Reset | frontend/src/components/TaskFilters.jsx:24-26 | the defaults, whatever the prior state |
| TaskFilters.FilterPanel.HandleInputChange | frontend/src/components/TaskFilters.jsx:28-31 | only the named key changes |
| ServerEntry.AllowedOrigins | api/index.js:18 | the `CORS_ORIGIN` entries split on commas and trimmed, in order, or only `*` when unset; every entry is trimmed and comma-free |
| ServerEntry.AllowedOriginsOfList | api/index.js:18 | a comma-joined list yields exactly its entries, trimmed |
| ServerEntry.CorsDecision | api/index.js:21-27 | an origin is let through iff the list holds `*`, the origin is absent or empty, or the list holds it exactly; otherwise the CORS error |
| ServerEntry.CorsPolicy | api/index.js:18-27 | without `CORS_ORIGIN` every origin passes; with a list and no `*`, a non-empty origin passes iff some trimmed entry equals it |
| ServerEntry.HealthDb | api/index.js:80-82 | `connected` iff the ready state is 1, `disconnected` otherwise |
| ServerEntry.Connector.Connect | api/index.js:39-72 | a cached live connection is returned without connecting; otherwise a missing URI fails before any attempt; ready state 1 or 2 is reused and cached without connecting; only then is one connect attempted, and its failure leaves the cache unchanged |
| Pipeline.EmptyFiltersChangeNothing | frontend/src/pages/DashboardPage.jsx:28-36 | dropping the empty filters, as the dashboard does, builds the same server query as sending them |
| Pipeline.DefaultListing | frontend/src/pages/DashboardPage.jsx:11-19 | the dashboard's first listing is every task of the owner, newest first |
| Pipeline.UntouchedEditKeepsTask | frontend/src/components/TaskForm.jsx:17-42 | saving an untouched edit form keeps title, status and priority, turns an unset description into `""`, and sets the due date to the day the form showed, given that `toISOString` of any instant the parser returns parses back to that instant |
| Pipeline.CreateFromDefaultForm | frontend/src/components/TaskForm.jsx:4-42 | creating from the default form with a title typed in stores the trimmed title, pending, medium, an empty description and no date |
| Pipeline.ToggleUpdatesOnlyStatus | frontend/src/pages/DashboardPage.jsx:95-97 | the toggle, sent as an update, switches the status and changes nothing but `updatedAt` |
| Pipeline.LoginThenAuthenticatedRequest | frontend/src/utils/apiClient.js:19-22 | after a login, the next request's header authenticates the same user with the gate |
| Pipeline.DeleteThenGet | backend/controllers/taskController.js:102-111 | after the owner deletes a task, getting it gives 404 |
| Strings.TrimIsTrimmed | backend/models/Task.js:12 | `trim` leaves no space at either end and returns a slice of its input |
| Strings.TrimIdempotent | backend/models/Task.js:12 | trimming twice is trimming once |
| Strings.TrimEmptyIffBlank | backend/models/Task.js:11-12 | a string trims to empty iff it is all white space |
| Strings.JsLength | backend/models/Task.js:14 | JavaScript's `length`: at least the number of characters and at most twice it, and zero only for the empty string |
| Strings.JsLengthOfBmp | backend/models/Task.js:19 | the JavaScript length equals the number of characters iff no character lies outside the Basic Multilingual Plane |
| Strings.TakeUntil | backend/middleware/authMiddleware.js:9 | the text before the first space: a space-free prefix followed by a space or the end |
| Strings.JoinSplit | backend/middleware/authMiddleware.js:9 | `split` loses nothing: joining the pieces gives the input back |
| Strings.SplitJoin | api/index.js:18 | splitting a join of separator-free pieces gives the pieces back |
| Strings.ContainsIffSlice | backend/controllers/taskController.js:28 | the substring scan agrees with "occurs at some position" |
| Users.FirstWithEmail | backend/controllers/authController.js:40 | `findOne({ email })` finds the first user with the email, or reports that none has it |

## Left out

- I/O and libraries:
  - MongoDB and mongoose persistence are not modelled. The task collection is a map and the user table a sequence.
  - `mongoose.connect` is reduced to its outcome, passed as a parameter.
  - `backend/config/db.js`, `backend/server.js`, the Express wiring, helmet and body parsers are left out.
  - `taskRoutes.js` is left out. It puts `protect` in front of every task handler, so each handler takes the authenticated owner as a parameter.
- Foreign calls: JWT signing and verification, password hashing, `matchPassword`, `new Date` parsing, `toISOString` and the date-fns formatters are uninterpreted parameters.
- JSON: only strings and `null` are modelled as JSON values. Numbers, booleans, arrays and objects in a request body, and repeated query-string parameters, are not.
- TaskSchema.CastStatus and TaskSchema.CastPriority reject `null`. Mongoose validators would let an explicit `null` through to storage.
- TaskSchema.CastDescription maps an explicit `description: null` to `None`, the same value as an absent description. Mongoose stores `null` on create and under `$set`, and returns it, so the model does not distinguish the two JSON shapes. The client's `description || ''` reads both the same way.
- TaskSchema.NewTask and TaskSchema.CastUpdates report the first failing field in schema order. Mongoose collects every failing path in one error.
- TaskQuery.BuildQuery models `q` as a literal, case-insensitive substring with ASCII case folding. Regular-expression metacharacters and Unicode case folding are not modelled.
- Credentials.UserTable.Register does not model the race between the email lookup and the insert: the model is sequential. It also leaves out the User model's own field validation, because that model is not part of this project.
- TaskStore.Store.GetById, TaskStore.Store.Update and TaskStore.Store.Delete take the id as a `nat`, so a malformed `req.params.id` cannot be written down. In the handlers, such an id makes `findOne`, `findOneAndUpdate` or `findOneAndDelete` raise a CastError, which the error middleware turns into a response; it is not the 404 "Task not found".
- AuthGate.Authenticate folds a lookup that throws (a malformed id, a database error) into the failing verifier. The verifier returns an id or nothing.
- The error middleware (`notFound`, `errorHandler`) is not part of this model, so neither is the HTTP status of a `SchemaViolation`.
- UI rendering, styles, toasts, `console`, routing and the remaining pages and components are not modelled. `window.confirm` is a boolean input.
