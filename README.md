# productivity-back: a verified model of the session and to-do core

This project models the core of `productivity-back`, an actix-web to-do API. It
covers:

- the account endpoints, which validate the email and password, register an
  account, and log an account in;
- login, which issues a session token, stores it in Redis under the account id and
  returns it in a `session_id` cookie;
- the authentication middleware that wraps every `/api/todo` route;
- the per-handler guard;
- the four to-do handlers;
- the four statements the handlers run against the `todo` table, and the `reset`
  statement of the same executor, which no handler calls;
- the integration tests' `get_session_id` helper.

It has one module per source file, plus shared pieces:

| module | models |
|---|---|
| `Wrappers`, `Common` | `Option`/`Result`, `i32`, request cookies, status codes, the `{data, meta}` envelope |
| `SessionStore` | Redis as one map from account id to token, read with `GET` and written with `SET` |
| `Validators` | `src/common/validators.rs` |
| `AccountControllers` | `src/account/account_controllers.rs` |
| `TodoModels` | `src/todos/todo_models.rs`: the table as a class `TodoTable` with a row sequence and an id counter |
| `TodoErrors`, `TodoControllers` | `src/todos/todo_controllers.rs` |
| `Guards` | `src/common/guards.rs` |
| `AuthMiddleware` | `src/middlewares/auth.rs` |
| `CookieHeader` | `get_session_id` of `tests/common.rs` |
| `Sessions` | lemmas that combine login, the guard and the middleware |

The model is sequential. Some things the service gets from outside are parameters
of the model:

- the fresh UUID token;
- the current time;
- what the account queries returned;
- whether `web::block` ran its closure;
- the JSON decoding of the middleware's buffered body, an arbitrary partial
  function from bytes to an `i32`.

Where the intent of the service differs from its code, the model follows the code:

- The middleware answers 403 Forbidden when the session store cannot be reached
  or the body does not decode. It never answers 502 or 422.
- Error replies put the message under `meta.error` of a `{data: (), meta}` envelope,
  not at the top level.
- The middleware reads `account_id` only from the JSON body, never from a cookie.
- The to-do handlers' `Server` message reads "Interval server error", as written.

## Model

| member | source | states |
|---|---|---|
| Common.FindCookie | src/middlewares/auth.rs:101-105 | The lookup of the `session_id` cookie finds nothing exactly when no cookie has that name. Otherwise it yields the value of the first cookie with that name. |
| SessionStore.Store.Get | src/common/guards.rs:20-21 | A token read succeeds exactly when the store is reachable and holds a token for the account, and then yields that token. |
| SessionStore.AppState.Set | src/account/account_controllers.rs:178 | `SET` succeeds exactly when the store is reachable. It then overwrites that account's token (last write wins) and nothing else. On failure the store is unchanged. |
| Validators.ValidateEmail | src/common/validators.rs:12-19 | A rejected email yields exactly `ValidationErrors::Email`. |
| Validators.ValidatePassword | src/common/validators.rs:21-27 | A password is accepted exactly when it has no line feed and 8 to 64 characters. A rejection yields exactly `ValidationErrors::Password`. |
| Validators.EmailAcceptsExactlyTheShape | src/common/validators.rs:13-18 | The email check accepts exactly the language of `^.+@.+\..+$`: no line feed, and an '@' after at least one character, followed by a '.' with characters on both sides. |
| Validators.EmailAcceptsSplit | src/common/validators.rs:13-18 | Every `a@b.c` with non-empty `a`, `b`, `c` and no line feed is accepted. |
| Validators.EmailAcceptedSplits | src/common/validators.rs:13-18 | Every accepted email is `a@b.c` for some non-empty `a`, `b`, `c`, and has no line feed. |
| Validators.EmailAcceptedHasAtAndDot | src/common/validators.rs:13 | Every accepted email contains an '@' and a '.'. |
| Validators.EmailVectorPlain | src/common/validators.rs:35-55 | "dimashur@gmail.com" is accepted. |
| Validators.EmailVectorDottedUser | src/common/validators.rs:35-55 | "dimashur.edu@gmail.com" is accepted. |
| Validators.EmailVectorTwoDotsUser | src/common/validators.rs:35-55 | "dima.shur.edu@gmail.com" is accepted. |
| Validators.EmailTestVectorsRejected | src/common/validators.rs:35-55 | "di@gmail", "@" and "" are rejected with `Email`. |
| Validators.PasswordTestVectors | src/common/validators.rs:58-84 | All eight password vectors of the unit test give the expected result, including the 8-character "qwerty11" and the 98-character sentence. |
| AccountControllers.Validate | src/account/account_controllers.rs:138-139 | Input passes exactly when both the email and the password pass. An invalid email is reported even if the password is also invalid. |
| AccountControllers.RegistrationFromValidation | src/account/account_controllers.rs:32-39 | `Email` becomes `InvalidEmail` and `Password` becomes `InvalidPassword`. |
| AccountControllers.RegistrationStatus | src/account/account_controllers.rs:47-56 | 422 exactly for invalid email or password, 409 exactly for an existing email, 500 exactly for `Server` and `Db`. |
| AccountControllers.Register | src/account/account_controllers.rs:134-160 | Registration succeeds exactly when the input is valid and the INSERT succeeds. The email error comes before the password error. A failed INSERT maps to `Server` without SQLSTATE, to `EmailExists` for "23505", and to `Db` otherwise. |
| AccountControllers.RegistrationRepliesOfEachError | src/account/account_controllers.rs:58-75 | Each registration error renders with its status and exact message, for example 422 "Invalid password. the password must be at least 8 characters long", 409 "Such an email already exists" and 500 "Db error". |
| AccountControllers.RegistrationReplies | src/account/account_controllers.rs:47-56 | Invalid input answers 422, a duplicate email 409, and any other DB failure 500. |
| AccountControllers.LoginFromValidation | src/account/account_controllers.rs:84-90 | Every validation error becomes `InvalidInfo`. |
| AccountControllers.LoginFromRedisError | src/account/account_controllers.rs:100-106 | Every store error becomes `Server`. |
| AccountControllers.LoginStatus | src/account/account_controllers.rs:114-120 | 401 exactly for `InvalidInfo`, 500 exactly for `Server`. |
| AccountControllers.LoginRepliesOfEachError | src/account/account_controllers.rs:122-131 | `InvalidInfo` renders as 401 "Wrong email or password", and `Server` as 500 "Server error". |
| AccountControllers.Login | src/account/account_controllers.rs:162-198 | Login succeeds exactly when the input is valid, the lookup returns a row and the store is reachable. It answers `InvalidInfo` exactly for invalid input or zero rows. Any failure leaves the store unchanged. A success stores the new token for the first row's account, keeps every other entry, and returns that account id with a cookie carrying the same token. |
| AccountControllers.AccountLogin | src/account/account_controllers.rs:162-198 | The handler, step by step against the shared store, answers and leaves the store as `Login` says. |
| AccountControllers.LoginCookieAttributes | src/account/account_controllers.rs:180-185 | The session cookie is `session_id=<token>` with Max-Age 2628000, not Secure, SameSite Strict, HttpOnly. |
| AccountControllers.LoginReplies | src/account/account_controllers.rs:169-196 | A login failure answers 401 for invalid input or no matching row, and 500 otherwise. A DB error or a store write failure is `Server`. |
| TodoModels.OfAccount | src/todos/todo_models.rs:69 | `WHERE account_id = $1` keeps exactly the rows of that account, each as many times as the table holds it, and drops every other row. |
| TodoModels.InsertNewestFirst | src/todos/todo_models.rs:70 | Inserting a row into a newest-first sequence keeps it newest-first and adds exactly that row. |
| TodoModels.SortNewestFirst | src/todos/todo_models.rs:70 | `ORDER BY last_edit_date DESC` gives a permutation of its input with no row newer than one before it. |
| TodoModels.Query | src/todos/todo_models.rs:60-79 | The query fails exactly when OFFSET or LIMIT is negative, and reports the OFFSET error first. |
| TodoModels.SortedAccountRows | src/todos/todo_models.rs:66-70 | The ordered rows are a newest-first permutation of the account's rows and contain no other row. |
| TodoModels.QueryIsWindowOfArrangement | src/todos/todo_models.rs:60-79 | For non-negative bounds, the result is the slice of a newest-first arrangement of the account's rows that skips OFFSET rows and holds at most LIMIT rows. NULL means no skip and no limit. Ties may be in any order. |
| TodoModels.WindowOfNewestFirst | src/todos/todo_models.rs:60-79 | `OFFSET`/`LIMIT` applied to a newest-first result keeps it newest first, adds no row, and holds as many rows as the window is wide. |
| TodoModels.PaginationTestExpectations | tests/todo_integration_test.rs:194-240 | With three rows for the account, LIMIT 2 gives 2 rows, OFFSET 1 LIMIT 2 gives 2, and no LIMIT gives 3. |
| TodoModels.Updated | src/todos/todo_models.rs:87-92 | `COALESCE` keeps title, body or done when the argument is NULL and takes the argument otherwise. `last_edit_date` is always set. Id, account and creation date are kept. |
| TodoModels.SurvivorsAreExactlyTheUnselected | src/todos/todo_models.rs:108-109 | DELETE keeps exactly the rows of other accounts and this account's rows whose id is not listed. |
| TodoModels.RemovedIdsAreTheSelected | src/todos/todo_models.rs:108-110 | `RETURNING id` lists exactly the ids of the deleted rows, and kept plus returned rows account for every row. |
| TodoModels.SurvivorsKeepUniqueIds | src/todos/todo_models.rs:108-109 | DELETE keeps ids unique. |
| TodoModels.TodoTable.Create | src/todos/todo_models.rs:43-58 | INSERT appends exactly one row with a fresh id, the given account, title, body and dates, and `done` false. It leaves the other rows as they were and returns that id and creation date. When the `i32` id sequence is exhausted, it fails and changes nothing. |
| TodoModels.TodoTable.Edit | src/todos/todo_models.rs:81-100 | UPDATE changes only the row with matching account and id, as `Updated` says. It returns `[(id, date)]` when such a row exists and nothing otherwise. |
| TodoModels.TodoTable.Delete | src/todos/todo_models.rs:102-117 | DELETE leaves exactly the surviving rows in table order and returns the deleted ids in table order. Ids stay unique. |
| TodoModels.TodoTable.Reset | src/todos/todo_models.rs:119-126 | `DELETE FROM todo` empties the table. The id sequence keeps counting. |
| TodoErrors.FromRedisError | src/todos/todo_controllers.rs:71-75 | Every store error becomes `Forbidden`. |
| TodoErrors.BlockingFailureMapping | src/todos/todo_controllers.rs:124-146 | A failed statement surfaces as `Db` with the same Postgres error. A canceled `web::block` surfaces as `Server`. |
| TodoErrors.StatusCode | src/todos/todo_controllers.rs:84-89 | 403 exactly for `Forbidden`, 500 exactly for `Db` and `Server`. |
| TodoErrors.Reply | src/todos/todo_controllers.rs:91-101 | The error reply carries the error's status, a JSON content type and its message under `meta.error`. |
| TodoErrors.RepliesOfEachError | src/todos/todo_controllers.rs:91-101 | Forbidden gives 403 "Access forbidden", Server gives 500 "Interval server error", and Db gives 500 "DB error". |
| TodoErrors.StoreFailureRepliesForbidden | src/todos/todo_controllers.rs:71-75 | Any store failure renders as 403 "Access forbidden". |
| Guards.Auth | src/common/guards.rs:9-28 | The guard admits exactly when a `session_id` cookie is present, the store is reachable, it holds a token for the account, and that token equals the cookie value. Every refusal is `Forbidden`. The guard only reads the store. |
| Guards.MissingCookieIsForbidden | src/common/guards.rs:14-18 | Without the cookie the answer is Forbidden whatever the store holds, so the store is not consulted. |
| Guards.StoreFailureIsForbidden | src/common/guards.rs:20-21 | A failed token read is Forbidden. |
| Guards.OnlyTheStoredTokenPasses | src/common/guards.rs:23-27 | The stored token is admitted, and any other string is Forbidden. |
| TodoControllers.CreateResponse | src/todos/todo_controllers.rs:129-138 | The create answer carries the returned row's id and creation date. |
| TodoControllers.EditResponse | src/todos/todo_controllers.rs:229-245 | With no returned row the answer has the requested id and no date. Otherwise it has the first row's id and date. |
| TodoControllers.EditResponseNamesTheRequest | src/todos/todo_controllers.rs:229-245 | When the returned rows carry the requested id, the answer always names that id. |
| TodoControllers.TodoCreate | src/todos/todo_controllers.rs:104-149 | The guard runs first, and a refusal is Forbidden with the table unchanged. A canceled block is `Server` with the table unchanged. Otherwise exactly one row is inserted with creation and last edit dates both `now`, the id counter advances by one, and the row's id and date are returned. When the id sequence is exhausted the answer is `Db` and the table is unchanged. |
| TodoControllers.TodoGet | src/todos/todo_controllers.rs:151-199 | The guard runs first. The answer is Forbidden, `Server`, or the query's rows, or `Db` with the query's error. Nothing changes. |
| TodoControllers.GetAnswersOnlyTheAccountsTodos | src/todos/todo_controllers.rs:151-199 | A passing `todo_get` with non-negative bounds returns only that account's todos, newest first, and at most LIMIT of them. |
| TodoControllers.TodoEdit | src/todos/todo_controllers.rs:201-256 | The guard runs first, and a refusal leaves the table unchanged. A passing edit updates only the targeted row. It answers with the requested id, and with the new date exactly when a row of that account had that id. The id counter is unchanged. |
| TodoControllers.TodoDelete | src/todos/todo_controllers.rs:258-293 | The guard runs first, and a refusal leaves the table unchanged. A passing delete removes exactly the listed rows of that account and answers with their ids in row order. The id counter is unchanged. |
| AuthMiddleware.ForbiddenReply | src/middlewares/auth.rs:37-52 | Forbidden renders as 403 with a JSON content type and `{data: (), meta: {error: "Access forbidden"}}`. |
| AuthMiddleware.Decide | src/middlewares/auth.rs:101-131 | The checks run in source order. Without the cookie the decision is Forbidden. A forwarded body is what the drain produced. Every rejection is Forbidden or the drain's own read error. |
| AuthMiddleware.ConcatAppend | src/middlewares/auth.rs:110-111 | Appending a chunk to the buffer appends its bytes in order. |
| AuthMiddleware.DrainSucceedsIffNoBrokenChunk | src/middlewares/auth.rs:108-112 | Draining the body succeeds exactly when no chunk is a read error, and the buffer is then the in-order concatenation of all chunks. |
| AuthMiddleware.DrainFailsWithFirstBrokenChunk | src/middlewares/auth.rs:110-111 | A failed drain reports the error of the first unreadable chunk. |
| AuthMiddleware.MissingCookieRejectedFirst | src/middlewares/auth.rs:101-105 | Without a `session_id` cookie the decision is Forbidden whatever the body and the store hold. |
| AuthMiddleware.ReadErrorAbortsWithThatError | src/middlewares/auth.rs:110-111 | With the cookie present, a chunk read error rejects the request with that error, not Forbidden. |
| AuthMiddleware.UndecodableBodyForbidden | src/middlewares/auth.rs:113 | A body that does not decode to an `account_id` is Forbidden. |
| AuthMiddleware.StoreFailureForbidden | src/middlewares/auth.rs:115-121 | A failed token read for the decoded account is Forbidden. |
| AuthMiddleware.TokenMismatchForbidden | src/middlewares/auth.rs:123-125 | A readable body naming an account whose stored token differs from the cookie is Forbidden. |
| AuthMiddleware.ForwardIffGuardAdmits | src/middlewares/auth.rs:101-131 | The request is forwarded exactly when the body drains, decodes to an account id, and the cookie equals that account's stored token, as the guard checks. The forwarded body is the concatenation of all chunks. Every rejection is Forbidden or a read error. |
| AuthMiddleware.ChunkingIsInvisible | src/middlewares/auth.rs:108-113 | How the body is split into chunks does not change the decision. |
| AuthMiddleware.ServiceRequest.TakePayload | src/middlewares/auth.rs:109 | Taking the payload hands over its stream and leaves the request with an empty payload. |
| AuthMiddleware.ServiceRequest.SetPayload | src/middlewares/auth.rs:129-131 | The new payload yields the buffered body as a single chunk. |
| AuthMiddleware.Call | src/middlewares/auth.rs:96-137 | On rejection the middleware returns the decision's error and never calls the wrapped service. Without a cookie the payload is untouched. After the body was drained the payload is empty. On success the service is called exactly once with a payload byte-identical to the buffered body, and its result or error is returned unchanged. The store is only read. |
| CookieHeader.MatchAt | tests/common.rs:56 | A match of `session_id=(.+?);` at an index captures a non-empty, newline-free text that directly follows `session_id=` and directly precedes a ';', with no ';' after its first character (the lazy `+?`). |
| CookieHeader.MatchAtFindsShortest | tests/common.rs:56 | Every `session_id=` followed by a non-empty newline-free text and a ';' is a match, and the lazy capture is no longer than that text. |
| CookieHeader.CapturesFromIsLeftmost | tests/common.rs:61 | `captures` finds a match exactly when one exists, and then the leftmost one. |
| CookieHeader.CaptureIsDelimited | tests/common.rs:61-63 | Every capture is non-empty, has no line feed, and occurs in the header directly after "session_id=" and before a ';'. |
| CookieHeader.ReadsBackTheIssuedToken | tests/common.rs:56-63 | A `Set-Cookie` value `session_id=<token>; ...` yields exactly the token when the token has no ';' and no line feed. |
| CookieHeader.NoMatchGivesEmpty | tests/common.rs:57-67 | When no header matches, the answer is "". |
| CookieHeader.LastMatchingHeaderWins | tests/common.rs:59-65 | The capture of the last matching header is the answer, whatever non-matching headers follow it. |
| CookieHeader.LastMatchStep | tests/common.rs:61-64 | A matching header replaces the running answer, and a non-matching one leaves it unchanged. |
| CookieHeader.AnswerComesFromAHeader | tests/common.rs:59-65 | A non-empty answer is the capture of one of the headers. |
| CookieHeader.GetSessionId | tests/common.rs:55-68 | The loop fails (the `to_str` panic) exactly when some header is not visible ASCII. Otherwise it returns the last match's capture, or "". |
| Sessions.IssuedCookieAdmits | src/account/account_controllers.rs:176-189 | The cookie a successful login issues opens that account at the guard against the store login left behind. |
| Sessions.SecondLoginSupersedesFirst | src/account/account_controllers.rs:178 | After a second login to the same account with another token, the first token is Forbidden at the guard and at the middleware, and the second is admitted by both. |
| Sessions.LoginKeepsOtherSessions | src/account/account_controllers.rs:176-178 | A login to one account does not change the guard's answer for any other account. |
| Sessions.TestsReadTheIssuedToken | tests/common.rs:55-68 | When the login's `Set-Cookie` value is the last header the helper's pattern matches, the helper's running answer after its loop is exactly the login's token. |
| Sessions.SessionIdOfLogin | tests/common.rs:55-68 | Under the same conditions, with every header visible ASCII, calling the helper does not panic and returns exactly the login's token. |

## Left out

- Concurrency is left out. The Redis handle sits behind `Arc<Mutex<...>>` and requests
  run concurrently; the model is one sequential store.
- The actix plumbing is left out: `Transform`, `poll_ready`, `Rc<RefCell<..>>`,
  `Box::pin`. The wrapped service is a class holding a handler, a call counter and the
  payloads it received.
- serde is left out. The middleware's JSON decode is an arbitrary partial function.
  Request bodies of the handlers are given as already-decoded datatypes. Response
  bodies are datatypes, not JSON text.
- The UUID token and `Utc::now()` are parameters, not generated.
- The account table is left out: the `login` and `register` statements of
  `src/account/account_models.rs`, `crypt`/`gen_salt`, and the unique email constraint.
  The handlers receive the statement's outcome as a parameter.
- `accounts_reset` is left out: it only forwards the account table's reset, which is
  not modelled, and maps any failure to `Server`.
- `src/main.rs`, `src/lib.rs`, `src/actors/db_actor.rs` and `src/todo/` are not part
  of this model (server setup, state struct, and code outside the module tree).
- Failing to get a pooled connection (`pool.get().unwrap()`) and failing to begin or
  commit a transaction are left out. Each statement is one atomic step that either
  applies or raises its own error.
- TodoControllers.TodoCreate, TodoControllers.TodoEdit, TodoControllers.TodoDelete: a
  `web::block` canceled after the closure committed is not modelled. Cancellation is
  taken to happen before the statement runs, so the table is unchanged.
- TodoModels.TodoTable.Create: the schema is not part of the source, so `done`
  defaulting to false and a serial `i32` id counter are assumptions.
- TodoModels.Query models `TodoDbExecutor::get` as a function of the table's rows,
  which `TodoControllers.TodoGet` reads directly; it is not a method of `TodoTable`
  because it changes nothing.
- TodoModels.Query: Postgres leaves the order of rows with equal `last_edit_date`
  open. The model picks one admissible order, table order (a stable sort), and
  `TodoControllers.TodoGet` answers with that order. For Postgres only the properties
  of `TodoModels.QueryIsWindowOfArrangement` are claimed: some newest-first
  arrangement of the account's rows, windowed by OFFSET and LIMIT.
- TodoModels.TodoTable.Delete: Postgres does not promise the order of `RETURNING`
  rows. The model returns the deleted ids in table order, and
  `TodoControllers.TodoDelete` answers in that order; only the set of ids is claimed
  for Postgres.
- TodoModels.TodoTable.Edit: Postgres may move an updated row to another physical
  position. The model updates it in place, so the table order that `Query` ties and
  `Delete` follow is the model's choice.
- TodoModels.Query: Postgres `OFFSET`/`LIMIT` take `i64`. Values beyond `i64` cannot
  arise from the request, so they are not distinguished.
- Cookies whose `Cookie` header does not parse are left out. The model takes the
  parsed list of cookies.
- The integration tests were written for another version of the middleware, and they
  contradict this one. `tests/common.rs` wraps the scope in the same `Authentication`
  middleware, but the tests' requests carry `account_id` only in a cookie. For
  example, the create body has only `title` and `body`, and the test expects 200.
  `src/middlewares/auth.rs` reads `account_id` from the JSON body only, so it would
  answer 403. The model follows `src/middlewares/auth.rs`.
- The `todo_controllers.rs` call `TodoDbExecutor::new(connection)` does not match the
  pool-taking functions of `todo_models.rs`. Each file's own statements are modelled.
