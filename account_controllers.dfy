/** `account_register` and `account_login`: input validation, the mapping of every failure
    to an error and a status code, and login's issuing of a session token, which
    overwrites the account's entry in the session store. The account table itself
    (password hashing, the unique email constraint) is outside the model: the handlers
    receive what its queries returned. */
module AccountControllers {
  import opened Wrappers
  import opened Common
  import opened SessionStore
  import opened Validators

  /** `MONTH_IN_SECONDS`, the session cookie's Max-Age. */
  const MonthInSeconds: int := 2628000

  /** The JSON body of both endpoints. */
  datatype AccountRequest = AccountRequest(email: string, password: string)

  /** Email first, then password: the first failing check is the one reported. */
  function Validate(body: AccountRequest): (r: Result<(), ValidationError>)
    ensures r.Ok? <==> ValidateEmail(body.email).Ok? && ValidatePassword(body.password).Ok?
    ensures ValidateEmail(body.email).Err? ==> r == Err(ValidationError.Email)
    ensures ValidateEmail(body.email).Ok? && ValidatePassword(body.password).Err? ==> r == Err(ValidationError.Password)
  {
    match ValidateEmail(body.email)
    case Err(e) => Err(e)
    case Ok(_) => ValidatePassword(body.password)
  }

  // ---------------------------------------------------------------------------
  // Registration

  datatype RegistrationError = InvalidEmail | InvalidPassword | EmailExists | Server | Db

  /** `From<ValidationErrors> for AccountRegistrationErrors`. */
  function RegistrationFromValidation(e: ValidationError): (r: RegistrationError)
    ensures r == InvalidEmail <==> e == ValidationError.Email
    ensures r == InvalidPassword <==> e == ValidationError.Password
  {
    match e
    case Email => InvalidEmail
    case Password => InvalidPassword
  }

  /** `status_code` of `AccountRegistrationErrors`. */
  function RegistrationStatus(e: RegistrationError): (status: int)
    ensures status == StatusUnprocessableEntity <==> e == InvalidEmail || e == InvalidPassword
    ensures status == StatusConflict <==> e == EmailExists
    ensures status == StatusInternalServerError <==> e == RegistrationError.Server || e == Db
  {
    match e
    case InvalidEmail => StatusUnprocessableEntity
    case InvalidPassword => StatusUnprocessableEntity
    case EmailExists => StatusConflict
    case Server => StatusInternalServerError
    case Db => StatusInternalServerError
  }

  /** The `error` text of `error_response` of `AccountRegistrationErrors`. */
  function RegistrationMessage(e: RegistrationError): string {
    match e
    case InvalidEmail => "Invalid email"
    case InvalidPassword => "Invalid password. the password must be at least 8 characters long"
    case EmailExists => "Such an email already exists"
    case Server => "Server error"
    case Db => "Db error"
  }

  function RegistrationReply(e: RegistrationError): ErrorResponse {
    ErrorReply(RegistrationStatus(e), RegistrationMessage(e))
  }

  /** The five registration replies, each with its status and exact message. */
  lemma RegistrationRepliesOfEachError()
    ensures RegistrationReply(InvalidEmail) == ErrorReply(422, "Invalid email")
    ensures RegistrationReply(InvalidPassword) ==
              ErrorReply(422, "Invalid password. the password must be at least 8 characters long")
    ensures RegistrationReply(EmailExists) == ErrorReply(409, "Such an email already exists")
    ensures RegistrationReply(RegistrationError.Server) == ErrorReply(500, "Server error")
    ensures RegistrationReply(Db) == ErrorReply(500, "Db error")
  {
  }

  /** The SQLSTATE of a unique-constraint violation. */
  const UniqueViolation: string := "23505"

  /** A failure of `AccountDbExecutor::register`, with the SQLSTATE when Postgres gave one. */
  datatype RegisterDbError = RegisterDbError(sqlState: Option<string>)

  /** The `match err.code()` of `account_register`. */
  function FromRegisterDbError(e: RegisterDbError): RegistrationError {
    match e.sqlState
    case None => RegistrationError.Server
    case Some(code) => if code == UniqueViolation then EmailExists else Db
  }

  /** `account_register`, given what the INSERT returned (`rows` inserted, or its error). */
  function Register(body: AccountRequest, insert: Result<nat, RegisterDbError>): (r: Result<(), RegistrationError>)
    ensures r.Ok? <==> Validate(body).Ok? && insert.Ok?
    ensures ValidateEmail(body.email).Err? ==> r == Err(InvalidEmail)
    ensures ValidateEmail(body.email).Ok? && ValidatePassword(body.password).Err? ==> r == Err(InvalidPassword)
    ensures Validate(body).Ok? && insert.Err? ==>
              r == Err(if insert.error.sqlState.None? then RegistrationError.Server
                       else if insert.error.sqlState.value == UniqueViolation then EmailExists
                       else Db)
  {
    match Validate(body)
    case Err(e) => Err(RegistrationFromValidation(e))
    case Ok(_) =>
      match insert
      case Ok(_) => Ok(())
      case Err(e) => Err(FromRegisterDbError(e))
  }

  /** A duplicate email is a 409, a DB failure without SQLSTATE or with any other one a 500,
      and invalid input a 422 that never reaches the database. */
  lemma RegistrationReplies(body: AccountRequest, insert: Result<nat, RegisterDbError>)
    ensures Validate(body).Err? ==> RegistrationStatus(Register(body, insert).error) == 422
    ensures Validate(body).Ok? && insert == Err(RegisterDbError(Some("23505"))) ==>
              RegistrationStatus(Register(body, insert).error) == 409
    ensures Validate(body).Ok? && insert.Err? && insert.error.sqlState != Some("23505") ==>
              RegistrationStatus(Register(body, insert).error) == 500
  {
  }

  // ---------------------------------------------------------------------------
  // Login

  datatype LoginError = InvalidInfo | Server

  /** `From<ValidationErrors> for AccountLoginErrors`: any validation failure is `InvalidInfo`. */
  function LoginFromValidation(e: ValidationError): (r: LoginError)
    ensures r == InvalidInfo
  {
    InvalidInfo
  }

  /** `From<error::Error>` and `From<RedisError>` for `AccountLoginErrors`: always `Server`. */
  function LoginFromRedisError(e: RedisError): (r: LoginError)
    ensures r == LoginError.Server
  {
    LoginError.Server
  }

  /** `status_code` of `AccountLoginErrors`. */
  function LoginStatus(e: LoginError): (status: int)
    ensures status == StatusUnauthorized <==> e == InvalidInfo
    ensures status == StatusInternalServerError <==> e == LoginError.Server
  {
    match e
    case InvalidInfo => StatusUnauthorized
    case Server => StatusInternalServerError
  }

  function LoginMessage(e: LoginError): string {
    match e
    case InvalidInfo => "Wrong email or password"
    case Server => "Server error"
  }

  function LoginReply(e: LoginError): ErrorResponse {
    ErrorReply(LoginStatus(e), LoginMessage(e))
  }

  /** The two login replies, each with its status and exact message. */
  lemma LoginRepliesOfEachError()
    ensures LoginReply(InvalidInfo) == ErrorReply(401, "Wrong email or password")
    ensures LoginReply(LoginError.Server) == ErrorReply(500, "Server error")
  {
  }

  datatype SameSite = Strict | Lax | NoRestriction

  /** The `Set-Cookie` login answers with. */
  datatype SessionCookie = SessionCookie(name: string, value: string, maxAge: int, secure: bool,
                                         sameSite: SameSite, httpOnly: bool)

  /** `CookieBuilder::new("session_id", token)` with the attributes login sets. */
  function SessionCookieFor(token: string): SessionCookie {
    SessionCookie(SessionCookieName, token, MonthInSeconds, false, Strict, true)
  }

  /** A successful login: `{data: {account_id}, meta: ()}` and the session cookie. */
  datatype LoginResponse = LoginResponse(accountId: Int32, cookie: SessionCookie)

  /** A failure of `AccountDbExecutor::login`. */
  datatype LoginDbError = LoginDbError

  /** What login answers and what the session store holds afterwards. */
  datatype LoginOutcome = LoginOutcome(result: Result<LoginResponse, LoginError>, store: Store)

  /** `account_login` as a transition of the session store. `lookup` is what the account
      query returned (the ids of the matching rows, or a DB failure) and `token` the fresh
      `Uuid::new_v4` string. */
  function Login(store: Store, body: AccountRequest, lookup: Result<seq<Int32>, LoginDbError>, token: string): (o: LoginOutcome)
    ensures o.result.Ok? <==> Validate(body).Ok? && lookup.Ok? && |lookup.value| > 0 && store.reachable
    ensures o.result == Err(InvalidInfo) <==> Validate(body).Err? || lookup == Ok([])
    ensures o.result.Err? ==> o.store == store
    ensures o.result.Ok? ==>
              && o.result.value.accountId == lookup.value[0]
              && o.result.value.cookie.value == token
              && o.store.reachable
              && o.store.sessions.Keys == store.sessions.Keys + {lookup.value[0]}
              && o.store.sessions[lookup.value[0]] == token
              && forall id :: id in store.sessions && id != lookup.value[0] ==> o.store.sessions[id] == store.sessions[id]
  {
    match Validate(body)
    case Err(e) => LoginOutcome(Err(LoginFromValidation(e)), store)
    case Ok(_) =>
      match lookup
      case Err(_) => LoginOutcome(Err(LoginError.Server), store)
      case Ok(ids) =>
        if |ids| == 0 then LoginOutcome(Err(InvalidInfo), store)
        else if !store.reachable then LoginOutcome(Err(LoginFromRedisError(Unreachable)), store)
        else
          var accountId := ids[0];
          LoginOutcome(Ok(LoginResponse(accountId, SessionCookieFor(token))),
                       store.(sessions := store.sessions[accountId := token]))
  }

  /** The cookie of a successful login is `session_id=<token>; Max-Age=2628000; SameSite=Strict;
      HttpOnly`, not Secure. */
  lemma LoginCookieAttributes(store: Store, body: AccountRequest, lookup: Result<seq<Int32>, LoginDbError>, token: string)
    requires Login(store, body, lookup, token).result.Ok?
    ensures Login(store, body, lookup, token).result.value.cookie ==
              SessionCookie("session_id", token, 2628000, false, Strict, true)
  {
  }

  /** Login answers 401 for wrong credentials or invalid input, 500 for a DB or store failure. */
  lemma LoginReplies(store: Store, body: AccountRequest, lookup: Result<seq<Int32>, LoginDbError>, token: string)
    ensures var r := Login(store, body, lookup, token).result;
            r.Err? ==> LoginStatus(r.error) == (if Validate(body).Err? || lookup == Ok([]) then 401 else 500)
    ensures Validate(body).Ok? && lookup.Err? ==> Login(store, body, lookup, token).result == Err(LoginError.Server)
    ensures Validate(body).Ok? && lookup.Ok? && |lookup.value| > 0 && !store.reachable ==>
              Login(store, body, lookup, token).result == Err(LoginError.Server)
  {
  }

  /** `account_login`, step by step against the shared store. */
  method AccountLogin(state: AppState, body: AccountRequest, lookup: Result<seq<Int32>, LoginDbError>, token: string)
    returns (r: Result<LoginResponse, LoginError>)
    modifies state
    ensures LoginOutcome(r, state.redis) == Login(old(state.redis), body, lookup, token)
  {
    var valid := ValidateEmail(body.email);
    if valid.Err? {
      return Err(LoginFromValidation(valid.error));
    }
    valid := ValidatePassword(body.password);
    if valid.Err? {
      return Err(LoginFromValidation(valid.error));
    }
    if lookup.Err? {
      return Err(LoginError.Server);
    }
    var rows := lookup.value;
    if |rows| == 0 {
      return Err(InvalidInfo);
    }
    var accountId := rows[0];
    var stored := state.Set(accountId, token);
    if stored.Err? {
      return Err(LoginFromRedisError(stored.error));
    }
    return Ok(LoginResponse(accountId, SessionCookieFor(token)));
  }
}
