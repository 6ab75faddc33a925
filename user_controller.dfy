/**
 * `UserController`: turns the outcomes of registration and login into HTTP answers, and on
 * login hands the refresh-session id to the browser as a cookie.
 */
module UserController {
  import opened Wrappers
  import opened Store
  import opened Http
  import opened TokenProvider
  import opened RefreshTokenProvider
  import UserService

  const EmailInUseMessage: string := "Email already in use."
  const InvalidLoginMessage: string := "Invalid email or password."
  const InternalErrorMessage: string := "Internal server error"
  const RefreshCookieName: string := "refreshToken"

  /** `30 * 24 * 60 * 60 * 1000`: thirty days in milliseconds. */
  const ThirtyDaysMs: nat := 30 * 24 * 60 * 60 * 1000

  /** The HTTP answer to the outcome of `userService.register`. */
  function RegisterResponse(outcome: Result<PublicUser, string>): (resp: Response)
    ensures outcome.Success? <==> resp.status == 201
    ensures outcome.Success? ==> resp.body == UserBody(outcome.value)
    ensures outcome == Failure(UserService.AlreadyExistsMessage) <==> resp.status == 409
    ensures outcome.Failure? ==> resp.body.MessageBody?
    ensures resp.status in {201, 409, 500}
  {
    match outcome
    case Success(user) => Response(201, UserBody(user))
    case Failure(e) =>
      if e == UserService.AlreadyExistsMessage then Response(409, MessageBody(EmailInUseMessage))
      else Response(500, MessageBody(InternalErrorMessage))
  }

  /** `rememberMe ? thirtyDays : undefined`: a remembered login keeps its cookie as long as its session lives. */
  function MaxAge(rememberMe: JsValue): (ms: Option<nat>)
    ensures Truthy(rememberMe) ==> ms == Some(SessionLifetime * 1000)
    ensures !Truthy(rememberMe) ==> ms.None?
  {
    if Truthy(rememberMe) then Some(ThirtyDaysMs) else None
  }

  /**
   * The cookie carrying the refresh-session id: hidden from scripts, HTTPS only, sent
   * cross-site; a remembered login keeps it exactly as long as its session lives, and any
   * other login only until the browser closes.
   */
  function SessionCookie(sessionId: string, rememberMe: JsValue): (c: Cookie)
    ensures c.name == RefreshCookieName && c.value == sessionId
    ensures c.httpOnly && c.secure && c.sameSite == "none"
    ensures c.maxAge.Some? <==> Truthy(rememberMe)
    ensures c.maxAge.Some? ==> c.maxAge.value == SessionLifetime * 1000
  {
    Cookie(RefreshCookieName, sessionId, true, true, "none", MaxAge(rememberMe))
  }

  /** The HTTP answer and the cookie for the outcome of `userService.login`. */
  function LoginResponse(outcome: Result<UserService.LoginResult, string>, rememberMe: JsValue): (answer: (Response, Option<Cookie>))
    ensures outcome.Success? <==> answer.0.status == 200
    ensures outcome.Success? <==> answer.1.Some?
    ensures outcome.Success? ==>
      answer.0.body == LoginBody(outcome.value.user, outcome.value.token) &&
      answer.1.value.value == outcome.value.refreshToken.id
    ensures outcome == Failure(UserService.InvalidCredentialsMessage) <==> answer.0.status == 401
    ensures outcome == Failure(UserService.InvalidCredentialsMessage) ==>
      answer.0.body == MessageBody(InvalidLoginMessage)
    ensures outcome.Failure? && outcome.error != UserService.InvalidCredentialsMessage ==>
      answer == (Response(500, MessageBody(InternalErrorMessage)), None)
  {
    match outcome
    case Success(result) =>
      (Response(200, LoginBody(result.user, result.token)), Some(SessionCookie(result.refreshToken.id, rememberMe)))
    case Failure(e) =>
      if e == UserService.InvalidCredentialsMessage then (Response(401, MessageBody(InvalidLoginMessage)), None)
      else (Response(500, MessageBody(InternalErrorMessage)), None)
  }

  /** `register(req, res)`: 409 and no new row for an email in use, otherwise 201 with the new user. */
  method Register(users: UserTable, input: UserService.RegisterInput, salt: nat) returns (resp: Response)
    requires users.Valid()
    modifies users
    ensures users.Valid()
    ensures UserService.FindByEmail(old(users.rows), old(users.nextId), input.email).Some? ==>
      resp == Response(409, MessageBody(EmailInUseMessage)) &&
      users.rows == old(users.rows) && users.nextId == old(users.nextId)
    ensures UserService.FindByEmail(old(users.rows), old(users.nextId), input.email).None? ==>
      var u := UserService.NewUser(old(users.nextId), input, salt);
      resp == Response(201, UserBody(WithoutPassword(u))) &&
      users.rows == old(users.rows)[u.id := u] && users.nextId == old(users.nextId) + 1
  {
    var outcome := UserService.Register(users, input, salt);
    resp := RegisterResponse(outcome);
  }

  /**
   * `login(req, res)` at Unix millisecond `nowMs`, signing with `key`: 401 and no cookie on
   * bad credentials; otherwise 200 with the user and an access token, and a cookie naming
   * the user's one refresh session.
   */
  method Login(users: UserTable, sessions: RefreshTokenTable, email: string, password: string,
               rememberMe: JsValue, key: string, nowMs: nat)
    returns (resp: Response, cookie: Option<Cookie>)
    requires sessions.Valid()
    modifies sessions
    ensures sessions.Valid()
    ensures match UserService.CheckCredentials(UserService.FindByEmail(users.rows, users.nextId, email), password)
      case Failure(_) =>
        resp == Response(401, MessageBody(InvalidLoginMessage)) && cookie.None? &&
        sessions.rows == old(sessions.rows)
      case Success(u) =>
        resp == Response(200, LoginBody(WithoutPassword(u), GenerateToken(u.id, key, nowMs))) &&
        cookie.Some? && cookie.value == SessionCookie(cookie.value.value, rememberMe) &&
        cookie.value.value !in old(sessions.rows) && cookie.value.value != "" &&
        sessions.rows == ReplaceSessions(old(sessions.rows), u.id,
          RefreshToken(cookie.value.value, u.id, SessionExpiry(nowMs)))
  {
    var outcome := UserService.Login(users, sessions, email, password, key, nowMs);
    var answer := LoginResponse(outcome, rememberMe);
    resp, cookie := answer.0, answer.1;
  }
}
