/**
 * `UserService`: registration, which stores a bcrypt digest of the password, and login,
 * which checks the password and opens a refresh session.
 */
module UserService {
  import opened Wrappers
  import opened Store
  import opened Bcrypt
  import opened TokenProvider
  import opened RefreshTokenProvider

  /** The cost factor passed to `bcrypt.hash`. */
  const SaltRounds: nat := 8

  const AlreadyExistsMessage: string := "User already exists"
  const InvalidCredentialsMessage: string := "Invalid credentials"

  /** `prisma.user.findUnique({ where: { email } })` over a table whose keys are below `nextId`. */
  function FindByEmail(rows: map<nat, User>, nextId: nat, email: string): (found: Option<User>)
    ensures found.Some? ==> found.value in rows.Values && found.value.email == email
    ensures KeyedBelow(rows, UserId, nextId) && found.None? ==>
      forall id :: id in rows ==> rows[id].email != email
  {
    var matching := Where(Listing(rows, nextId), (u: User) => u.email == email);
    if matching == [] then None else Some(matching[0])
  }

  /** Emails are unique, so looking a user's email up finds that user. */
  lemma FindByEmailFindsOwner(rows: map<nat, User>, nextId: nat, id: nat)
    requires KeyedBelow(rows, UserId, nextId) && UniqueEmails(rows)
    requires id in rows
    ensures FindByEmail(rows, nextId, rows[id].email) == Some(rows[id])
  {
    var found := FindByEmail(rows, nextId, rows[id].email);
    assert found.Some?;
    var other :| other in rows && rows[other] == found.value;
  }

  /** The fields a registration request carries. */
  datatype RegisterInput = RegisterInput(name: string, email: string, password: string)

  /** The row registration inserts under key `id`, with the digest `bcrypt.hash(password, 8)` drew under `salt`. */
  function NewUser(id: nat, input: RegisterInput, salt: nat): User {
    User(id, input.name, input.email, Hash(input.password, SaltRounds, salt))
  }

  /**
   * `register(input)`: refuses an email already in use without inserting anything;
   * otherwise inserts the user under the next key and returns it without its password.
   */
  method Register(users: UserTable, input: RegisterInput, salt: nat) returns (r: Result<PublicUser, string>)
    requires users.Valid()
    modifies users
    ensures users.Valid()
    ensures FindByEmail(old(users.rows), old(users.nextId), input.email).Some? ==>
      r == Failure(AlreadyExistsMessage) && users.rows == old(users.rows) && users.nextId == old(users.nextId)
    ensures FindByEmail(old(users.rows), old(users.nextId), input.email).None? ==>
      var u := NewUser(old(users.nextId), input, salt);
      r == Success(WithoutPassword(u)) &&
      users.rows == old(users.rows)[u.id := u] && users.nextId == old(users.nextId) + 1
  {
    var existing := FindByEmail(users.rows, users.nextId, input.email);
    if existing.Some? {
      return Failure(AlreadyExistsMessage);
    }
    var u := NewUser(users.nextId, input, salt);
    users.rows := users.rows[u.id := u];
    users.nextId := users.nextId + 1;
    r := Success(WithoutPassword(u));
  }

  /**
   * The two checks of `login`: an unknown email and a wrong password fail with the same
   * message, so a caller cannot tell which one it was.
   */
  function CheckCredentials(found: Option<User>, password: string): (r: Result<User, string>)
    ensures r.Success? <==> found.Some? && Compare(password, found.value.password)
    ensures r.Success? ==> r.value == found.value
    ensures r.Failure? ==> r.error == InvalidCredentialsMessage
  {
    if found.None? then Failure(InvalidCredentialsMessage)
    else if !Compare(password, found.value.password) then Failure(InvalidCredentialsMessage)
    else Success(found.value)
  }

  /** What a successful login returns. */
  datatype LoginResult = LoginResult(user: PublicUser, token: string, refreshToken: RefreshToken)

  /**
   * `login({ email, password })` at Unix millisecond `nowMs`, signing with `key`: on bad
   * credentials the sessions are untouched; otherwise the user gets an access token and
   * one new refresh session replacing their earlier ones.
   */
  method Login(users: UserTable, sessions: RefreshTokenTable, email: string, password: string, key: string, nowMs: nat)
    returns (r: Result<LoginResult, string>)
    requires sessions.Valid()
    modifies sessions
    ensures sessions.Valid()
    ensures match CheckCredentials(FindByEmail(users.rows, users.nextId, email), password)
      case Failure(e) => r == Failure(e) && sessions.rows == old(sessions.rows)
      case Success(u) =>
        r.Success? && r.value.user == WithoutPassword(u) &&
        r.value.token == GenerateToken(u.id, key, nowMs) &&
        r.value.refreshToken.userId == u.id &&
        r.value.refreshToken.expiresIn == SessionExpiry(nowMs) &&
        r.value.refreshToken.id !in old(sessions.rows) && r.value.refreshToken.id != "" &&
        sessions.rows == ReplaceSessions(old(sessions.rows), u.id, r.value.refreshToken)
  {
    var checked := CheckCredentials(FindByEmail(users.rows, users.nextId, email), password);
    if checked.Failure? {
      return Failure(checked.error);
    }
    var u := checked.value;
    var token := GenerateToken(u.id, key, nowMs);
    var session := Execute(sessions, u.id, nowMs);
    r := Success(LoginResult(WithoutPassword(u), token, session));
  }

  /** Registering keeps emails unique and keys below the counter. */
  lemma RegisterKeepsTableValid(rows: map<nat, User>, nextId: nat, input: RegisterInput, salt: nat)
    requires 1 <= nextId && KeyedBelow(rows, UserId, nextId) && UniqueEmails(rows)
    requires FindByEmail(rows, nextId, input.email).None?
    ensures KeyedBelow(rows[nextId := NewUser(nextId, input, salt)], UserId, nextId + 1)
    ensures UniqueEmails(rows[nextId := NewUser(nextId, input, salt)])
  {
  }

  /**
   * After a registration, logging in with the registered email accepts exactly the
   * passwords bcrypt cannot tell from the registered one (the password itself, and, when it
   * is at least 72 bytes long, every password sharing its first 72 bytes), and finds the new
   * user.
   */
  lemma RegisterThenLogin(rows: map<nat, User>, nextId: nat, input: RegisterInput, salt: nat, attempt: string)
    requires 1 <= nextId && KeyedBelow(rows, UserId, nextId) && UniqueEmails(rows)
    requires FindByEmail(rows, nextId, input.email).None?
    ensures
      var u := NewUser(nextId, input, salt);
      CheckCredentials(FindByEmail(rows[nextId := u], nextId + 1, input.email), attempt) ==
        if Indistinguishable(attempt, input.password) then Success(u) else Failure(InvalidCredentialsMessage)
  {
    var u := NewUser(nextId, input, salt);
    RegisterKeepsTableValid(rows, nextId, input, salt);
    FindByEmailFindsOwner(rows[nextId := u], nextId + 1, nextId);
    CompareHash(input.password, attempt, SaltRounds, salt);
  }

  /** A registered password shorter than 72 bytes is the only password that logs in. */
  lemma ShortPasswordLoginExact(rows: map<nat, User>, nextId: nat, input: RegisterInput, salt: nat, attempt: string)
    requires 1 <= nextId && KeyedBelow(rows, UserId, nextId) && UniqueEmails(rows)
    requires FindByEmail(rows, nextId, input.email).None?
    requires |Utf8(input.password)| < KeyBytes
    ensures
      var u := NewUser(nextId, input, salt);
      CheckCredentials(FindByEmail(rows[nextId := u], nextId + 1, input.email), attempt) ==
        if attempt == input.password then Success(u) else Failure(InvalidCredentialsMessage)
  {
    RegisterThenLogin(rows, nextId, input, salt, attempt);
    ShortPasswordsExact(input.password, attempt, SaltRounds, salt);
    CompareHash(input.password, attempt, SaltRounds, salt);
  }
}
