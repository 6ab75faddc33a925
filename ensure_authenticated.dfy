/**
 * The `ensureAuthenticated` middleware: admits a request whose `Authorization` header
 * carries a valid access token in its second space-separated field, and records the
 * token's subject as the request's user id.
 */
module EnsureAuthenticated {
  import opened Wrappers
  import opened JsText
  import opened Jwt
  import opened TokenProvider

  const MissingMessage: string := "Token missing"
  const InvalidMessage: string := "Invalid token"

  /** The key the middleware verifies with when `JWT_SECRET` is unset or empty, as written. */
  const VerifierFallbackSecret: string := "secret-development-key"

  /** `process.env.JWT_SECRET || "secret-development-key"`, as written. */
  function VerifierSecret(env: Option<string>): (key: string)
    ensures key != ""
    ensures env.Some? && env.value != "" ==> key == env.value
  {
    if env.Some? && env.value != "" then env.value else VerifierFallbackSecret
  }

  /** The verifier key the issuer's fallback calls for: the same key the tokens were signed with. */
  function CorrectedVerifierSecret(env: Option<string>): (key: string)
    ensures key == IssuerSecret(env)
  {
    IssuerSecret(env)
  }

  /** `const [, token] = header.split(" ")`: the second field, `undefined` when there is none. */
  function SecondField(header: string): (token: Option<string>)
    ensures token.Some? ==> ' ' !in token.value
    ensures ' ' !in header ==> token.None?
  {
    var parts := Split(header, ' ');
    if |parts| >= 2 then Some(parts[1]) else None
  }

  /** The header a client sends with an access token. */
  function BearerHeader(token: string): string {
    "Bearer " + token
  }

  /** Whatever word precedes the first space, the field after it is read back. */
  lemma SecondFieldOf(scheme: string, token: string)
    requires ' ' !in scheme && ' ' !in token
    ensures SecondField(scheme + " " + token) == Some(token)
  {
    var s := scheme + " " + token;
    IndexOfAfterPrefix(scheme, ' ', token);
    assert s[..|scheme|] == scheme;
    assert s[|scheme| + 1..] == token;
    assert IndexOf(token, ' ') == |token|;
    assert Split(token, ' ') == [token];
    assert Split(s, ' ') == [scheme, token];
  }

  /** What the middleware decides: let the request through as a user id, or answer it. */
  datatype Outcome =
    | Admitted(userId: JsNumber)
    | Rejected(status: nat, message: string)

  /**
   * The decision for header `header` (`None` when absent), verifying with `key` at Unix
   * second `nowSec`: an absent or empty header is missing; a header without a second
   * field, or whose second field does not verify, is invalid.
   */
  function Authenticate(header: Option<string>, key: string, nowSec: nat): (o: Outcome)
    ensures o.Rejected? ==> o.status == 401
    ensures o.Rejected? && o.message == MissingMessage <==> header.None? || header.value == ""
    ensures o.Admitted? ==> exists t :: SecondField(header.value) == Some(t) && Verify(t, key, nowSec).Success?
    ensures o.Rejected? && o.message != MissingMessage ==> o.message == InvalidMessage
    ensures (header.Some? && header.value != "" && SecondField(header.value).Some? &&
             Verify(SecondField(header.value).value, key, nowSec).Success?) ==>
      o == Admitted(Number(Verify(SecondField(header.value).value, key, nowSec).value.sub))
  {
    if header.None? || header.value == "" then Rejected(401, MissingMessage)
    else
      var token := SecondField(header.value);
      if token.None? then Rejected(401, InvalidMessage)  // `jwt.verify(undefined, key)` throws
      else
        match Verify(token.value, key, nowSec)
        case Failure(_) => Rejected(401, InvalidMessage)
        case Success(claims) => Admitted(Number(claims.sub))
  }

  /**
   * A token issued to `userId` and sent as a Bearer header is admitted as that user while it
   * lives, when issuer and verifier hold the same key, and rejected as invalid afterwards.
   */
  lemma IssuedTokenAdmitted(userId: nat, key: string, issuedMs: nat, nowSec: nat)
    ensures Authenticate(Some(BearerHeader(GenerateToken(userId, key, issuedMs))), key, nowSec) ==
      if nowSec < issuedMs / 1000 + AccessTokenLifetime then Admitted(Finite(userId as real))
      else Rejected(401, InvalidMessage)
  {
    var token := GenerateToken(userId, key, issuedMs);
    SecondFieldOf("Bearer", token);
    assert BearerHeader(token) == "Bearer" + " " + token;
    VerifyGeneratedToken(userId, key, key, issuedMs, nowSec);
  }

  /** A token signed with another key is never admitted. */
  lemma ForeignTokenRejected(userId: nat, key: string, verifyKey: string, issuedMs: nat, nowSec: nat)
    requires key != verifyKey
    ensures Authenticate(Some(BearerHeader(GenerateToken(userId, key, issuedMs))), verifyKey, nowSec) ==
      Rejected(401, InvalidMessage)
  {
    var token := GenerateToken(userId, key, issuedMs);
    SecondFieldOf("Bearer", token);
    assert BearerHeader(token) == "Bearer" + " " + token;
    VerifyGeneratedToken(userId, key, verifyKey, issuedMs, nowSec);
  }

  /** The scheme word is never checked: any word before the space is as good as "Bearer". */
  lemma SchemeIgnored(scheme: string, token: string, key: string, nowSec: nat)
    requires scheme != "" && ' ' !in scheme && ' ' !in token
    ensures Authenticate(Some(scheme + " " + token), key, nowSec) ==
      Authenticate(Some(BearerHeader(token)), key, nowSec)
  {
    SecondFieldOf(scheme, token);
    SecondFieldOf("Bearer", token);
    assert BearerHeader(token) == "Bearer" + " " + token;
  }

  /** A header with no space in it, such as a bare token, is invalid. */
  lemma BareTokenRejected(header: string, key: string, nowSec: nat)
    requires header != "" && ' ' !in header
    ensures Authenticate(Some(header), key, nowSec) == Rejected(401, InvalidMessage)
  {
    assert IndexOf(header, ' ') == |header|;
  }

  // ---------------------------------------------------------------------------
  // the two fallback secrets

  /**
   * As written, with `JWT_SECRET` unset or empty the issuer signs with one fallback key and
   * the middleware verifies with another, so every token the server issues is refused.
   */
  lemma FallbackSecretsRejectIssuedTokens(env: Option<string>, userId: nat, issuedMs: nat, nowSec: nat)
    requires env.None? || env.value == ""
    ensures Authenticate(Some(BearerHeader(GenerateToken(userId, IssuerSecret(env), issuedMs))), VerifierSecret(env), nowSec) ==
      Rejected(401, InvalidMessage)
  {
    ForeignTokenRejected(userId, IssuerSecret(env), VerifierSecret(env), issuedMs, nowSec);
  }

  /** With the corrected fallback, an issued token is admitted during its fifteen minutes, whatever `JWT_SECRET` holds. */
  lemma CorrectedSecretAdmitsIssuedTokens(env: Option<string>, userId: nat, issuedMs: nat, nowSec: nat)
    requires nowSec < issuedMs / 1000 + AccessTokenLifetime
    ensures Authenticate(Some(BearerHeader(GenerateToken(userId, IssuerSecret(env), issuedMs))), CorrectedVerifierSecret(env), nowSec) ==
      Admitted(Finite(userId as real))
  {
    IssuedTokenAdmitted(userId, IssuerSecret(env), issuedMs, nowSec);
  }

  // ---------------------------------------------------------------------------
  // the middleware over a request and its response

  /** The parts of an Express request and response the middleware touches. */
  class Exchange {
    var user: Option<JsNumber>       // `request.user.id`
    var status: Option<nat>          // the response status, once answered
    var message: Option<string>      // the response body's `message`
    var nextCalls: nat               // how many times `next()` was called

    constructor()
      ensures user.None? && status.None? && message.None? && nextCalls == 0
    {
      user := None;
      status := None;
      message := None;
      nextCalls := 0;
    }
  }

  /**
   * Runs the middleware on `ex` with the `Authorization` header `header`, `JWT_SECRET` set to
   * `env`, at Unix millisecond `nowMs`, verifying with the key the middleware computes as
   * written: either records the user and calls `next()` once, or answers 401 and leaves the
   * user alone.
   */
  method Handle(ex: Exchange, header: Option<string>, env: Option<string>, nowMs: nat)
    modifies ex
    ensures match Authenticate(header, VerifierSecret(env), nowMs / 1000)
      case Admitted(id) =>
        ex.user == Some(id) && ex.nextCalls == old(ex.nextCalls) + 1 &&
        ex.status == old(ex.status) && ex.message == old(ex.message)
      case Rejected(code, text) =>
        ex.status == Some(code) && ex.message == Some(text) &&
        ex.user == old(ex.user) && ex.nextCalls == old(ex.nextCalls)
  {
    if header.None? || header.value == "" {
      ex.status, ex.message := Some(401), Some(MissingMessage);
      return;
    }
    var token := SecondField(header.value);
    var key := VerifierSecret(env);
    var verified := if token.Some? then Verify(token.value, key, nowMs / 1000) else Failure(MustBeProvided);
    if verified.Failure? {
      ex.status, ex.message := Some(401), Some(InvalidMessage);
      return;
    }
    ex.user := Some(Number(verified.value.sub));
    ex.nextCalls := ex.nextCalls + 1;
  }
}
