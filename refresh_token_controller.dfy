/**
 * `RefreshTokenController.handle`: reads the refresh-session cookie and answers with a new
 * access token, or 401.
 */
module RefreshTokenController {
  import opened Wrappers
  import opened JsText
  import opened Store
  import opened Http
  import opened TokenProvider
  import opened RefreshTokenProvider
  import RefreshTokenService
  import EnsureAuthenticated

  const MissingMessage: string := "Refresh token missing"
  const ExpiredMessage: string := "Refresh token expired"

  /**
   * The answer for cookie `cookie` (`None` when absent) at Unix millisecond `nowMs`: an
   * absent or empty cookie never reaches the service; an unknown and an expired session
   * get the same answer.
   */
  function Handle(cookie: Option<string>, rows: map<string, RefreshToken>, key: string, nowMs: nat): (resp: Response)
    ensures cookie.None? || cookie.value == "" ==> resp == Response(401, MessageBody(MissingMessage))
    ensures resp.status == 200 <==>
      cookie.Some? && cookie.value != "" && RefreshTokenService.Execute(rows, cookie.value, key, nowMs).Success?
    ensures resp.status == 200 ==>
      resp.body == TokenBody(GenerateToken(rows[cookie.value].userId, key, nowMs))
    ensures resp.status != 200 ==> resp.status == 401
    ensures cookie.Some? && cookie.value != "" && RefreshTokenService.Execute(rows, cookie.value, key, nowMs).Failure? ==>
      resp == Response(401, MessageBody(ExpiredMessage))
  {
    if cookie.None? || cookie.value == "" then Response(401, MessageBody(MissingMessage))
    else
      match RefreshTokenService.Execute(rows, cookie.value, key, nowMs)
      case Success(token) => Response(200, TokenBody(token))
      case Failure(_) => Response(401, MessageBody(ExpiredMessage))
  }

  /**
   * With the cookie a login set at `loginMs`, refreshing answers a new token for the user up
   * to the session's expiry second, and 401 "Refresh token expired" afterwards.
   */
  lemma RefreshAfterLogin(rows: map<string, RefreshToken>, userId: nat, session: RefreshToken,
                          key: string, loginMs: nat, nowMs: nat)
    requires session.userId == userId && session.expiresIn == SessionExpiry(loginMs)
    requires session.id != ""
    ensures Handle(Some(session.id), ReplaceSessions(rows, userId, session), key, nowMs) ==
      if nowMs <= (loginMs / 1000 + SessionLifetime) * 1000
      then Response(200, TokenBody(GenerateToken(userId, key, nowMs)))
      else Response(401, MessageBody(ExpiredMessage))
  {
    RefreshTokenService.SessionHonouredForThirtyDays(rows, userId, session, key, loginMs, nowMs);
  }

  /**
   * With `JWT_SECRET` set, a token obtained by refreshing is admitted by the authentication
   * middleware as the session's owner for fifteen minutes. (With it unset, the two fallback
   * secrets differ and the middleware refuses the token: see
   * `EnsureAuthenticated.FallbackSecretsRejectIssuedTokens`.)
   */
  lemma RefreshedTokenAdmitted(cookie: Option<string>, rows: map<string, RefreshToken>, env: Option<string>,
                               nowMs: nat, laterSec: nat)
    requires env.Some? && env.value != ""
    requires Handle(cookie, rows, IssuerSecret(env), nowMs).status == 200
    requires laterSec < nowMs / 1000 + AccessTokenLifetime
    ensures
      var token := Handle(cookie, rows, IssuerSecret(env), nowMs).body.token;
      EnsureAuthenticated.Authenticate(Some(EnsureAuthenticated.BearerHeader(token)),
        EnsureAuthenticated.VerifierSecret(env), laterSec) ==
      EnsureAuthenticated.Admitted(Finite(rows[cookie.value].userId as real))
  {
    EnsureAuthenticated.IssuedTokenAdmitted(rows[cookie.value].userId, env.value, nowMs, laterSec);
  }

  /**
   * With the corrected verifier fallback, a refreshed token is admitted for fifteen minutes
   * whatever `JWT_SECRET` holds.
   */
  lemma CorrectedRefreshedTokenAdmitted(cookie: Option<string>, rows: map<string, RefreshToken>, env: Option<string>,
                                        nowMs: nat, laterSec: nat)
    requires Handle(cookie, rows, IssuerSecret(env), nowMs).status == 200
    requires laterSec < nowMs / 1000 + AccessTokenLifetime
    ensures
      var token := Handle(cookie, rows, IssuerSecret(env), nowMs).body.token;
      EnsureAuthenticated.Authenticate(Some(EnsureAuthenticated.BearerHeader(token)),
        EnsureAuthenticated.CorrectedVerifierSecret(env), laterSec) ==
      EnsureAuthenticated.Admitted(Finite(rows[cookie.value].userId as real))
  {
    EnsureAuthenticated.CorrectedSecretAdmitsIssuedTokens(env, rows[cookie.value].userId, nowMs, laterSec);
  }
}
