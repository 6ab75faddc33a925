/**
 * `RefreshTokenService.execute`: trades a refresh-session id for a new access token. It
 * only reads the session table.
 */
module RefreshTokenService {
  import opened Wrappers
  import opened Store
  import opened TokenProvider
  import opened RefreshTokenProvider

  const InvalidMessage: string := "Refresh token invalid"
  const ExpiredMessage: string := "Refresh Token Expired"

  /**
   * `dayjs().isAfter(dayjs.unix(expiresIn))` at Unix millisecond `nowMs`: strictly after
   * the expiry second, compared at millisecond precision.
   */
  predicate SessionExpired(row: RefreshToken, nowMs: nat) {
    nowMs > row.expiresIn * 1000
  }

  /**
   * `execute(id)` at Unix millisecond `nowMs`, with `key` the issuer's signing key: an
   * unknown id is invalid, a session past its expiry is expired, and otherwise the owner
   * of the session gets a fresh access token.
   */
  function Execute(rows: map<string, RefreshToken>, id: string, key: string, nowMs: nat): (r: Result<string, string>)
    ensures r.Success? <==> id in rows && !SessionExpired(rows[id], nowMs)
    ensures r.Success? ==> r.value == GenerateToken(rows[id].userId, key, nowMs)
    ensures r.Failure? ==> r.error == (if id in rows then ExpiredMessage else InvalidMessage)
  {
    if id !in rows then Failure(InvalidMessage)
    else if SessionExpired(rows[id], nowMs) then Failure(ExpiredMessage)
    else Success(GenerateToken(rows[id].userId, key, nowMs))
  }

  /**
   * A session created at `createdMs` is honoured up to and including its expiry second
   * (thirty days later) and refused from the next millisecond on.
   */
  lemma {:induction false} SessionHonouredForThirtyDays(
      rows: map<string, RefreshToken>, userId: nat, created: RefreshToken,
      key: string, createdMs: nat, nowMs: nat)
    requires created.userId == userId && created.expiresIn == SessionExpiry(createdMs)
    ensures Execute(ReplaceSessions(rows, userId, created), created.id, key, nowMs) ==
      if nowMs <= (createdMs / 1000 + SessionLifetime) * 1000
      then Success(GenerateToken(userId, key, nowMs))
      else Failure(ExpiredMessage)
  {
    var after := ReplaceSessions(rows, userId, created);
    assert created.id in after && after[created.id] == created;
  }

  /** Once a user logs in again, every earlier session of theirs is invalid. */
  lemma {:induction false} ReplacedSessionInvalid(
      rows: map<string, RefreshToken>, userId: nat, created: RefreshToken,
      oldId: string, key: string, nowMs: nat)
    requires created.userId == userId
    requires oldId in rows && rows[oldId].userId == userId && oldId != created.id
    ensures Execute(ReplaceSessions(rows, userId, created), oldId, key, nowMs) == Failure(InvalidMessage)
  {
    assert oldId !in WithoutUser(rows, userId);
  }

  /** At the expiry millisecond itself the session is still honoured (`isAfter` is strict). */
  lemma ExpiryBoundary(rows: map<string, RefreshToken>, id: string, key: string)
    requires id in rows && rows[id].expiresIn >= 0
    ensures Execute(rows, id, key, rows[id].expiresIn * 1000) == Success(GenerateToken(rows[id].userId, key, rows[id].expiresIn * 1000))
    ensures Execute(rows, id, key, rows[id].expiresIn * 1000 + 1) == Failure(ExpiredMessage)
  {
  }
}
