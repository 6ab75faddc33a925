/**
 * `GenerateTokenProvider`: the short-lived access token a user receives at login and at
 * every refresh.
 */
module TokenProvider {
  import opened Wrappers
  import opened JsText
  import opened Jwt

  /** The key the issuer signs with when `JWT_SECRET` is unset or empty. */
  const IssuerFallbackSecret: string := "sua_chave_secreta"

  /** `expiresIn: "15m"`, in seconds. */
  const AccessTokenLifetime: nat := 15 * 60

  /** `process.env.JWT_SECRET || "sua_chave_secreta"`: the signing key is never empty. */
  function IssuerSecret(env: Option<string>): (key: string)
    ensures key != ""
    ensures env.Some? && env.value != "" ==> key == env.value
  {
    if env.Some? && env.value != "" then env.value else IssuerFallbackSecret
  }

  /** The claims of a token issued to `userId` at `nowMs`: subject `String(userId)`, 15 minutes of life. */
  function AccessClaims(userId: nat, nowMs: nat): Claims {
    Claims(NatToString(userId), nowMs / 1000, nowMs / 1000 + AccessTokenLifetime)
  }

  /**
   * `GenerateTokenProvider.execute(userId)` at Unix millisecond `nowMs`, signing with `key`:
   * a token that can follow "Bearer " (non-empty, no space) and carries the user's claims
   * and the key.
   */
  function GenerateToken(userId: nat, key: string, nowMs: nat): (token: string)
    ensures token != "" && ' ' !in token
    ensures Decode(token) == Some((AccessClaims(userId, nowMs), key))
  {
    SignedTokenShape(AccessClaims(userId, nowMs), key);
    DecodeSign(AccessClaims(userId, nowMs), key);
    Sign(AccessClaims(userId, nowMs), key)
  }

  /**
   * Verifying an issued token: with the issuer's key it is accepted until 900 seconds after
   * the second it was issued in, and its subject reads back as the user's id; with any
   * other key it is rejected.
   */
  lemma VerifyGeneratedToken(userId: nat, key: string, verifyKey: string, nowMs: nat, nowSec: nat)
    ensures Verify(GenerateToken(userId, key, nowMs), verifyKey, nowSec) ==
      if verifyKey != key then Failure(InvalidSignature)
      else if nowSec >= nowMs / 1000 + AccessTokenLifetime then Failure(Expired)
      else Success(AccessClaims(userId, nowMs))
    ensures Number(AccessClaims(userId, nowMs).sub) == Finite(userId as real)
  {
    VerifySigned(AccessClaims(userId, nowMs), key, verifyKey, nowSec);
    NumberOfNatToString(userId);
  }

  /** Tokens issued to two different users differ, whatever the keys and the clock. */
  lemma GeneratedTokensIdentifyUser(u1: nat, u2: nat, key1: string, key2: string, t1: nat, t2: nat)
    requires GenerateToken(u1, key1, t1) == GenerateToken(u2, key2, t2)
    ensures u1 == u2
  {
    DecodeSign(AccessClaims(u1, t1), key1);
    DecodeSign(AccessClaims(u2, t2), key2);
    DigitsValueOfNatToString(u1);
    DigitsValueOfNatToString(u2);
  }
}
