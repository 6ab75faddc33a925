/**
 * The `jsonwebtoken` library, modelled symbolically. A token is a string of decimal
 * fields joined by '.': issued-at, expiry, the length of the subject, the subject's
 * character codes, then the signing key's character codes. Carrying the key itself
 * stands for a perfect signature: verification succeeds exactly when the verifier holds
 * the same key. No other claim is carried, as the issuer signs the empty payload `{}`.
 */
module Jwt {
  import opened Wrappers
  import opened JsText

  /** The registered claims of a token: `sub`, and `iat`/`exp` in Unix seconds. */
  datatype Claims = Claims(sub: string, iat: nat, exp: nat)

  /** Why `jwt.verify` throws. */
  datatype VerifyError =
    | MustBeProvided    // the token is undefined or the empty string
    | Malformed         // not of the token shape
    | InvalidSignature  // signed with another key
    | Expired           // the clock has reached `exp`

  // ---------------------------------------------------------------------------
  // the wire form: decimal fields joined by '.'

  lemma DigitsHaveNoDot(s: string)
    requires AllDigits(s)
    ensures '.' !in s && ' ' !in s
  {
    forall k | 0 <= k < |s| ensures s[k] != '.' && s[k] != ' ' {
      assert IsDigit(s[k]);
    }
  }

  function FieldStrings(ns: seq<nat>): (parts: seq<string>)
    ensures |parts| == |ns|
  {
    seq(|ns|, k requires 0 <= k < |ns| => NatToString(ns[k]))
  }

  function EncodeFields(ns: seq<nat>): string
    requires |ns| >= 1
  {
    Join(FieldStrings(ns), '.')
  }

  function DecodeFields(s: string): Option<seq<nat>> {
    var parts := Split(s, '.');
    if forall k :: 0 <= k < |parts| ==> parts[k] != "" && AllDigits(parts[k]) then
      Some(seq(|parts|, k requires 0 <= k < |parts| && AllDigits(parts[k]) => DigitsValue(parts[k])))
    else None
  }

  lemma {:induction false} DecodeEncodeFields(ns: seq<nat>)
    requires |ns| >= 1
    ensures DecodeFields(EncodeFields(ns)) == Some(ns)
  {
    var parts := FieldStrings(ns);
    forall k | 0 <= k < |parts| ensures '.' !in parts[k] {
      DigitsHaveNoDot(parts[k]);
    }
    SplitJoin(parts, '.');
    forall k | 0 <= k < |ns| ensures DigitsValue(parts[k]) == ns[k] {
      DigitsValueOfNatToString(ns[k]);
    }
    assert forall k :: 0 <= k < |parts| ==> parts[k] != "" && AllDigits(parts[k]);
    var vs := seq(|parts|, k requires 0 <= k < |parts| && AllDigits(parts[k]) => DigitsValue(parts[k]));
    assert vs == ns;
  }

  /** Every character of an encoded field list is a digit or '.'. */
  lemma {:induction false} EncodeFieldsChars(parts: seq<string>)
    requires |parts| >= 1
    requires forall k :: 0 <= k < |parts| ==> AllDigits(parts[k])
    ensures ' ' !in Join(parts, '.')
  {
    DigitsHaveNoDot(parts[0]);
    if |parts| > 1 {
      EncodeFieldsChars(parts[1..]);
    }
  }

  // ---------------------------------------------------------------------------
  // character codes

  predicate IsCharCode(n: nat) {
    n < 0xD800 || 0xE000 <= n < 0x11_0000
  }

  function Codes(s: string): (ns: seq<nat>)
    ensures |ns| == |s|
    ensures forall k :: 0 <= k < |ns| ==> IsCharCode(ns[k])
  {
    seq(|s|, k requires 0 <= k < |s| => s[k] as nat)
  }

  function FromCodes(ns: seq<nat>): string
    requires forall k :: 0 <= k < |ns| ==> IsCharCode(ns[k])
  {
    seq(|ns|, k requires 0 <= k < |ns| && IsCharCode(ns[k]) => ns[k] as char)
  }

  // ---------------------------------------------------------------------------
  // sign and verify

  function Payload(c: Claims, key: string): seq<nat> {
    [c.iat, c.exp, |c.sub|] + Codes(c.sub) + Codes(key)
  }

  /** `jwt.sign`: the token string for claims `c` signed with `key`. */
  function Sign(c: Claims, key: string): string {
    EncodeFields(Payload(c, key))
  }

  /** The claims of a token and the key it was signed with, when it has the token shape. */
  function Decode(token: string): Option<(Claims, string)> {
    match DecodeFields(token)
    case None => None
    case Some(ns) =>
      if |ns| < 3 || ns[2] > |ns| - 3 || !(forall k :: 3 <= k < |ns| ==> IsCharCode(ns[k])) then None
      else Some((Claims(FromCodes(ns[3..3 + ns[2]]), ns[0], ns[1]), FromCodes(ns[3 + ns[2]..])))
  }

  /**
   * `jwt.verify(token, key)` at Unix second `nowSec`: the token must be present, well
   * formed, signed with `key`, and not yet at its expiry (`exp` is exclusive).
   */
  function Verify(token: string, key: string, nowSec: nat): Result<Claims, VerifyError> {
    if token == "" then Failure(MustBeProvided)
    else
      match Decode(token)
      case None => Failure(Malformed)
      case Some((claims, signedWith)) =>
        if signedWith != key then Failure(InvalidSignature)
        else if nowSec >= claims.exp then Failure(Expired)
        else Success(claims)
  }

  lemma DecodeSign(c: Claims, key: string)
    ensures Decode(Sign(c, key)) == Some((c, key))
  {
    var ns := Payload(c, key);
    DecodeEncodeFields(ns);
    assert ns[3..3 + |c.sub|] == Codes(c.sub);
    assert ns[3 + |c.sub|..] == Codes(key);
    assert FromCodes(Codes(c.sub)) == c.sub;
    assert FromCodes(Codes(key)) == key;
  }

  /** A signed token is never empty and never contains a space. */
  lemma SignedTokenShape(c: Claims, key: string)
    ensures Sign(c, key) != "" && ' ' !in Sign(c, key)
  {
    var parts := FieldStrings(Payload(c, key));
    EncodeFieldsChars(parts);
    assert |parts[0]| >= 1;
    assert |Sign(c, key)| >= 1 by {
      JoinLength(parts, '.');
    }
  }

  lemma {:induction false} JoinLength(parts: seq<string>, sep: char)
    requires |parts| >= 1
    ensures |Join(parts, sep)| >= |parts[0]|
  {
    if |parts| > 1 {
      JoinLength(parts[1..], sep);
    }
  }

  /**
   * What verifying a signed token gives: the key is checked before the expiry, and the
   * claims come back unchanged when both pass.
   */
  lemma VerifySigned(c: Claims, key: string, verifyKey: string, nowSec: nat)
    ensures Verify(Sign(c, key), verifyKey, nowSec) ==
      if verifyKey != key then Failure(InvalidSignature)
      else if nowSec >= c.exp then Failure(Expired)
      else Success(c)
  {
    SignedTokenShape(c, key);
    DecodeSign(c, key);
  }
}
