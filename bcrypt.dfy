/**
 * The `bcryptjs` library, modelled symbolically: a digest is a term built from the key the
 * password yields, the cost factor and a random salt (the salt is a parameter, since the
 * library draws it at random). Only `Compare` looks inside a digest.
 *
 * bcrypt's key is the UTF-8 encoding of the password, of which only the first 72 bytes are
 * used: two passwords that agree on those bytes have the same digests.
 */
module Bcrypt {

  /** How many bytes of the password bcrypt's key schedule takes. */
  const KeyBytes: nat := 72

  /** The UTF-8 encoding of one character: one to four bytes, by the size of its code point. */
  function EncodeChar(c: char): (bytes: seq<nat>)
    ensures 1 <= |bytes| <= 4
  {
    var n := c as int;
    if n < 0x80 then [n]
    else if n < 0x800 then [0xC0 + n / 64, 0x80 + n % 64]
    else if n < 0x10000 then [0xE0 + n / 4096, 0x80 + n / 64 % 64, 0x80 + n % 64]
    else [0xF0 + n / 262144, 0x80 + n / 4096 % 64, 0x80 + n / 64 % 64, 0x80 + n % 64]
  }

  /** The UTF-8 encoding of a string: the encodings of its characters, one after another. */
  function Utf8(s: string): (bytes: seq<nat>)
    ensures |bytes| >= |s|
  {
    if s == [] then [] else EncodeChar(s[0]) + Utf8(s[1..])
  }

  /** How many bytes the character a lead byte starts takes. */
  function LeadLength(lead: nat): nat {
    if lead < 0x80 then 1 else if lead < 0xE0 then 2 else if lead < 0xF0 then 3 else 4
  }

  /** The six bits a continuation byte carries. */
  function Payload(b: nat): int {
    b - 0x80
  }

  /** The code point a character's encoding carries. */
  function CodePoint(bytes: seq<nat>): int
    requires 1 <= |bytes| <= 4
  {
    var lead: int := bytes[0];
    if |bytes| == 1 then lead
    else if |bytes| == 2 then (lead - 0xC0) * 64 + Payload(bytes[1])
    else if |bytes| == 3 then ((lead - 0xE0) * 64 + Payload(bytes[1])) * 64 + Payload(bytes[2])
    else (((lead - 0xF0) * 64 + Payload(bytes[1])) * 64 + Payload(bytes[2])) * 64 + Payload(bytes[3])
  }

  /** A character's lead byte tells its length, and its bytes give back its code point. */
  lemma EncodeCharDecodes(c: char)
    ensures LeadLength(EncodeChar(c)[0]) == |EncodeChar(c)|
    ensures CodePoint(EncodeChar(c)) == c as int
  {
    var n := c as int;
    if 0x800 <= n < 0x10000 {
      assert (n / 4096) * 64 + n / 64 % 64 == n / 64;
    } else if 0x10000 <= n {
      assert (n / 262144) * 64 + n / 4096 % 64 == n / 4096;
      assert (n / 4096) * 64 + n / 64 % 64 == n / 64;
    }
  }

  /** Different strings have different encodings. */
  lemma {:induction false} Utf8Injective(a: string, b: string)
    requires Utf8(a) == Utf8(b)
    ensures a == b
  {
    if a != [] && b != [] {
      var ea, eb := EncodeChar(a[0]), EncodeChar(b[0]);
      EncodeCharDecodes(a[0]);
      EncodeCharDecodes(b[0]);
      assert Utf8(a)[0] == ea[0] && Utf8(b)[0] == eb[0];
      assert |ea| == |eb|;
      assert ea == Utf8(a)[..|ea|] && eb == Utf8(b)[..|eb|];
      assert a[0] as int == b[0] as int;
      assert Utf8(a[1..]) == Utf8(a)[|ea|..] && Utf8(b[1..]) == Utf8(b)[|eb|..];
      Utf8Injective(a[1..], b[1..]);
      assert a == [a[0]] + a[1..] && b == [b[0]] + b[1..];
    }
  }

  /** The encoding of a concatenation is the concatenation of the encodings. */
  lemma {:induction false} Utf8Append(a: string, b: string)
    ensures Utf8(a + b) == Utf8(a) + Utf8(b)
  {
    if a != [] {
      assert (a + b)[0] == a[0] && (a + b)[1..] == a[1..] + b;
      Utf8Append(a[1..], b);
      assert Utf8(a + b) == EncodeChar(a[0]) + (Utf8(a[1..]) + Utf8(b));
    } else {
      assert a + b == b;
    }
  }

  /** The first 72 bytes, or all of them when there are fewer. */
  function Truncate(bytes: seq<nat>): seq<nat> {
    if |bytes| <= KeyBytes then bytes else bytes[..KeyBytes]
  }

  /** Two byte strings truncate alike exactly when they are equal or agree on 72 bytes at least. */
  lemma TruncateAgree(x: seq<nat>, y: seq<nat>)
    ensures Truncate(x) == Truncate(y) <==>
      x == y || (|x| >= KeyBytes && |y| >= KeyBytes && x[..KeyBytes] == y[..KeyBytes])
  {
    if Truncate(x) == Truncate(y) && |x| <= KeyBytes && |y| > KeyBytes {
      assert |Truncate(y)| == KeyBytes;
    } else if Truncate(x) == Truncate(y) && |y| <= KeyBytes && |x| > KeyBytes {
      assert |Truncate(x)| == KeyBytes;
    }
  }

  /** The bytes of `plain` bcrypt's key schedule uses. */
  function Key(plain: string): seq<nat> {
    Truncate(Utf8(plain))
  }

  /**
   * Two passwords bcrypt cannot tell apart: the same string, or two strings whose encodings
   * are both at least 72 bytes long and agree on the first 72.
   */
  predicate Indistinguishable(a: string, b: string) {
    a == b ||
    (|Utf8(a)| >= KeyBytes && |Utf8(b)| >= KeyBytes && Utf8(a)[..KeyBytes] == Utf8(b)[..KeyBytes])
  }

  datatype Digest = Digest(cost: nat, salt: nat, key: seq<nat>)

  /** `bcrypt.hash(plain, cost)` with the salt the library drew. */
  function Hash(plain: string, cost: nat, salt: nat): Digest {
    Digest(cost, salt, Key(plain))
  }

  /** `bcrypt.compare(plain, digest)`. */
  function Compare(plain: string, digest: Digest): bool {
    digest.key == Key(plain)
  }

  /**
   * A password matches its own digest, whatever the salt and cost; another password matches
   * it exactly when both are at least 72 bytes long and share their first 72 bytes.
   */
  lemma CompareHash(plain: string, attempt: string, cost: nat, salt: nat)
    ensures Compare(attempt, Hash(plain, cost, salt)) <==> Indistinguishable(attempt, plain)
  {
    TruncateAgree(Utf8(attempt), Utf8(plain));
    if Utf8(attempt) == Utf8(plain) {
      Utf8Injective(attempt, plain);
    }
  }

  /** A password shorter than 72 bytes matches its digest and no other password does. */
  lemma ShortPasswordsExact(plain: string, attempt: string, cost: nat, salt: nat)
    requires |Utf8(plain)| < KeyBytes
    ensures Compare(attempt, Hash(plain, cost, salt)) <==> attempt == plain
  {
    CompareHash(plain, attempt, cost, salt);
  }

  /** Whatever follows the first 72 bytes of a password is ignored: every extension of it matches its digest. */
  lemma LongPasswordsTruncated(plain: string, tail: string, cost: nat, salt: nat)
    requires |Utf8(plain)| >= KeyBytes
    ensures Compare(plain + tail, Hash(plain, cost, salt))
  {
    Utf8Append(plain, tail);
    assert (Utf8(plain) + Utf8(tail))[..KeyBytes] == Utf8(plain)[..KeyBytes];
  }
}
