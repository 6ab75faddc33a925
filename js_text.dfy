/**
 * The JavaScript built-ins the core applies to strings: `split` with a one-character
 * separator, `String(n)` and `Number(s)` on non-negative integers, `parseFloat`,
 * `replace` with a one-character pattern and `toUpperCase` (ASCII letters only).
 */
module JsText {

  /** Index of the first `c` in `s`, or `|s|` when `s` has none. */
  function IndexOf(s: string, c: char): (i: nat)
    ensures i <= |s|
    ensures i < |s| ==> s[i] == c
    ensures forall j :: 0 <= j < i ==> s[j] != c
  {
    if s == [] then 0 else if s[0] == c then 0 else 1 + IndexOf(s[1..], c)
  }

  lemma IndexOfAfterPrefix(p: string, c: char, rest: string)
    requires c !in p
    ensures IndexOf(p + [c] + rest, c) == |p|
  {
    var s := p + [c] + rest;
    assert s[|p|] == c;
    assert forall j :: 0 <= j < |p| ==> s[j] == p[j];
  }

  // ---------------------------------------------------------------------------
  // split / join

  /** `s.split(sep)`: the fields between occurrences of `sep`, in order ("".split(" ") is [""]). */
  function Split(s: string, sep: char): (parts: seq<string>)
    ensures |parts| >= 1
    ensures forall k :: 0 <= k < |parts| ==> sep !in parts[k]
    decreases |s|
  {
    var i := IndexOf(s, sep);
    if i == |s| then [s] else [s[..i]] + Split(s[i + 1..], sep)
  }

  /** Splitting at the first separator: the word before it, then the split of the rest. */
  lemma SplitAtFirst(p: string, sep: char, rest: string)
    requires sep !in p
    ensures Split(p + [sep] + rest, sep) == [p] + Split(rest, sep)
  {
    var s := p + [sep] + rest;
    IndexOfAfterPrefix(p, sep, rest);
    assert s[..|p|] == p && s[|p| + 1..] == rest;
  }

  /** `parts.join(sep)`. */
  function Join(parts: seq<string>, sep: char): string
    requires |parts| >= 1
  {
    if |parts| == 1 then parts[0] else parts[0] + [sep] + Join(parts[1..], sep)
  }

  /** Splitting undoes joining when no field contains the separator. */
  lemma {:induction false} SplitJoin(parts: seq<string>, sep: char)
    requires |parts| >= 1
    requires forall k :: 0 <= k < |parts| ==> sep !in parts[k]
    ensures Split(Join(parts, sep), sep) == parts
  {
    var s := Join(parts, sep);
    if |parts| == 1 {
      assert IndexOf(s, sep) == |s|;
    } else {
      var rest := Join(parts[1..], sep);
      IndexOfAfterPrefix(parts[0], sep, rest);
      assert s[..|parts[0]|] == parts[0];
      assert s[|parts[0]| + 1..] == rest;
      SplitJoin(parts[1..], sep);
    }
  }

  /** Joining undoes splitting, for every string. */
  lemma {:induction false} JoinSplit(s: string, sep: char)
    ensures Join(Split(s, sep), sep) == s
    decreases |s|
  {
    var i := IndexOf(s, sep);
    if i < |s| {
      JoinSplit(s[i + 1..], sep);
      assert s == s[..i] + [sep] + s[i + 1..];
    }
  }

  // ---------------------------------------------------------------------------
  // decimal digits, String(n) and Number(s)

  predicate IsDigit(c: char) {
    '0' <= c <= '9'
  }

  predicate AllDigits(s: string) {
    forall i :: 0 <= i < |s| ==> IsDigit(s[i])
  }

  function DigitValue(c: char): nat
    requires IsDigit(c)
  {
    c as int - '0' as int
  }

  function DigitChar(d: nat): (c: char)
    requires d < 10
    ensures IsDigit(c) && DigitValue(c) == d
  {
    (d + '0' as int) as char
  }

  /** `String(n)` for a non-negative integer: its decimal digits, with no leading zero. */
  function NatToString(n: nat): (s: string)
    ensures |s| >= 1 && AllDigits(s)
    ensures n > 0 ==> s[0] != '0'
    decreases n
  {
    if n < 10 then [DigitChar(n)] else NatToString(n / 10) + [DigitChar(n % 10)]
  }

  /** The value of a run of decimal digits; the empty run has value 0. */
  function DigitsValue(s: string): nat
    requires AllDigits(s)
    decreases |s|
  {
    if s == [] then 0 else 10 * DigitsValue(s[..|s| - 1]) + DigitValue(s[|s| - 1])
  }

  lemma {:induction false} DigitsValueOfNatToString(n: nat)
    ensures DigitsValue(NatToString(n)) == n
    decreases n
  {
    var s := NatToString(n);
    if n >= 10 {
      assert s[..|s| - 1] == NatToString(n / 10);
      DigitsValueOfNatToString(n / 10);
    }
  }

  /** A JavaScript number: a finite value or NaN. */
  datatype JsNumber = Finite(value: real) | NaN

  /**
   * `Number(s)` on the strings this core converts: a run of decimal digits is its value
   * (the empty string is 0) and every other string is NaN.
   */
  function Number(s: string): (r: JsNumber)
    ensures s == "" ==> r == Finite(0.0)
    ensures r.Finite? <==> AllDigits(s)
    ensures r.Finite? ==> r.value >= 0.0
  {
    if AllDigits(s) then Finite(DigitsValue(s) as real) else NaN
  }

  /** `Number(String(n)) == n` for every non-negative integer. */
  lemma NumberOfNatToString(n: nat)
    ensures Number(NatToString(n)) == Finite(n as real)
  {
    DigitsValueOfNatToString(n);
  }

  // ---------------------------------------------------------------------------
  // parseFloat

  /** Length of the longest prefix of `s` made of decimal digits. */
  function DigitPrefix(s: string): (p: nat)
    ensures p <= |s| && AllDigits(s[..p])
    ensures p < |s| ==> !IsDigit(s[p])
  {
    if s == [] || !IsDigit(s[0]) then 0
    else
      var p := 1 + DigitPrefix(s[1..]);
      assert s[..p] == [s[0]] + s[1..][..p - 1];
      p
  }

  lemma DigitPrefixOf(d: string, tail: string)
    requires AllDigits(d)
    requires tail == "" || !IsDigit(tail[0])
    ensures DigitPrefix(d + tail) == |d|
  {
    var s := d + tail;
    assert forall j :: 0 <= j < |d| ==> s[j] == d[j];
    assert |d| < |s| ==> s[|d|] == tail[0];
  }

  function Pow10(k: nat): (r: nat)
    ensures r >= 1
  {
    if k == 0 then 1 else 10 * Pow10(k - 1)
  }

  /**
   * JavaScript's white space and line terminators: tab, line feed, vertical tab, form feed,
   * carriage return, the space separators of Unicode, the line and paragraph separators,
   * and the byte-order mark.
   */
  predicate IsSpace(c: char) {
    var n := c as int;
    (0x09 <= n <= 0x0D) || n == 0x20 || n == 0xA0 || n == 0x1680 || (0x2000 <= n <= 0x200A) ||
    n == 0x2028 || n == 0x2029 || n == 0x202F || n == 0x205F || n == 0x3000 || n == 0xFEFF
  }

  function TrimStart(s: string): (t: string)
    ensures |t| <= |s| && t == s[|s| - |t|..]
    ensures t == "" || !IsSpace(t[0])
  {
    if s != [] && IsSpace(s[0]) then TrimStart(s[1..]) else s
  }

  /** The value of the decimal `i.f` written with digit runs `i` and `f`. */
  function DecimalValue(i: string, f: string): real
    requires AllDigits(i) && AllDigits(f)
  {
    DigitsValue(i) as real + DigitsValue(f) as real / Pow10(|f|) as real
  }

  /** The digits after a '.' that stands at index `i` of `u`, or "" when there is no such '.'. */
  function FractionDigits(u: string, i: nat): (f: string)
    requires i <= |u|
    ensures AllDigits(f)
  {
    if i < |u| && u[i] == '.' then u[i + 1..][..DigitPrefix(u[i + 1..])] else ""
  }

  /** The longest prefix of `u` of the form digits [ "." digits ] with at least one digit. */
  function ParseUnsigned(u: string): (r: JsNumber)
    ensures r.Finite? ==> r.value >= 0.0
  {
    var i := DigitPrefix(u);
    var f := FractionDigits(u, i);
    if i + |f| == 0 then NaN else Finite(DecimalValue(u[..i], f))
  }

  function Negate(x: JsNumber): JsNumber {
    match x
    case Finite(v) => Finite(-v)
    case NaN => NaN
  }

  /**
   * `parseFloat(s)`: leading white space is skipped, then an optional sign, then the
   * longest run of the form digits [ "." digits ] with at least one digit; NaN when
   * there is none. Exponents and "Infinity" are outside this model.
   */
  function ParseFloat(s: string): JsNumber
  {
    var t := TrimStart(s);
    if t != "" && t[0] == '-' then Negate(ParseUnsigned(t[1..]))
    else if t != "" && t[0] == '+' then ParseUnsigned(t[1..])
    else ParseUnsigned(t)
  }

  lemma ParseUnsignedDecimal(i: string, f: string, tail: string)
    requires AllDigits(i) && AllDigits(f) && |i| + |f| > 0
    requires tail == "" || !IsDigit(tail[0])
    ensures ParseUnsigned(i + "." + f + tail) == Finite(DecimalValue(i, f))
  {
    var s := i + "." + f + tail;
    DigitPrefixOf(i, "." + f + tail);
    assert s == i + ("." + f + tail);
    assert s[..|i|] == i;
    assert s[|i|] == '.';
    assert s[|i| + 1..] == f + tail;
    DigitPrefixOf(f, tail);
    assert (f + tail)[..|f|] == f;
  }

  lemma DecimalValueNoFraction(i: string)
    requires AllDigits(i)
    ensures DecimalValue(i, "") == DigitsValue(i) as real
  {
    assert Pow10(0) == 1;
    assert DigitsValue("") == 0;
  }

  lemma NoFractionAfter(i: string, tail: string)
    requires tail == "" || tail[0] != '.'
    ensures FractionDigits(i + tail, |i|) == ""
  {
    var s := i + tail;
    if |i| < |s| {
      assert s[|i|] == tail[0];
    }
  }

  lemma ParseUnsignedInteger(i: string, tail: string)
    requires AllDigits(i) && |i| > 0
    requires tail == "" || (!IsDigit(tail[0]) && tail[0] != '.')
    ensures ParseUnsigned(i + tail) == Finite(DigitsValue(i) as real)
  {
    var s := i + tail;
    DigitPrefixOf(i, tail);
    assert s[..|i|] == i;
    NoFractionAfter(i, tail);
    DecimalValueNoFraction(i);
  }

  /**
   * A text that cannot continue the number before it: neither a digit nor the exponent
   * mark, which JavaScript's `parseFloat` would read on.
   */
  predicate EndsNumber(tail: string) {
    tail == "" || (!IsDigit(tail[0]) && tail[0] != 'e' && tail[0] != 'E')
  }

  /** `parseFloat` reads a decimal `i.f` and ignores whatever follows it. */
  lemma ParseFloatDecimal(i: string, f: string, tail: string)
    requires AllDigits(i) && AllDigits(f) && |i| + |f| > 0
    requires EndsNumber(tail)
    ensures ParseFloat(i + "." + f + tail) == Finite(DecimalValue(i, f))
  {
    var s := i + "." + f + tail;
    assert s[0] == if i != "" then i[0] else '.';
    assert !IsSpace(s[0]) && s[0] != '-' && s[0] != '+';
    assert TrimStart(s) == s;
    ParseUnsignedDecimal(i, f, tail);
  }

  /** `parseFloat` reads an integer written in digits when no number continues after it. */
  lemma ParseFloatInteger(i: string, tail: string)
    requires AllDigits(i) && |i| > 0
    requires EndsNumber(tail) && (tail == "" || tail[0] != '.')
    ensures ParseFloat(i + tail) == Finite(DigitsValue(i) as real)
  {
    var s := i + tail;
    assert s[0] == i[0];
    assert !IsSpace(s[0]) && s[0] != '-' && s[0] != '+';
    assert TrimStart(s) == s;
    ParseUnsignedInteger(i, tail);
  }

  /** `parseFloat(String(n)) == n`. */
  lemma ParseFloatOfNatToString(n: nat)
    ensures ParseFloat(NatToString(n)) == Finite(n as real)
  {
    ParseFloatInteger(NatToString(n), "");
    assert NatToString(n) + "" == NatToString(n);
    DigitsValueOfNatToString(n);
  }

  // ---------------------------------------------------------------------------
  // replace and toUpperCase

  /** `s.replace(from, to)` with one-character strings: only the first `from` is replaced. */
  function ReplaceFirst(s: string, from: char, to: char): (r: string)
    ensures |r| == |s|
    ensures forall j :: 0 <= j < |s| && j != IndexOf(s, from) ==> r[j] == s[j]
    ensures IndexOf(s, from) < |s| ==> r[IndexOf(s, from)] == to
  {
    var i := IndexOf(s, from);
    if i == |s| then s else s[..i] + [to] + s[i + 1..]
  }

  /** Replacing the first ',' of "i,f…" gives "i.f…": a later ',' is kept. */
  lemma ReplaceFirstComma(i: string, rest: string)
    requires ',' !in i
    ensures ReplaceFirst(i + "," + rest, ',', '.') == i + "." + rest
  {
    IndexOfAfterPrefix(i, ',', rest);
    var s := i + "," + rest;
    assert s[..|i|] == i && s[|i| + 1..] == rest;
  }

  function UpperChar(c: char): char {
    if 'a' <= c <= 'z' then (c as int - 32) as char else c
  }

  /** `toUpperCase`, on ASCII letters only: each lower-case letter becomes its capital, and nothing else changes. */
  function ToUpper(s: string): (r: string)
    ensures |r| == |s|
    ensures forall k :: 0 <= k < |r| ==> !('a' <= r[k] <= 'z')
    ensures forall k :: 0 <= k < |s| && 'a' <= s[k] <= 'z' ==> r[k] as int == s[k] as int - 32
    ensures forall k :: 0 <= k < |s| && !('a' <= s[k] <= 'z') ==> r[k] == s[k]
  {
    seq(|s|, k requires 0 <= k < |s| => UpperChar(s[k]))
  }
}
