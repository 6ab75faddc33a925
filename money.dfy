/**
 * Sums of money amounts. Amounts are exact decimals (`real`); the JavaScript and database
 * floating point is outside this model.
 */
module Money {
  import opened Store

  /** Σ f(x) over `xs`, accumulated from the front as a `forEach` loop or an aggregate does. */
  function SumOf<T>(xs: seq<T>, f: T -> real): real {
    if xs == [] then 0.0 else SumOf(xs[..|xs| - 1], f) + f(xs[|xs| - 1])
  }

  /** The part of an amount counted as income: the amount when it is positive. */
  function Positive(x: real): (r: real)
    ensures r >= 0.0
  {
    if x > 0.0 then x else 0.0
  }

  /** The part of an amount the server counts as expense: the amount when it is negative. */
  function Negative(x: real): (r: real)
    ensures r <= 0.0
  {
    if x < 0.0 then x else 0.0
  }

  /** The part of an amount the client counts as expense: `Math.abs` of an amount that is not positive. */
  function AbsNonPositive(x: real): (r: real)
    ensures r >= 0.0
  {
    if x > 0.0 then 0.0 else -x
  }

  /** `Math.abs`. */
  function Abs(x: real): (r: real)
    ensures r >= 0.0
  {
    if x < 0.0 then -x else x
  }

  /** Every amount splits into its income and expense parts, whose signs are fixed. */
  lemma AmountSplits(x: real)
    ensures x == Positive(x) + Negative(x)
    ensures AbsNonPositive(x) == -Negative(x)
  {
  }

  lemma {:induction false} SumOfAppend<T>(xs: seq<T>, ys: seq<T>, f: T -> real)
    ensures SumOf(xs + ys, f) == SumOf(xs, f) + SumOf(ys, f)
    decreases |ys|
  {
    if ys != [] {
      assert (xs + ys)[..|xs + ys| - 1] == xs + ys[..|ys| - 1];
      SumOfAppend(xs, ys[..|ys| - 1], f);
    } else {
      assert xs + ys == xs;
    }
  }

  /** Reordering the rows does not change a sum. */
  lemma {:induction false} SumOfPermutation<T>(xs: seq<T>, ys: seq<T>, f: T -> real)
    requires multiset(xs) == multiset(ys)
    ensures SumOf(xs, f) == SumOf(ys, f)
    decreases |xs|
  {
    if xs != [] {
      var x := xs[|xs| - 1];
      var init := xs[..|xs| - 1];
      assert xs == init + [x];
      assert x in multiset(ys);
      var i :| 0 <= i < |ys| && ys[i] == x;
      var rest := ys[..i] + ys[i + 1..];
      assert ys == ys[..i] + ([x] + ys[i + 1..]);
      assert multiset(ys) == multiset(ys[..i]) + multiset{x} + multiset(ys[i + 1..]);
      assert multiset(rest) == multiset(ys[..i]) + multiset(ys[i + 1..]);
      assert multiset(init) == multiset(xs) - multiset{x};
      assert multiset(rest) == multiset(ys) - multiset{x};
      SumOfPermutation(init, rest, f);
      SumOfAppend(ys[..i], [x] + ys[i + 1..], f);
      SumOfAppend([x], ys[i + 1..], f);
      SumOfAppend(ys[..i], ys[i + 1..], f);
      assert SumOf([x], f) == f(x);
    } else {
      assert |ys| == |multiset(ys)| == 0;
    }
  }

  /** Two functions that agree on every element have the same sum. */
  lemma {:induction false} SumOfAgree<T>(xs: seq<T>, f: T -> real, g: T -> real)
    requires forall k :: 0 <= k < |xs| ==> f(xs[k]) == g(xs[k])
    ensures SumOf(xs, f) == SumOf(xs, g)
  {
    if xs != [] {
      SumOfAgree(xs[..|xs| - 1], f, g);
    }
  }

  /** A sum of parts is the sum of the sums of the parts. */
  lemma {:induction false} SumOfSplit<T>(xs: seq<T>, f: T -> real, g: T -> real, h: T -> real)
    requires forall x :: f(x) == g(x) + h(x)
    ensures SumOf(xs, f) == SumOf(xs, g) + SumOf(xs, h)
  {
    if xs != [] {
      SumOfSplit(xs[..|xs| - 1], f, g, h);
    }
  }

  lemma {:induction false} SumOfNegated<T>(xs: seq<T>, f: T -> real, g: T -> real)
    requires forall x :: f(x) == -g(x)
    ensures SumOf(xs, f) == -SumOf(xs, g)
  {
    if xs != [] {
      SumOfNegated(xs[..|xs| - 1], f, g);
    }
  }

  lemma {:induction false} SumOfNonNegative<T>(xs: seq<T>, f: T -> real)
    requires forall x :: f(x) >= 0.0
    ensures SumOf(xs, f) >= 0.0
  {
    if xs != [] {
      SumOfNonNegative(xs[..|xs| - 1], f);
    }
  }

  lemma {:induction false} SumOfNonPositive<T>(xs: seq<T>, f: T -> real)
    requires forall x :: f(x) <= 0.0
    ensures SumOf(xs, f) <= 0.0
  {
    if xs != [] {
      SumOfNonPositive(xs[..|xs| - 1], f);
    }
  }

  /** Summing over the rows a `where` clause keeps is summing `g`, which is zero on the other rows. */
  lemma {:induction false} SumOfWhere<T(!new)>(xs: seq<T>, p: T -> bool, f: T -> real, g: T -> real)
    requires forall x :: g(x) == if p(x) then f(x) else 0.0
    ensures SumOf(Where(xs, p), f) == SumOf(xs, g)
  {
    if xs != [] {
      var init := xs[..|xs| - 1];
      var last := xs[|xs| - 1];
      SumOfWhere(init, p, f, g);
      if p(last) {
        assert SumOf(Where(init, p) + [last], f) == SumOf(Where(init, p), f) + f(last) by {
          assert (Where(init, p) + [last])[..|Where(init, p)|] == Where(init, p);
        }
      }
    }
  }
}
