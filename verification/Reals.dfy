/** Arithmetic of reals the reductions share. */
module Reals {

  /** A quotient lies between two bounds when its numerator does between their multiples. */
  lemma DivBetween(t: real, n: real, lo: real, hi: real)
    requires n > 0.0 && lo * n <= t <= hi * n
    ensures lo <= t / n <= hi
  {
    var q := t / n;
    assert q * n == t;
    assert (q - lo) * n >= 0.0 && (hi - q) * n >= 0.0;
  }

  /** n * x as a repeated sum. */
  function Times(x: real, n: nat): real {
    if n == 0 then 0.0 else Times(x, n - 1) + x
  }

  lemma {:induction false} TimesIsProduct(x: real, n: nat)
    ensures Times(x, n) == x * n as real
  {
    if n > 0 {
      TimesIsProduct(x, n - 1);
      Distribute(x, n - 1);
    }
  }

  lemma Distribute(x: real, n: nat)
    ensures x * (n + 1) as real == x * n as real + x
  {
    var k := n as real;
    assert (n + 1) as real == k + 1.0;
  }

  /** The mean of n terms lies between any bounds of the terms. */
  lemma MeanBetween(total: real, n: nat, lo: real, hi: real)
    requires n > 0 && Times(lo, n) <= total <= Times(hi, n)
    ensures lo <= total / n as real <= hi
  {
    TimesIsProduct(lo, n);
    TimesIsProduct(hi, n);
    DivBetween(total, n as real, lo, hi);
  }

  /** Two fractions are equal exactly when their cross products are. */
  lemma SameRatio(a: real, b: real, c: real, d: real)
    requires b > 0.0 && d > 0.0
    ensures a / b == c / d <==> a * d == c * b
  {
    var p, q := a / b, c / d;
    assert a == p * b && c == q * d;
    assert a * d == p * (b * d) && c * b == q * (b * d);
    if a * d == c * b {
      assert (p - q) * (b * d) == 0.0;
      assert b * d > 0.0;
    }
  }
}
