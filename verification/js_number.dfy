/**
 * The part of JavaScript number semantics the pages rely on: `Math.round`
 * applied to the quotient of two integers. Rounding is exact over integer
 * ratios (no doubles); a quotient by zero is NaN or an infinity, which
 * `Math.round` passes through unchanged.
 */
module JsNumber {

  /** A rounded JavaScript quotient: an integer, or one of the non-finite values. */
  datatype Number = Finite(n: int) | NaN | PosInfinity | NegInfinity

  /** The JavaScript value `Math.round(a / b)` for a positive divisor.
      `Math.round` rounds to the nearest integer and sends ties toward +infinity
      (section 21.3.2.28 of ECMA-262), so the result is floor(a/b + 1/2),
      which is (2a + b) div 2b with Dafny's floor division. */
  function RoundRatio(a: int, b: int): (r: int)
    requires b > 0
    // r - 1/2 <= a/b < r + 1/2, multiplied through by 2b
    ensures 2 * b * r <= 2 * a + b < 2 * b * r + 2 * b
  {
    (2 * a + b) / (2 * b)
  }

  /** The nearest-integer property determines the rounded value: no other
      integer lies within half a unit (ties taken upward) of a/b. */
  lemma RoundRatioUnique(a: int, b: int, k: int)
    requires b > 0
    requires 2 * b * k <= 2 * a + b < 2 * b * k + 2 * b
    ensures k == RoundRatio(a, b)
  {
    var r := RoundRatio(a, b);
    if k < r {
      // 2bk + 2b <= 2br, contradicting 2br <= 2a + b < 2bk + 2b
      assert 2 * b * (r - k) >= 2 * b by { MulMonotone(2 * b, 1, r - k); }
      assert false;
    } else if k > r {
      assert 2 * b * (k - r) >= 2 * b by { MulMonotone(2 * b, 1, k - r); }
      assert false;
    }
  }

  lemma MulMonotone(c: int, x: int, y: int)
    requires c >= 0 && x <= y
    ensures c * x <= c * y
  {
  }

  /** Rounding keeps a mean inside any integer interval that holds it:
      if lo <= a/b <= hi then lo <= round(a/b) <= hi. */
  lemma RoundRatioBounds(a: int, b: int, lo: int, hi: int)
    requires b > 0
    requires lo * b <= a <= hi * b
    ensures lo <= RoundRatio(a, b) <= hi
  {
    var r := RoundRatio(a, b);
    if r > hi {
      // then 2a + b >= 2br >= 2b(hi + 1) > 2a + b
      MulMonotone(2 * b, hi + 1, r);
      assert false;
    }
    if r < lo {
      // then 2a + b < 2b(r + 1) <= 2b*lo <= 2a, impossible for b > 0
      MulMonotone(2 * b, r + 1, lo);
      assert false;
    }
  }

  /** Ties go toward +infinity: round((2k+1)/2) is k + 1, for negative k too
      (Math.round(-2.5) is -2). */
  lemma RoundHalfGoesUp(k: int)
    ensures RoundRatio(2 * k + 1, 2) == k + 1
  {
  }

  /** `Math.round(a / n)` where the divisor is a length: dividing by zero gives
      NaN for 0/0 and a signed infinity otherwise, and `Math.round` keeps both. */
  function RoundDiv(a: int, n: nat): (r: Number)
    ensures n > 0 <==> r.Finite?
    ensures n > 0 ==> 2 * n * r.n <= 2 * a + n < 2 * n * r.n + 2 * n
    ensures n == 0 ==> (r == NaN <==> a == 0)
    ensures n == 0 && a > 0 ==> r == PosInfinity
    ensures n == 0 && a < 0 ==> r == NegInfinity
  {
    if n > 0 then Finite(RoundRatio(a, n))
    else if a == 0 then NaN
    else if a > 0 then PosInfinity
    else NegInfinity
  }
}
