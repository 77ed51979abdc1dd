/** Integer facts shared by the models: C++'s truncating division and the
    uniqueness of quotient and remainder. */
module CInt {

  /** C++ integer division, which truncates toward zero. */
  function CDiv(a: int, b: int): (q: int)
    requires b > 0
    ensures a >= 0 ==> 0 <= a - q * b < b
    ensures a < 0 ==> -b < a - q * b <= 0
  {
    if a >= 0 then a / b else -((-a) / b)
  }

  /** Products with a positive factor preserve strict order of the other factor. */
  lemma LessMul(a: int, b: int, r: int)
    ensures r > 0 && a * r < b * r ==> a < b
  {
    if r > 0 && a >= b {
      assert a * r - b * r == (a - b) * r;
    }
  }

  /** Products with a non-negative factor preserve order of the other factor. */
  lemma MulLess(a: int, b: int, r: int)
    ensures r >= 0 && a <= b ==> a * r <= b * r
  {
    if r >= 0 && a <= b {
      assert b * r - a * r == (b - a) * r;
    }
  }

  /** Quotient and remainder are determined by the multiple of `r` below `x`. */
  lemma DivUnique(x: int, r: int, k: int)
    requires r > 0 && k * r <= x < (k + 1) * r
    ensures x / r == k && x % r == x - k * r
  {
    var q := x / r;
    assert x == q * r + x % r;
    LessMul(q, k + 1, r);
    LessMul(k, q + 1, r);
  }
}
