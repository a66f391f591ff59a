/** Integer facts the cfitsio index arithmetic relies on: C's truncating
    division, and the uniqueness of quotient and remainder. */
module IntArith {

  /** C's `/`, which truncates toward zero, for a positive divisor. */
  function CDiv(a: int, b: int): int
    requires b > 0
  {
    if a >= 0 then a / b else -((-a) / b)
  }

  lemma DivUnique(a: int, b: int, q: int, r: int)
    requires b > 0 && 0 <= r < b && a == q * b + r
    ensures a / b == q
  {
    var q' := a / b;
    var r' := a % b;
    assert q' * b + r' == a;
    assert (q - q') * b == r' - r;
    MulSmall(q - q', b, r' - r);
  }

  /** A multiple of b strictly between -b and b is 0 times b. */
  lemma MulSmall(d: int, b: int, e: int)
    requires b > 0 && -b < e < b && d * b == e
    ensures d == 0
  {
    if d > 0 {
      assert d * b == (d - 1) * b + b;
      MulNonNeg(d - 1, b);
    } else if d < 0 {
      assert d * b == -((-d - 1) * b) - b;
      MulNonNeg(-d - 1, b);
    }
  }

  lemma MulNonNeg(x: int, y: int)
    requires x >= 0 && y >= 0
    ensures x * y >= 0
  {
  }

  /** Splitting k = q*b + r with 0 <= r < b recovers q and r. */
  lemma DivModOf(q: int, b: int, r: int)
    requires b > 0 && 0 <= r < b
    ensures (q * b + r) / b == q && (q * b + r) % b == r
  {
    DivUnique(q * b + r, b, q, r);
  }

  lemma MulSucc(a: int, b: int)
    ensures (a + 1) * b == a * b + b
  {
  }
}
