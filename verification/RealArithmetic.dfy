/** The few facts of non-linear real arithmetic the proofs lean on. */
module RealArithmetic {

  lemma MulNonNegative(x: real, y: real)
    requires x >= 0.0 && y >= 0.0
    ensures x * y >= 0.0
  {
  }

  lemma MulMonotone(x: real, a: real, b: real)
    requires x >= 0.0 && a <= b
    ensures x * a <= x * b
  {
    MulNonNegative(x, b - a);
    assert x * b - x * a == x * (b - a);
  }

  lemma Scale(factor: real, x: real)
    requires 0.0 <= factor <= 1.0 && x >= 0.0
    ensures 0.0 <= factor * x <= x
  {
    MulNonNegative(factor, x);
    MulNonNegative(1.0 - factor, x);
    assert x - factor * x == (1.0 - factor) * x;
  }

  /** `k` whole steps of `width` fit into `x`. */
  lemma FloorOfQuotient(k: int, x: real, width: real)
    requires width > 0.0 && k as real * width <= x
    ensures k <= (x / width).Floor
  {
    var q := x / width;
    var short := k as real - q;
    assert q * width == x && short * width == k as real * width - q * width;
    if short > 0.0 {
      MulPositive(short, width);
      assert false;
    }
    assert q < (q.Floor + 1) as real;
  }

  lemma MulPositive(x: real, y: real)
    requires x > 0.0 && y > 0.0
    ensures x * y > 0.0
  {
  }
}
