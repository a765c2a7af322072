/** Products of reals by name, so that proofs about sums can hide multiplication. */
module RealProducts {

  /** Multiplication by name, so that proofs about sums can hide it. */
  function Times(a: real, b: real): real {
    a * b
  }

  lemma TimesCommutes(a: real, b: real)
    ensures Times(a, b) == Times(b, a)
  {
  }

  lemma QuotientTimes(a: real, b: real)
    requires b != 0.0
    ensures Times(a / b, b) == a
  {
  }

  lemma ProductPositive(a: real, b: real)
    requires a > 0.0 && b > 0.0
    ensures Times(a, b) > 0.0
  {
  }

  lemma ProductNonNegative(a: real, b: real)
    requires a >= 0.0 && b >= 0.0
    ensures Times(a, b) >= 0.0
  {
    if a > 0.0 && b > 0.0 {
      ProductPositive(a, b);
    }
  }

  lemma TimesMonotone(a: real, b: real, c: real, d: real)
    requires 0.0 <= a <= b && 0.0 <= c <= d
    ensures 0.0 <= Times(a, c) <= Times(b, d)
  {
    ProductNonNegative(b - a, d);
    ProductNonNegative(a, d - c);
    ProductNonNegative(a, c);
    assert Times(b, d) == Times(a, c) + Times(b - a, d) + Times(a, d - c);
  }
}
