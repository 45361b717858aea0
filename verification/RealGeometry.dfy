/** The few facts about real arithmetic and plane geometry that the drawing code relies on. */
module RealGeometry {
  datatype Point = Point(x: real, y: real)

  /** Math.hypot, known only by its defining equation. */
  ghost predicate IsHypot(hypot: (real, real) -> real) {
    forall a, b :: hypot(a, b) >= 0.0 && hypot(a, b) * hypot(a, b) == a * a + b * b
  }

  lemma ProductNonNegative(x: real, y: real)
    requires x >= 0.0 && y >= 0.0
    ensures x * y >= 0.0
  {
  }

  lemma ProductPositive(x: real, y: real)
    requires x > 0.0 && y > 0.0
    ensures x * y > 0.0
  {
  }

  lemma SquareNonNegative(x: real)
    ensures x * x >= 0.0
  {
    if x >= 0.0 {
      ProductNonNegative(x, x);
    } else {
      ProductNonNegative(-x, -x);
      assert (-x) * (-x) == x * x;
    }
  }

  lemma FactorNonNegative(x: real, y: real)
    requires x > 0.0 && x * y >= 0.0
    ensures y >= 0.0
  {
    if y < 0.0 {
      ProductPositive(x, -y);
    }
  }

  lemma SquarePositive(x: real)
    requires x != 0.0
    ensures x * x > 0.0
  {
    if x > 0.0 {
      ProductPositive(x, x);
    } else {
      ProductPositive(-x, -x);
      assert (-x) * (-x) == x * x;
    }
  }
}
