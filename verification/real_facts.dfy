/** Facts about products and quotients of reals, one nonlinear step each. */
module RealFacts {
  lemma MulMonotone(factor: real, a: real, b: real)
    requires factor >= 0.0 && a <= b
    ensures factor * a <= factor * b
  {
  }

  lemma Distribute(factor: real, a: real, b: real)
    ensures factor * (a + b) == factor * a + factor * b
  {
  }

  lemma Associate(a: real, b: real, c: real)
    ensures (a * b) * c == a * (b * c)
  {
  }

  /** A quotient is the number that multiplies back. */
  lemma QuotientIs(x: real, a: real, q: real)
    requires a != 0.0 && q * a == x
    ensures x / a == q
  {
    var d := x / a;
    assert d * a == x;
    assert (d - q) * a == 0.0;
  }

  lemma QuotientTimes(x: real, a: real)
    requires a != 0.0
    ensures (x / a) * a == x
  {
  }

  lemma PercentTimes(x: real, a: real)
    requires a != 0.0
    ensures (x / a * 100.0) * a == x * 100.0
  {
    QuotientTimes(x, a);
    Associate(x / a, 100.0, a);
    Associate(x / a, a, 100.0);
  }

  lemma QuotientOrder(u: real, v: real, a: real)
    requires a > 0.0 && u * a <= v * a
    ensures u <= v
  {
  }

  lemma MulPositive(a: real, b: real)
    requires a > 0.0 && b > 0.0
    ensures a * b > 0.0
  {
  }

  /** x <= f y with a = f b divides out to x/a <= y/b. */
  lemma RatioOrder(x: real, a: real, y: real, b: real, f: real)
    requires a > 0.0 && b > 0.0 && f * b == a && x <= f * y
    ensures x / a <= y / b
  {
    var v := y / b;
    QuotientTimes(y, b);
    assert f * y == v * a by {
      Associate(f, b, v);
    }
    QuotientTimes(x, a);
    QuotientOrder(x / a, v, a);
  }

  /** The same with both orders reversed. */
  lemma RatioOrderDown(x: real, a: real, y: real, b: real, f: real)
    requires a > 0.0 && b > 0.0 && f * b == a && x >= f * y
    ensures x / a >= y / b
  {
    var v := y / b;
    QuotientTimes(y, b);
    assert f * y == v * a by {
      Associate(f, b, v);
    }
    QuotientTimes(x, a);
    QuotientOrder(v, x / a, a);
  }

  /** The smaller of two positive numbers is a fraction of the larger. */
  lemma Fraction(small: real, large: real) returns (f: real)
    requires 0.0 < small <= large
    ensures 0.0 < f <= 1.0 && f * large == small
  {
    f := small / large;
    QuotientTimes(small, large);
    if f > 1.0 {
      MulMonotone(large, 1.0, f);
    }
  }

  lemma SameTimes(x: real, y: real, z: real)
    requires x == y
    ensures x * z == y * z
  {
  }
}
