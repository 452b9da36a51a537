/** Ratios of a part to a whole. */
module Ratios {
  lemma RatioRange(part: real, whole: real)
    requires 0.0 <= part <= whole && whole > 0.0
    ensures 0.0 <= part / whole <= 1.0
    ensures (part / whole == 1.0 <==> part == whole) && (part / whole == 0.0 <==> part == 0.0)
  {
    var q := part / whole;
    assert q * whole == part;
    Scaled(q, whole);
  }

  lemma QuotientRange(d: nat, n: nat)
    requires d <= n && n > 0
    ensures 0.0 <= d as real / n as real <= 1.0
    ensures (d as real / n as real == 0.0 <==> d == 0) && (d as real / n as real == 1.0 <==> d == n)
  {
    RatioRange(d as real, n as real);
  }

  /** Scaling by a positive whole keeps the order with 0, 1 and a half. */
  lemma Scaled(q: real, whole: real)
    requires whole > 0.0
    ensures q < 1.0 <==> q * whole < whole
    ensures q == 1.0 <==> q * whole == whole
    ensures q < 0.5 <==> q * whole < 0.5 * whole
    ensures q < 0.0 <==> q * whole < 0.0
  {
    Sign(q, whole);
    assert (q - 1.0) * whole == q * whole - whole;
    Sign(q - 1.0, whole);
    assert (q - 0.5) * whole == q * whole - 0.5 * whole;
    Sign(q - 0.5, whole);
  }

  lemma Sign(x: real, y: real)
    requires y > 0.0
    ensures (x < 0.0 <==> x * y < 0.0) && (x == 0.0 <==> x * y == 0.0)
  {
    if x < 0.0 {
      assert x * y < 0.0;
    } else if x > 0.0 {
      assert x * y > 0.0;
    }
  }
}
