/** Quotients: real division with floor and ceiling, and natural division. */
module Scaling {

  function Ceil(x: real): int {
    -(-x).Floor
  }

  lemma Above(a: real, q: real, up: real, width: real)
    requires a == q * width && q < up && width > 0.0
    ensures a < up * width
  {
    assert up * width - q * width == (up - q) * width;
  }

  lemma AtLeast(a: real, q: real, low: real, width: real)
    requires a == q * width && low <= q && width > 0.0
    ensures low * width <= a
  {
  }

  /** Floor of a quotient brackets the dividend. */
  lemma FloorBounds(a: real, width: real, f: int)
    requires width > 0.0 && f == (a / width).Floor
    ensures f as real * width <= a < (f as real + 1.0) * width
    ensures a >= 0.0 ==> f >= 0
  {
    var q := a / width;
    assert q * width == a;
    Above(a, q, f as real + 1.0, width);
    AtLeast(a, q, f as real, width);
    if f < 0 {
      AtLeast(0.0, 0.0, f as real + 1.0, width);
    }
  }

  /** Ceiling of a quotient brackets the dividend. */
  lemma CeilBounds(a: real, width: real, c: int)
    requires width > 0.0 && c == Ceil(a / width)
    ensures (c as real - 1.0) * width < a <= c as real * width
  {
    var q := a / width;
    assert q * width == a;
    assert c as real - 1.0 < q <= c as real;
    Above(-a, -q, -(c as real - 1.0), width);
    AtLeast(-a, -q, -(c as real), width);
    assert -(c as real - 1.0) * width == -((c as real - 1.0) * width);
    assert -(c as real) * width == -(c as real * width);
  }

  lemma Scale(a: int, b: int, unit: nat)
    ensures a <= b ==> a * unit <= b * unit
  {
    if a <= b {
      assert b * unit - a * unit == (b - a) * unit;
    }
  }

  /** A number between k units and k + 1 units divides to k. */
  lemma QuotientIs(x: nat, k: nat, unit: nat)
    requires unit > 0 && k * unit <= x < k * unit + unit
    ensures x / unit == k && x % unit == x - k * unit
  {
    var q := x / unit;
    assert x == q * unit + x % unit;
    if q < k {
      Scale(q + 1, k, unit);
    } else if q > k {
      Scale(k + 1, q, unit);
    }
  }

  lemma QuotientGrows(a: nat, b: nat, unit: nat)
    requires a <= b && unit > 0
    ensures a / unit <= b / unit
  {
    var qa, qb := a / unit, b / unit;
    assert a == qa * unit + a % unit && b == qb * unit + b % unit;
    if qb < qa {
      Scale(qb + 1, qa, unit);
    }
  }
}
