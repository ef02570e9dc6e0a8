/**
 Products of reals under a name of their own, so that sums of products can be
 reasoned about linearly where the definition is hidden.
 */
module Products {
  import opened Prelude

  function Distance(x: real, y: real): (d: real)
    ensures d >= 0.0 && (d == x - y || d == y - x)
  {
    Abs(x - y)
  }

  /** The value within the limits that is nearest to f. */
  function Clamp(f: real, max: real): (r: real)
    requires max >= 0.0
    ensures -max <= r <= max && (-max <= f <= max ==> r == f)
    ensures forall g :: -max <= g <= max ==> Distance(f, r) <= Distance(f, g)
  {
    if f < -max then -max else if f > max then max else f
  }

  function Mul(x: real, y: real): real {
    x * y
  }

  lemma MulAdd(a: real, x: real, y: real, z: real)
    requires z == x + y
    ensures Mul(a, z) == Mul(a, x) + Mul(a, y)
  {
  }

  lemma MulComm(x: real, y: real)
    ensures Mul(x, y) == Mul(y, x)
  {
  }

  lemma MulAssoc(x: real, y: real, z: real)
    ensures Mul(Mul(x, y), z) == Mul(x, Mul(y, z))
  {
  }

  lemma SquareNonNegative(d: real)
    ensures Mul(d, d) >= 0.0
  {
  }

  lemma SquarePositive(d: real)
    requires d != 0.0
    ensures Mul(d, d) > 0.0
  {
    if d > 0.0 {
      MulStrict(d, 0.0, d);
    } else {
      MulStrict(-d, d, 0.0);
    }
  }

  lemma MulMonotone(c: real, x: real, y: real)
    requires c >= 0.0 && x <= y
    ensures Mul(c, x) <= Mul(c, y)
  {
    assert c * (y - x) >= 0.0;
  }

  /** A positive factor can be cancelled. */
  lemma Cancel(d: real, x: real, y: real)
    requires d > 0.0 && Mul(x, d) <= Mul(y, d)
    ensures x <= y
  {
    if x > y {
      MulStrict(d, y, x);
    }
  }

  lemma CancelStrict(d: real, x: real, y: real)
    requires d > 0.0 && Mul(x, d) < Mul(y, d)
    ensures x < y
  {
    if y <= x {
      MulMonotone(d, y, x);
      MulComm(d, y);
      MulComm(d, x);
    }
  }

  lemma MulStrict(d: real, x: real, y: real)
    requires d > 0.0 && x < y
    ensures Mul(x, d) < Mul(y, d)
  {
    assert (y - x) * d > 0.0;
  }

  function Quotient(a: real, b: real): real
    requires b != 0.0
  {
    a / b
  }

  lemma QuotientOfProduct(x: real, d: real)
    requires d != 0.0
    ensures Quotient(Mul(x, d), d) == x
  {
  }

  /** Floating point division; nothing is known of the result when the divisor is zero. */
  method Divide(a: real, b: real) returns (q: real)
    ensures b != 0.0 ==> q == Quotient(a, b) && Mul(q, b) == a
  {
    if b == 0.0 {
      q := *;
    } else {
      q := a / b;
    }
  }

  /** A quotient lies between two bounds when the dividend lies between their multiples. */
  lemma QuotientBetween(a: real, d: real, lo: real, hi: real)
    requires d > 0.0 && Mul(lo, d) <= a <= Mul(hi, d)
    ensures lo <= Quotient(a, d) <= hi
  {
    var q := a / d;
    assert Mul(q, d) == a;
    Cancel(d, lo, q);
    Cancel(d, q, hi);
  }
}
