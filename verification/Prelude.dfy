/** What every module shares: optional values and the integer arithmetic of C. */
module Prelude {

  datatype Option<+T> = None | Some(value: T)

  type Byte = b: int | 0 <= b < 256
  type Word = w: int | 0 <= w < 65536

  /** What a servo makes of a sample: wait for more, step the clock, or adjust its frequency. */
  datatype ServoState = Unlocked | Jump | Locked

  /** C division by a positive divisor: the quotient is rounded toward zero. */
  function TruncDiv(a: int, b: int): (q: int)
    requires b > 0
    ensures a >= 0 ==> 0 <= q && q * b <= a < q * b + b
    ensures a <= 0 ==> q <= 0 && q * b - b < a <= q * b
  {
    if a >= 0 then a / b else -((-a) / b)
  }

  /** The cast from `double` to an integer type: rounding toward zero. */
  function Truncate(r: real): (n: int)
    ensures r >= 0.0 ==> 0 <= n && n as real <= r < n as real + 1.0
    ensures r <= 0.0 ==> n <= 0 && n as real - 1.0 < r <= n as real
  {
    if r >= 0.0 then r.Floor else -((-r).Floor)
  }

  /** The next slot of a ring buffer of n slots. */
  function NextSlot(i: nat, n: nat): (j: nat)
    requires i < n
    ensures j == if i + 1 == n then 0 else i + 1
  {
    (1 + i) % n
  }

  function Abs(r: real): (a: real)
    ensures a >= 0.0 && (a == r || a == -r)
  {
    if r < 0.0 then -r else r
  }

  /** Over a step threshold; the other one counts for the first update only, and zero stands for none. */
  predicate MustStep(first: bool, threshold: real, firstThreshold: real, offset: real)
    ensures MustStep(first, threshold, firstThreshold, offset) <==>
            || (threshold != 0.0 && !(-threshold <= offset <= threshold))
            || (first && firstThreshold != 0.0 && !(-firstThreshold <= offset <= firstThreshold))
  {
    || (first && firstThreshold != 0.0 && firstThreshold < Abs(offset))
    || (threshold != 0.0 && threshold < Abs(offset))
  }

  /** A truncated quotient stays between two integers whenever the exact quotient does. */
  lemma TruncDivBetween(a: int, b: int, lo: int, hi: int)
    requires b > 0 && lo * b <= a <= hi * b
    ensures lo <= TruncDiv(a, b) <= hi
  {
    var q := TruncDiv(a, b);
    if q < lo {
      MulMonotone(q + 1, lo, b);
      MulSuccessor(q, b);
    } else if hi < q {
      MulMonotone(hi + 1, q, b);
      MulSuccessor(hi, b);
    }
  }

  lemma MulSuccessor(x: int, b: int)
    ensures (x + 1) * b == x * b + b
  {
  }

  lemma MulMonotone(x: int, y: int, b: int)
    requires x <= y && b >= 0
    ensures x * b <= y * b
  {
    assert (y - x) * b >= 0;
  }
}
