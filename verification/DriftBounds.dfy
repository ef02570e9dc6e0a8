/**
 A table of regression rows that has wrapped around: its rows are in order of time but for one place, where the newest
 row is followed by the oldest.  Which times make the slopes of neighbouring rows in the table enclose the fitted slope?
 */
module DriftBounds {
  import opened Products
  import opened LeastSquares

  /** The distance of x from the first g rows, summed up. */
  function Reach(r: seq<Row>, g: nat, x: real): real
    requires g <= |r|
  {
    Mul(g as real, x) - Sx(r, g)
  }

  /**
   The weight of the step in front of row g: the sum of x_j - x_i over all i < g <= j < n,
   the pairs of rows the step lies between.
   */
  function Weight(r: seq<Row>, n: nat, g: nat): real
    requires g <= |r| && n <= |r|
  {
    if n <= g then 0.0 else Weight(r, n - 1, g) + Reach(r, g, r[n - 1].x)
  }

  function StepY(r: seq<Row>, g: nat): real
    requires 0 < g < |r|
  {
    r[g].y - r[g - 1].y
  }

  function StepX(r: seq<Row>, g: nat): real
    requires 0 < g < |r|
  {
    r[g].x - r[g - 1].x
  }

  /** The steps in front of the rows below k, weighted as within the first n rows. */
  function WeightedSteps(r: seq<Row>, k: nat, n: nat): real
    requires k <= |r| && n <= |r|
  {
    if k <= 1 then 0.0 else WeightedSteps(r, k - 1, n) + Mul(StepY(r, k - 1), Weight(r, n, k - 1))
  }

  /** The steps in front of the rows below k, weighted by their reach to x. */
  function ReachingSteps(r: seq<Row>, k: nat, x: real): real
    requires k <= |r|
  {
    if k <= 1 then 0.0 else ReachingSteps(r, k - 1, x) + Mul(StepY(r, k - 1), Reach(r, k - 1, x))
  }

  /** A sum of products is a sum of steps: one row against those before it. */
  lemma {:induction false} CrossIsSteps(r: seq<Row>, m: nat, p: Row)
    requires m <= |r|
    ensures m == 0 ==> Cross(r, m, p) == 0.0
    ensures m > 0 ==> Cross(r, m, p) == ReachingSteps(r, m, p.x) + Mul(p.y - r[m - 1].y, Reach(r, m, p.x))
  {
    if m > 0 {
      hide Mul;
      var q := r[m - 1];
      CrossMoved(r, m, p.x, p.y, q.y);
      CrossIsSteps(r, m - 1, Row(p.x, q.y));
      MulZeroSum(p.x - q.x, q.y);
      if m > 1 {
        assert StepY(r, m - 1) == q.y - r[m - 2].y;
      }
    }
  }

  lemma MulZeroSum(a: real, y: real)
    ensures Mul(a, y - y) == 0.0
  {
  }

  lemma {:induction false} CrossMoved(r: seq<Row>, m: nat, x: real, y: real, z: real)
    requires m <= |r|
    ensures Cross(r, m, Row(x, y)) == Cross(r, m, Row(x, z)) + Mul(y - z, Reach(r, m, x))
  {
    if m == 0 {
      assert Reach(r, 0, x) == 0.0;
      MulZero(y - z);
    } else {
      hide Mul;
      CrossMoved(r, m - 1, x, y, z);
      var q := r[m - 1];
      Products.MulAdd(x, (m - 1) as real, 1.0, m as real);
      MulOne(x);
      MulComm(x, (m - 1) as real);
      MulComm(x, m as real);
      MulAdd(y - z, Reach(r, m - 1, x), x - q.x, Reach(r, m, x));
      MulAdd(x - q.x, y - z, z - q.y, y - q.y);
      MulComm(x - q.x, y - z);
    }
  }

  /** Adding a row adds its reach to every weight. */
  lemma {:induction false} StepsGrow(r: seq<Row>, k: nat, n: nat)
    requires k <= n + 1 && n < |r|
    ensures WeightedSteps(r, k, n + 1) == WeightedSteps(r, k, n) + ReachingSteps(r, k, r[n].x)
  {
    if k > 1 {
      hide Mul;
      StepsGrow(r, k - 1, n);
      assert Weight(r, n + 1, k - 1) == Weight(r, n, k - 1) + Reach(r, k - 1, r[n].x);
      MulAdd(StepY(r, k - 1), Weight(r, n, k - 1), Reach(r, k - 1, r[n].x), Weight(r, n + 1, k - 1));
    }
  }

  /** Summation by parts: the numerator of the fitted slope is the weighted sum of the steps. */
  lemma {:induction false} PairsAreSteps(r: seq<Row>, n: nat)
    requires n <= |r|
    ensures Pairs(r, n) == WeightedSteps(r, n, n)
  {
    if n > 0 {
      hide Mul;
      PairsAreSteps(r, n - 1);
      var p := r[n - 1];
      CrossIsSteps(r, n - 1, p);
      StepsGrow(r, n, n - 1);
      if n > 1 {
        assert Weight(r, n - 1, n - 1) == 0.0;
        MulZero(StepY(r, n - 1));
        assert ReachingSteps(r, n, p.x) == ReachingSteps(r, n - 1, p.x) + Mul(StepY(r, n - 1), Reach(r, n - 1, p.x));
      }
    }
  }

  // ----- when the bounds enclose the slope

  /**
   The slopes a wrapped table shows: all steps but the one in front of row k, and the chord from the oldest to the
   newest row.
   */
  ghost predicate TableSlopesWithin(r: seq<Row>, k: nat, lo: real, hi: real)
    requires |r| > 0
  {
    && (forall g :: 0 < g < |r| && g != k ==> Mul(lo, StepX(r, g)) <= StepY(r, g) <= Mul(hi, StepX(r, g)))
    && Mul(lo, r[|r| - 1].x - r[0].x) <= r[|r| - 1].y - r[0].y <= Mul(hi, r[|r| - 1].x - r[0].x)
  }

  /** Whatever encloses the slopes of the table encloses the fitted slope. */
  ghost predicate Enclosed(r: seq<Row>, k: nat)
    requires |r| > 0
  {
    forall lo, hi :: TableSlopesWithin(r, k, lo, hi) ==>
      Mul(lo, Det(r, |r|)) <= Num(r, |r|) <= Mul(hi, Det(r, |r|))
  }

  /** The step missing from the table weighs no more than any other. */
  ghost predicate LeastWeight(r: seq<Row>, k: nat)
    requires k < |r|
  {
    forall g :: 0 < g < |r| ==> Weight(r, |r|, k) <= Weight(r, |r|, g)
  }

  /** The steps below k, weighted by what they weigh beyond w. */
  function SpareSteps(r: seq<Row>, k: nat, w: real): real
    requires k <= |r|
  {
    if k <= 1 then 0.0 else SpareSteps(r, k - 1, w) + Mul(StepY(r, k - 1), Weight(r, |r|, k - 1) - w)
  }

  lemma {:induction false} SplitSteps(r: seq<Row>, k: nat, w: real)
    requires 0 < k <= |r|
    ensures WeightedSteps(r, k, |r|) == Mul(w, r[k - 1].y - r[0].y) + SpareSteps(r, k, w)
  {
    if k == 1 {
      MulZero(w);
    } else {
      hide Mul;
      SplitSteps(r, k - 1, w);
      var d, v := StepY(r, k - 1), Weight(r, |r|, k - 1);
      MulAdd(w, r[k - 2].y - r[0].y, d, r[k - 1].y - r[0].y);
      MulAdd(d, w, v - w, v);
      MulComm(d, w);
    }
  }

  ghost predicate SameTimes(r: seq<Row>, c: seq<Row>) {
    |r| == |c| && forall i :: 0 <= i < |r| ==> r[i].x == c[i].x
  }

  lemma {:induction false} SameSx(r: seq<Row>, c: seq<Row>, n: nat)
    requires SameTimes(r, c) && n <= |r|
    ensures Sx(r, n) == Sx(c, n)
  {
    if n > 0 {
      SameSx(r, c, n - 1);
    }
  }

  lemma {:induction false} SameWeight(r: seq<Row>, c: seq<Row>, n: nat, g: nat)
    requires SameTimes(r, c) && n <= |r| && g <= |r|
    ensures Weight(r, n, g) == Weight(c, n, g)
  {
    if n > g {
      SameWeight(r, c, n - 1, g);
      SameSx(r, c, g);
    }
  }

  lemma {:induction false} WeightNonNegative(r: seq<Row>, n: nat, g: nat)
    requires Increasing(r) && n <= |r| && g <= |r|
    ensures Weight(r, n, g) >= 0.0
  {
    if n > g {
      hide Mul;
      WeightNonNegative(r, n - 1, g);
      ReachNonNegative(r, g, n - 1);
    }
  }

  lemma {:induction false} ReachNonNegative(r: seq<Row>, g: nat, j: nat)
    requires Increasing(r) && g <= j < |r|
    ensures Reach(r, g, r[j].x) >= 0.0
  {
    if g == 0 {
      MulComm(0.0, r[j].x);
      MulZero(r[j].x);
    } else {
      hide Mul;
      ReachNonNegative(r, g - 1, j);
      Ascends(r, g - 1, j);
      var x := r[j].x;
      MulAdd(x, (g - 1) as real, 1.0, g as real);
      MulOne(x);
      MulComm(x, g as real);
      MulComm(x, (g - 1) as real);
    }
  }

  lemma {:induction false} Ascends(r: seq<Row>, i: nat, j: nat)
    requires Increasing(r) && i <= j < |r|
    ensures r[i].x <= r[j].x
    decreases j
  {
    if i < j {
      Ascends(r, i, j - 1);
    }
  }

  lemma {:induction false} SpareWithin(r: seq<Row>, k: nat, m: nat, lo: real, hi: real)
    requires 0 < k < |r| && m <= |r| && LeastWeight(r, k) && TableSlopesWithin(r, k, lo, hi)
    ensures var w := Weight(r, |r|, k);
            Mul(lo, SpareSteps(Diagonal(r), m, w)) <= SpareSteps(r, m, w) <= Mul(hi, SpareSteps(Diagonal(r), m, w))
  {
    if m <= 1 {
      MulZero(lo);
      MulZero(hi);
    } else {
      hide Mul;
      SpareWithin(r, k, m - 1, lo, hi);
      var w, d, g := Weight(r, |r|, k), Diagonal(r), m - 1;
      SameWeight(d, r, |r|, g);
      assert StepY(d, g) == StepX(r, g);
      var spare := Weight(r, |r|, g) - w;
      if g == k {
        MulZero(StepY(r, g));
        MulZero(StepX(r, g));
        assert SpareSteps(r, m, w) == SpareSteps(r, m - 1, w) && SpareSteps(d, m, w) == SpareSteps(d, m - 1, w);
      } else {
        SpareStep(lo, hi, StepX(r, g), StepY(r, g), spare);
        MulAdd(lo, SpareSteps(d, m - 1, w), Mul(StepX(r, g), spare), SpareSteps(d, m, w));
        MulAdd(hi, SpareSteps(d, m - 1, w), Mul(StepX(r, g), spare), SpareSteps(d, m, w));
      }
    }
  }

  lemma SpareStep(lo: real, hi: real, dx: real, dy: real, spare: real)
    requires spare >= 0.0 && Mul(lo, dx) <= dy <= Mul(hi, dx)
    ensures Mul(lo, Mul(dx, spare)) <= Mul(dy, spare) <= Mul(hi, Mul(dx, spare))
  {
    Products.MulMonotone(spare, Mul(lo, dx), dy);
    Products.MulMonotone(spare, dy, Mul(hi, dx));
    Reassociate(spare, lo, dx);
    Reassociate(spare, hi, dx);
    MulComm(spare, dy);
  }

  lemma Reassociate(s: real, lo: real, dx: real)
    ensures Mul(s, Mul(lo, dx)) == Mul(lo, Mul(dx, s))
  {
  }

  /** If the missing step weighs least, the table encloses the slope, whatever the offsets. */
  lemma EnclosedIfLeast(r: seq<Row>, k: nat, lo: real, hi: real)
    requires 0 < k < |r| && Increasing(r) && LeastWeight(r, k) && TableSlopesWithin(r, k, lo, hi)
    ensures Mul(lo, Det(r, |r|)) <= Num(r, |r|) <= Mul(hi, Det(r, |r|))
  {
    hide Mul;
    var n, d, w := |r|, Diagonal(r), Weight(r, |r|, k);
    PairwiseIdentity(r, n);
    DetIsPairs(r, n);
    PairsAreSteps(r, n);
    PairsAreSteps(d, n);
    SplitSteps(r, n, w);
    SplitSteps(d, n, w);
    SpareWithin(r, k, n, lo, hi);
    WeightNonNegative(r, n, k);
    var t, y := r[n - 1].x - r[0].x, r[n - 1].y - r[0].y;
    SpareStep(lo, hi, t, y, w);
    MulComm(w, t);
    MulComm(w, y);
    MulAdd(lo, Mul(t, w), SpareSteps(d, n, w), Det(r, n));
    MulAdd(hi, Mul(t, w), SpareSteps(d, n, w), Det(r, n));
  }

  // ----- and when they do not

  /** Offsets that step up by one in front of row k and down by one in front of row g. */
  function Bump(c: seq<Row>, k: nat, g: nat): (r: seq<Row>)
    ensures |r| == |c|
    ensures forall i :: 0 <= i < |c| ==>
                          r[i] == Row(c[i].x, (if i >= k then 1.0 else 0.0) - (if i >= g then 1.0 else 0.0))
  {
    seq(|c|, i requires 0 <= i < |c| => Row(c[i].x, (if i >= k then 1.0 else 0.0) - (if i >= g then 1.0 else 0.0)))
  }

  lemma {:induction false} BumpSteps(c: seq<Row>, k: nat, g: nat, m: nat)
    requires 0 < k < |c| && 0 < g < |c| && k != g && m <= |c|
    ensures WeightedSteps(Bump(c, k, g), m, |c|) ==
              (if k < m then Weight(c, |c|, k) else 0.0) - (if g < m then Weight(c, |c|, g) else 0.0)
  {
    if m > 1 {
      hide Mul;
      BumpSteps(c, k, g, m - 1);
      var r := Bump(c, k, g);
      var v := Weight(c, |c|, m - 1);
      SameWeight(r, c, |c|, m - 1);
      MulComm(0.0, v);
      MulZero(v);
      MulOne(v);
      MulMinusOne(v);
      assert StepY(r, m - 1) == if m - 1 == k then 1.0 else if m - 1 == g then -1.0 else 0.0;
    }
  }

  lemma MulMinusOne(v: real)
    ensures Mul(-1.0, v) == -v
  {
  }

  /** If some other step weighs less, there are offsets, all of them -1, 0 or 1, for which the slope escapes. */
  lemma EscapesIfNotLeast(c: seq<Row>, k: nat, g: nat)
    requires 0 < k < |c| && 0 < g < |c| && Increasing(c) && Weight(c, |c|, g) < Weight(c, |c|, k)
    ensures !Enclosed(Bump(c, k, g), k)
  {
    hide Mul;
    var r, n := Bump(c, k, g), |c|;
    PairwiseIdentity(r, n);
    PairsAreSteps(r, n);
    BumpSteps(c, k, g, n);
    var lo := NegativeReciprocal(StepX(c, g));
    BumpSlopes(c, k, g, lo);
    MulComm(0.0, Det(r, n));
    MulZero(Det(r, n));
  }

  lemma NegativeReciprocal(h: real) returns (lo: real)
    requires h > 0.0
    ensures lo < 0.0 && Mul(lo, h) == -1.0
  {
    lo := -1.0 / h;
  }

  lemma BumpSlopes(c: seq<Row>, k: nat, g: nat, lo: real)
    requires 0 < k < |c| && 0 < g < |c| && k != g && Increasing(c)
    requires lo < 0.0 && Mul(lo, StepX(c, g)) == -1.0
    ensures TableSlopesWithin(Bump(c, k, g), k, lo, 0.0)
  {
    var r := Bump(c, k, g);
    forall i | 0 < i < |r| && i != k
      ensures Mul(lo, StepX(r, i)) <= StepY(r, i) <= Mul(0.0, StepX(r, i))
    {
      assert StepX(r, i) == StepX(c, i) > 0.0;
      NegativeTimes(lo, StepX(r, i));
      assert StepY(r, i) == if i == g then -1.0 else 0.0;
    }
    Ascends(c, 0, |c| - 1);
    NegativeTimes(lo, c[|c| - 1].x - c[0].x);
  }

  lemma NegativeTimes(lo: real, x: real)
    requires lo < 0.0 && x >= 0.0
    ensures Mul(lo, x) <= 0.0 && Mul(0.0, x) == 0.0
  {
  }

  /**
   The exact condition: the slopes shown by a wrapped table enclose the fitted slope for
   all offsets if and only if the step missing from the table has the least weight.
   */
  lemma WrappedBoundsAreExact(c: seq<Row>, k: nat)
    requires 0 < k < |c| && Increasing(c)
    ensures LeastWeight(c, k) <==> forall r :: SameTimes(r, c) ==> Enclosed(r, k)
  {
    hide Mul;
    if LeastWeight(c, k) {
      forall r | SameTimes(r, c)
        ensures Enclosed(r, k)
      {
        SameLeast(r, c, k);
        forall lo, hi | TableSlopesWithin(r, k, lo, hi)
          ensures Mul(lo, Det(r, |r|)) <= Num(r, |r|) <= Mul(hi, Det(r, |r|))
        {
          EnclosedIfLeast(r, k, lo, hi);
        }
      }
    } else {
      var g :| 0 < g < |c| && Weight(c, |c|, g) < Weight(c, |c|, k);
      EscapesIfNotLeast(c, k, g);
      assert SameTimes(Bump(c, k, g), c);
    }
  }

  lemma SameLeast(r: seq<Row>, c: seq<Row>, k: nat)
    requires SameTimes(r, c) && k < |c| && LeastWeight(c, k) && Increasing(c)
    ensures LeastWeight(r, k) && Increasing(r)
  {
    forall g | 0 <= g < |c|
      ensures Weight(r, |r|, g) == Weight(c, |c|, g)
    {
      SameWeight(r, c, |c|, g);
    }
  }

  /** Samples at regular intervals in a table of six: only next to the ends of the table is it safe to wrap. */
  lemma RegularIntervals(c: seq<Row>, t: real, k: nat)
    requires |c| == 6 && t > 0.0 && 0 < k < 6
    requires forall i :: 0 <= i < 6 ==> c[i].x == c[0].x + i as real * t
    ensures Increasing(c)
    ensures LeastWeight(c, k) <==> k == 1 || k == 5
  {
    forall g | 0 < g < 6
      ensures Weight(c, 6, g) == (if g == 1 || g == 5 then 15.0 else if g == 3 then 27.0 else 24.0) * t
    {
      RegularWeight(c, t, g);
    }
    assert Weight(c, 6, 1) == 15.0 * t;
  }

  lemma RegularWeight(c: seq<Row>, t: real, g: nat)
    requires |c| == 6 && 0 < g < 6
    requires forall i :: 0 <= i < 6 ==> c[i].x == c[0].x + i as real * t
    ensures Weight(c, 6, g) == (if g == 1 || g == 5 then 15.0 else if g == 3 then 27.0 else 24.0) * t
  {
    var x := c[0].x;
    assert Sx(c, 1) == x && Sx(c, 2) == 2.0 * x + t && Sx(c, 3) == 3.0 * x + 3.0 * t;
    assert Sx(c, 4) == 4.0 * x + 6.0 * t && Sx(c, 5) == 5.0 * x + 10.0 * t;
    if g == 1 {
      assert Weight(c, 2, g) == t;
    }
    if g <= 2 {
      assert Weight(c, 3, g) == 3.0 * t;
    }
    if g <= 3 {
      assert Weight(c, 4, g) == (if g == 2 then 8.0 else 6.0) * t;
    }
    if g <= 4 {
      assert Weight(c, 5, g) == (if g == 1 || g == 4 then 10.0 else 15.0) * t;
    }
  }

  // ----- the fit does not depend on the order of the rows or on the origin

  lemma {:induction false} SumsConcat(a: seq<Row>, b: seq<Row>, j: nat)
    requires j <= |b|
    ensures var n := |a| + j;
            && Sx(a + b, n) == Sx(a, |a|) + Sx(b, j) && Sy(a + b, n) == Sy(a, |a|) + Sy(b, j)
            && Sxy(a + b, n) == Sxy(a, |a|) + Sxy(b, j) && Sxx(a + b, n) == Sxx(a, |a|) + Sxx(b, j)
  {
    hide Mul;
    if j == 0 {
      SumsPrefix(a, b, |a|);
    } else {
      SumsConcat(a, b, j - 1);
      assert (a + b)[|a| + j - 1] == b[j - 1];
    }
  }

  lemma {:induction false} SumsPrefix(a: seq<Row>, b: seq<Row>, n: nat)
    requires n <= |a|
    ensures Sx(a + b, n) == Sx(a, n) && Sy(a + b, n) == Sy(a, n) && Sxy(a + b, n) == Sxy(a, n)
    ensures Sxx(a + b, n) == Sxx(a, n)
  {
    hide Mul;
    if n > 0 {
      SumsPrefix(a, b, n - 1);
      assert (a + b)[n - 1] == a[n - 1];
    }
  }

  lemma RotationKeepsFit(a: seq<Row>, b: seq<Row>)
    ensures var n := |a| + |b|;
            Num(a + b, n) == Num(b + a, n) && Det(a + b, n) == Det(b + a, n)
  {
    hide Mul;
    SumsConcat(a, b, |b|);
    SumsConcat(b, a, |a|);
  }

  lemma {:induction false} ShiftKeepsPairs(q: seq<Row>, r: seq<Row>, n: nat, dx: real, dy: real)
    requires Shifted(q, r, dx, dy) && n <= |r|
    ensures Pairs(q, n) == Pairs(r, n)
  {
    hide Mul;
    if n > 0 {
      ShiftKeepsPairs(q, r, n - 1, dx, dy);
      ShiftKeepsCross(q, r, n - 1, n - 1, dx, dy);
    }
  }

  lemma {:induction false} ShiftKeepsCross(q: seq<Row>, r: seq<Row>, n: nat, j: nat, dx: real, dy: real)
    requires Shifted(q, r, dx, dy) && n <= |r| && j < |r|
    ensures Cross(q, n, q[j]) == Cross(r, n, r[j])
  {
    hide Mul;
    if n > 0 {
      ShiftKeepsCross(q, r, n - 1, j, dx, dy);
      assert q[j].x - q[n - 1].x == r[j].x - r[n - 1].x && q[j].y - q[n - 1].y == r[j].y - r[n - 1].y;
    }
  }

  /** Moving the origin changes neither numerator nor determinant. */
  lemma ShiftKeepsFit(q: seq<Row>, r: seq<Row>, n: nat, dx: real, dy: real)
    requires Shifted(q, r, dx, dy) && n <= |r|
    ensures Num(q, n) == Num(r, n) && Det(q, n) == Det(r, n)
  {
    hide Mul;
    PairwiseIdentity(q, n);
    PairwiseIdentity(r, n);
    ShiftKeepsPairs(q, r, n, dx, dy);
    DetIsPairs(q, n);
    DetIsPairs(r, n);
    assert Shifted(Diagonal(q), Diagonal(r), dx, dx);
    ShiftKeepsPairs(Diagonal(q), Diagonal(r), n, dx, dx);
  }
}
