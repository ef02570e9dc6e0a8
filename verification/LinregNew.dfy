/**
 The regression servo of the timelines (linregnew.c): a line through the newest six offsets, and bounds on its slope.
 */
module LinregNew {
  import opened Prelude
  import opened Products
  import opened LeastSquares
  import opened DriftBounds

  const REGRESSION_TABLE_SIZE := 6

  /** The rows seen from local time k. */
  function Relative(rows: seq<Row>, k: real): (q: seq<Row>)
    ensures Shifted(q, rows, k, 0.0)
  {
    seq(|rows|, i requires 0 <= i < |rows| => Row(rows[i].x - k, rows[i].y))
  }

  /** No two neighbouring rows have the same local time. */
  ghost predicate Steps(rows: seq<Row>) {
    forall i :: 0 < i < |rows| ==> rows[i].x != rows[i - 1].x
  }

  /** The slope between a row and the one before it in the table, in parts per billion. */
  function Drift(rows: seq<Row>, i: nat): real
    requires 0 < i < |rows| && rows[i].x != rows[i - 1].x
  {
    Quotient(rows[i].y - rows[i - 1].y, rows[i].x - rows[i - 1].x) * 1000000000.0
  }

  /** lo and hi are the least and the greatest drift up to row n of the table. */
  ghost predicate Extremes(rows: seq<Row>, n: nat, lo: real, hi: real)
    requires n <= |rows| && Steps(rows)
  {
    && (forall i :: 0 < i < n ==> lo <= Drift(rows, i) <= hi)
    && (exists i :: 0 < i < n && Drift(rows, i) == lo)
    && (exists i :: 0 < i < n && Drift(rows, i) == hi)
  }

  /** The same, for a table without equal neighbours; nothing is known otherwise. */
  ghost predicate Tracked(rows: seq<Row>, n: nat, lo: real, hi: real)
    requires n <= |rows|
  {
    Steps(rows) ==> Extremes(rows, n, lo, hi)
  }

  class Servo {
    const data: array<Row>
    var next: nat
    var n: nat
    var m: real
    var b: real
    var r: real

    ghost predicate Valid()
      reads this
    {
      data.Length == REGRESSION_TABLE_SIZE && next < REGRESSION_TABLE_SIZE && n <= REGRESSION_TABLE_SIZE
      && (n < REGRESSION_TABLE_SIZE ==> next == n)
    }

    constructor ()
      ensures Valid() && n == 0 && m == b == r == 0.0 && fresh(data)
    {
      data := new Row[REGRESSION_TABLE_SIZE](_ => Row(0.0, 0.0));
      next, n, m, b, r := 0, 0, 0.0, 0.0, 0.0;
    }

    method Reset()
      requires Valid()
      modifies this
      ensures Valid() && n == 0 && m == 0.0 && b == old(b) && r == old(r)
    {
      n, next, m := 0, 0, 0.0;
    }

    method Sample(offset: int, localTs: int) returns (ppb: real, state: ServoState, maxDrift: real, minDrift: real)
      requires Valid()
      modifies this, data
      ensures Valid() && data[..] == old(data[..])[old(next) := Row(localTs as real, offset as real)]
      ensures n == (if old(n) < REGRESSION_TABLE_SIZE then old(n) + 1 else old(n))
      ensures next == NextSlot(old(next), REGRESSION_TABLE_SIZE)
      ensures ppb == m * 1000000000.0
      ensures state == if n < 2 then Unlocked else if n == 2 then Jump else Locked
      ensures n < 2 ==> m == old(m) && maxDrift == minDrift == 0.0
      ensures n >= 2 ==> Fitted(data[..n]) && (Steps(data[..n]) ==> Extremes(data[..n], n, minDrift, maxDrift))
      ensures old(InOrder()) && old(Later(localTs)) ==> InOrder()
      ensures n >= 2 && InOrder() &&
              (next == 0 || n < REGRESSION_TABLE_SIZE ||
               LeastWeight(Unwrapped(data[..], next), REGRESSION_TABLE_SIZE - next)) ==>
                minDrift <= ppb <= maxDrift
    {
      hide Mul, Extremes, LeastWeight, Normal, Det, Num, Relative;
      ghost var was, slot, count := data[..], next, n;
      data[next] := Row(localTs as real, offset as real);
      if n < REGRESSION_TABLE_SIZE {
        n := n + 1;
      }
      maxDrift, minDrift := 0.0, 0.0;
      if n > 1 {
        maxDrift, minDrift := Regress();
      }
      next := NextSlot(next, REGRESSION_TABLE_SIZE);
      state := if n < 2 then Unlocked else if n == 2 then Jump else Locked;
      ppb := m * 1000000000.0;
      if old(InOrder()) && old(Later(localTs)) {
        TakesItsPlace(was, count, slot, Row(localTs as real, offset as real));
      }
      if n >= 2 && InOrder() {
        BoundsHold(minDrift, maxDrift);
      }
    }

    /** The table in order of time. */
    ghost function Chronicle(): seq<Row>
      requires Valid()
      reads this, data
    {
      InTime(data[..], n, next)
    }

    /** The samples since the last reset came in order of local time. */
    ghost predicate InOrder()
      requires Valid()
      reads this, data
    {
      Increasing(Chronicle())
    }

    ghost predicate Later(localTs: int)
      requires Valid()
      reads this, data
    {
      n > 0 ==> Chronicle()[n - 1].x < localTs as real
    }

    lemma BoundsHold(lo: real, hi: real)
      requires Valid() && n >= 2 && InOrder() && Fitted(data[..n])
      requires Steps(data[..n]) ==> Extremes(data[..n], n, lo, hi)
      ensures next == 0 || n < REGRESSION_TABLE_SIZE ||
              LeastWeight(Unwrapped(data[..], next), REGRESSION_TABLE_SIZE - next) ==>
                lo <= m * 1000000000.0 <= hi
    {
      hide Mul, Extremes, LeastWeight, Num;
      var t, k := data[..n], next;
      if n < REGRESSION_TABLE_SIZE || k == 0 {
        assert Chronicle() == t;
        IncreasingSteps(t);
        RegularChronicle(t);
        DriftEnclosesFit(t, m, lo, hi);
      } else if LeastWeight(Unwrapped(data[..], k), n - k) {
        assert data[..] == t;
        WrappedSteps(t, k);
        ContainedIfLeast(t, k);
        UnwrappedFit(t, k);
        RegularChronicle(Unwrapped(t, k));
        assert Extremes(t, n, lo, hi) && Mul(m, Det(t, n)) == Num(t, n);
      }
    }

    /** m and b are slope and intercept of the best line through the rows, seen from local time r. */
    ghost predicate Fitted(rows: seq<Row>)
      reads this
    {
      && |rows| > 0 && r == rows[0].x
      && (Det(rows, |rows|) != 0.0 ==>
            Mul(m, Det(rows, |rows|)) == Num(rows, |rows|) && Normal(Relative(rows, r), |rows|, b, m))
    }

    method Regress() returns (hi: real, lo: real)
      requires data.Length == REGRESSION_TABLE_SIZE && 2 <= n <= REGRESSION_TABLE_SIZE
      modifies this`m, this`b, this`r
      ensures Fitted(data[..n])
      ensures Steps(data[..n]) ==> Extremes(data[..n], n, lo, hi)
    {
      hide Mul, Tracked;
      var k := data[0].x;
      ghost var rows, rel := data[..n], Relative(data[..n], data[0].x);
      var sumx, sumx2, sumxy, sumy, c := 0.0, 0.0, 0.0, 0.0, 0.0;
      hi := DriftAt(1);
      lo := hi;
      FirstDrift(rows, lo);
      for i := 0 to n
        invariant c == i as real && sumx == Sx(rel, i) && sumy == Sy(rel, i) && sumxy == Sxy(rel, i)
        invariant sumx2 == Sxx(rel, i)
        invariant Tracked(rows, if i < 2 then 2 else i, lo, hi)
      {
        c := c + 1.0;
        sumx := sumx + (data[i].x - k);
        sumx2 := sumx2 + Mul(data[i].x - k, data[i].x - k);
        sumxy := sumxy + Mul(data[i].x - k, data[i].y);
        sumy := sumy + data[i].y;
        if i > 1 {
          var now := DriftAt(i);
          lo, hi := Widen(rows, i, now, lo, hi);
        }
      }
      Solve(rows, c, sumx, sumx2, sumxy, sumy);
      TrackedMeans(rows, lo, hi);
    }

    method DriftAt(i: nat) returns (now: real)
      requires data.Length == REGRESSION_TABLE_SIZE && 0 < i < n <= REGRESSION_TABLE_SIZE
      ensures Steps(data[..n]) ==> now == Drift(data[..n], i)
    {
      now := Divide(data[i].y - data[i - 1].y, data[i].x - data[i - 1].x);
      now := now * 1000000000.0;
    }

    method Widen(ghost rows: seq<Row>, i: nat, now: real, lo0: real, hi0: real) returns (lo: real, hi: real)
      requires 1 < i < |rows| && Tracked(rows, i, lo0, hi0)
      requires Steps(rows) ==> now == Drift(rows, i)
      ensures Tracked(rows, i + 1, lo, hi)
    {
      hi := if now > hi0 then now else hi0;
      lo := if now < lo0 then now else lo0;
    }

    method Solve(ghost rows: seq<Row>, c: real, sumx: real, sumx2: real, sumxy: real, sumy: real)
      requires data.Length == REGRESSION_TABLE_SIZE && 2 <= n <= REGRESSION_TABLE_SIZE && rows == data[..n]
      requires var rel := Relative(rows, rows[0].x);
               && c == n as real && sumx == Sx(rel, n) && sumy == Sy(rel, n)
               && sumxy == Sxy(rel, n) && sumx2 == Sxx(rel, n)
      modifies this`m, this`b, this`r
      ensures Fitted(rows)
    {
      m := Divide(Mul(c, sumxy) - Mul(sumx, sumy), Mul(c, sumx2) - Mul(sumx, sumx));
      b := Divide(Mul(sumy, sumx2) - Mul(sumx, sumxy), Mul(c, sumx2) - Mul(sumx, sumx));
      r := data[0].x;
      FitFromOrigin(rows, m, b);
    }
  }

  /** The first n rows of a table that is filled up in a circle, oldest first. */
  function InTime(t: seq<Row>, n: nat, next: nat): (c: seq<Row>)
    requires n <= |t| && next <= |t|
    ensures |c| == n
  {
    if n < |t| then t[..n] else Unwrapped(t, next)
  }

  /** A new row comes last, and pushes the oldest one out of a full table. */
  lemma TakesItsPlace(t: seq<Row>, n: nat, next: nat, row: Row)
    requires |t| == REGRESSION_TABLE_SIZE && n <= |t| && next < |t| && (n < |t| ==> next == n)
    requires Increasing(InTime(t, n, next)) && (n > 0 ==> InTime(t, n, next)[n - 1].x < row.x)
    ensures var n', next' := if n < |t| then n + 1 else n, NextSlot(next, |t|);
            Increasing(InTime(t[next := row], n', next'))
  {
    var n', next' := if n < |t| then n + 1 else n, NextSlot(next, |t|);
    var c, c' := InTime(t, n, next), InTime(t[next := row], n', next');
    if n < |t| {
      assert c' == c + [row];
    } else {
      assert c' == c[1..] + [row];
    }
  }

  lemma IncreasingSteps(t: seq<Row>)
    requires Increasing(t)
    ensures Steps(t)
  {
  }

  lemma RegularChronicle(c: seq<Row>)
    requires |c| >= 2 && Increasing(c)
    ensures Det(c, |c|) > 0.0
  {
    hide Mul, Det;
    DetPositive(c, |c|);
    assert c[0].x < c[1].x;
  }

  lemma FirstDrift(rows: seq<Row>, d: real)
    requires |rows| >= 2 && (Steps(rows) ==> d == Drift(rows, 1))
    ensures Tracked(rows, 2, d, d)
  {
  }

  lemma TrackedMeans(rows: seq<Row>, lo: real, hi: real)
    requires Tracked(rows, |rows|, lo, hi)
    ensures Steps(rows) ==> Extremes(rows, |rows|, lo, hi)
  {
  }

  /** Slope and intercept by Cramer's rule solve the normal equations. */
  lemma FitFromOrigin(rows: seq<Row>, m: real, b: real)
    requires |rows| > 0
    requires var rel, n := Relative(rows, rows[0].x), |rows|;
             Det(rel, n) != 0.0 ==>
               && Mul(m, Det(rel, n)) == Num(rel, n)
               && Mul(b, Det(rel, n)) == Mul(Sy(rel, n), Sxx(rel, n)) - Mul(Sx(rel, n), Sxy(rel, n))
    ensures var n := |rows|;
            Det(rows, n) != 0.0 ==> Mul(m, Det(rows, n)) == Num(rows, n) && Normal(Relative(rows, rows[0].x), n, b, m)
  {
    hide Mul;
    var rel, n := Relative(rows, rows[0].x), |rows|;
    ShiftKeepsFit(rel, rows, n, rows[0].x, 0.0);
    if Det(rows, n) != 0.0 {
      Cramer(n as real, Sx(rel, n), Sy(rel, n), Sxy(rel, n), Sxx(rel, n), m, b);
      FitIsNormal(rel, n, b, m);
    }
  }

  lemma Cramer(n: real, sx: real, sy: real, sxy: real, sxx: real, m: real, b: real)
    requires Mul(n, sxx) - Mul(sx, sx) != 0.0
    requires Mul(m, Mul(n, sxx) - Mul(sx, sx)) == Mul(n, sxy) - Mul(sx, sy)
    requires Mul(b, Mul(n, sxx) - Mul(sx, sx)) == Mul(sy, sxx) - Mul(sx, sxy)
    ensures Mul(b, n) == sy - Mul(m, sx)
  {
    var d := n * sxx - sx * sx;
    assert (b * d) * n == (sy * sxx - sx * sxy) * n;
    assert (m * d) * sx == (n * sxy - sx * sy) * sx;
    assert (b * n - sy + m * sx) * d == 0.0;
  }

  // ----- the bounds on the drift

  /** Drifts between lo and hi, as steps. */
  lemma DriftAsStep(rows: seq<Row>, i: nat, lo: real, hi: real)
    requires 0 < i < |rows| && rows[i].x > rows[i - 1].x && lo <= Drift(rows, i) <= hi
    ensures var dx, dy := rows[i].x - rows[i - 1].x, rows[i].y - rows[i - 1].y;
            Mul(lo / 1000000000.0, dx) <= dy <= Mul(hi / 1000000000.0, dx)
  {
    var dx, dy := rows[i].x - rows[i - 1].x, rows[i].y - rows[i - 1].y;
    SlopeAsStep(lo, hi, dx, dy);
  }

  lemma SlopeAsStep(lo: real, hi: real, dx: real, dy: real)
    requires dx > 0.0 && lo <= dy / dx * 1000000000.0 <= hi
    ensures Mul(lo / 1000000000.0, dx) <= dy <= Mul(hi / 1000000000.0, dx)
  {
    var s := dy / dx;
    assert Mul(s, dx) == dy;
    Products.MulMonotone(dx, lo / 1000000000.0, s);
    Products.MulMonotone(dx, s, hi / 1000000000.0);
    MulComm(dx, s);
    MulComm(dx, lo / 1000000000.0);
    MulComm(dx, hi / 1000000000.0);
  }

  /**
   While the rows of the table are in order of time, the least and the greatest drift enclose the fitted frequency.
   */
  lemma DriftEnclosesFit(rows: seq<Row>, m: real, lo: real, hi: real)
    requires |rows| >= 2 && Increasing(rows) && Extremes(rows, |rows|, lo, hi)
    requires Mul(m, Det(rows, |rows|)) == Num(rows, |rows|)
    ensures Det(rows, |rows|) > 0.0 && lo <= m * 1000000000.0 <= hi
  {
    var l, h := lo / 1000000000.0, hi / 1000000000.0;
    forall i | 0 < i < |rows|
      ensures Mul(l, rows[i].x - rows[i - 1].x) <= rows[i].y - rows[i - 1].y <= Mul(h, rows[i].x - rows[i - 1].x)
    {
      DriftAsStep(rows, i, lo, hi);
    }
    SlopeWithin(rows, l, h, m);
  }

  // ----- after the table has wrapped around

  /** The rows in order of time, when the oldest one is at k. */
  function Unwrapped(t: seq<Row>, k: nat): (c: seq<Row>)
    requires k <= |t|
    ensures |c| == |t|
  {
    t[k..] + t[..k]
  }

  /** The step of time that a pair of neighbours in the table makes, if they are not the newest and the oldest row. */
  lemma NeighbourSteps(t: seq<Row>, k: nat, j: nat)
    requires 0 < k < |t| && 0 < j < |t| && j != k
    ensures var c, g := Unwrapped(t, k), if j < k then j + |t| - k else j - k;
            0 < g < |t| && g != |t| - k && c[g] == t[j] && c[g - 1] == t[j - 1]
  {
  }

  lemma StepsAreNeighbours(t: seq<Row>, k: nat, g: nat)
    requires 0 < k < |t| && 0 < g < |t| && g != |t| - k
    ensures var c, j := Unwrapped(t, k), if g < |t| - k then g + k else g - (|t| - k);
            0 < j < |t| && j != k && c[g] == t[j] && c[g - 1] == t[j - 1]
  {
  }

  lemma WrappedSteps(t: seq<Row>, k: nat)
    requires 0 < k < |t| && Increasing(Unwrapped(t, k))
    ensures Steps(t) && t[k - 1].x > t[k].x
  {
    var c := Unwrapped(t, k);
    assert c[0] == t[k] && c[|t| - 1] == t[k - 1];
    Ascends(c, 0, 1);
    Ascends(c, 1, |t| - 1);
    forall j | 0 < j < |t|
      ensures t[j].x != t[j - 1].x
    {
      if j != k {
        NeighbourSteps(t, k, j);
      }
    }
  }

  /** The drifts of a wrapped table, as steps of time and the chord. */
  lemma WrappedSlopes(t: seq<Row>, k: nat, lo: real, hi: real)
    requires 0 < k < |t| && Increasing(Unwrapped(t, k)) && Steps(t) && Extremes(t, |t|, lo, hi)
    ensures TableSlopesWithin(Unwrapped(t, k), |t| - k, lo / 1000000000.0, hi / 1000000000.0)
  {
    var c, l, h := Unwrapped(t, k), lo / 1000000000.0, hi / 1000000000.0;
    forall g | 0 < g < |c| && g != |t| - k
      ensures Mul(l, StepX(c, g)) <= StepY(c, g) <= Mul(h, StepX(c, g))
    {
      StepsAreNeighbours(t, k, g);
      DriftAsStep(t, if g < |t| - k then g + k else g - (|t| - k), lo, hi);
    }
    WrappedSteps(t, k);
    assert c[0] == t[k] && c[|c| - 1] == t[k - 1];
    var dx, dy := t[k].x - t[k - 1].x, t[k].y - t[k - 1].y;
    assert lo <= Drift(t, k) <= hi;
    FlipQuotient(dy, dx);
    SlopeAsStep(lo, hi, -dx, -dy);
  }

  lemma FlipQuotient(a: real, b: real)
    requires b != 0.0
    ensures Quotient(a, b) == (-a) / (-b)
  {
    var q := a / b;
    assert q * (-b) == -a;
    QuotientIs(-a, -b, q);
  }

  lemma QuotientIs(a: real, b: real, q: real)
    requires b != 0.0 && q * b == a
    ensures a / b == q
  {
  }

  /** Whatever line fits the table, the least and the greatest drift enclose its slope. */
  ghost predicate Contained(t: seq<Row>)
    requires Steps(t)
  {
    forall m, lo, hi :: Extremes(t, |t|, lo, hi) && Mul(m, Det(t, |t|)) == Num(t, |t|) ==> lo <= m * 1000000000.0 <= hi
  }

  lemma UnwrappedFit(t: seq<Row>, k: nat)
    requires k <= |t|
    ensures Num(Unwrapped(t, k), |t|) == Num(t, |t|) && Det(Unwrapped(t, k), |t|) == Det(t, |t|)
  {
    RotationKeepsFit(t[..k], t[k..]);
    assert t[..k] + t[k..] == t;
  }

  lemma ContainedIfLeast(t: seq<Row>, k: nat)
    requires 0 < k < |t| && Increasing(Unwrapped(t, k)) && Steps(t) && LeastWeight(Unwrapped(t, k), |t| - k)
    ensures Contained(t)
  {
    hide Mul;
    var c, n := Unwrapped(t, k), |t|;
    UnwrappedFit(t, k);
    DetPositive(c, n);
    assert c[0].x != c[1].x;
    forall m, lo, hi | Extremes(t, n, lo, hi) && Mul(m, Det(t, n)) == Num(t, n)
      ensures lo <= m * 1000000000.0 <= hi
    {
      WrappedSlopes(t, k, lo, hi);
      EnclosedIfLeast(c, n - k, lo / 1000000000.0, hi / 1000000000.0);
      Cancel(Det(t, n), lo / 1000000000.0, m);
      Cancel(Det(t, n), m, hi / 1000000000.0);
    }
  }

  /** The offsets for which the bounds fail, as a table. */
  function Tampered(t: seq<Row>, k: nat, g: nat): (u: seq<Row>)
    requires 0 < k < |t|
    ensures |u| == |t|
  {
    var r := Bump(Unwrapped(t, k), |t| - k, g);
    Unwrapped(r, |t| - k)
  }

  lemma TamperedIsWrapped(t: seq<Row>, k: nat, g: nat)
    requires 0 < k < |t|
    ensures Unwrapped(Tampered(t, k, g), k) == Bump(Unwrapped(t, k), |t| - k, g)
    ensures SameTimes(Tampered(t, k, g), t)
  {
    var c, n := Unwrapped(t, k), |t|;
    var r, u := Bump(c, n - k, g), Tampered(t, k, g);
    assert u == r[n - k..] + r[..n - k];
    assert Unwrapped(u, k) == r;
    forall i | 0 <= i < n
      ensures u[i].x == t[i].x
    {
      var j := if i < k then n - k + i else i - k;
      assert u[i] == r[j] && c[j] == t[i];
    }
  }

  /** In order of time the tampered offsets only rise where the table does not show it, and end where they began. */
  ghost predicate HiddenRise(r: seq<Row>, k: nat) {
    && |r| > 1 && Increasing(r) && r[|r| - 1].y == r[0].y
    && forall h :: 0 < h < |r| && h != k ==> StepY(r, h) <= 0.0
  }

  lemma BumpIsHidden(c: seq<Row>, k: nat, g: nat)
    requires 0 < k < |c| && 0 < g < |c| && g != k && Increasing(c)
    ensures HiddenRise(Bump(c, k, g), k) && Increasing(Bump(c, k, g))
  {
  }

  lemma HiddenRiseDrift(u: seq<Row>, k: nat, j: nat)
    requires 0 < k < |u| && 0 < j < |u| && Steps(u) && HiddenRise(Unwrapped(u, k), |u| - k)
    ensures Drift(u, j) <= 0.0
  {
    hide Quotient;
    var r := Unwrapped(u, k);
    var dy, dx := u[j].y - u[j - 1].y, u[j].x - u[j - 1].x;
    if j == k {
      assert u[k] == r[0] && u[k - 1] == r[|u| - 1];
      ZeroQuotient(dx);
      assert dy == 0.0;
    } else {
      NeighbourSteps(u, k, j);
      var h := if j < k then j + |u| - k else j - k;
      assert dy == StepY(r, h) && dx == StepX(r, h);
      NonPositiveQuotient(dy, dx);
    }
  }

  lemma ZeroQuotient(b: real)
    requires b != 0.0
    ensures Quotient(0.0, b) == 0.0
  {
  }

  lemma NonPositiveQuotient(a: real, b: real)
    requires a <= 0.0 && b > 0.0
    ensures Quotient(a, b) <= 0.0
  {
    var q := a / b;
    assert Mul(q, b) == a && Mul(0.0, b) == 0.0;
    Cancel(b, q, 0.0);
  }

  /** And yet the line fitted to them rises. */
  lemma HiddenRiseFit(c: seq<Row>, k: nat, g: nat)
    requires 0 < k < |c| && 0 < g < |c| && Increasing(c) && Weight(c, |c|, g) < Weight(c, |c|, k)
    ensures var r := Bump(c, k, g);
            Num(r, |c|) > 0.0 && Det(r, |c|) > 0.0
  {
    hide Mul;
    var r, n := Bump(c, k, g), |c|;
    PairwiseIdentity(r, n);
    PairsAreSteps(r, n);
    BumpSteps(c, k, g, n);
    DetPositive(r, n);
    assert c[0].x < c[1].x && r[0].x != r[1].x;
  }

  lemma HiddenRiseEscapes(u: seq<Row>, k: nat)
    requires 0 < k < |u| && Steps(u) && HiddenRise(Unwrapped(u, k), |u| - k)
    requires Num(u, |u|) > 0.0 && Det(u, |u|) > 0.0
    ensures !Contained(u)
  {
    hide Mul, Quotient, Num, Det, HiddenRise;
    var lo, hi := SomeExtremes(u, |u|);
    var i :| 0 < i < |u| && Drift(u, i) == hi;
    HiddenRiseDrift(u, k, i);
    var m := PositiveSlope(Num(u, |u|), Det(u, |u|));
  }

  lemma EscapesContainment(t: seq<Row>, k: nat, g: nat)
    requires 0 < k < |t| && 0 < g < |t| && Increasing(Unwrapped(t, k))
    requires Weight(Unwrapped(t, k), |t|, g) < Weight(Unwrapped(t, k), |t|, |t| - k)
    ensures Steps(Tampered(t, k, g)) && !Contained(Tampered(t, k, g))
  {
    hide Mul, Quotient, Tampered, Num, Det, Contained, HiddenRise, Increasing;
    var u, n := Tampered(t, k, g), |t|;
    TamperedIsWrapped(t, k, g);
    BumpIsHidden(Unwrapped(t, k), n - k, g);
    WrappedSteps(u, k);
    HiddenRiseFit(Unwrapped(t, k), n - k, g);
    UnwrappedFit(u, k);
    HiddenRiseEscapes(u, k);
  }

  lemma PositiveSlope(num: real, det: real) returns (m: real)
    requires num > 0.0 && det > 0.0
    ensures m > 0.0 && Mul(m, det) == num
  {
    m := num / det;
    assert Mul(m, det) == num;
    if m <= 0.0 {
      MulComm(m, det);
      MulZero(det);
      Products.MulMonotone(det, m, 0.0);
    }
  }

  lemma SomeExtremes(rows: seq<Row>, n: nat) returns (lo: real, hi: real)
    requires 2 <= n <= |rows| && Steps(rows)
    ensures Extremes(rows, n, lo, hi)
  {
    lo, hi := Drift(rows, 1), Drift(rows, 1);
    var i := 2;
    while i < n
      invariant 2 <= i <= n && Extremes(rows, i, lo, hi)
    {
      var now := Drift(rows, i);
      hi := if now > hi then now else hi;
      lo := if now < lo then now else lo;
      i := i + 1;
    }
  }

  /**
   The exact condition for a wrapped table: the drifts enclose the slope for all offsets if and
   only if the step between the last and the first row of the table has the least weight.
   */
  lemma WrappedDriftIsExact(t: seq<Row>, k: nat)
    requires 0 < k < |t| && Increasing(Unwrapped(t, k))
    ensures LeastWeight(Unwrapped(t, k), |t| - k) <==> forall u :: SameTimes(u, t) && Steps(u) ==> Contained(u)
  {
    var c := Unwrapped(t, k);
    if LeastWeight(c, |t| - k) {
      forall u | SameTimes(u, t) && Steps(u)
        ensures Contained(u)
      {
        assert SameTimes(Unwrapped(u, k), c);
        SameLeast(Unwrapped(u, k), c, |t| - k);
        ContainedIfLeast(u, k);
      }
    } else {
      var g :| 0 < g < |c| && Weight(c, |c|, g) < Weight(c, |c|, |t| - k);
      EscapesContainment(t, k, g);
      TamperedIsWrapped(t, k, g);
    }
  }

  /**
   With samples at regular intervals the table of six rows, once wrapped, encloses the slope for all offsets exactly
   when one row or five are new.
   */
  lemma RegularTable(t: seq<Row>, k: nat, interval: real)
    requires |t| == REGRESSION_TABLE_SIZE && 0 < k < |t| && interval > 0.0
    requires var c := Unwrapped(t, k);
             forall i :: 0 <= i < 6 ==> c[i].x == c[0].x + i as real * interval
    ensures (forall u :: SameTimes(u, t) && Steps(u) ==> Contained(u)) <==> k == 1 || k == 5
  {
    RegularIntervals(Unwrapped(t, k), interval, |t| - k);
    WrappedDriftIsExact(t, k);
  }
}
