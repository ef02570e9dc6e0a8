/** Straight lines fitted to points by least squares: what the regression servos rest on. */
module LeastSquares {
  import opened Products

  datatype Row = Row(x: real, y: real)

  // ----- sums over the first n rows

  function Sx(r: seq<Row>, n: nat): real
    requires n <= |r|
  {
    if n == 0 then 0.0 else Sx(r, n - 1) + r[n - 1].x
  }

  function Sy(r: seq<Row>, n: nat): real
    requires n <= |r|
  {
    if n == 0 then 0.0 else Sy(r, n - 1) + r[n - 1].y
  }

  function Sxy(r: seq<Row>, n: nat): real
    requires n <= |r|
  {
    if n == 0 then 0.0 else Sxy(r, n - 1) + Mul(r[n - 1].x, r[n - 1].y)
  }

  function Sxx(r: seq<Row>, n: nat): real
    requires n <= |r|
  {
    if n == 0 then 0.0 else Sxx(r, n - 1) + Mul(r[n - 1].x, r[n - 1].x)
  }

  /** The determinant of the normal equations. */
  function Det(r: seq<Row>, n: nat): real
    requires n <= |r|
  {
    Mul(n as real, Sxx(r, n)) - Mul(Sx(r, n), Sx(r, n))
  }

  /** The numerator of the slope. */
  function Num(r: seq<Row>, n: nat): real
    requires n <= |r|
  {
    Mul(n as real, Sxy(r, n)) - Mul(Sx(r, n), Sy(r, n))
  }

  function Residual(p: Row, a: real, b: real): real {
    p.y - a - Mul(b, p.x)
  }

  /** The sum of the residuals of the line a + b x. */
  function SumR(r: seq<Row>, n: nat, a: real, b: real): real
    requires n <= |r|
  {
    if n == 0 then 0.0 else SumR(r, n - 1, a, b) + Residual(r[n - 1], a, b)
  }

  /** The sum of the residuals weighted by x. */
  function SumRx(r: seq<Row>, n: nat, a: real, b: real): real
    requires n <= |r|
  {
    if n == 0 then 0.0 else SumRx(r, n - 1, a, b) + Mul(Residual(r[n - 1], a, b), r[n - 1].x)
  }

  /** The sum of the squared residuals. */
  function Sse(r: seq<Row>, n: nat, a: real, b: real): real
    requires n <= |r|
  {
    if n == 0 then 0.0 else Sse(r, n - 1, a, b) + Mul(Residual(r[n - 1], a, b), Residual(r[n - 1], a, b))
  }

  /** The normal equations. */
  ghost predicate Normal(r: seq<Row>, n: nat, a: real, b: real)
    requires n <= |r|
  {
    SumR(r, n, a, b) == 0.0 && SumRx(r, n, a, b) == 0.0
  }

  lemma {:induction false} ResidualSum(r: seq<Row>, n: nat, a: real, b: real)
    requires n <= |r|
    ensures SumR(r, n, a, b) == Sy(r, n) - Mul(a, n as real) - Mul(b, Sx(r, n))
  {
    if n > 0 {
      hide Mul;
      ResidualSum(r, n - 1, a, b);
      MulAdd(a, (n - 1) as real, 1.0, n as real);
      MulOne(a);
      MulAdd(b, Sx(r, n - 1), r[n - 1].x, Sx(r, n));
    }
  }

  lemma MulOne(a: real)
    ensures Mul(a, 1.0) == a && Mul(1.0, a) == a
  {
  }

  lemma {:induction false} WeightedResidualSum(r: seq<Row>, n: nat, a: real, b: real)
    requires n <= |r|
    ensures SumRx(r, n, a, b) == Sxy(r, n) - Mul(a, Sx(r, n)) - Mul(b, Sxx(r, n))
  {
    if n > 0 {
      hide Mul;
      WeightedResidualSum(r, n - 1, a, b);
      var x := r[n - 1].x;
      WeightedResidual(r[n - 1], a, b);
      MulAdd(a, Sx(r, n - 1), x, Sx(r, n));
      MulAdd(b, Sxx(r, n - 1), Mul(x, x), Sxx(r, n));
    }
  }

  lemma WeightedResidual(p: Row, a: real, b: real)
    ensures Mul(Residual(p, a, b), p.x) == Mul(p.x, p.y) - Mul(a, p.x) - Mul(b, Mul(p.x, p.x))
  {
  }

  /** The line of the regression: its normal equations solved for slope and intercept. */
  lemma FitIsNormal(r: seq<Row>, n: nat, a: real, b: real)
    requires 0 < n <= |r|
    requires Mul(b, Det(r, n)) == Num(r, n)
    requires Mul(a, n as real) == Sy(r, n) - Mul(b, Sx(r, n))
    ensures Normal(r, n, a, b)
  {
    hide Mul;
    ResidualSum(r, n, a, b);
    WeightedResidualSum(r, n, a, b);
    SolveFor(n as real, Sx(r, n), Sy(r, n), Sxy(r, n), Sxx(r, n), a, b);
  }

  lemma SolveFor(n: real, sx: real, sy: real, sxy: real, sxx: real, a: real, b: real)
    requires n > 0.0 && Mul(b, Mul(n, sxx) - Mul(sx, sx)) == Mul(n, sxy) - Mul(sx, sy)
    requires Mul(a, n) == sy - Mul(b, sx)
    ensures sxy - Mul(a, sx) - Mul(b, sxx) == 0.0
  {
    assert (n * a) * sx == (sy - b * sx) * sx;
    assert n * (sxy - a * sx - b * sxx) == 0.0;
  }

  // ----- the fitted line is the best one

  /** How much a line that is off by da + db x is worse. */
  function Excess(r: seq<Row>, n: nat, da: real, db: real): (e: real)
    requires n <= |r|
    ensures e >= 0.0
  {
    if n == 0 then 0.0
    else
      var d := da + Mul(db, r[n - 1].x);
      SquareNonNegative(d);
      Excess(r, n - 1, da, db) + Mul(d, d)
  }

  lemma SquareOfSum(u: real, da: real, db: real, x: real, v: real, d: real)
    requires d == da + Mul(db, x) && v == u + d
    ensures Mul(v, v) == Mul(u, u) + 2.0 * Mul(da, u) + 2.0 * Mul(db, Mul(u, x)) + Mul(d, d)
  {
    assert v * v == u * u + 2.0 * (u * d) + d * d;
    assert u * d == da * u + db * (u * x);
  }

  lemma ResidualOfOther(p: Row, a: real, b: real, da: real, db: real)
    ensures Residual(p, a - da, b - db) == Residual(p, a, b) + (da + Mul(db, p.x))
  {
  }

  /** Pythagoras: the squared error of any line, in terms of the sums for another one. */
  lemma {:induction false} ErrorOfOtherLine(r: seq<Row>, n: nat, a: real, b: real, da: real, db: real)
    requires n <= |r|
    ensures Sse(r, n, a - da, b - db) ==
              Sse(r, n, a, b) + 2.0 * Mul(da, SumR(r, n, a, b)) + 2.0 * Mul(db, SumRx(r, n, a, b))
              + Excess(r, n, da, db)
  {
    if n == 0 {
      MulZero(da);
      MulZero(db);
    } else {
      hide Mul;
      ErrorOfOtherLine(r, n - 1, a, b, da, db);
      var p := r[n - 1];
      var u := Residual(p, a, b);
      ResidualOfOther(p, a, b, da, db);
      SquareOfSum(u, da, db, p.x, Residual(p, a - da, b - db), da + Mul(db, p.x));
      MulAdd(da, SumR(r, n - 1, a, b), u, SumR(r, n, a, b));
      MulAdd(db, SumRx(r, n - 1, a, b), Mul(u, p.x), SumRx(r, n, a, b));
    }
  }

  lemma MulZero(a: real)
    ensures Mul(a, 0.0) == 0.0
  {
  }

  /** A line that solves the normal equations has the least squared error of all lines. */
  lemma NormalIsBest(r: seq<Row>, n: nat, a: real, b: real, a': real, b': real)
    requires n <= |r| && Normal(r, n, a, b)
    ensures Sse(r, n, a, b) <= Sse(r, n, a', b')
  {
    hide Mul;
    ErrorOfOtherLine(r, n, a, b, a - a', b - b');
    assert a - (a - a') == a' && b - (b - b') == b';
    MulZero(a - a');
    MulZero(b - b');
  }

  // ----- moving the origin

  /** q are the rows r seen from the point (dx, dy). */
  ghost predicate Shifted(q: seq<Row>, r: seq<Row>, dx: real, dy: real) {
    |q| == |r| && forall i :: 0 <= i < |r| ==> q[i].x == r[i].x - dx && q[i].y == r[i].y - dy
  }

  lemma {:induction false} ShiftedSums(q: seq<Row>, r: seq<Row>, n: nat, dx: real, dy: real, a: real, b: real)
    requires Shifted(q, r, dx, dy) && n <= |r|
    ensures SumR(q, n, a + (Mul(dx, b) - dy), b) == SumR(r, n, a, b)
    ensures SumRx(q, n, a + (Mul(dx, b) - dy), b) == SumRx(r, n, a, b) - Mul(dx, SumR(r, n, a, b))
  {
    if n == 0 {
      MulZero(dx);
    } else {
      hide Mul;
      ShiftedSums(q, r, n - 1, dx, dy, a, b);
      ShiftedResidual(q[n - 1], r[n - 1], dx, dy, a, b);
      MulAdd(dx, SumR(r, n - 1, a, b), Residual(r[n - 1], a, b), SumR(r, n, a, b));
    }
  }

  lemma ShiftedResidual(q: Row, p: Row, dx: real, dy: real, a: real, b: real)
    requires q.x == p.x - dx && q.y == p.y - dy
    ensures Residual(q, a + (Mul(dx, b) - dy), b) == Residual(p, a, b)
    ensures Mul(Residual(q, a + (Mul(dx, b) - dy), b), q.x) == Mul(Residual(p, a, b), p.x) - Mul(dx, Residual(p, a, b))
  {
    assert b * (p.x - dx) == b * p.x - dx * b;
    var u := Residual(p, a, b);
    assert u * (p.x - dx) == u * p.x - dx * u;
  }

  /** The best line stays the best line when the origin moves and the intercept moves along. */
  lemma ShiftedNormal(q: seq<Row>, r: seq<Row>, n: nat, dx: real, dy: real, a: real, b: real)
    requires Shifted(q, r, dx, dy) && n <= |r| && Normal(r, n, a, b)
    ensures Normal(q, n, a + (Mul(dx, b) - dy), b)
  {
    hide Mul;
    ShiftedSums(q, r, n, dx, dy, a, b);
    MulZero(dx);
  }

  // ----- sums over pairs of rows

  /** The sum over i < n of (p.x - x_i)(p.y - y_i). */
  function Cross(r: seq<Row>, n: nat, p: Row): real
    requires n <= |r|
  {
    if n == 0 then 0.0 else Cross(r, n - 1, p) + Mul(p.x - r[n - 1].x, p.y - r[n - 1].y)
  }

  /** The sum over i < j < n of (x_j - x_i)(y_j - y_i). */
  function Pairs(r: seq<Row>, n: nat): real
    requires n <= |r|
  {
    if n == 0 then 0.0 else Pairs(r, n - 1) + Cross(r, n - 1, r[n - 1])
  }

  lemma {:induction false} CrossSum(r: seq<Row>, n: nat, p: Row)
    requires n <= |r|
    ensures Cross(r, n, p) == Mul(Mul(p.x, p.y), n as real) - Mul(p.x, Sy(r, n)) - Mul(p.y, Sx(r, n)) + Sxy(r, n)
  {
    if n == 0 {
    } else {
      hide Mul;
      CrossSum(r, n - 1, p);
      var q := r[n - 1];
      ProductOfDifferences(p, q);
      MulAdd(p.x, Sy(r, n - 1), q.y, Sy(r, n));
      MulAdd(p.y, Sx(r, n - 1), q.x, Sx(r, n));
      MulAdd(Mul(p.x, p.y), (n - 1) as real, 1.0, n as real);
      MulOne(Mul(p.x, p.y));
    }
  }

  lemma ProductOfDifferences(p: Row, q: Row)
    ensures Mul(p.x - q.x, p.y - q.y) == Mul(p.x, p.y) - Mul(p.x, q.y) - Mul(p.y, q.x) + Mul(q.x, q.y)
  {
  }

  /** The numerator of the slope is a sum over pairs. */
  lemma {:induction false} PairwiseIdentity(r: seq<Row>, n: nat)
    requires n <= |r|
    ensures Num(r, n) == Pairs(r, n)
  {
    if n == 0 {
    } else {
      hide Mul;
      PairwiseIdentity(r, n - 1);
      var p := r[n - 1];
      CrossSum(r, n - 1, p);
      PairStep((n - 1) as real, Sx(r, n - 1), Sy(r, n - 1), Sxy(r, n - 1), p,
               n as real, Sx(r, n), Sy(r, n), Sxy(r, n));
    }
  }

  lemma PairStep(k: real, sx: real, sy: real, sxy: real, p: Row, n: real, tx: real, ty: real, txy: real)
    requires n == k + 1.0 && tx == sx + p.x && ty == sy + p.y && txy == sxy + Mul(p.x, p.y)
    ensures Mul(n, txy) - Mul(tx, ty) ==
              (Mul(k, sxy) - Mul(sx, sy)) + (Mul(Mul(p.x, p.y), k) - Mul(p.x, sy) - Mul(p.y, sx) + sxy)
  {
    var x, y := p.x, p.y;
    assert n * txy == (k + 1.0) * (sxy + x * y) == k * sxy + k * (x * y) + sxy + x * y;
    assert tx * ty == (sx + x) * (sy + y) == sx * sy + sx * y + x * sy + x * y;
  }

  /** The same rows with x in place of y. */
  function Diagonal(r: seq<Row>): (d: seq<Row>)
    ensures |d| == |r| && forall i :: 0 <= i < |r| ==> d[i] == Row(r[i].x, r[i].x)
  {
    seq(|r|, i requires 0 <= i < |r| => Row(r[i].x, r[i].x))
  }

  lemma {:induction false} DiagonalSums(r: seq<Row>, n: nat)
    requires n <= |r|
    ensures Sx(Diagonal(r), n) == Sx(r, n) && Sy(Diagonal(r), n) == Sx(r, n) && Sxy(Diagonal(r), n) == Sxx(r, n)
  {
    if n > 0 {
      hide Mul;
      DiagonalSums(r, n - 1);
    }
  }

  /** The determinant is a sum of squares over pairs. */
  lemma DetIsPairs(r: seq<Row>, n: nat)
    requires n <= |r|
    ensures Det(r, n) == Pairs(Diagonal(r), n)
  {
    hide Mul;
    DiagonalSums(r, n);
    PairwiseIdentity(Diagonal(r), n);
  }

  lemma {:induction false} CrossDiagonal(r: seq<Row>, n: nat, p: Row)
    requires n <= |r| && p.x == p.y
    ensures Cross(Diagonal(r), n, p) >= 0.0
    ensures Cross(Diagonal(r), n, p) > 0.0 <==> exists i :: 0 <= i < n && r[i].x != p.x
  {
    if n > 0 {
      hide Mul;
      CrossDiagonal(r, n - 1, p);
      var d := p.x - r[n - 1].x;
      SquareNonNegative(d);
      if d != 0.0 {
        SquarePositive(d);
        assert r[n - 1].x != p.x;
      } else {
        MulZero(0.0);
      }
    }
  }

  lemma {:induction false} PairsOfSquares(r: seq<Row>, n: nat)
    requires n <= |r|
    ensures Pairs(Diagonal(r), n) >= 0.0
    ensures Pairs(Diagonal(r), n) > 0.0 <==> exists i, j :: 0 <= i < j < n && r[i].x != r[j].x
  {
    if n > 0 {
      hide Mul, Cross;
      PairsOfSquares(r, n - 1);
      CrossDiagonal(r, n - 1, Row(r[n - 1].x, r[n - 1].x));
    }
  }

  /** The slope is well defined exactly if the rows do not all have the same x. */
  lemma DetPositive(r: seq<Row>, n: nat)
    requires n <= |r|
    ensures Det(r, n) >= 0.0
    ensures Det(r, n) > 0.0 <==> exists i, j :: 0 <= i < j < n && r[i].x != r[j].x
  {
    hide Mul;
    DetIsPairs(r, n);
    PairsOfSquares(r, n);
  }

  // ----- the slope lies between the slopes of neighbouring rows

  ghost predicate Increasing(r: seq<Row>) {
    forall i :: 0 < i < |r| ==> r[i - 1].x < r[i].x
  }

  /** Every two neighbouring rows have a slope between lo and hi. */
  ghost predicate SlopesWithin(r: seq<Row>, lo: real, hi: real) {
    forall i :: 0 < i < |r| ==>
      Mul(lo, r[i].x - r[i - 1].x) <= r[i].y - r[i - 1].y <= Mul(hi, r[i].x - r[i - 1].x)
  }

  /** Then so has any pair of rows. */
  lemma {:induction false} ChordWithin(r: seq<Row>, lo: real, hi: real, i: nat, j: nat)
    requires Increasing(r) && SlopesWithin(r, lo, hi) && i <= j < |r|
    ensures r[i].x <= r[j].x && (i < j ==> r[i].x < r[j].x)
    ensures Mul(lo, r[j].x - r[i].x) <= r[j].y - r[i].y <= Mul(hi, r[j].x - r[i].x)
    decreases j
  {
    if i == j {
      MulZero(lo);
      MulZero(hi);
    } else {
      hide Mul;
      ChordWithin(r, lo, hi, i, j - 1);
      var u, v := r[j - 1].x - r[i].x, r[j].x - r[j - 1].x;
      MulAdd(lo, u, v, r[j].x - r[i].x);
      MulAdd(hi, u, v, r[j].x - r[i].x);
    }
  }

  lemma {:induction false} CrossWithin(r: seq<Row>, lo: real, hi: real, n: nat, j: nat)
    requires Increasing(r) && SlopesWithin(r, lo, hi) && n <= j < |r|
    ensures var c, d := Cross(r, n, r[j]), Cross(Diagonal(r), n, Row(r[j].x, r[j].x));
            Mul(lo, d) <= c <= Mul(hi, d)
  {
    if n == 0 {
      MulZero(lo);
      MulZero(hi);
    } else {
      hide Mul;
      CrossWithin(r, lo, hi, n - 1, j);
      ChordWithin(r, lo, hi, n - 1, j);
      var p := Row(r[j].x, r[j].x);
      WithinStep(lo, hi, Cross(r, n - 1, r[j]), Cross(Diagonal(r), n - 1, p), r[j].x - r[n - 1].x, r[j].y - r[n - 1].y,
                 Cross(r, n, r[j]), Cross(Diagonal(r), n, p));
    }
  }

  lemma WithinStep(lo: real, hi: real, c: real, d: real, dx: real, dy: real, c': real, d': real)
    requires Mul(lo, d) <= c <= Mul(hi, d) && dx >= 0.0 && Mul(lo, dx) <= dy <= Mul(hi, dx)
    requires c' == c + Mul(dx, dy) && d' == d + Mul(dx, dx)
    ensures Mul(lo, d') <= c' <= Mul(hi, d')
  {
    hide Mul;
    Products.MulMonotone(dx, Mul(lo, dx), dy);
    Products.MulMonotone(dx, dy, Mul(hi, dx));
    MulAdd(lo, d, Mul(dx, dx), d');
    MulAdd(hi, d, Mul(dx, dx), d');
    Associate(dx, lo);
    Associate(dx, hi);
  }

  lemma Associate(dx: real, lo: real)
    ensures Mul(dx, Mul(lo, dx)) == Mul(lo, Mul(dx, dx))
  {
  }

  lemma {:induction false} PairsWithin(r: seq<Row>, lo: real, hi: real, n: nat)
    requires Increasing(r) && SlopesWithin(r, lo, hi) && n <= |r|
    ensures Mul(lo, Pairs(Diagonal(r), n)) <= Pairs(r, n) <= Mul(hi, Pairs(Diagonal(r), n))
  {
    if n == 0 {
      MulZero(lo);
      MulZero(hi);
    } else {
      hide Mul;
      var d := Diagonal(r);
      PairsWithin(r, lo, hi, n - 1);
      CrossWithin(r, lo, hi, n - 1, n - 1);
      MulAdd(lo, Pairs(d, n - 1), Cross(d, n - 1, d[n - 1]), Pairs(d, n));
      MulAdd(hi, Pairs(d, n - 1), Cross(d, n - 1, d[n - 1]), Pairs(d, n));
    }
  }

  /** The fitted slope lies between the smallest and the largest slope of neighbouring rows. */
  lemma SlopeWithin(r: seq<Row>, lo: real, hi: real, b: real)
    requires |r| >= 2 && Increasing(r) && SlopesWithin(r, lo, hi)
    requires Mul(b, Det(r, |r|)) == Num(r, |r|)
    ensures Det(r, |r|) > 0.0 && lo <= b <= hi
  {
    hide Mul;
    var n := |r|;
    assert r[0].x != r[1].x;
    DetPositive(r, n);
    DetIsPairs(r, n);
    PairwiseIdentity(r, n);
    PairsWithin(r, lo, hi, n);
    Cancel(Det(r, n), lo, b);
    Cancel(Det(r, n), b, hi);
  }
}
