/**
 The clock filter of clock.c (`filter`): samples are sorted by delay in place, and each becomes an interval around
 its offset, widened by its delay, the dispersion of all samples and the jitter of their offsets.
 */
module ClockFilter {
  import opened Prelude
  import opened Selection

  datatype Stat = Stat(disp: nat, offset: int, delay: nat)

  function ShiftRight(x: nat, n: nat): nat {
    if n == 0 then x else ShiftRight(x, n - 1) / 2
  }

  /** The dispersions of the first n samples, each weighted half of the one before. */
  function PeerDispersion(s: seq<Stat>, n: nat): nat
    requires n <= |s|
  {
    if n == 0 then 0 else PeerDispersion(s, n - 1) + ShiftRight(s[n - 1].disp, n)
  }

  function Square(x: int): (q: nat) {
    NonNegativeSquare(x);
    x * x
  }

  lemma NonNegativeSquare(x: int)
    ensures x * x >= 0
  {
  }

  /** The squared distances of the first n offsets from that of the sample with the least delay. */
  function SumOfSquares(s: seq<Stat>, n: nat): nat
    requires n <= |s|
  {
    if n == 0 then 0 else SumOfSquares(s, n - 1) + Square(s[n - 1].offset - s[0].offset)
  }

  /** The integer part of a square root. */
  function FloorSqrt(n: nat): (r: nat)
    ensures r * r <= n < (r + 1) * (r + 1)
  {
    if n == 0 then 0
    else
      var r := FloorSqrt(n - 1);
      assert (r + 2) * (r + 2) == (r + 1) * (r + 1) + 2 * r + 3;
      if (r + 1) * (r + 1) <= n then r + 1 else r
  }

  function Jitter(s: seq<Stat>): nat
    requires |s| > 0
  {
    FloorSqrt(SumOfSquares(s, |s|) / |s|)
  }

  /** What widens every interval alike. */
  function Spread(s: seq<Stat>): nat
    requires |s| > 0
  {
    PeerDispersion(s, |s|) + Jitter(s)
  }

  function IntervalOf(t: Stat, spread: nat): Interval {
    Interval(t.offset, t.offset - (t.delay + spread), t.offset + (t.delay + spread))
  }

  function Intervals(s: seq<Stat>): (ivs: seq<Interval>)
    requires |s| > 0
    ensures |ivs| == |s| && forall i :: 0 <= i < |s| ==> ivs[i] == IntervalOf(s[i], Spread(s))
  {
    seq(|s|, i requires 0 <= i < |s| => IntervalOf(s[i], Spread(s)))
  }

  method Filter(u: array<Stat>) returns (ivs: seq<Interval>)
    requires u.Length > 0
    modifies u
    ensures multiset(u[..]) == multiset(old(u[..])) && SortedBy(u[..], (t: Stat) => t.delay)
    ensures ivs == Intervals(u[..])
  {
    SelectionSort(u, (t: Stat) => t.delay);
    var spread := Widening(u);
    ivs := [];
    for i := 0 to u.Length
      invariant ivs == Intervals(u[..])[..i]
    {
      var rootDist := u[i].delay + spread;
      ivs := ivs + [Interval(u[i].offset, u[i].offset - rootDist, u[i].offset + rootDist)];
    }
  }

  method Widening(u: array<Stat>) returns (spread: nat)
    requires u.Length > 0
    ensures spread == Spread(u[..])
  {
    var peerDisp, sum := 0, 0;
    for i := 0 to u.Length
      invariant peerDisp == PeerDispersion(u[..], i)
      invariant sum == SumOfSquares(u[..], i)
    {
      peerDisp := peerDisp + ShiftRight(u[i].disp, i + 1);
      var diff := u[i].offset - u[0].offset;
      sum := sum + Square(diff);
    }
    spread := peerDisp + FloorSqrt(sum / u.Length);
  }

  // ----- what the intervals are worth

  /** The dispersions add up to no more than the largest of them. */
  lemma {:induction false} DispersionBound(s: seq<Stat>, n: nat, most: nat)
    requires n <= |s| && forall i :: 0 <= i < n ==> s[i].disp <= most
    ensures PeerDispersion(s, n) <= most - ShiftRight(most, n)
  {
    if n > 0 {
      DispersionBound(s, n - 1, most);
      ShiftMonotone(s[n - 1].disp, most, n);
    }
  }

  lemma {:induction false} ShiftMonotone(x: nat, y: nat, n: nat)
    requires x <= y
    ensures ShiftRight(x, n) <= ShiftRight(y, n)
  {
    if n > 0 {
      ShiftMonotone(x, y, n - 1);
    }
  }

  lemma QuotientAtLeast(x: nat, p: nat, k: nat)
    requires p > 0 && k * p <= x
    ensures k <= x / p
  {
    if x / p < k {
      MulSuccessor(x / p, p);
      MulMonotone(x / p + 1, k, p);
    }
  }

  lemma DivMonotone(x: nat, y: nat, p: nat)
    requires x <= y && p > 0
    ensures x / p <= y / p
  {
    QuotientAtLeast(y, p, x / p);
  }

  /** Offsets no further than d from the first one jitter by no more than d. */
  lemma JitterBound(s: seq<Stat>, d: int)
    requires |s| > 0 && d >= 0 && forall i :: 0 <= i < |s| ==> -d <= s[i].offset - s[0].offset <= d
    ensures Jitter(s) <= d
  {
    hide SumOfSquares;
    var mean := SumOfSquares(s, |s|) / |s|;
    MeanBound(s, d);
    RootBound(FloorSqrt(mean), d, mean);
  }

  lemma MeanBound(s: seq<Stat>, d: int)
    requires |s| > 0 && d >= 0 && forall i :: 0 <= i < |s| ==> -d <= s[i].offset - s[0].offset <= d
    ensures SumOfSquares(s, |s|) / |s| <= d * d
  {
    SumOfSquaresBound(s, |s|, d);
    DivMonotone(SumOfSquares(s, |s|), |s| * (d * d), |s|);
    QuotientOfProduct(d * d, |s|);
  }

  lemma RootBound(j: int, d: int, square: int)
    requires j * j <= square <= d * d && d >= 0
    ensures j <= d
  {
    if j > d {
      MulMonotone(d + 1, j, d + 1);
      MulMonotone(d + 1, j, j);
    }
  }

  lemma QuotientOfProduct(q: nat, n: nat)
    requires n > 0
    ensures n * q / n == q
  {
    QuotientAtLeast(n * q, n, q);
    if n * q / n > q {
      MulSuccessor(q, n);
      MulMonotone(q + 1, n * q / n, n);
    }
  }

  lemma {:induction false} SumOfSquaresBound(s: seq<Stat>, n: nat, d: int)
    requires n <= |s| && d >= 0 && forall i :: 0 <= i < |s| ==> -d <= s[i].offset - s[0].offset <= d
    ensures SumOfSquares(s, n) <= n * (d * d)
  {
    if n > 0 {
      SumOfSquaresBound(s, n - 1, d);
      SquareBound(s[n - 1].offset - s[0].offset, d);
      MulSuccessor(n - 1, d * d);
    }
  }

  lemma SquareBound(x: int, d: int)
    requires -d <= x <= d
    ensures x * x <= d * d
  {
    assert d * d - x * x == (d - x) * (d + x);
    MulMonotone(0, d - x, d + x);
  }

  /** And they add up to no less than the least of them, but for its last share and what the shifts drop. */
  lemma {:induction false} DispersionAtLeast(s: seq<Stat>, n: nat, least: nat)
    requires n <= |s| && forall i :: 0 <= i < n ==> s[i].disp >= least
    ensures PeerDispersion(s, n) >= least - ShiftRight(least, n) - n
  {
    if n > 0 {
      DispersionAtLeast(s, n - 1, least);
      ShiftMonotone(least, s[n - 1].disp, n);
    }
  }

  predicate IsFar(x: int, d: int) {
    x <= -d || d <= x
  }

  /** How many of the first n offsets are at least d away from the first one. */
  function FarOffsets(s: seq<Stat>, n: nat, d: nat): nat
    requires n <= |s|
  {
    if n == 0 then 0
    else FarOffsets(s, n - 1, d) + if IsFar(s[n - 1].offset - s[0].offset, d) then 1 else 0
  }

  lemma FarSquare(x: int, d: nat)
    requires IsFar(x, d)
    ensures Square(x) >= d * d
  {
    SquareBound(d, if x < 0 then -x else x);
  }

  lemma {:induction false} SumOfSquaresAtLeast(s: seq<Stat>, n: nat, d: nat)
    requires n <= |s|
    ensures SumOfSquares(s, n) >= FarOffsets(s, n, d) * (d * d)
  {
    if n > 0 {
      SumOfSquaresAtLeast(s, n - 1, d);
      var x := s[n - 1].offset - s[0].offset;
      MulSuccessor(FarOffsets(s, n - 1, d), d * d);
      if IsFar(x, d) {
        FarSquare(x, d);
      }
    }
  }

  lemma BelowProduct(x: nat, n: nat, b: int)
    requires n > 0 && x / n < b
    ensures x < b * n
  {
    MulSuccessor(x / n, n);
    MulMonotone(x / n + 1, b, n);
  }

  /** Offsets far from the first one jitter: the mean of their squares is below the square of the next jitter. */
  lemma JitterAtLeast(s: seq<Stat>, d: nat)
    requires |s| > 0
    ensures FarOffsets(s, |s|, d) * (d * d) < Square(Jitter(s) + 1) * |s|
  {
    SumOfSquaresAtLeast(s, |s|, d);
    hide SumOfSquares, FarOffsets, FloorSqrt;
    BelowProduct(SumOfSquares(s, |s|), |s|, Square(Jitter(s) + 1));
  }

  /**
   What widens the intervals, from both sides: dispersions between two limits count for no more than the greater and,
   but for rounding, no less than the smaller one, and the offsets for no more than the farthest and no less than makes
   up the mean square of the far ones.
   */
  lemma SpreadBounds(s: seq<Stat>, least: nat, most: nat, near: int, far: nat)
    requires |s| > 0 && near >= 0 && forall i :: 0 <= i < |s| ==> least <= s[i].disp <= most
    requires forall i :: 0 <= i < |s| ==> -near <= s[i].offset - s[0].offset <= near
    ensures Spread(s) <= most - ShiftRight(most, |s|) + near
    ensures var jitter := Spread(s) - (least - ShiftRight(least, |s|) - |s|);
            jitter >= 0 && FarOffsets(s, |s|, far) * (far * far) < Square(jitter + 1) * |s|
  {
    DispersionBound(s, |s|, most);
    DispersionAtLeast(s, |s|, least);
    JitterBound(s, near);
    JitterAtLeast(s, far);
    hide Jitter, PeerDispersion, ShiftRight, FarOffsets;
    var jitter := Spread(s) - (least - ShiftRight(least, |s|) - |s|);
    SquareBound(Jitter(s) + 1, jitter + 1);
    MulMonotone(Square(Jitter(s) + 1), Square(jitter + 1), |s|);
  }

  /** The filter makes proper intervals around the offsets, the less delayed the narrower. */
  lemma IntervalsAreNested(s: seq<Stat>, i: nat, j: nat)
    requires i <= j < |s| && SortedBy(s, (t: Stat) => t.delay)
    ensures Proper(Intervals(s))
    ensures var a, b := Intervals(s)[i], Intervals(s)[j];
            a.up - a.offset == a.offset - a.low && b.up - b.offset == b.offset - b.low && a.up - a.low <= b.up - b.low
  {
    var key := (t: Stat) => t.delay;
    assert key(s[i]) <= key(s[j]);
  }

  /** The sample is off the truth by its distance or more. */
  predicate IsFalse(t: Stat, spread: nat, truth: int) {
    !(-(t.delay + spread) < t.offset - truth < t.delay + spread)
  }

  function Falsetickers(s: seq<Stat>, spread: nat, truth: int): nat {
    if s == [] then 0
    else Falsetickers(s[..|s| - 1], spread, truth) + if IsFalse(s[|s| - 1], spread, truth) then 1 else 0
  }

  lemma {:induction false} OthersSurround(s: seq<Stat>, spread: nat, ivs: seq<Interval>, truth: int)
    requires |ivs| == |s| && forall i :: 0 <= i < |s| ==> ivs[i] == IntervalOf(s[i], spread)
    ensures Surrounding(ivs, truth) == |s| - Falsetickers(s, spread, truth)
  {
    if s != [] {
      OthersSurround(s[..|s| - 1], spread, ivs[..|s| - 1], truth);
    }
  }

  lemma TrustworthyEnclosesTruth(s: seq<Stat>, truth: int, f: nat, b: Bound)
    requires |s| > 0 && Falsetickers(s, Spread(s), truth) <= f && Trustworthy(Intervals(s), f, b)
    ensures b.low < truth < b.up
  {
    OthersSurround(s, Spread(s), Intervals(s), truth);
    ProperHasNoneReversed(Intervals(s), truth);
  }

  /**
   The whole pipeline: a selection among the intervals of the filter that succeeds with f falsetickers encloses the true
   offset whenever no more than f samples are off it by their distance, of delay and common spread, or more.
   */
  lemma SelectionEnclosesTruth(s: seq<Stat>, ps: seq<Point>, truth: int)
    requires |s| > 0 && Arranged(ps, Intervals(s)) && Search(ps, |s|, 0).Some?
    requires Falsetickers(s, Spread(s), truth) <= Search(ps, |s|, 0).value
    ensures var b := BoundFor(ps, |s|, Search(ps, |s|, 0).value);
            b.low < truth < b.up
  {
    var f := Search(ps, |s|, 0).value;
    SelectionIsSound(ps, Intervals(s));
    TrustworthyEnclosesTruth(s, truth, f, BoundFor(ps, |s|, f));
  }

  /** And samples that differ by less than the distance of each yield a selection without falsetickers. */
  lemma CloseSamplesAreSelected(s: seq<Stat>, ps: seq<Point>)
    requires |s| > 0 && Arranged(ps, Intervals(s))
    requires forall i, j :: 0 <= i < |s| && 0 <= j < |s| ==> !IsFalse(s[i], Spread(s), s[j].offset)
    ensures Search(ps, |s|, 0) == Some(0)
  {
    UnanimousIsAccepted(ps, Intervals(s));
  }
}
