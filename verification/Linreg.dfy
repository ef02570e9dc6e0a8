/**
 The adaptive regression servo (linreg.c): lines through the newest 4, 8, 16, 32 and 64 points, kept incrementally.
 */
module Linreg {
  import opened Prelude
  import opened Products
  import opened LeastSquares
  import opened DriftBounds

  const MIN_SIZE := 2
  const MAX_SIZE := 6
  const MAX_POINTS := 64
  const ERR_INITIAL_UPDATES := 10
  const NSEC_PER_SEC := 1000000000
  const BILLION := 1000000000.0

  /** Uncorrected local time and remote time, in nanoseconds. */
  datatype Point = Point(x: int, y: int)

  datatype Result = Result(slope: real, intercept: real, err: real, errUpdates: nat)

  datatype Sums = Sums(x: real, y: real, xy: real, x2: real)

  /** The number of points of a regression size, a power of two. */
  function Count(size: nat): (n: nat)
    ensures n > 0
  {
    if size == 0 then 1 else 2 * Count(size - 1)
  }

  /** The sizes are 4, 8, 16, 32 and 64 points, the last as many as are kept. */
  lemma PointsOfSize(size: nat)
    requires MIN_SIZE <= size <= MAX_SIZE
    ensures Count(size) == [4, 8, 16, 32, 64][size - MIN_SIZE] && Count(MAX_SIZE) == MAX_POINTS
  {
    assert Count(2) == 4 && Count(4) == 16 && Count(6) == 64;
  }

  /** Where the i-th newest point is in the ring. */
  function Slot(last: nat, i: nat): (l: nat)
    requires last < MAX_POINTS && i < MAX_POINTS
    ensures l == if i <= last then last - i else MAX_POINTS + last - i
  {
    (MAX_POINTS + last - i) % MAX_POINTS
  }

  /** The points as seen from the reference. */
  function Seen(ps: seq<Point>, ref: Point): (q: seq<Row>)
    ensures |q| == |ps|
    ensures forall i :: 0 <= i < |ps| ==> q[i] == Row((ps[i].x - ref.x) as real, (ps[i].y - ref.y) as real)
  {
    seq(|ps|, i requires 0 <= i < |ps| => Row((ps[i].x - ref.x) as real, (ps[i].y - ref.y) as real))
  }

  /** The newest n points are not all at the same local time. */
  ghost predicate Spread(ps: seq<Point>, n: nat)
    requires n <= |ps|
  {
    exists i, j :: 0 <= i < j < n && ps[i].x != ps[j].x
  }

  /** The result is the best line through the newest n points, seen from the reference. */
  ghost predicate Fit(ps: seq<Point>, ref: Point, n: nat, res: Result)
    requires n <= |ps|
  {
    Spread(ps, n) ==> Normal(Seen(ps, ref), n, res.intercept, res.slope)
  }

  /** Every size with enough points has its best line. */
  ghost predicate Fits(ps: seq<Point>, ref: Point, rs: seq<Result>) {
    |rs| == MAX_SIZE - MIN_SIZE + 1
    && forall k :: 0 <= k < |rs| && Count(k + MIN_SIZE) <= |ps| ==> Fit(ps, ref, Count(k + MIN_SIZE), rs[k])
  }

  /** No line has fewer squares of errors than the one of a size with enough points at different times. */
  lemma FitsMeansLeastSquares(ps: seq<Point>, ref: Point, rs: seq<Result>, k: nat, a: real, b: real)
    requires Fits(ps, ref, rs) && k < |rs| && Count(k + MIN_SIZE) <= |ps| && Spread(ps, Count(k + MIN_SIZE))
    ensures Sse(Seen(ps, ref), Count(k + MIN_SIZE), rs[k].intercept, rs[k].slope) <=
            Sse(Seen(ps, ref), Count(k + MIN_SIZE), a, b)
  {
    assert Fit(ps, ref, Count(k + MIN_SIZE), rs[k]);
    NormalIsBest(Seen(ps, ref), Count(k + MIN_SIZE), rs[k].intercept, rs[k].slope, a, b);
  }

  lemma SpreadIsRegular(ps: seq<Point>, ref: Point, n: nat)
    requires n <= |ps|
    ensures Spread(ps, n) <==> Det(Seen(ps, ref), n) != 0.0
  {
    hide Det;
    var q := Seen(ps, ref);
    DetPositive(q, n);
    if Spread(ps, n) {
      var i, j :| 0 <= i < j < n && ps[i].x != ps[j].x;
      assert q[i].x != q[j].x;
    } else {
      assert forall i, j :: 0 <= i < j < n ==> q[i].x == q[j].x;
    }
  }

  // ----- moving the reference

  /** A result after the reference has moved by (x, y). */
  function Carried(res: Result, x: int, y: int): Result {
    res.(intercept := res.intercept + (Mul(x as real, res.slope) - y as real))
  }

  /** The remote time that a line predicts for a local time. */
  function LineAt(res: Result, ref: Point, x: real): real {
    ref.y as real + res.intercept + Mul(res.slope, x - ref.x as real)
  }

  lemma CarriedLine(res: Result, ref: Point, x: int, y: int, at: real)
    ensures LineAt(Carried(res, x, y), Point(ref.x + x, ref.y + y), at) == LineAt(res, ref, at)
  {
    var s, d, u := res.slope, x as real, at - ref.x as real;
    assert s * (u - d) == s * u - d * s;
  }

  lemma CarriedFit(ps: seq<Point>, ref: Point, n: nat, res: Result, x: int, y: int)
    requires n <= |ps| && Fit(ps, ref, n, res)
    ensures Fit(ps, Point(ref.x + x, ref.y + y), n, Carried(res, x, y))
  {
    if Spread(ps, n) {
      var q, r := Seen(ps, Point(ref.x + x, ref.y + y)), Seen(ps, ref);
      assert Shifted(q, r, x as real, y as real);
      ShiftedNormal(q, r, n, x as real, y as real, res.intercept, res.slope);
    }
  }

  lemma CarriedFits(ps: seq<Point>, ref: Point, rs: seq<Result>, rs': seq<Result>, x: int, y: int)
    requires Fits(ps, ref, rs) && |rs'| == |rs| && forall k :: 0 <= k < |rs| ==> rs'[k] == Carried(rs[k], x, y)
    ensures Fits(ps, Point(ref.x + x, ref.y + y), rs')
  {
    forall k | 0 <= k < |rs| && Count(k + MIN_SIZE) <= |ps|
      ensures Fit(ps, Point(ref.x + x, ref.y + y), Count(k + MIN_SIZE), rs'[k])
    {
      CarriedFit(ps, ref, Count(k + MIN_SIZE), rs[k], x, y);
    }
  }

  /** The reference, the part of a nanosecond it has not been moved by, and the time stamp it belongs to. */
  datatype Track = Track(x: int, y: int, remainder: real, last: int)

  datatype Move = Tick(ts: int, freq: real) | Step(offset: int) | Leap(seconds: int) | Restart

  ghost predicate Movable(m: Move) {
    m.Tick? ==> 1.0 + m.freq / BILLION != 0.0
  }

  /** The uncorrected time that passes with a move: the time stamps without the frequency correction. */
  function Uncorrected(t: Track, m: Move): real
    requires Movable(m)
  {
    if m.Tick? && t.last != 0 then Quotient((m.ts - t.last) as real, 1.0 + m.freq / BILLION) else 0.0
  }

  function Moved(t: Track, m: Move): Track
    requires Movable(m)
  {
    match m
    case Tick(ts, freq) =>
      if t.last == 0 then t.(last := ts)
      else
        var dx := Uncorrected(t, m) + t.remainder;
        Track(t.x + Truncate(dx), t.y + (ts - t.last), dx - Truncate(dx) as real, ts)
    case Step(offset) => t.(y := t.y - offset, last := t.last - offset)
    case Leap(seconds) => t.(y := t.y + seconds * NSEC_PER_SEC)
    case Restart => t.(last := 0)
  }

  function After(t: Track, ms: seq<Move>): Track
    requires forall m :: m in ms ==> Movable(m)
  {
    if ms == [] then t else Moved(After(t, ms[..|ms| - 1]), ms[|ms| - 1])
  }

  /** All the uncorrected time of a run. */
  function Elapsed(t: Track, ms: seq<Move>): real
    requires forall m :: m in ms ==> Movable(m)
  {
    if ms == [] then 0.0 else Elapsed(t, ms[..|ms| - 1]) + Uncorrected(After(t, ms[..|ms| - 1]), ms[|ms| - 1])
  }

  /** No fraction of a nanosecond is ever lost: reference and remainder follow the uncorrected time exactly. */
  lemma {:induction false} ReferenceFollowsTime(t: Track, ms: seq<Move>)
    requires -1.0 < t.remainder < 1.0 && forall m :: m in ms ==> Movable(m)
    ensures var u := After(t, ms);
            u.x as real + u.remainder == t.x as real + t.remainder + Elapsed(t, ms) && -1.0 < u.remainder < 1.0
  {
    if ms != [] {
      ReferenceFollowsTime(t, ms[..|ms| - 1]);
    }
  }

  /** The first time stamp after a restart moves nothing: it is only what the next one is compared with. */
  lemma FirstTickMovesNothing(t: Track, ts: int, freq: real)
    requires t.last == 0 && Movable(Tick(ts, freq))
    ensures Moved(t, Tick(ts, freq)) == Track(t.x, t.y, t.remainder, ts)
  {
  }

  /**
   Whatever frequencies the clock was set to, the reference shows the time that an uncorrected clock would: if tau are
   the times it shows, of which the time stamps are the multiples by the frequency in force, they keep their distance.
   */
  lemma {:induction false} ReferenceIsUncorrected(t: Track, ms: seq<Move>, tau: seq<real>)
    requires -1.0 < t.remainder < 1.0 && |tau| == |ms| + 1 && (forall m :: m in ms ==> Movable(m)) && Running(t, ms)
    requires forall i :: 0 <= i < |ms| ==> Passes(After(t, ms[..i]).last, ms[i], tau[i], tau[i + 1])
    ensures var u := After(t, ms);
            u.x as real + u.remainder - tau[|ms|] == t.x as real + t.remainder - tau[0] && -1.0 < u.remainder < 1.0
  {
    ReferenceFollowsTime(t, ms);
    ElapsedIsTrue(t, ms, tau);
  }

  /** Uncorrected time from a to b passes with a move. */
  ghost predicate Passes(last: int, m: Move, a: real, b: real) {
    if m.Tick? then Mul(b - a, 1.0 + m.freq / 1000000000.0) == (m.ts - last) as real else a == b
  }

  lemma {:induction false} ElapsedIsTrue(t: Track, ms: seq<Move>, tau: seq<real>)
    requires |tau| == |ms| + 1 && (forall m :: m in ms ==> Movable(m)) && Running(t, ms)
    requires forall i :: 0 <= i < |ms| ==> Passes(After(t, ms[..i]).last, ms[i], tau[i], tau[i + 1])
    ensures Elapsed(t, ms) == tau[|ms|] - tau[0]
  {
    if ms != [] {
      var n := |ms| - 1;
      var init := ms[..n];
      assert forall i :: 0 <= i <= n ==> init[..i] == ms[..i];
      hide Uncorrected, Passes, Moved;
      ElapsedIsTrue(t, init, tau[..n + 1]);
      assert After(t, ms[..n]).last != 0 && Passes(After(t, init).last, ms[n], tau[n], tau[n + 1]);
      UncorrectedIsTrue(After(t, init), ms[n], tau[n], tau[n + 1]);
    }
  }

  lemma UncorrectedIsTrue(t: Track, m: Move, a: real, b: real)
    requires Movable(m) && t.last != 0 && Passes(t.last, m, a, b)
    ensures Uncorrected(t, m) == b - a
  {
    if m.Tick? {
      hide Mul, Quotient;
      QuotientOfProduct(b - a, 1.0 + m.freq / BILLION);
    }
  }

  function LeapSeconds(ms: seq<Move>): int {
    if ms == [] then 0
    else LeapSeconds(ms[..|ms| - 1]) + (match ms[|ms| - 1] case Leap(s) => s case _ => 0)
  }

  ghost predicate Running(t: Track, ms: seq<Move>)
    requires forall m :: m in ms ==> Movable(m)
  {
    forall i :: 0 <= i <= |ms| ==> After(t, ms[..i]).last != 0
  }

  /** While it is not restarted, the reference keeps its distance to the local clock, except for leap seconds. */
  lemma {:induction false} ReferenceFollowsClock(t: Track, ms: seq<Move>)
    requires (forall m :: m in ms ==> Movable(m)) && Running(t, ms)
    ensures var u := After(t, ms);
            u.y - u.last == t.y - t.last + LeapSeconds(ms) * 1000000000
  {
    if ms != [] {
      var ms' := ms[..|ms| - 1];
      forall i | 0 <= i <= |ms'|
        ensures After(t, ms'[..i]).last != 0
      {
        assert ms'[..i] == ms[..i];
      }
      ReferenceFollowsClock(t, ms');
      assert ms[..|ms|] == ms && ms[..|ms'|] == ms';
    }
  }

  /** The servo computes with 64-bit words; a difference that fits is exact however the words wrap around. */
  function Unsigned(x: int): (w: int)
    ensures 0 <= w < 0x1_0000_0000_0000_0000
  {
    x % 0x1_0000_0000_0000_0000
  }

  function Signed(w: int): int {
    if w < 0x8000_0000_0000_0000 then w else w - 0x1_0000_0000_0000_0000
  }

  lemma WrappedDifference(a: int, b: int)
    requires -0x8000_0000_0000_0000 <= a - b < 0x8000_0000_0000_0000
    ensures Signed(Unsigned(Unsigned(a) - Unsigned(b))) == a - b
  {
    var m := 0x1_0000_0000_0000_0000;
    var d := Unsigned(a) - Unsigned(b);
    assert a - b == d + (a / m - b / m) * m;
    assert -m < d < m;
  }

  // ----- the prediction error

  /** The average of the prediction errors: a mean of the first ten, then an exponential moving average. */
  function Smoothed(err: real, updates: nat, e: real): (r: (real, nat))
    ensures r.1 == if updates < ERR_INITIAL_UPDATES then updates + 1 else updates
    ensures updates == 0 ==> r.0 == e
    ensures updates > 0 ==> (if e < err then e else err) <= r.0 <= (if e < err then err else e)
  {
    if updates < ERR_INITIAL_UPDATES then
      var d := (updates + 1) as real;
      MeanBetween(err, updates as real, e);
      (Quotient(Mul(err, updates as real) + e, d), updates + 1)
    else
      (err + 0.02 * (e - err), updates)
  }

  lemma MeanBetween(err: real, u: real, e: real)
    requires u >= 0.0
    ensures u == 0.0 ==> Quotient(Mul(err, u) + e, u + 1.0) == e
    ensures u > 0.0 ==>
              (if e < err then e else err) <= Quotient(Mul(err, u) + e, u + 1.0) <= (if e < err then err else e)
  {
    var lo, hi := if e < err then e else err, if e < err then err else e;
    if u > 0.0 {
      Products.MulMonotone(u, lo, err);
      Products.MulMonotone(u, err, hi);
      assert Mul(lo, u + 1.0) == Mul(u, lo) + lo && Mul(hi, u + 1.0) == Mul(u, hi) + hi && Mul(err, u) == Mul(u, err);
      QuotientBetween(Mul(err, u) + e, u + 1.0, lo, hi);
    }
  }

  /** A result once the error of its prediction of the newest point is known. */
  function Judged(res: Result, y0: real): (r: Result)
    requires res.err >= 0.0
    ensures r.slope == res.slope && r.intercept == res.intercept && r.err >= 0.0
  {
    if res.slope == 0.0 then res
    else
      var (err, updates) := Smoothed(res.err, res.errUpdates, Abs(res.intercept - y0));
      res.(err := err, errUpdates := updates)
  }

  // ----- the servo

  ghost predicate Summed(q: seq<Row>, n: nat, s: Sums)
    requires n <= |q|
  {
    s.x == Sx(q, n) && s.y == Sy(q, n) && s.xy == Sxy(q, n) && s.x2 == Sxx(q, n)
  }

  lemma ScaledFit(n: real, s: Sums, b: real)
    requires n > 0.0 && Mul(b, s.x2 - Quotient(Mul(s.x, s.x), n)) == s.xy - Quotient(Mul(s.x, s.y), n)
    ensures Mul(b, Mul(n, s.x2) - Mul(s.x, s.x)) == Mul(n, s.xy) - Mul(s.x, s.y)
  {
    var p, q := Mul(s.x, s.x) / n, Mul(s.x, s.y) / n;
    assert p * n == Mul(s.x, s.x) && q * n == Mul(s.x, s.y);
    assert b * (s.x2 - p) * n == (s.xy - q) * n;
  }

  lemma ScaledRegular(n: real, sx: real, sxx: real)
    requires n > 0.0 && Mul(n, sxx) - Mul(sx, sx) != 0.0
    ensures sxx - Quotient(Mul(sx, sx), n) != 0.0
  {
    var p := Mul(sx, sx) / n;
    assert p * n == Mul(sx, sx);
  }

  /** Slope and intercept from the sums over n points. */
  method Solve(n: nat, s: Sums, ghost q: seq<Row>) returns (slope: real, intercept: real)
    requires 0 < n <= |q| && Summed(q, n, s)
    ensures Det(q, n) != 0.0 ==> Normal(q, n, intercept, slope)
    ensures SumR(q, n, intercept, slope) == 0.0
  {
    hide Mul, Quotient;
    var c := n as real;
    slope := Divide(s.xy - Quotient(Mul(s.x, s.y), c), s.x2 - Quotient(Mul(s.x, s.x), c));
    intercept := Divide(s.y - Mul(slope, s.x), c);
    ResidualSum(q, n, intercept, slope);
    if Det(q, n) != 0.0 {
      ScaledRegular(c, s.x, s.x2);
      ScaledFit(c, s, slope);
      FitIsNormal(q, n, intercept, slope);
    }
  }

  /** A size that get_best_size compares: the first with a slope, and later ones with enough updates. */
  ghost predicate Candidate(rs: seq<Result>, k: nat)
    requires k < |rs|
  {
    Sloped(rs, k + 1) && (!Sloped(rs, k) || rs[k].errUpdates >= ERR_INITIAL_UPDATES)
  }

  ghost predicate Sloped(rs: seq<Result>, n: nat)
    requires n <= |rs|
  {
    exists k :: 0 <= k < n && rs[k].slope != 0.0
  }

  /** The choice of get_best_size among the first n sizes. */
  function BestOf(rs: seq<Result>, n: nat): (b: Option<nat>)
    requires n <= |rs|
    ensures b.Some? ==> b.value < n
  {
    if n == 0 then None
    else
      var b := BestOf(rs, n - 1);
      var bestErr := if b.None? then 0.0 else rs[b.value].err;
      var last := rs[n - 1];
      if (b.None? && last.slope != 0.0) || (bestErr * 1.05 > last.err && last.errUpdates >= ERR_INITIAL_UPDATES)
      then Some(n - 1)
      else b
  }

  /** 1.05 to the power of k: how far errors taken for equal can drift apart over k sizes. */
  function Slack(k: nat): (f: real)
    ensures f >= 1.0
  {
    if k == 0 then 1.0 else 1.05 * Slack(k - 1)
  }

  /** Size index b is as good as get_best_size makes it among the first n. */
  ghost predicate Preferred(rs: seq<Result>, b: nat, n: nat)
    requires b < n <= |rs|
  {
    && Candidate(rs, b)
    && (forall k :: b < k < n && Candidate(rs, k) ==> 1.05 * rs[b].err <= rs[k].err)
    && (forall k :: 0 <= k < n && Candidate(rs, k) ==> rs[b].err <= Mul(Slack(n - 1 - k), rs[k].err))
  }

  lemma Looser(e: real, k: nat, e': real)
    requires e' >= 0.0
    ensures e <= Mul(Slack(k), e') ==> 1.05 * e <= Mul(Slack(k + 1), e')
    ensures Mul(Slack(k), e') <= Mul(Slack(k + 1), e')
    ensures e' <= Mul(Slack(k), e')
  {
    var f := Slack(k);
    assert Mul(1.05 * f, e') == 1.05 * Mul(f, e');
    Products.MulMonotone(e', 1.0, f);
    assert Mul(e', 1.0) == e' && Mul(e', f) == Mul(f, e');
  }

  lemma SlopedGrows(rs: seq<Result>, m: nat, n: nat)
    requires m <= n <= |rs| && Sloped(rs, m)
    ensures Sloped(rs, n)
  {
  }

  /** A later size takes over. */
  lemma PreferredNext(rs: seq<Result>, b: nat, n: nat)
    requires b < n < |rs| && Preferred(rs, b, n) && forall k :: 0 <= k < |rs| ==> rs[k].err >= 0.0
    requires 1.05 * rs[b].err > rs[n].err && rs[n].errUpdates >= ERR_INITIAL_UPDATES
    ensures Preferred(rs, n, n + 1)
  {
    hide Mul, Slack, Sloped;
    SlopedGrows(rs, b + 1, n + 1);
    forall k | 0 <= k < n + 1 && Candidate(rs, k)
      ensures rs[n].err <= Mul(Slack(n - k), rs[k].err)
    {
      if k < n {
        Looser(rs[b].err, n - 1 - k, rs[k].err);
      } else {
        Looser(rs[k].err, 0, rs[k].err);
      }
    }
  }

  /** The best size so far stays. */
  lemma PreferredStays(rs: seq<Result>, b: nat, n: nat)
    requires b < n < |rs| && Preferred(rs, b, n) && forall k :: 0 <= k < |rs| ==> rs[k].err >= 0.0
    requires !(1.05 * rs[b].err > rs[n].err && rs[n].errUpdates >= ERR_INITIAL_UPDATES)
    ensures Preferred(rs, b, n + 1)
  {
    hide Mul, Slack, Sloped;
    SlopedGrows(rs, b + 1, n);
    forall k | 0 <= k < n + 1 && Candidate(rs, k)
      ensures rs[b].err <= Mul(Slack(n - k), rs[k].err)
    {
      if k < n {
        Looser(rs[b].err, n - 1 - k, rs[k].err);
      } else {
        Looser(rs[k].err, 0, rs[k].err);
      }
    }
  }

  /** The ring holds the points, the newest first, going back from slot last. */
  ghost predicate InRing(ring: seq<Point>, last: nat, ps: seq<Point>) {
    && |ring| == MAX_POINTS && last < MAX_POINTS && |ps| <= MAX_POINTS
    && forall i :: 0 <= i < |ps| ==> ring[Slot(last, i)] == ps[i]
  }

  lemma RingPush(ring: seq<Point>, last: nat, ps: seq<Point>, p: Point)
    requires InRing(ring, last, ps)
    ensures var slot := NextSlot(last, MAX_POINTS);
            InRing(ring[slot := p], slot, Newest([p] + ps))
  {
    var slot := NextSlot(last, MAX_POINTS);
    forall i | 0 < i < |Newest([p] + ps)|
      ensures Slot(slot, i) == Slot(last, i - 1) && Slot(slot, i) != slot
    {
    }
  }

  /** A result once its line has been judged by the newest point and replaced by the best one. */
  ghost predicate Renewed(ps: seq<Point>, ref: Point, n: nat, res: Result, res': Result, y0: real) {
    && n <= |ps| && Fit(ps, ref, n, res') && res.err >= 0.0
    && res' == Judged(res, y0).(slope := res'.slope, intercept := res'.intercept)
  }

  class Servo {
    const points: array<Point>
    const results: array<Result>
    var reference: Point
    var numPoints: nat
    var lastPoint: nat
    var xRemainder: real
    var lastUpdate: int
    var clockFreq: real
    var updateInterval: real
    var frequencyRatio: real
    var leap: int
    var firstUpdate: bool
    const maxFrequency: real
    const stepThreshold: real
    const firstStepThreshold: real
    /** The points since the last reset, newest first. */
    ghost var recent: seq<Point>

    ghost predicate Valid()
      reads this, points, results
    {
      && Ring() && results.Length == MAX_SIZE - MIN_SIZE + 1 && -1.0 < xRemainder < 1.0 && maxFrequency >= 0.0
      && forall k :: 0 <= k < results.Length ==> results[k].err >= 0.0
    }

    ghost predicate Ring()
      reads this, points
    {
      && points.Length == MAX_POINTS && lastPoint < MAX_POINTS && |recent| == numPoints <= MAX_POINTS
      && InRing(points[..], lastPoint, recent)
    }

    ghost function Where(): Track
      reads this
    {
      Track(reference.x, reference.y, xRemainder, lastUpdate)
    }

    constructor (fadj: int, maxFrequency: real, stepThreshold: real, firstStepThreshold: real)
      requires maxFrequency >= 0.0
      ensures Valid() && recent == [] && Fits(recent, reference, results[..]) && fresh(points) && fresh(results)
      ensures Where() == Track(0, 0, 0.0, 0) && clockFreq == -(fadj as real) && firstUpdate
      ensures forall k :: 0 <= k < results.Length ==> results[k] == Result(0.0, 0.0, 0.0, 0)
      ensures updateInterval == 0.0 && frequencyRatio == 1.0 && leap == 0 && this.maxFrequency == maxFrequency
      ensures this.stepThreshold == stepThreshold && this.firstStepThreshold == firstStepThreshold
    {
      points := new Point[MAX_POINTS](_ => Point(0, 0));
      results := new Result[MAX_SIZE - MIN_SIZE + 1](_ => Result(0.0, 0.0, 0.0, 0));
      reference, numPoints, lastPoint, xRemainder, lastUpdate := Point(0, 0), 0, 0, 0.0, 0;
      clockFreq, updateInterval, frequencyRatio, leap, firstUpdate := -(fadj as real), 0.0, 1.0, 0, true;
      this.maxFrequency, this.stepThreshold, this.firstStepThreshold := maxFrequency, stepThreshold, firstStepThreshold;
      recent := [];
    }

    method MoveReference(x: int, y: int)
      requires Valid()
      modifies this`reference, results
      ensures Valid() && reference == Point(old(reference).x + x, old(reference).y + y)
      ensures forall k, at ::
                0 <= k < results.Length ==> LineAt(results[k], reference, at) == old(LineAt(results[k], reference, at))
      ensures forall k :: 0 <= k < results.Length ==> results[k] == Carried(old(results[k]), x, y)
      ensures old(Fits(recent, reference, results[..])) ==> Fits(recent, reference, results[..])
    {
      hide Mul, Fits;
      ghost var rs, ref := results[..], reference;
      reference := Point(reference.x + x, reference.y + y);
      for i := MIN_SIZE to MAX_SIZE + 1
        modifies results
        invariant forall k :: 0 <= k < i - MIN_SIZE ==> results[k] == Carried(rs[k], x, y)
        invariant forall k :: i - MIN_SIZE <= k < results.Length ==> results[k] == rs[k]
      {
        var res := results[i - MIN_SIZE];
        results[i - MIN_SIZE] := res.(intercept := res.intercept + (Mul(x as real, res.slope) - y as real));
      }
      forall k, at | 0 <= k < results.Length
        ensures LineAt(results[k], reference, at) == LineAt(rs[k], ref, at)
      {
        CarriedLine(rs[k], ref, x, y, at);
      }
      if Fits(recent, ref, rs) {
        CarriedFits(recent, ref, rs, results[..], x, y);
      }
    }

    method UpdateReference(localTs: int)
      requires Valid() && Fits(recent, reference, results[..])
      modifies this`reference, this`xRemainder, this`lastUpdate, results
      ensures Valid() && Fits(recent, reference, results[..])
      ensures Movable(Tick(localTs, clockFreq)) ==> Where() == Moved(old(Where()), Tick(localTs, clockFreq))
      ensures forall k :: 0 <= k < results.Length ==> results[k] == old(results[k]).(intercept := results[k].intercept)
      ensures forall k, at ::
                0 <= k < results.Length ==> LineAt(results[k], reference, at) == old(LineAt(results[k], reference, at))
    {
      hide LineAt;
      if lastUpdate != 0 {
        var yInterval := localTs - lastUpdate;
        var xInterval := Divide(yInterval as real, 1.0 + clockFreq / BILLION);
        xInterval := xInterval + xRemainder;
        xRemainder := xInterval - Truncate(xInterval) as real;
        MoveReference(Truncate(xInterval), yInterval);
      }
      lastUpdate := localTs;
    }

    method AddSample(offset: int)
      requires Valid()
      modifies this`lastPoint, this`numPoints, this`recent, points
      ensures Valid()
      ensures recent == Newest([Point(reference.x, reference.y - offset)] + old(recent)) && numPoints > 0
    {
      hide InRing, Newest;
      ghost var ring, was, p := points[..], recent, Point(reference.x, reference.y - offset);
      lastPoint := NextSlot(lastPoint, MAX_POINTS);
      points[lastPoint] := Point(reference.x, reference.y - offset);
      if numPoints < MAX_POINTS {
        numPoints := numPoints + 1;
      }
      recent := Newest([p] + recent);
      RingPush(ring, old(lastPoint), was, p);
      assert points[..] == ring[lastPoint := p];
    }

    /** Goes on with the sums from the i newest points to the n newest. */
    method Accumulate(i: nat, n: nat, s0: Sums) returns (s: Sums)
      requires Ring() && i <= n <= numPoints && Summed(Seen(recent, reference), i, s0)
      ensures Summed(Seen(recent, reference), n, s)
    {
      hide Mul;
      s := s0;
      ghost var q := Seen(recent, reference);
      for j := i to n
        invariant Summed(q, j, s)
      {
        var p := points[Slot(lastPoint, j)];
        var x, y := (p.x - reference.x) as real, (p.y - reference.y) as real;
        s := Sums(s.x + x, s.y + y, s.xy + Mul(x, y), s.x2 + Mul(x, x));
      }
    }

    /** Judges the old line of a size by the newest point, then replaces it by the best one. */
    method Refit(size: nat, y0: real, s: Sums)
      requires Valid() && MIN_SIZE <= size <= MAX_SIZE && Count(size) <= numPoints
      requires Summed(Seen(recent, reference), Count(size), s)
      modifies results
      ensures forall k :: 0 <= k < results.Length && k != size - MIN_SIZE ==> results[k] == old(results[k])
      ensures Renewed(recent, reference, Count(size), old(results[size - MIN_SIZE]), results[size - MIN_SIZE], y0)
    {
      var res := Judged(results[size - MIN_SIZE], y0);
      var slope, intercept := Solve(Count(size), s, Seen(recent, reference));
      SpreadIsRegular(recent, reference, Count(size));
      results[size - MIN_SIZE] := res.(slope := slope, intercept := intercept);
    }

    /** Every size with enough points is judged and fitted anew, the others are left alone. */
    method Regress()
      requires Valid() && numPoints > 0
      modifies results
      ensures Valid() && Fits(recent, reference, results[..])
      ensures forall k :: 0 <= k < results.Length ==>
                if Count(k + MIN_SIZE) > numPoints then results[k] == old(results[k])
                else
                  Renewed(recent, reference, Count(k + MIN_SIZE), old(results[k]), results[k],
                          (recent[0].y - reference.y) as real)
    {
      hide Summed, Fit, Judged;
      ghost var rs := results[..];
      var s, i, size := Sums(0.0, 0.0, 0.0, 0.0), 0, MIN_SIZE;
      var y0 := (points[lastPoint].y - reference.y) as real;
      assert y0 == (recent[0].y - reference.y) as real by {
        assert points[Slot(lastPoint, 0)] == recent[0];
      }
      NothingSummed(Seen(recent, reference));
      while size <= MAX_SIZE && Count(size) <= numPoints
        invariant MIN_SIZE <= size <= MAX_SIZE + 1 && i == (if size == MIN_SIZE then 0 else Count(size - 1))
        invariant i <= numPoints
        invariant Summed(Seen(recent, reference), i, s)
        invariant forall k :: size - MIN_SIZE <= k < results.Length ==> results[k] == rs[k]
        invariant forall k :: 0 <= k < size - MIN_SIZE ==>
                    Renewed(recent, reference, Count(k + MIN_SIZE), rs[k], results[k], y0)
        invariant forall k :: 0 <= k < results.Length ==> results[k].err >= 0.0
      {
        s := Accumulate(i, Count(size), s);
        i := Count(size);
        Refit(size, y0, s);
        size := size + 1;
      }
      CountGrows(size, MAX_SIZE);
    }

    /** The size to use, or zero when no size has a slope. */
    method BestSize() returns (best: nat)
      requires results.Length == MAX_SIZE - MIN_SIZE + 1
      requires forall k :: 0 <= k < results.Length ==> results[k].err >= 0.0
      ensures best == 0 || MIN_SIZE <= best <= MAX_SIZE
      ensures best == 0 <==> !Sloped(results[..], results.Length)
      ensures best != 0 ==> BestOf(results[..], results.Length) == Some(best - MIN_SIZE)
      ensures best != 0 ==> Preferred(results[..], best - MIN_SIZE, results.Length)
    {
      hide Preferred, Sloped;
      best := 0;
      var bestErr := 0.0;
      ghost var rs := results[..];
      for size := MIN_SIZE to MAX_SIZE + 1
        invariant best == 0 ==> bestErr == 0.0 && BestOf(rs, size - MIN_SIZE) == None
        invariant best != 0 ==> MIN_SIZE <= best < size && bestErr == rs[best - MIN_SIZE].err
        invariant best != 0 ==> BestOf(rs, size - MIN_SIZE) == Some(best - MIN_SIZE)
      {
        var res := results[size - MIN_SIZE];
        if (best == 0 && res.slope != 0.0) || (bestErr * 1.05 > res.err && res.errUpdates >= ERR_INITIAL_UPDATES) {
          best := size;
          bestErr := res.err;
        }
      }
      BestIsPreferred(rs, results.Length);
    }

    /** The frequency that takes the clock to the line of a size, as far as the clock can be adjusted. */
    method Steer(size: nat)
      requires Valid() && MIN_SIZE <= size <= MAX_SIZE
      modifies this`clockFreq, this`frequencyRatio
      ensures -maxFrequency <= clockFreq <= maxFrequency
      ensures updateInterval != 0.0 ==>
                Steers(clockFreq, maxFrequency, results[size - MIN_SIZE], Horizon(updateInterval, size))
      ensures 1.0 + clockFreq / BILLION != 0.0 ==>
                Mul(frequencyRatio, 1.0 + clockFreq / BILLION) == results[size - MIN_SIZE].slope
    {
      hide Meets, Mul;
      var res := results[size - MIN_SIZE];
      clockFreq := BILLION * (res.slope - 1.0);
      var correction := Divide(res.intercept, updateInterval);
      var part := Divide(correction, Correction(size) as real);
      clockFreq := clockFreq + part;
      ghost var g := clockFreq;
      if updateInterval != 0.0 {
        MeetsTheLine(res, updateInterval, size, correction, part);
      }
      if clockFreq > maxFrequency {
        clockFreq := maxFrequency;
      } else if clockFreq < -maxFrequency {
        clockFreq := -maxFrequency;
      }
      assert clockFreq == Clamp(g, maxFrequency);
      frequencyRatio := Divide(res.slope, 1.0 + clockFreq / BILLION);
    }

    /** Takes a sample in and fits all lines anew. */
    method Learn(offset: int, localTs: int)
      requires Valid() && Fits(recent, reference, results[..])
      modifies this`reference, this`xRemainder, this`lastUpdate, this`lastPoint, this`numPoints, this`recent
      modifies points, results
      ensures Valid() && Fits(recent, reference, results[..])
      ensures Movable(Tick(localTs, clockFreq)) ==>
                var t := Moved(old(Where()), Tick(localTs, clockFreq));
                Where() == t && recent == Newest([Point(t.x, t.y - offset)] + old(recent))
      ensures numPoints > 0 && forall k :: 0 <= k < results.Length ==>
                var p := recent[0];
                Learned(old(results[k]), results[k], Count(k + MIN_SIZE) <= numPoints,
                        old(LineAt(results[k], reference, p.x as real)), p.y as real)
    {
      hide Fits, Renewed, Mul, Fit, Moved, LineAt, Learned;
      UpdateReference(localTs);
      ghost var rs, ref := results[..], reference;
      AddSample(offset);
      ghost var p := recent[0];
      assert p.x == ref.x;
      Regress();
      forall k | 0 <= k < results.Length
        ensures Learned(old(results[k]), results[k], Count(k + MIN_SIZE) <= numPoints,
                        old(LineAt(results[k], reference, p.x as real)), p.y as real)
      {
        RenewedIsLearned(recent, ref, k, old(results[k]), rs[k], results[k]);
      }
    }

    /** Steps the clock by the offset of the newest sample if the line of the best size is too far off. */
    method StepIfFar(offset: int, size: nat) returns (state: ServoState)
      requires Valid() && Fits(recent, reference, results[..])
      requires MIN_SIZE <= size <= MAX_SIZE && Preferred(results[..], size - MIN_SIZE, results.Length)
      modifies this`reference, this`lastUpdate, results
      ensures Valid() && Fits(recent, reference, results[..]) && Preferred(results[..], size - MIN_SIZE, results.Length)
      ensures state ==
              if MustStep(firstUpdate, stepThreshold, firstStepThreshold, old(results[size - MIN_SIZE].intercept))
              then Jump
              else Locked
      ensures results[size - MIN_SIZE].intercept ==
              old(results[size - MIN_SIZE].intercept) + if state == Jump then offset as real else 0.0
      ensures Where() == if state == Jump then Moved(old(Where()), Step(offset)) else old(Where())
      ensures forall k :: 0 <= k < results.Length ==> results[k] == old(results[k]).(intercept := results[k].intercept)
    {
      hide Fits, Preferred, Mul;
      if MustStep(firstUpdate, stepThreshold, firstStepThreshold, results[size - MIN_SIZE].intercept) {
        ghost var rs := results[..];
        MoveReference(0, -offset);
        MulZero(rs[size - MIN_SIZE].slope);
        MulComm(rs[size - MIN_SIZE].slope, 0.0);
        SamePreference(rs, results[..], size - MIN_SIZE);
        lastUpdate := lastUpdate - offset;
        state := Jump;
      } else {
        state := Locked;
      }
    }

    /** A new sample; size is the one that the outcome rests on. */
    method Sample(offset: int, localTs: int) returns (freq: real, state: ServoState, size: nat)
      requires Valid() && Fits(recent, reference, results[..])
      modifies this, points, results
      ensures Valid() && Fits(recent, reference, results[..])
      ensures Movable(Tick(localTs, old(clockFreq))) ==>
                var t := Moved(old(Where()), Tick(localTs, old(clockFreq)));
                && Where() == (if state == Jump then Moved(t, Step(offset)) else t)
                && recent == Newest([Point(t.x, t.y - offset)] + old(recent))
      ensures numPoints > 0 && forall k :: 0 <= k < results.Length ==>
                var p := recent[0];
                Learned(old(results[k]), results[k], Count(k + MIN_SIZE) <= numPoints,
                        old(LineAt(results[k], reference, p.x as real)), p.y as real)
      ensures freq == -clockFreq && leap == old(leap) && updateInterval == old(updateInterval)
      ensures state == Unlocked <==> !Sloped(results[..], results.Length)
      ensures state == Unlocked ==> size == 0 && clockFreq == old(clockFreq) && firstUpdate == old(firstUpdate)
      ensures state != Unlocked ==>
                && MIN_SIZE <= size <= MAX_SIZE && Preferred(results[..], size - MIN_SIZE, results.Length)
                && !firstUpdate
                && -maxFrequency <= clockFreq <= maxFrequency
                && (state == Jump <==>
                    MustStep(old(firstUpdate), stepThreshold, firstStepThreshold,
                             results[size - MIN_SIZE].intercept - if state == Jump then offset as real else 0.0))
      ensures state != Unlocked && updateInterval != 0.0 ==>
                Steers(clockFreq, maxFrequency, results[size - MIN_SIZE], Horizon(updateInterval, size))
    {
      hide Fits, Preferred, Steers, Sloped, Newest, MustStep, Horizon, Learned, LineAt, InRing, Count, Movable, Mul;
      Learn(offset, localTs);
      size := BestSize();
      if size < MIN_SIZE {
        return -clockFreq, Unlocked, 0;
      }
      PreferredIsSloped(results[..], size - MIN_SIZE);
      ghost var rs, p := results[..], recent[0];
      state := StepIfFar(offset, size);
      forall k | 0 <= k < results.Length
        ensures Learned(old(results[k]), results[k], Count(k + MIN_SIZE) <= numPoints,
                        old(LineAt(results[k], reference, p.x as real)), p.y as real)
      {
        LearnedStays(old(results[k]), rs[k], results[k], Count(k + MIN_SIZE) <= numPoints,
                     old(LineAt(results[k], reference, p.x as real)), p.y as real);
      }
      PreferredIsSloped(results[..], size - MIN_SIZE);
      Steer(size);
      freq := -clockFreq;
      firstUpdate := false;
    }

    method Reset()
      requires Valid()
      modifies this`numPoints, this`lastUpdate, this`frequencyRatio, this`recent, results
      ensures Valid() && recent == [] && Fits(recent, reference, results[..]) && Where() == Moved(old(Where()), Restart)
      ensures !Sloped(results[..], results.Length) && forall k :: 0 <= k < results.Length ==> results[k].errUpdates == 0
      ensures frequencyRatio == 1.0
    {
      numPoints, lastUpdate, frequencyRatio, recent := 0, 0, 1.0, [];
      for i := MIN_SIZE to MAX_SIZE + 1
        modifies results
        invariant forall k :: 0 <= k < i - MIN_SIZE ==> results[k].slope == 0.0 && results[k].errUpdates == 0
        invariant forall k :: 0 <= k < results.Length ==> results[k].err >= 0.0
      {
        results[i - MIN_SIZE] := results[i - MIN_SIZE].(slope := 0.0, errUpdates := 0);
      }
    }

    /** Moves the reference when an announced leap second has happened. */
    method LeapSecond(leap: int)
      requires Valid() && Fits(recent, reference, results[..])
      modifies this`reference, this`leap, results
      ensures Valid() && Fits(recent, reference, results[..]) && this.leap == leap
      ensures Where() == Moved(old(Where()), Leap(if leap == 0 then old(this.leap) else 0))
      ensures forall k, at ::
                0 <= k < results.Length ==> LineAt(results[k], reference, at) == old(LineAt(results[k], reference, at))
    {
      hide Mul;
      if this.leap != 0 && leap == 0 {
        MoveReference(0, this.leap * NSEC_PER_SEC);
      }
      this.leap := leap;
    }
  }

  /** The number of update intervals over which an offset is corrected. */
  function Correction(size: nat): (n: nat)
    requires MIN_SIZE <= size
    ensures n > 0
  {
    if size <= 4 then 1 else size / 2
  }

  /** One interval for up to 16 points, two for 32 and three for 64, so that more points mean a slower correction. */
  lemma CorrectionBySize(size: nat)
    requires MIN_SIZE <= size <= MAX_SIZE
    ensures Correction(size) == if Count(size) <= 16 then 1 else if Count(size) == 32 then 2 else 3
  {
    PointsOfSize(size);
  }

  /** The time over which an offset is corrected, in nanoseconds. */
  function Horizon(updateInterval: real, size: nat): real
    requires MIN_SIZE <= size
  {
    updateInterval * Correction(size) as real * BILLION
  }

  /** A clock that runs at frequency f meets the line after an interval. */
  ghost predicate Meets(f: real, res: Result, interval: real) {
    Mul(1.0 + f / BILLION, interval) == res.intercept + Mul(res.slope, interval)
  }

  /** The frequency within the limits nearest to the one that meets the line. */
  ghost predicate Steers(f: real, max: real, res: Result, interval: real)
    requires max >= 0.0
  {
    exists g :: Meets(g, res, interval) && f == Clamp(g, max)
  }

  /**
   There is one frequency that meets the line; the clock runs at it if it can, and otherwise at the limit on the same
   side, so that after the interval no frequency within the limits is closer to the line.
   */
  lemma SteersToTheLine(f: real, max: real, res: Result, interval: real, g: real)
    requires max >= 0.0 && interval != 0.0 && Steers(f, max, res, interval) && Meets(g, res, interval)
    ensures if g > max then f == max else if g < -max then f == -max else f == g
    ensures forall h :: -max <= h <= max ==> Missed(f, res, interval) <= Missed(h, res, interval)
  {
    var g' :| Meets(g', res, interval) && f == Clamp(g', max);
    MissedAt(g, g', res, interval);
    hide Meets;
    forall h | -max <= h <= max
      ensures Missed(f, res, interval) <= Missed(h, res, interval)
    {
      MissedAt(g, f, res, interval);
      MissedAt(g, h, res, interval);
      assert Distance(g, f) <= Distance(g, h);
      Products.MulMonotone(Abs(interval) / BILLION, Distance(g, f), Distance(g, h));
    }
  }

  /** How far a clock that runs at frequency f is off the line after an interval. */
  function Missed(f: real, res: Result, interval: real): real {
    Abs(res.intercept + Mul(res.slope, interval) - Mul(1.0 + f / BILLION, interval))
  }

  /** The miss grows with the distance to the frequency that meets the line, which is the only one. */
  lemma MissedAt(g: real, f: real, res: Result, interval: real)
    requires Meets(g, res, interval) && interval != 0.0
    ensures Missed(f, res, interval) == Mul(Abs(interval) / BILLION, Distance(g, f))
    ensures Meets(f, res, interval) <==> f == g
  {
    var d := (g - f) / BILLION;
    assert (1.0 + g / BILLION) * interval - (1.0 + f / BILLION) * interval == d * interval;
    AbsProduct(d, interval);
    if f != g {
      ProductIsZero(d, interval);
    }
  }

  lemma AbsProduct(x: real, y: real)
    ensures Abs(x * y) == Abs(x) * Abs(y)
  {
    if x >= 0.0 {
      if y >= 0.0 {
        assert x * y >= 0.0;
      } else {
        assert x * -y >= 0.0;
      }
    } else if y >= 0.0 {
      assert -x * y >= 0.0;
    } else {
      assert -x * -y >= 0.0;
    }
  }

  lemma ProductIsZero(x: real, y: real)
    requires y != 0.0 && x != 0.0
    ensures x * y != 0.0
  {
    assert x == x * y / y;
  }

  lemma MeetsTheLine(res: Result, t: real, size: nat, correction: real, part: real)
    requires MIN_SIZE <= size
    requires Mul(correction, t) == res.intercept && Mul(part, Correction(size) as real) == correction
    ensures Meets(BILLION * (res.slope - 1.0) + part, res, Horizon(t, size))
  {
    var c, h := Correction(size) as real, Horizon(t, size);
    assert part / BILLION * h == part * (t * c);
    assert part * (t * c) == (part * c) * t;
    assert (res.slope + part / BILLION) * h == res.slope * h + part / BILLION * h;
  }

  function Newest(all: seq<Point>): (ps: seq<Point>)
    ensures |ps| == if |all| > MAX_POINTS then MAX_POINTS else |all|
  {
    if |all| > MAX_POINTS then all[..MAX_POINTS] else all
  }

  lemma PreferredIsSloped(rs: seq<Result>, b: nat)
    requires b < |rs| && Preferred(rs, b, |rs|)
    ensures Sloped(rs, |rs|)
  {
    SlopedGrows(rs, b + 1, |rs|);
  }

  /** What the choice of a size depends on: not the intercepts. */
  lemma SamePreference(rs: seq<Result>, rs': seq<Result>, b: nat)
    requires b < |rs| == |rs'| && forall k :: 0 <= k < |rs| ==> rs'[k] == rs[k].(intercept := rs'[k].intercept)
    requires Preferred(rs, b, |rs|)
    ensures Preferred(rs', b, |rs|)
  {
    hide Mul, Slack;
    forall n | 0 <= n <= |rs|
      ensures Sloped(rs, n) <==> Sloped(rs', n)
    {
    }
    assert forall k :: 0 <= k < |rs| ==> (Candidate(rs, k) <==> Candidate(rs', k));
  }

  /**
   What a sample does to the average error of a size: a line in use is judged by what it predicted for the new point.
   */
  ghost predicate Learned(res: Result, res': Result, enough: bool, predicted: real, actual: real) {
    if !enough then res' == res.(intercept := res'.intercept)
    else (res'.err, res'.errUpdates) ==
         if res.slope == 0.0 then (res.err, res.errUpdates)
         else Smoothed(res.err, res.errUpdates, Abs(predicted - actual))
  }

  lemma RenewedIsLearned(ps: seq<Point>, ref: Point, k: nat, res: Result, mid: Result, res': Result)
    requires ps != [] && ps[0].x == ref.x && mid == res.(intercept := mid.intercept)
    requires if Count(k + MIN_SIZE) > |ps| then res' == mid
             else Renewed(ps, ref, Count(k + MIN_SIZE), mid, res', (ps[0].y - ref.y) as real)
    ensures Learned(res, res', Count(k + MIN_SIZE) <= |ps|, LineAt(mid, ref, ps[0].x as real), ps[0].y as real)
  {
    hide Mul, Smoothed, Fit, LineAt, Abs;
    if Count(k + MIN_SIZE) <= |ps| && mid.slope != 0.0 {
      JudgedByPrediction(mid, ref, ps[0]);
    }
  }

  lemma LearnedStays(res: Result, mid: Result, res': Result, enough: bool, predicted: real, actual: real)
    requires Learned(res, mid, enough, predicted, actual) && res' == mid.(intercept := res'.intercept)
    ensures Learned(res, res', enough, predicted, actual)
  {
  }

  /** The error that a line is judged by is the error of its prediction for the newest point. */
  lemma JudgedByPrediction(res: Result, ref: Point, p: Point)
    requires res.err >= 0.0 && res.slope != 0.0 && p.x == ref.x
    ensures var e := Abs(LineAt(res, ref, p.x as real) - p.y as real);
            var r := Judged(res, (p.y - ref.y) as real);
            (r.err, r.errUpdates) == Smoothed(res.err, res.errUpdates, e)
  {
    hide Mul, Smoothed;
    MulZero(res.slope);
    assert LineAt(res, ref, p.x as real) - p.y as real == res.intercept - (p.y - ref.y) as real;
  }

  lemma NothingSummed(q: seq<Row>)
    ensures Summed(q, 0, Sums(0.0, 0.0, 0.0, 0.0))
  {
  }

  lemma {:induction false} CountGrows(size: nat, top: nat)
    ensures forall k :: size <= k <= top ==> Count(size) <= Count(k)
    decreases top
  {
    if size < top {
      CountGrows(size, top - 1);
    }
  }

  lemma FirstPreferred(rs: seq<Result>, n: nat)
    requires n < |rs| && !Sloped(rs, n) && rs[n].err >= 0.0
    ensures rs[n].slope != 0.0 ==> Preferred(rs, n, n + 1) && Sloped(rs, n + 1)
    ensures rs[n].slope == 0.0 ==> !Sloped(rs, n + 1)
  {
    Looser(rs[n].err, 0, rs[n].err);
  }

  lemma NextPreferred(rs: seq<Result>, b: nat, n: nat)
    requires b < n < |rs| && Preferred(rs, b, n) && forall k :: 0 <= k < |rs| ==> rs[k].err >= 0.0
    ensures Sloped(rs, n + 1)
    ensures var next := 1.05 * rs[b].err > rs[n].err && rs[n].errUpdates >= ERR_INITIAL_UPDATES;
            Preferred(rs, if next then n else b, n + 1)
  {
    if 1.05 * rs[b].err > rs[n].err && rs[n].errUpdates >= ERR_INITIAL_UPDATES {
      PreferredNext(rs, b, n);
    } else {
      PreferredStays(rs, b, n);
    }
    SlopedGrows(rs, b + 1, n + 1);
  }

  lemma {:induction false} BestIsPreferred(rs: seq<Result>, n: nat)
    requires n <= |rs| && forall k :: 0 <= k < |rs| ==> rs[k].err >= 0.0
    ensures BestOf(rs, n).None? <==> !Sloped(rs, n)
    ensures BestOf(rs, n).Some? ==> Preferred(rs, BestOf(rs, n).value, n)
  {
    hide Preferred, Sloped;
    if n == 0 {
      NothingSloped(rs);
    } else {
      BestIsPreferred(rs, n - 1);
      var b := BestOf(rs, n - 1);
      if b.None? {
        FirstPreferred(rs, n - 1);
      } else {
        NextPreferred(rs, b.value, n - 1);
      }
    }
  }

  lemma NothingSloped(rs: seq<Result>)
    ensures !Sloped(rs, 0)
  {
  }

  /** The last of the candidates with the least error. */
  ghost predicate LastLeast(rs: seq<Result>, j: nat) {
    && j < |rs| && Candidate(rs, j) && (forall k :: 0 <= k < |rs| && Candidate(rs, k) ==> rs[j].err <= rs[k].err)
    && forall k :: j < k < |rs| && Candidate(rs, k) ==> rs[j].err < rs[k].err
  }

  lemma {:induction false} LastLeastUpTo(rs: seq<Result>, n: nat) returns (j: nat)
    requires n <= |rs| && exists k :: 0 <= k < n && Candidate(rs, k)
    ensures j < n && Candidate(rs, j) && (forall k :: 0 <= k < n && Candidate(rs, k) ==> rs[j].err <= rs[k].err)
    ensures forall k :: j < k < n && Candidate(rs, k) ==> rs[j].err < rs[k].err
  {
    hide Candidate;
    if exists k :: 0 <= k < n - 1 && Candidate(rs, k) {
      j := LastLeastUpTo(rs, n - 1);
      if Candidate(rs, n - 1) && rs[n - 1].err <= rs[j].err {
        j := n - 1;
      }
    } else {
      j := n - 1;
    }
  }

  /** Whenever a size has a slope, there is such a candidate. */
  lemma LastLeastExists(rs: seq<Result>) returns (j: nat)
    requires Sloped(rs, |rs|) && forall k :: 0 <= k < |rs| ==> rs[k].err >= 0.0
    ensures LastLeast(rs, j)
  {
    BestIsPreferred(rs, |rs|);
    assert Candidate(rs, BestOf(rs, |rs|).value);
    j := LastLeastUpTo(rs, |rs|);
  }

  /** Some later candidate is taken for equal to j, although its error is larger. */
  ghost predicate Superseded(rs: seq<Result>, j: nat, n: nat)
    requires j < |rs| && n <= |rs|
  {
    exists k :: j < k < n && Candidate(rs, k) && rs[k].err < 1.05 * rs[j].err
  }

  lemma {:induction false} BestAfterLeast(rs: seq<Result>, j: nat, n: nat)
    requires LastLeast(rs, j) && j < n <= |rs| && forall k :: 0 <= k < |rs| ==> rs[k].err >= 0.0
    ensures BestOf(rs, n).Some?
    ensures var b := rs[BestOf(rs, n).value];
            if Superseded(rs, j, n) then b.err > rs[j].err else b.err == rs[j].err
  {
    if n == j + 1 {
      BestAtLeast(rs, j);
    } else {
      hide Sloped, BestOf, Candidate, LastLeast, Superseded;
      BestAfterLeast(rs, j, n - 1);
      BestStep(rs, n);
      LaterCandidate(rs, j, n - 1);
    }
  }

  /** What a size after the last least one is to it. */
  lemma LaterCandidate(rs: seq<Result>, j: nat, k: nat)
    requires LastLeast(rs, j) && j < k < |rs|
    ensures Candidate(rs, k) <==> rs[k].errUpdates >= ERR_INITIAL_UPDATES
    ensures Candidate(rs, k) ==> rs[k].err > rs[j].err
    ensures Superseded(rs, j, k + 1) <==> Superseded(rs, j, k) || (Candidate(rs, k) && rs[k].err < 1.05 * rs[j].err)
  {
    SlopedGrows(rs, j + 1, k);
    SlopedGrows(rs, j + 1, k + 1);
    hide Sloped;
  }

  lemma BestStep(rs: seq<Result>, n: nat)
    requires 0 < n <= |rs| && BestOf(rs, n - 1).Some?
    ensures var b, res := BestOf(rs, n - 1).value, rs[n - 1];
            BestOf(rs, n) ==
            Some(if 1.05 * rs[b].err > res.err && res.errUpdates >= ERR_INITIAL_UPDATES then n - 1 else b)
  {
  }

  lemma BestAtLeast(rs: seq<Result>, j: nat)
    requires LastLeast(rs, j) && forall k :: 0 <= k < |rs| ==> rs[k].err >= 0.0
    ensures BestOf(rs, j + 1).Some? && rs[BestOf(rs, j + 1).value].err == rs[j].err
  {
    BestIsPreferred(rs, j);
    BestIsPreferred(rs, j + 1);
    if BestOf(rs, j).Some? {
      hide Sloped, BestOf;
      BestStep(rs, j + 1);
    }
  }

  /**
   The exact condition for the smallest prediction error: the size that is returned has it, if and only if no candidate
   after the last one that has it is within five percent.
   */
  lemma BestHasLeastError(rs: seq<Result>, j: nat)
    requires LastLeast(rs, j) && forall k :: 0 <= k < |rs| ==> rs[k].err >= 0.0
    ensures BestOf(rs, |rs|).Some?
    ensures rs[BestOf(rs, |rs|).value].err == rs[j].err <==>
            forall k :: j < k < |rs| && Candidate(rs, k) ==> rs[k].err >= 1.05 * rs[j].err
  {
    BestAfterLeast(rs, j, |rs|);
  }

  /** Errors that grow by four percent from size to size: the third is returned, the first is the smallest. */
  lemma EqualErrorsAddUp()
    ensures var rs := [Result(1.0, 0.0, 1.0, 10), Result(1.0, 0.0, 1.04, 10), Result(1.0, 0.0, 1.08, 10),
                       Result(1.0, 0.0, 2.0, 10), Result(1.0, 0.0, 2.0, 10)];
            LastLeast(rs, 0) && BestOf(rs, 5) == Some(2)
  {
    var rs := [Result(1.0, 0.0, 1.0, 10), Result(1.0, 0.0, 1.04, 10), Result(1.0, 0.0, 1.08, 10),
               Result(1.0, 0.0, 2.0, 10), Result(1.0, 0.0, 2.0, 10)];
    assert BestOf(rs, 1) == Some(0);
    assert BestOf(rs, 2) == Some(1);
    assert BestOf(rs, 3) == Some(2);
    assert BestOf(rs, 4) == Some(2);
    assert rs[0].slope != 0.0;
    SlopedGrows(rs, 1, 1);
  }
}
