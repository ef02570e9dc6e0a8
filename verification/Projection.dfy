/** Projection between core time and the time of a timeline (qot.c). */
module Projection {
  import opened Prelude
  import opened Products
  import opened Time

  /** The clock of a timeline: nsec at core time last, running mult parts per billion faster. */
  datatype Translation = Translation(mult: int, nsec: int, last: int)

  /** A span of core time on the timeline. */
  function Stretched(mult: int, d: int): int {
    d + TruncDiv(mult * d, NSEC)
  }

  function ToTimeline(tr: Translation, x: int, period: bool): int {
    if period then Stretched(tr.mult, x) else tr.nsec + Stretched(tr.mult, x - tr.last)
  }

  /** The quotient rounded down, whatever the signs. */
  function FloorDiv(a: int, b: int): (q: int)
    requires b != 0
  {
    if b > 0 then a / b else (-a) / (-b)
  }

  function Shrunk(mult: int, d: int): int
    requires mult + NSEC != 0
  {
    FloorDiv(d * NSEC, mult + NSEC)
  }

  function ToCore(tr: Translation, y: int, period: bool): int
    requires tr.mult + NSEC != 0
  {
    if period then Shrunk(tr.mult, y) else tr.last + Shrunk(tr.mult, y - tr.nsec)
  }

  ghost function Nanos(p: TimePoint): int
    reads p
  {
    p.ToScalar(NSEC, NSEC)
  }

  method Loc2Rem(timeline: Option<Translation>, est: TimePoint, period: bool) returns (ok: bool)
    requires est.asec >= 0
    modifies est
    ensures ok == timeline.Some? && (!ok ==> est.sec == old(est.sec) && est.asec == old(est.asec))
    ensures ok ==> est.Valid() && est.asec % NSEC == 0 &&
                   Nanos(est) == ToTimeline(timeline.value, old(Nanos(est)), period)
  {
    if timeline.None? {
      return false;
    }
    var tr := timeline.value;
    var val := est.ToScalar(NSEC, NSEC);
    if period {
      val := val + TruncDiv(tr.mult * val, NSEC);
    } else {
      val := val - tr.last;
      val := tr.nsec + val + TruncDiv(tr.mult * val, NSEC);
    }
    SetNanos(est, val);
    ok := true;
  }

  method SetNanos(est: TimePoint, val: int)
    modifies est
    ensures est.Valid() && est.asec % NSEC == 0 && Nanos(est) == val
  {
    est.FromScalar(val, NSEC, NSEC);
    ScalarRoundTrip(est, val, NSEC, NSEC);
    PointRoundTrip(est, NSEC, NSEC);
  }

  method Rem2Loc(timeline: Option<Translation>, est: TimePoint, period: bool) returns (ok: bool)
    requires est.asec >= 0
    modifies est
    ensures ok == timeline.Some? && (!ok ==> est.sec == old(est.sec) && est.asec == old(est.asec))
    ensures ok ==> est.Valid() && est.asec % NSEC == 0
    ensures ok && timeline.value.mult + NSEC != 0 ==> Nanos(est) == ToCore(timeline.value, old(Nanos(est)), period)
  {
    if timeline.None? {
      return false;
    }
    var tr := timeline.value;
    var val := est.ToScalar(NSEC, NSEC);
    if period {
      val := Unstretch(tr.mult, val);
    } else {
      var diff := val - tr.nsec;
      var quot := Unstretch(tr.mult, diff);
      val := tr.last + quot;
    }
    SetNanos(est, val);
    ok := true;
  }

  method Unstretch(mult: int, d: int) returns (q: int)
    ensures mult + NSEC != 0 ==> q == Shrunk(mult, d)
  {
    if mult + NSEC == 0 {
      q := *;
    } else {
      q := (d as real / (mult + NSEC) as real * NSEC as real).Floor;
      FloorOfQuotient(d, mult + NSEC);
    }
  }

  /** Both projections follow the straight line through the reference point, to less than a nanosecond. */
  lemma ProjectionIsLinear(tr: Translation, x: int, period: bool)
    ensures var d := if period then x else x - tr.last;
            var e := ToTimeline(tr, x, period) - if period then 0 else tr.nsec;
            -NSEC < NSEC * e - (NSEC + tr.mult) * d < NSEC
  {
    var d := if period then x else x - tr.last;
    assert (NSEC + tr.mult) * d == NSEC * d + tr.mult * d;
  }

  lemma InverseIsLinear(tr: Translation, y: int, period: bool)
    requires tr.mult + NSEC > 0
    ensures var e := if period then y else y - tr.nsec;
            var d := ToCore(tr, y, period) - if period then 0 else tr.last;
            0 <= NSEC * e - (NSEC + tr.mult) * d < NSEC + tr.mult
  {
    var e := if period then y else y - tr.nsec;
    FloorDivBounds(e * NSEC, tr.mult + NSEC);
    var d := Shrunk(tr.mult, e);
    assert (NSEC + tr.mult) * d == d * (tr.mult + NSEC);
  }

  lemma FloorOfQuotient(d: int, b: int)
    requires b != 0
    ensures (d as real / b as real * NSEC as real).Floor == FloorDiv(d * NSEC, b)
  {
    var y, q := d as real / b as real, FloorDiv(d * NSEC, b);
    var x := y * NSEC as real;
    assert y * b as real == d as real;
    assert x * b as real == y * b as real * NSEC as real;
    FloorDivBounds(d * NSEC, b);
    if b > 0 {
      RealBetween(x, q, b, d * NSEC);
    } else {
      assert x * (-b) as real == (-(d * NSEC)) as real;
      assert q * (-b) == -(q * b);
      RealBetween(x, q, -b, -(d * NSEC));
    }
  }

  lemma FloorDivBounds(a: int, b: int)
    requires b != 0
    ensures var q := FloorDiv(a, b);
            if b > 0 then q * b <= a < q * b + b else q * b + b < a <= q * b
  {
    if b > 0 {
      DivisionBounds(a, b);
    } else {
      DivisionBounds(-a, -b);
      var q := (-a) / (-b);
      assert q * (-b) == -(q * b);
    }
  }

  lemma RealBetween(x: real, q: int, b: int, a: int)
    requires b > 0 && x * b as real == a as real && q * b <= a < q * b + b
    ensures x.Floor == q
  {
    var f, e := q as real, b as real;
    MulSuccessor(q, b);
    assert Mul(f, e) == (q * b) as real && Mul(f + 1.0, e) == ((q + 1) * b) as real && Mul(x, e) == a as real;
    Cancel(e, f, x);
    CancelStrict(e, x, f + 1.0);
  }

  // ----- order

  lemma TruncDivMonotone(a: int, b: int, m: int)
    requires a <= b && m > 0
    ensures TruncDiv(a, m) <= TruncDiv(b, m)
  {
    var p, q := TruncDiv(a, m), TruncDiv(b, m);
    if p > q {
      MulSuccessor(q, m);
      Prelude.MulMonotone(q + 1, p, m);
    }
  }

  /** Rounding toward zero commutes with whole steps, up to one step across zero in the right direction. */
  lemma TruncDivStep(a: int, k: nat, m: int)
    requires m > 0
    ensures TruncDiv(a - k * m, m) >= TruncDiv(a, m) - k
  {
    var q, p := TruncDiv(a, m), TruncDiv(a - k * m, m);
    assert (q - k) * m == q * m - k * m;
    MulSuccessor(p, m);
    if p < q - k {
      Prelude.MulMonotone(p + 1, q - k, m);
    }
  }

  lemma StretchedMonotone(mult: int, c: int, d: int)
    requires mult >= -NSEC && c <= d
    ensures Stretched(mult, c) <= Stretched(mult, d)
  {
    var k := d - c;
    assert mult * d == mult * c + mult * k;
    assert (mult + NSEC) * k >= 0;
    assert (mult + NSEC) * k == mult * k + NSEC * k;
    TruncDivMonotone(mult * c - k * NSEC, mult * d, NSEC);
    TruncDivStep(mult * c, k, NSEC);
  }

  /** Projection to the timeline keeps the order of all times if and only if the timeline does not run backwards. */
  lemma OrderIsKept(tr: Translation, period: bool)
    ensures tr.mult >= -NSEC <==> forall x, y :: x <= y ==> ToTimeline(tr, x, period) <= ToTimeline(tr, y, period)
  {
    if tr.mult >= -NSEC {
      forall x, y | x <= y
        ensures ToTimeline(tr, x, period) <= ToTimeline(tr, y, period)
      {
        if period {
          StretchedMonotone(tr.mult, x, y);
        } else {
          StretchedMonotone(tr.mult, x - tr.last, y - tr.last);
        }
      }
    } else {
      var x := if period then 0 else tr.last;
      WholeSeconds(tr.mult);
      assert ToTimeline(tr, x, period) > ToTimeline(tr, x + NSEC, period);
    }
  }

  lemma WholeSeconds(mult: int)
    ensures Stretched(mult, 0) == 0 && Stretched(mult, NSEC) == NSEC + mult
  {
  }

  // ----- there and back

  /** The way to the timeline and back is off by less than one nanosecond of the timeline and one of core time. */
  lemma ShrunkUndoesStretched(mult: int, d: int)
    requires mult > -NSEC
    ensures var e, b := Shrunk(mult, Stretched(mult, d)) - d, mult + NSEC;
            -NSEC - b < e * b < NSEC
  {
    var b, t := mult + NSEC, TruncDiv(mult * d, NSEC);
    var y := d + t;
    var q := Shrunk(mult, y);
    FloorDivBounds(y * NSEC, b);
    assert y * NSEC == d * NSEC + t * NSEC;
    assert d * b == d * mult + d * NSEC;
    assert (q - d) * b == q * b - d * b;
    assert mult * d == d * mult;
  }

  /** Up to fifty percent of frequency offset, core time is recovered to two nanoseconds below and one above. */
  lemma CoreTimeIsRecovered(tr: Translation, x: int, period: bool)
    requires -500000000 <= tr.mult <= 500000000
    ensures -2 <= ToCore(tr, ToTimeline(tr, x, period), period) - x <= 1
  {
    var d := if period then x else x - tr.last;
    ShrunkUndoesStretched(tr.mult, d);
    var e, b := Shrunk(tr.mult, Stretched(tr.mult, d)) - d, tr.mult + NSEC;
    hide Shrunk, Stretched;
    if e >= 2 {
      Prelude.MulMonotone(2, e, b);
    } else if e <= -3 {
      Prelude.MulMonotone(e, -3, b);
    }
  }

  /** Both ends of the bound are reached. */
  lemma RecoveryIsTight()
    ensures var tr := Translation(-400000000, 0, 0);
            && ToCore(tr, ToTimeline(tr, -2, false), false) == -2 - 2
            && ToCore(tr, ToTimeline(tr, 2, false), false) == 2 + 1
  {
  }
}
