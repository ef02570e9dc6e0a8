/** When a periodic task of a timeline is woken up next (qot.c). */
module Wakeup {
  import opened Prelude
  import opened Time

  datatype Instant = Instant(sec: int, asec: int)
  {
    ghost predicate Valid() {
      0 <= asec < ASEC_PER_SEC
    }

    function Atto(): int {
      sec * ASEC_PER_SEC + asec
    }
  }

  /** The elapsed nanoseconds as the difference of seconds and fractions gives them. */
  function Elapsed(start: Instant, now: Instant): (e: int)
    ensures e >= 0
  {
    AbsInt(Int32(now.sec - start.sec)) * NSEC + AbsInt(now.asec - start.asec) / NSEC
  }

  /** The number of periods of p that it takes to cover e, rounded up. */
  function Periods(e: int, p: int): (k: int)
    requires e >= 0 && p > 0
    ensures k >= 0
  {
    if e % p != 0 then e / p + 1 else e / p
  }

  /** The wake-up time in attoseconds, for a period in nanoseconds. */
  function WakeAt(start: Instant, now: Instant, p: int): int
    requires p > 0
  {
    if start.Atto() > now.Atto() then start.Atto() else Grid(start, p, Periods(Elapsed(start, now), p))
  }

  /** The start of period k. */
  function Grid(start: Instant, p: int, k: int): int {
    start.Atto() + k * p * NSEC
  }

  ghost function At(t: TimePoint): Instant
    reads t
  {
    Instant(t.sec, t.asec)
  }

  method NextWake(start: TimePoint, now: TimePoint, period: TimeLength) returns (wake: TimePoint)
    requires start.Valid() && now.Valid() && period.ToScalar(NSEC, NSEC) > 0
    ensures fresh(wake) && wake.Valid() && wake.Atto() == WakeAt(At(start), At(now), period.ToScalar(NSEC, NSEC))
  {
    if start.Cmp(now) < 0 {
      return new TimePoint(start.sec, start.asec);
    }
    hide Scaled, Periods, Int32, AbsInt;
    var elapsed := new TimeLength();
    Diff(elapsed, now, start);
    var elapsedNs := elapsed.ToScalar(NSEC, NSEC);
    var periodNs := period.ToScalar(NSEC, NSEC);
    assert elapsedNs == Elapsed(At(start), At(now));
    var periods := CountPeriods(elapsedNs, periodNs);
    ProductNonNegative(periods, periodNs);
    elapsedNs := periods * periodNs;
    elapsed.FromScalar(elapsedNs, NSEC, NSEC);
    wake := new TimePoint(start.sec, start.asec);
    wake.Add(elapsed);
  }

  method CountPeriods(elapsedNs: int, periodNs: int) returns (periods: int)
    requires elapsedNs >= 0 && periodNs > 0
    ensures periods == Periods(elapsedNs, periodNs)
  {
    periods := elapsedNs / periodNs;
    if elapsedNs % periodNs != 0 {
      periods := periods + 1;
    }
  }

  lemma ProductNonNegative(x: int, y: int)
    requires x >= 0 && y >= 0
    ensures x * y >= 0
  {
  }

  // ----- what the wake-up time is

  /** Times that differ by less than the seconds that fit an int. */
  ghost predicate Comparable(start: Instant, now: Instant) {
    start.Valid() && now.Valid() && -0x8000_0000 < now.sec - start.sec < 0x8000_0000
  }

  /** No start of a period that is not in the past comes before w. */
  ghost predicate Earliest(start: Instant, now: Instant, p: int, w: int) {
    forall k :: k >= 0 && Grid(start, p, k) >= now.Atto() ==> w <= Grid(start, p, k)
  }

  lemma PeriodsBounds(e: int, p: int)
    requires e >= 0 && p > 0
    ensures e <= Periods(e, p) * p < e + p
  {
    assert e == e / p * p + e % p;
    MulSuccessor(e / p, p);
  }

  lemma PeriodsIsLeast(e: int, p: int, k: int)
    requires e >= 0 && p > 0 && e <= k * p
    ensures Periods(e, p) <= k
  {
    PeriodsBounds(e, p);
    var c := Periods(e, p);
    MulSuccessor(k, p);
    if k < c {
      MulMonotone(k + 1, c, p);
    }
  }

  lemma PeriodsIs(e: int, p: int, k: int)
    requires e >= 0 && p > 0 && e <= k * p < e + p
    ensures Periods(e, p) == k
  {
    PeriodsBounds(e, p);
    PeriodsIsLeast(e, p, k);
    var c := Periods(e, p);
    MulSuccessor(c, p);
    if c < k {
      MulMonotone(c + 1, k, p);
    }
  }

  /** The first start of a period that is not in the past. */
  function NextStart(start: Instant, now: Instant, p: int): int
    requires p > 0
  {
    if start.Atto() > now.Atto() then start.Atto() else Grid(start, p, Periods(now.Atto() - start.Atto(), p * NSEC))
  }

  lemma GridIs(start: Instant, p: int, k: int)
    ensures Grid(start, p, k) == start.Atto() + k * (p * NSEC)
  {
  }

  lemma NextStartIsEarliest(start: Instant, now: Instant, p: int)
    requires p > 0
    ensures NextStart(start, now, p) >= now.Atto() && Earliest(start, now, p, NextStart(start, now, p))
  {
    var d, q := now.Atto() - start.Atto(), p * NSEC;
    if d < 0 {
      forall k | k >= 0
        ensures start.Atto() <= Grid(start, p, k)
      {
        ProductNonNegative(k, p);
      }
    } else {
      PeriodsBounds(d, q);
      GridIs(start, p, Periods(d, q));
      forall k | k >= 0 && Grid(start, p, k) >= now.Atto()
        ensures NextStart(start, now, p) <= Grid(start, p, k)
      {
        GridIs(start, p, k);
        PeriodsIsLeast(d, q, k);
        MulMonotone(Periods(d, q), k, q);
      }
    }
  }

  /** How the elapsed nanoseconds relate to the time that has passed, in attoseconds. */
  lemma ElapsedMeans(start: Instant, now: Instant)
    requires Comparable(start, now) && start.Atto() <= now.Atto()
    ensures var d, e, a := now.Atto() - start.Atto(), Elapsed(start, now) * NSEC, start.asec - now.asec;
            if a <= 0 then e == d - (-a) % NSEC else e == d + 2 * a - a % NSEC
  {
    var a := start.asec - now.asec;
    if a <= 0 {
      assert -a == (-a) / NSEC * NSEC + (-a) % NSEC;
    } else {
      assert a == a / NSEC * NSEC + a % NSEC;
    }
  }

  /** A whole number of nanoseconds covers e and a fraction if and only if it covers the next whole number. */
  lemma CeilingOfPart(e: int, r: int, p: int)
    requires e >= 0 && 0 < r < NSEC && p > 0
    ensures Periods(e * NSEC + r, p * NSEC) == Periods(e + 1, p)
  {
    var k := Periods(e + 1, p);
    PeriodsBounds(e + 1, p);
    assert k * (p * NSEC) == k * p * NSEC;
    PeriodsIs(e * NSEC + r, p * NSEC, k);
  }

  lemma CeilingOfWhole(e: int, p: int)
    requires e >= 0 && p > 0
    ensures Periods(e * NSEC, p * NSEC) == Periods(e, p)
  {
    var k := Periods(e, p);
    PeriodsBounds(e, p);
    assert k * (p * NSEC) == k * p * NSEC;
    PeriodsIs(e * NSEC, p * NSEC, k);
  }

  lemma NextPeriods(e: int, p: int)
    requires e >= 0 && p > 0
    ensures Periods(e + 1, p) == Periods(e, p) <==> e % p != 0
    ensures e % p == 0 ==> Periods(e, p) * p == e
  {
    var k := Periods(e, p);
    PeriodsBounds(e, p);
    assert e == e / p * p + e % p;
    MulSuccessor(e / p, p);
    if e % p != 0 {
      PeriodsIs(e + 1, p, k);
    } else {
      MulSuccessor(k, p);
      PeriodsIs(e + 1, p, k + 1);
    }
  }

  /**
   The task is woken at the start of a period, less than a nanosecond before now at worst, and less than a period and
   two seconds after now.  It is before now exactly if the fraction of the start is not after that of now, they differ
   by a fraction of a nanosecond, and but for that a period is just over.
   */
  lemma WakesOnTheGrid(start: Instant, now: Instant, p: int)
    requires Comparable(start, now) && p > 0
    ensures var w := WakeAt(start, now, p);
            && (exists k :: k >= 0 && w == Grid(start, p, k)) && w > now.Atto() - NSEC
            && (start.Atto() > now.Atto() ==> w == start.Atto())
            && (start.Atto() <= now.Atto() ==> w < now.Atto() + p * NSEC + 2 * ASEC_PER_SEC)
    ensures var a := start.asec - now.asec;
            WakeAt(start, now, p) >= now.Atto() <==>
            start.Atto() > now.Atto() || a > 0 || (-a) % NSEC == 0 || Elapsed(start, now) % p != 0
  {
    if start.Atto() > now.Atto() {
      assert WakeAt(start, now, p) == Grid(start, p, 0);
    } else {
      var e := Elapsed(start, now);
      ElapsedMeans(start, now);
      PeriodsBounds(e, p);
      NextPeriods(e, p);
      assert WakeAt(start, now, p) == Grid(start, p, Periods(e, p));
      if e % p != 0 {
        PeriodsBounds(e + 1, p);
      }
    }
  }

  /** A wake-up that comes early: a second and an attosecond into a timeline, the second is just over. */
  lemma EarlyWakeup()
    ensures var start, now, p := Instant(0, 0), Instant(1, 1), 1000000000;
            Comparable(start, now) && WakeAt(start, now, p) == now.Atto() - 1
  {
  }

  /** What a caller can see beforehand: the truncated difference of the times leads to the next start. */
  ghost predicate OnTime(start: Instant, now: Instant, p: int)
    requires p > 0
  {
    var a := start.asec - now.asec;
    || start.Atto() > now.Atto()
    || (a <= 0 && ((-a) % NSEC == 0 || Elapsed(start, now) % p != 0))
    || (a > 0 && 2 * a - a % NSEC <= NextStart(start, now, p) - now.Atto())
  }

  /**
   The exact condition for the earliest start that is not in the past: the start is in the future; or its fraction of a
   second is not after that of now, and they differ by whole nanoseconds or a period is not just over; or it is after
   that of now, and twice their difference, less the fraction of a nanosecond, still fits before the next start.
   */
  lemma WakesEarliest(start: Instant, now: Instant, p: int)
    requires Comparable(start, now) && p > 0
    ensures NextStart(start, now, p) >= now.Atto() && Earliest(start, now, p, NextStart(start, now, p))
    ensures WakeAt(start, now, p) == NextStart(start, now, p) <==> OnTime(start, now, p)
  {
    NextStartIsEarliest(start, now, p);
    if start.Atto() <= now.Atto() {
      hide Periods, Earliest, Elapsed;
      var d, e := now.Atto() - start.Atto(), Elapsed(start, now);
      var j, k := Periods(e, p), Periods(d, p * NSEC);
      GridIs(start, p, j);
      GridIs(start, p, k);
      SameStart(j, k, p);
      SameCount(start, now, p);
    }
  }

  /** When the elapsed nanoseconds take as many periods as the time that has passed. */
  lemma SameCount(start: Instant, now: Instant, p: int)
    requires Comparable(start, now) && p > 0 && start.Atto() <= now.Atto()
    ensures var d, e, a := now.Atto() - start.Atto(), Elapsed(start, now), start.asec - now.asec;
            var k := Periods(d, p * NSEC);
            Periods(e, p) == k <==>
            if a <= 0 then (-a) % NSEC == 0 || e % p != 0 else d + 2 * a - a % NSEC <= k * (p * NSEC)
  {
    var d, e, a := now.Atto() - start.Atto(), Elapsed(start, now), start.asec - now.asec;
    ElapsedMeans(start, now);
    hide Periods, Elapsed, Comparable;
    if a > 0 {
      LateByTwice(e, d, p);
    } else if (-a) % NSEC == 0 {
      CeilingOfWhole(e, p);
    } else {
      CeilingOfPart(e, (-a) % NSEC, p);
      NextPeriods(e, p);
    }
  }

  lemma SameStart(j: int, k: int, p: int)
    requires p > 0
    ensures j * (p * NSEC) == k * (p * NSEC) <==> j == k
  {
    if j < k {
      MulMonotone(j + 1, k, p * NSEC);
      MulSuccessor(j, p * NSEC);
    } else if k < j {
      MulMonotone(k + 1, j, p * NSEC);
      MulSuccessor(k, p * NSEC);
    }
  }

  /** An elapsed time that is too large changes nothing exactly when it fits before the next start. */
  lemma LateByTwice(e: int, d: int, p: int)
    requires 0 <= d <= e * NSEC && p > 0
    ensures Periods(e, p) == Periods(d, p * NSEC) <==> e * NSEC <= Periods(d, p * NSEC) * (p * NSEC)
  {
    var j, k := Periods(e, p), Periods(d, p * NSEC);
    PeriodsBounds(e, p);
    PeriodsBounds(d, p * NSEC);
    assert j * (p * NSEC) == j * p * NSEC && k * (p * NSEC) == k * p * NSEC;
    PeriodsIsLeast(d, p * NSEC, j);
    if e * NSEC <= k * (p * NSEC) {
      PeriodsIsLeast(e, p, k);
    }
  }

  /**
   A wake-up that comes late: 1.1 seconds into a timeline that started at 0.9, the tenth of a second is over at once.
   */
  lemma LateWakeup()
    ensures var start, now, p := Instant(0, 900000000 * NSEC), Instant(1, 100000000 * NSEC), 100000000;
            && Comparable(start, now) && !Earliest(start, now, p, WakeAt(start, now, p))
            && WakeAt(start, now, p) == now.Atto() + 16 * p * NSEC
  {
    var start, now, p := Instant(0, 900000000 * NSEC), Instant(1, 100000000 * NSEC), 100000000;
    assert Grid(start, p, 2) == now.Atto();
  }
}
