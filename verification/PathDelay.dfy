/**
 The two-way time transfer of clock.c: `clock_synchronize` computes the offset from the
 master out of the newest sync message, `clock_path_delay` measures and filters the path delay.
 */
module PathDelay {
  import opened Prelude
  import opened Window
  import MovingMedian
  import MovingAverage

  datatype FilterKind = Average | MovingMedianFilter

  /** The time stamps of the newest sync message and what was computed from the exchanges so far. */
  datatype Timing = Timing(
    t1: int, t2: int, c1: int, c2: int, pathDelay: int, masterOffset: int, window: seq<int>)

  /** Correction fields carry nanoseconds scaled by 2^16; the fraction is shifted out. */
  function CorrectionToTmv(c: int): (ns: int)
    ensures 65536 * ns <= c < 65536 * ns + 65536
  {
    c / 65536
  }

  function Filtered(kind: FilterKind, w: seq<int>): int
    requires |w| > 0
  {
    match kind
    case Average => Mean(w)
    case MovingMedianFilter => Median(w)
  }

  function Synchronized(t: Timing, ingress: int, origin: int, correction1: int, correction2: int): Timing {
    var c1, c2 := CorrectionToTmv(correction1), CorrectionToTmv(correction2);
    t.(t1 := origin, t2 := ingress, c1 := c1, c2 := c2,
       masterOffset := ingress - (origin + (t.pathDelay + (c1 + c2))))
  }

  /** No path delay has been measured as long as it is zero. */
  predicate Usable(t: Timing) {
    t.pathDelay != 0
  }

  /** The delay of one exchange, halved. */
  function RawDelay(t: Timing, req: int, rx: int, correction: int): int {
    TruncDiv(((t.t2 - req) + (rx - t.t1)) - (t.c1 + (t.c2 + CorrectionToTmv(correction))), 2)
  }

  function Delayed(t: Timing, kind: FilterKind, len: nat, req: int, rx: int, correction: int): Timing
    requires 0 < len && |t.window| <= len
  {
    if t.t1 == 0 then t
    else
      var w := Push(t.window, RawDelay(t, req, rx, correction), len);
      t.(window := w, pathDelay := Filtered(kind, w))
  }

  /** After the clock was stepped, the time stamps are void. */
  function Stepped(t: Timing): Timing {
    t.(t1 := 0, t2 := 0)
  }

  /** A new master: forget its predecessor's path. */
  function Restarted(t: Timing): Timing {
    t.(t1 := 0, t2 := 0, pathDelay := 0, window := [])
  }

  class Timekeeper {
    var t1: int
    var t2: int
    var c1: int
    var c2: int
    var pathDelay: int
    var masterOffset: int
    const median: MovingMedian.Filter?
    const average: MovingAverage.Filter?

    ghost function Footprint(): set<object> {
      {this}
      + (if median == null then {} else {median, median.order, median.samples})
      + (if average == null then {} else {average, average.val})
    }

    ghost predicate Valid()
      reads Footprint()
    {
      && ((median == null) != (average == null))
      && (median != null ==> median.Valid())
      && (average != null ==> average.Valid())
    }

    ghost function Kind(): FilterKind {
      if median == null then Average else MovingMedianFilter
    }

    ghost function Length(): nat {
      if median != null then median.len else if average != null then average.len else 0
    }

    ghost function State(): (t: Timing)
      requires Valid()
      reads Footprint()
      ensures 0 < Length() && |t.window| <= Length()
    {
      Timing(t1, t2, c1, c2, pathDelay, masterOffset, if median != null then median.window else average.window)
    }

    /** The zeroed structure, with the moving average that `filter_create` returned. */
    constructor WithAverage(filter: MovingAverage.Filter)
      requires filter.Valid() && filter.window == []
      ensures Valid() && average == filter && Kind() == Average
      ensures State() == Timing(0, 0, 0, 0, 0, 0, [])
    {
      t1, t2, c1, c2, pathDelay, masterOffset := 0, 0, 0, 0, 0, 0;
      median, average := null, filter;
    }

    /** The zeroed structure, with the moving median that `filter_create` returned. */
    constructor WithMedian(filter: MovingMedian.Filter)
      requires filter.Valid() && filter.window == []
      ensures Valid() && median == filter && Kind() == MovingMedianFilter
      ensures State() == Timing(0, 0, 0, 0, 0, 0, [])
    {
      t1, t2, c1, c2, pathDelay, masterOffset := 0, 0, 0, 0, 0, 0;
      median, average := filter, null;
    }

    /** The offset goes on to the servo only once there is a path delay. */
    method Synchronize(ingress: int, origin: int, correction1: int, correction2: int) returns (used: bool)
      requires Valid()
      modifies this
      ensures Valid() && State() == Synchronized(old(State()), ingress, origin, correction1, correction2)
      ensures used == Usable(State())
    {
      t1 := origin;
      t2 := ingress;
      c1 := CorrectionToTmv(correction1);
      c2 := CorrectionToTmv(correction2);
      masterOffset := ingress - (origin + (pathDelay + (c1 + c2)));
      used := pathDelay != 0;
    }

    method PathDelay(req: int, rx: int, correction: int)
      requires Valid()
      modifies Footprint()
      ensures Valid() && State() == Delayed(old(State()), Kind(), Length(), req, rx, correction)
    {
      hide Mean, Median, Push, TruncDiv;
      if t1 == 0 {
        return;
      }
      var c3 := CorrectionToTmv(correction);
      var pd := t2 - req;
      pd := pd + (rx - t1);
      pd := pd - (c1 + (c2 + c3));
      pd := TruncDiv(pd, 2);
      if median != null {
        pathDelay := median.Sample(pd);
      } else {
        pathDelay := average.Sample(pd);
      }
    }

    method Step()
      requires Valid()
      modifies this
      ensures Valid() && State() == Stepped(old(State()))
    {
      t1, t2 := 0, 0;
    }

    method Restart()
      requires Valid()
      modifies Footprint()
      ensures Valid() && State() == Restarted(old(State()))
    {
      if median != null {
        median.Reset();
      } else {
        average.Reset();
      }
      t1, t2, pathDelay := 0, 0, 0;
    }
  }

  // ----- what the computed offset is worth

  /**
   What happens to a clock, together with what is true of it: each sync message takes a
   time fwd to arrive while the clock is ahead of the master by theta, and each delay
   request takes a time ret to reach the master, besides the corrections.  These times
   are in the units of the correction fields, of which a nanosecond has 2^16.
   */
  datatype Step =
    | Sync(ingress: int, origin: int, correction1: int, correction2: int, theta: int, fwd: int)
    | DelayResponse(req: int, rx: int, correction: int, ret: int)
    | ClockStep(step: int) // the clock is stepped, in nanoseconds
    | NewMaster(theta: int) // another master, which the clock is ahead of by theta

  function Apply(t: Timing, kind: FilterKind, len: nat, s: Step): (r: Timing)
    requires 0 < len && |t.window| <= len
    ensures |r.window| <= len
  {
    match s
    case Sync(ingress, origin, correction1, correction2, _, _) =>
      Synchronized(t, ingress, origin, correction1, correction2)
    case DelayResponse(req, rx, correction, _) => Delayed(t, kind, len, req, rx, correction)
    case ClockStep(_) => Stepped(t)
    case NewMaster(_) => Restarted(t)
  }

  /** The offset after a step. */
  function Theta(theta: int, s: Step): int {
    match s
    case Sync(_, _, _, _, theta', _) => theta'
    case DelayResponse(_, _, _, _) => theta
    case ClockStep(step) => theta + 65536 * step
    case NewMaster(theta') => theta'
  }

  /** A time in units lies between limits in nanoseconds. */
  ghost predicate Lasts(units: int, dmin: int, dmax: int) {
    65536 * dmin <= units <= 65536 * dmax
  }

  /** How many nanoseconds a correction field may lose when its fraction is shifted out. */
  function Rounding(whole: bool): int {
    if whole then 0 else 1
  }

  /** The fraction of a nanosecond in a correction field. */
  function Fraction(correction: int): int {
    correction % 65536
  }

  /**
   The time stamps of a step differ by its one-way delay, which lies between the limits, by the offset of the clock, and
   by what the correction fields say; with no fraction in them if they are whole.
   */
  ghost predicate Physical(theta: int, s: Step, dmin: int, dmax: int, whole: bool) {
    match s
    case Sync(ingress, origin, correction1, correction2, theta', fwd) =>
      && Lasts(fwd, dmin, dmax) && 65536 * (ingress - origin) == theta' + fwd + correction1 + correction2
      && (whole ==> Fraction(correction1) == 0 == Fraction(correction2))
    case DelayResponse(req, rx, correction, ret) =>
      && Lasts(ret, dmin, dmax) && 65536 * (rx - req) == -theta + ret + correction
      && (whole ==> Fraction(correction) == 0)
    case _ => true
  }

  function Run(t: Timing, kind: FilterKind, len: nat, steps: seq<Step>): (r: Timing)
    requires 0 < len && |t.window| <= len
    ensures |r.window| <= len
  {
    if steps == [] then t
    else Apply(Run(t, kind, len, steps[..|steps| - 1]), kind, len, steps[|steps| - 1])
  }

  function LastTheta(theta: int, steps: seq<Step>): int {
    if steps == [] then theta else Theta(LastTheta(theta, steps[..|steps| - 1]), steps[|steps| - 1])
  }

  ghost predicate PhysicalRun(theta: int, steps: seq<Step>, dmin: int, dmax: int, whole: bool) {
    steps == [] || (PhysicalRun(theta, steps[..|steps| - 1], dmin, dmax, whole)
                    && Physical(LastTheta(theta, steps[..|steps| - 1]), steps[|steps| - 1], dmin, dmax, whole))
  }

  /**
   Whether the time stamps at hand are from a sync message of the run, and how many delays it has measured since the
   last restart.
   */
  datatype Record = Record(current: bool, measured: nat)

  function Noted(q: Record, t: Timing, s: Step): Record {
    match s
    case Sync(_, _, _, _, _, _) => q.(current := true)
    case DelayResponse(_, _, _, _) =>
      if t.t1 == 0 then q else if q.current then q.(measured := q.measured + 1) else q.(measured := 0)
    case ClockStep(_) => q.(current := true)
    case NewMaster(_) => Record(true, 0)
  }

  function Recorded(t: Timing, kind: FilterKind, len: nat, steps: seq<Step>): Record
    requires 0 < len && |t.window| <= len
  {
    if steps == [] then Record(t.t1 == 0, 0)
    else
      var before := steps[..|steps| - 1];
      Noted(Recorded(t, kind, len, before), Run(t, kind, len, before), steps[|steps| - 1])
  }

  /** The newest n samples of a window, or all of them. */
  function Newest(w: seq<int>, n: nat): seq<int> {
    if n <= |w| then w[|w| - n..] else w
  }

  /** The measured delays are the whole window of an average, or more than half of that of a median. */
  predicate Enough(kind: FilterKind, measured: nat, w: seq<int>) {
    |w| > 0 && (if kind.Average? then measured >= |w| else 2 * measured > |w|)
  }

  /** What every step keeps; dmax includes what may be lost by rounding a measured delay. */
  ghost predicate Sound(t: Timing, q: Record, kind: FilterKind, theta: int, dmin: int, dmax: int, whole: bool) {
    var r := Rounding(whole);
    && Within(Newest(t.window, q.measured), dmin, dmax + r)
    && (Enough(kind, q.measured, t.window) ==> dmin <= t.pathDelay <= dmax + r)
    && (q.current && t.t1 != 0 ==>
          65536 * dmin <= 65536 * (t.t2 - t.t1 - t.c1 - t.c2) - theta <= 65536 * dmax + 2 * 65535 * r)
  }

  lemma FilteredWithin(kind: FilterKind, w: seq<int>, n: nat, dmin: int, dmax: int)
    requires Enough(kind, n, w) && Within(Newest(w, n), dmin, dmax)
    ensures dmin <= Filtered(kind, w) <= dmax
  {
    if n >= |w| {
      assert Newest(w, n) == w;
      FilterBounds(w, dmin, dmax);
    } else {
      FewOutside(w, |w| - n, dmin, dmax);
      MedianIgnoresOutliers(w, dmin, dmax);
    }
  }

  lemma PushWithin(w: seq<int>, x: int, len: nat, n: nat, dmin: int, dmax: int)
    requires 0 < len && |w| <= len && Within(Newest(w, n), dmin, dmax) && dmin <= x <= dmax
    ensures Within(Newest(Push(w, x, len), n + 1), dmin, dmax)
  {
    var r, a := Newest(Push(w, x, len), n + 1), Newest(w, n);
    forall i | 0 <= i < |r|
      ensures dmin <= r[i] <= dmax
    {
      if i < |r| - 1 {
        assert r[i] == a[|a| - (|r| - 1 - i)];
      }
    }
  }

  /** What a sync message yields, and what its time stamps are worth to the exchange that follows. */
  lemma SyncOffset(t: Timing, s: Step, dmin: int, dmax: int, whole: bool)
    requires s.Sync? && Physical(0, s, dmin, dmax, whole)
    ensures var r := Synchronized(t, s.ingress, s.origin, s.correction1, s.correction2);
            && 65536 * r.masterOffset ==
               s.theta + s.fwd - 65536 * t.pathDelay + Fraction(s.correction1) + Fraction(s.correction2)
            && 65536 * dmin <= 65536 * (r.t2 - r.t1 - r.c1 - r.c2) - s.theta
            && 65536 * (r.t2 - r.t1 - r.c1 - r.c2) - s.theta <= 65536 * dmax + 2 * 65535 * Rounding(whole)
  {
  }

  lemma RawDelayWithin(t: Timing, theta: int, s: Step, dmin: int, dmax: int, whole: bool)
    requires s.DelayResponse? && Physical(theta, s, dmin, dmax, whole)
    requires 65536 * dmin <= 65536 * (t.t2 - t.t1 - t.c1 - t.c2) - theta <= 65536 * dmax + 2 * 65535 * Rounding(whole)
    ensures dmin <= RawDelay(t, s.req, s.rx, s.correction) <= dmax + Rounding(whole)
  {
    hide TruncDiv;
    var there, back := t.t2 - t.t1 - t.c1 - t.c2, s.rx - s.req - CorrectionToTmv(s.correction);
    assert 65536 * back == -theta + s.ret + Fraction(s.correction);
    TruncDivBetween(there + back, 2, dmin, dmax + Rounding(whole));
  }

  lemma DelaySound(
    t: Timing, q: Record, kind: FilterKind, len: nat, theta: int, s: Step, dmin: int, dmax: int, whole: bool)
    requires 0 < len && |t.window| <= len && s.DelayResponse? && t.t1 != 0
    requires Sound(t, q, kind, theta, dmin, dmax, whole) && Physical(theta, s, dmin, dmax, whole)
    ensures Sound(Delayed(t, kind, len, s.req, s.rx, s.correction), Noted(q, t, s), kind, theta, dmin, dmax, whole)
    ensures q.current ==> dmin <= RawDelay(t, s.req, s.rx, s.correction) <= dmax + Rounding(whole)
  {
    hide Push, Filtered, RawDelay, Physical, Newest, Within, Enough;
    var pd, r := RawDelay(t, s.req, s.rx, s.correction), Rounding(whole);
    hide Rounding;
    var w := Push(t.window, pd, len);
    if q.current {
      RawDelayWithin(t, theta, s, dmin, dmax, whole);
      PushWithin(t.window, pd, len, q.measured, dmin, dmax + r);
      if Enough(kind, q.measured + 1, w) {
        FilteredWithin(kind, w, q.measured + 1, dmin, dmax + r);
      }
    } else {
      NoneMeasured(kind, w, dmin, dmax + r);
    }
  }

  lemma NoneMeasured(kind: FilterKind, w: seq<int>, dmin: int, dmax: int)
    ensures Within(Newest(w, 0), dmin, dmax) && !Enough(kind, 0, w)
  {
  }

  lemma StepSound(
    t: Timing, q: Record, kind: FilterKind, len: nat, theta: int, s: Step, dmin: int, dmax: int, whole: bool)
    requires 0 < len && |t.window| <= len
    requires Sound(t, q, kind, theta, dmin, dmax, whole) && Physical(theta, s, dmin, dmax, whole)
    ensures Sound(Apply(t, kind, len, s), Noted(q, t, s), kind, Theta(theta, s), dmin, dmax, whole)
    ensures s.DelayResponse? && t.t1 != 0 && q.current ==>
              dmin <= RawDelay(t, s.req, s.rx, s.correction) <= dmax + Rounding(whole)
    ensures s.Sync? ==>
              65536 * Apply(t, kind, len, s).masterOffset ==
              s.theta + s.fwd - 65536 * t.pathDelay + Fraction(s.correction1) + Fraction(s.correction2)
  {
    if s.Sync? {
      SyncOffset(t, s, dmin, dmax, whole);
      hide Newest, Within, Enough, Rounding, Fraction, CorrectionToTmv, Physical;
    } else if s.DelayResponse? && t.t1 != 0 {
      hide Sound, Delayed, RawDelay, Rounding, Physical, Noted;
      DelaySound(t, q, kind, len, theta, s, dmin, dmax, whole);
    } else {
      hide Enough, Rounding, Physical;
      NoneMeasured(kind, [], dmin, dmax + Rounding(whole));
    }
  }

  /**
   The error bound: from any state whatever, a run whose delays lie between the limits computes a path delay between
   the limits, and an offset that is off by no more than their difference, once it has measured as many delays as its
   average holds, or more than half of those that its median holds, or since it was restarted.  Fractions in the
   correction fields can add a nanosecond to the delay, and take the offset another one down or two up.
   */
  lemma {:induction false} OffsetErrorBound(
    t0: Timing, kind: FilterKind, len: nat, theta: int, steps: seq<Step>, dmin: int, dmax: int, whole: bool)
    requires 0 < len && |t0.window| <= len && PhysicalRun(theta, steps, dmin, dmax, whole)
    ensures var t, q, r := Run(t0, kind, len, steps), Recorded(t0, kind, len, steps), Rounding(whole);
            && Sound(t, q, kind, LastTheta(theta, steps), dmin, dmax, whole)
            && (Enough(kind, q.measured, t.window) ==> dmin <= t.pathDelay <= dmax + r)
            && (steps != [] && steps[|steps| - 1].Sync? && Enough(kind, q.measured, t.window) ==>
                  var error := 65536 * t.masterOffset - LastTheta(theta, steps);
                  -65536 * (dmax - dmin + r) <= error <= 65536 * (dmax - dmin + 2 * r))
  {
    if steps != [] {
      var before := steps[..|steps| - 1];
      OffsetErrorBound(t0, kind, len, theta, before, dmin, dmax, whole);
      StepSound(Run(t0, kind, len, before), Recorded(t0, kind, len, before), kind, len,
                LastTheta(theta, before), steps[|steps| - 1], dmin, dmax, whole);
    }
  }

  /**
   A new master starts without a path delay: until one is measured the offset is off by the whole way from the master,
   and none of it is used.
   */
  lemma {:induction false} UnusedAfterRestart(
    t0: Timing, kind: FilterKind, len: nat, before: seq<Step>, master: Step, syncs: seq<Step>,
    dmin: int, dmax: int, whole: bool)
    requires 0 < len && |t0.window| <= len && master.NewMaster?
    requires forall i :: 0 <= i < |syncs| ==> syncs[i].Sync?
    requires forall i :: 0 <= i < |syncs| ==> Physical(0, syncs[i], dmin, dmax, whole)
    ensures var t := Run(t0, kind, len, before + [master] + syncs);
            && !Usable(t) && t.pathDelay == 0 && t.window == []
            && (syncs != [] ==>
                  var s := syncs[|syncs| - 1];
                  s.fwd <= 65536 * t.masterOffset - s.theta <= s.fwd + 2 * 65535 * Rounding(whole))
  {
    var all := before + [master] + syncs;
    if syncs == [] {
      assert all[..|all| - 1] == before;
    } else {
      var n := |syncs| - 1;
      assert all[..|all| - 1] == before + [master] + syncs[..n] && all[|all| - 1] == syncs[n];
      UnusedAfterRestart(t0, kind, len, before, master, syncs[..n], dmin, dmax, whole);
    }
  }

  ghost predicate Restarts(steps: seq<Step>) {
    exists i :: 0 <= i < |steps| && steps[i].NewMaster?
  }

  /** A restart, of the run or in it, is as good as a full window: everything in the window was measured since. */
  lemma {:induction false} RestartIsEnough(t0: Timing, kind: FilterKind, len: nat, steps: seq<Step>)
    requires 0 < len && |t0.window| <= len && (Restarts(steps) || (t0.window == [] && t0.t1 == 0))
    ensures var t, q := Run(t0, kind, len, steps), Recorded(t0, kind, len, steps);
            && q.measured >= |t.window| && (t.t1 != 0 ==> q.current)
            && (t.window != [] ==> Enough(kind, q.measured, t.window))
  {
    if steps != [] {
      var before := steps[..|steps| - 1];
      if !steps[|steps| - 1].NewMaster? {
        assert Restarts(steps) ==> Restarts(before) by {
          if Restarts(steps) {
            var i :| 0 <= i < |steps| && steps[i].NewMaster?;
            assert before[i].NewMaster?;
          }
        }
        RestartIsEnough(t0, kind, len, before);
      }
    }
  }

  /**
   A single exchange is off by half its asymmetry, up to rounding: with one sample in the filter
   the repeated sync message yields an offset that is exact when both directions take equally long.
   */
  lemma HalfTheAsymmetry(
    t: Timing, kind: FilterKind, sync: Step, resp: Step, dmin: int, dmax: int, whole: bool)
    requires t.window == [] && sync.Sync? && resp.DelayResponse? && sync.origin != 0
    requires Physical(0, sync, dmin, dmax, whole) && Physical(sync.theta, resp, dmin, dmax, whole)
    ensures var o := Apply(Apply(Apply(t, kind, 1, sync), kind, 1, resp), kind, 1, sync).masterOffset;
            && -65536 * (1 + Rounding(whole)) <= 2 * (65536 * o - sync.theta) - (sync.fwd - resp.ret)
            && 2 * (65536 * o - sync.theta) - (sync.fwd - resp.ret) <= 65536 * (1 + 2 * Rounding(whole))
            && (whole && sync.fwd == resp.ret && Fraction(sync.fwd) == 0 ==> 65536 * o == sync.theta)
  {
    var a := Apply(t, kind, 1, sync);
    var b := Apply(a, kind, 1, resp);
    var pd := RawDelay(a, resp.req, resp.rx, resp.correction);
    assert b.window == [pd];
    FilterBounds([pd], pd, pd);
    assert b.pathDelay == pd;
    SyncOffset(t, sync, dmin, dmax, whole);
    SyncOffset(b, sync, dmin, dmax, whole);
    HalvedSum(a, sync, resp);
    hide Filtered, Push, RawDelay, CorrectionToTmv;
  }

  /** Twice the raw delay is the sum of both ways, up to rounding. */
  lemma HalvedSum(a: Timing, sync: Step, resp: Step)
    requires sync.Sync? && resp.DelayResponse?
    requires a.t2 == sync.ingress && a.t1 == sync.origin
    requires a.c1 == CorrectionToTmv(sync.correction1) && a.c2 == CorrectionToTmv(sync.correction2)
    requires 65536 * (sync.ingress - sync.origin) == sync.theta + sync.fwd + sync.correction1 + sync.correction2
    requires 65536 * (resp.rx - resp.req) == -sync.theta + resp.ret + resp.correction
    ensures var sum := sync.fwd + resp.ret + Fraction(sync.correction1) + Fraction(sync.correction2)
                       + Fraction(resp.correction);
            var pd := RawDelay(a, resp.req, resp.rx, resp.correction);
            -65536 <= sum - 65536 * (2 * pd) <= 65536 && (sum % 131072 == 0 ==> sum == 65536 * (2 * pd))
  {
    var there, back := a.t2 - a.t1 - a.c1 - a.c2, resp.rx - resp.req - CorrectionToTmv(resp.correction);
    assert 65536 * there == sync.theta + sync.fwd + Fraction(sync.correction1) + Fraction(sync.correction2);
    assert 65536 * back == -sync.theta + resp.ret + Fraction(resp.correction);
  }
}
