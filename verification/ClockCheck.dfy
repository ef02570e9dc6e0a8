/** The sanity check of the synchronized clock against the monotonic clock (clockcheck.c). */
module ClockCheck {
  import opened Products

  const CHECK_MIN_INTERVAL := 100000000
  const CHECK_MAX_FREQ := 900000000
  const BILLION := 1000000000.0

  datatype Check = Check(
    freqLimit: int, freqKnown: bool, currentFreq: int, maxFreq: int, minFreq: int, lastTs: int, lastMonoTs: int)

  /** The factor that a frequency offset in parts per billion stands for. */
  function Rate(ppb: int): (r: real)
    ensures 1000000000.0 * r == 1000000000.0 + ppb as real
  {
    1.0 + ppb as real / BILLION
  }

  /** The frequency offset of a clock that does not stand still, for which the source would divide by zero. */
  predicate Moving(ppb: int) {
    ppb != -1000000000
  }

  /** The frequency offset of a clock that runs forward. */
  predicate Running(ppb: int) {
    ppb > -1000000000
  }

  /** The time stamps are far enough apart for the sample to be used. */
  predicate Accepts(c: Check, ts: int, mono: int) {
    c.freqKnown && !(0 <= ts - c.lastTs < CHECK_MIN_INTERVAL) && mono - c.lastMonoTs >= CHECK_MIN_INTERVAL
  }

  /** The clock advanced by more, or by less, than the limit and the frequencies since the last sample allow. */
  ghost predicate TooFar(c: Check, interval: int, mono: int) {
    || Above(interval as real, Rate(c.maxFreq), Mul(Rate(c.freqLimit), mono as real))
    || Below(interval as real, Rate(c.minFreq), Mul(Rate(-c.freqLimit), mono as real))
  }

  /** An interval beyond what a rate makes of x, on the side away from zero for a clock that runs forward. */
  ghost predicate Above(interval: real, rate: real, x: real) {
    if rate > 0.0 then interval > Mul(rate, x) else interval < Mul(rate, x)
  }

  ghost predicate Below(interval: real, rate: real, x: real) {
    if rate > 0.0 then interval < Mul(rate, x) else interval > Mul(rate, x)
  }

  ghost predicate Alarms(c: Check, ts: int, mono: int) {
    && Accepts(c, ts, mono) && c.lastTs != 0 && c.maxFreq <= CHECK_MAX_FREQ
    && TooFar(c, ts - c.lastTs, mono - c.lastMonoTs)
  }

  function Sampled(c: Check, ts: int, mono: int): Check {
    if Accepts(c, ts, mono)
    then c.(lastTs := ts, lastMonoTs := mono, maxFreq := c.currentFreq, minFreq := c.currentFreq)
    else c
  }

  function FreqSet(c: Check, freq: int): Check {
    c.(maxFreq := if c.maxFreq < freq then freq else c.maxFreq,
       minFreq := if c.minFreq > freq then freq else c.minFreq,
       currentFreq := freq, freqKnown := true)
  }

  function Stepped(c: Check, step: int): Check {
    if c.lastTs != 0 then c.(lastTs := c.lastTs + step) else c
  }

  /** A frequency offset computed with two divisions, compared with a limit. */
  lemma OffsetBeyond(interval: real, rate: real, mono: real, limit: int, q: real, f: real)
    requires rate != 0.0 && mono > 0.0 && Mul(q, rate) == interval && Mul(f, mono) == q
    ensures BILLION * (f - 1.0) > limit as real <==> Above(interval, rate, Mul(Rate(limit), mono))
    ensures BILLION * (f - 1.0) < limit as real <==> Below(interval, rate, Mul(Rate(limit), mono))
  {
    var r := Rate(limit);
    var x := Mul(r, mono);
    if f > r {
      MulStrict(mono, r, f);
      SideOf(rate, x, q);
    } else if f < r {
      MulStrict(mono, f, r);
      SideOf(rate, q, x);
    } else {
      assert Mul(q, rate) == Mul(rate, x);
    }
  }

  lemma SideOf(rate: real, x: real, y: real)
    requires rate != 0.0 && x < y
    ensures if rate > 0.0 then Mul(x, rate) < Mul(y, rate) else Mul(x, rate) > Mul(y, rate)
    ensures Mul(x, rate) == Mul(rate, x) && Mul(y, rate) == Mul(rate, y)
  {
    MulComm(x, rate);
    MulComm(y, rate);
    if rate > 0.0 {
      MulStrict(rate, x, y);
    } else {
      MulStrict(-rate, x, y);
      assert Mul(x, -rate) == -Mul(x, rate) && Mul(y, -rate) == -Mul(y, rate);
    }
  }

  class Checker {
    const freqLimit: int
    var freqKnown: bool
    var currentFreq: int
    var maxFreq: int
    var minFreq: int
    var lastTs: int
    var lastMonoTs: int

    ghost function Now(): Check
      reads this
    {
      Check(freqLimit, freqKnown, currentFreq, maxFreq, minFreq, lastTs, lastMonoTs)
    }

    constructor (freqLimit: int)
      ensures Now() == Check(freqLimit, false, 0, -CHECK_MAX_FREQ, CHECK_MAX_FREQ, 0, 0)
    {
      this.freqLimit := freqLimit;
      freqKnown, currentFreq, maxFreq, minFreq, lastTs, lastMonoTs := false, 0, -CHECK_MAX_FREQ, CHECK_MAX_FREQ, 0, 0;
    }

    /** monoTs is the monotonic clock at the time of the call. */
    method Sample(ts: int, monoTs: int) returns (alarm: bool)
      modifies this
      ensures Now() == Sampled(old(Now()), ts, monoTs)
      ensures Moving(old(minFreq)) && Moving(old(maxFreq)) ==> alarm == Alarms(old(Now()), ts, monoTs)
    {
      alarm := false;
      if !freqKnown {
        return;
      }
      var interval := ts - lastTs;
      if 0 <= interval < CHECK_MIN_INTERVAL {
        return;
      }
      var monoInterval := monoTs - lastMonoTs;
      if monoInterval < CHECK_MIN_INTERVAL {
        return;
      }
      if lastTs != 0 && maxFreq <= CHECK_MAX_FREQ {
        alarm := IsTooFar(interval, monoInterval);
      }
      lastMonoTs := monoTs;
      lastTs := ts;
      maxFreq, minFreq := currentFreq, currentFreq;
    }

    method IsTooFar(interval: int, mono: int) returns (far: bool)
      requires mono > 0
      ensures Moving(minFreq) && Moving(maxFreq) ==> far == TooFar(Now(), interval, mono)
    {
      hide Mul, Quotient;
      var slow := Divide(interval as real, 1.0 + minFreq as real / BILLION);
      var maxOffset := Divide(slow, mono as real);
      var fast := Divide(interval as real, 1.0 + maxFreq as real / BILLION);
      var minOffset := Divide(fast, mono as real);
      far := BILLION * (minOffset - 1.0) > freqLimit as real || BILLION * (maxOffset - 1.0) < -(freqLimit as real);
      if Moving(minFreq) && Moving(maxFreq) {
        OffsetBeyond(interval as real, Rate(maxFreq), mono as real, freqLimit, fast, minOffset);
        OffsetBeyond(interval as real, Rate(minFreq), mono as real, -freqLimit, slow, maxOffset);
      }
    }

    method SetFreq(freq: int)
      modifies this
      ensures Now() == FreqSet(old(Now()), freq)
    {
      if maxFreq < freq {
        maxFreq := freq;
      }
      if minFreq > freq {
        minFreq := freq;
      }
      currentFreq := freq;
      freqKnown := true;
    }

    method Step(step: int)
      modifies this
      ensures Now() == Stepped(old(Now()), step)
    {
      if lastTs != 0 {
        lastTs := lastTs + step;
      }
    }
  }

  // ----- no false alarms

  /** The check together with the clocks it watches. */
  datatype World = World(check: Check, clock: real, mono: real)

  datatype Event =
    | Pass(mono: real, clock: real) // time passes on both clocks
    | Adjust(freq: int) // the correction of the clock changes, and is reported
    | StepClock(step: int) // the clock is stepped, and the step is reported
    | Slip(jump: real) // the clock jumps, and nobody reports it
    | Read(ts: int, monoTs: int) // both clocks are read and compared

  /**
   The rates, relative to the monotonic clock, of a clock without correction that keeps the limit and does not run
   backwards.
   */
  function Slowest(limit: int): (r: real)
    ensures r >= 0.0 && r >= Rate(-limit)
  {
    if limit as real > BILLION then 0.0 else Rate(-limit)
  }

  ghost predicate Happens(w: World, e: Event) {
    match e
    case Pass(mono, clock) =>
      && mono >= 0.0
      && (w.check.freqKnown ==>
            var rate := Rate(w.check.currentFreq);
            Mul(Mul(rate, Slowest(w.check.freqLimit)), mono) <= clock <= Mul(Mul(rate, Rate(w.check.freqLimit)), mono))
    case Adjust(freq) => -CHECK_MAX_FREQ <= freq <= CHECK_MAX_FREQ
    case StepClock(_) => true
    case Slip(_) => true
    case Read(ts, monoTs) => ts as real == w.clock && monoTs as real == w.mono
  }

  function Next(w: World, e: Event): World {
    match e
    case Pass(mono, clock) => w.(clock := w.clock + clock, mono := w.mono + mono)
    case Adjust(freq) => w.(check := FreqSet(w.check, freq))
    case StepClock(step) => World(Stepped(w.check, step), w.clock + step as real, w.mono)
    case Slip(jump) => w.(clock := w.clock + jump)
    case Read(ts, monoTs) => w.(check := Sampled(w.check, ts, monoTs))
  }

  function After(w: World, es: seq<Event>): World {
    if es == [] then w else Next(After(w, es[..|es| - 1]), es[|es| - 1])
  }

  ghost predicate IsRun(w: World, es: seq<Event>) {
    forall i :: 0 <= i < |es| ==> Happens(After(w, es[..i]), es[i])
  }

  /** The time since the last sample is within what the enclosed frequencies allow. */
  ghost predicate Explained(c: Check, clock: real, mono: real) {
    Mul(Mul(Rate(c.minFreq), Slowest(c.freqLimit)), mono) <= clock <= Mul(Mul(Rate(c.maxFreq), Rate(c.freqLimit)), mono)
  }

  /** The frequencies are within their limits, or there was none. */
  ghost predicate Tuned(c: Check) {
    if c.freqKnown then -CHECK_MAX_FREQ <= c.minFreq <= c.currentFreq <= c.maxFreq <= CHECK_MAX_FREQ
    else c.lastTs == 0 && c.minFreq == CHECK_MAX_FREQ && c.maxFreq == -CHECK_MAX_FREQ
  }

  ghost predicate Sound(w: World) {
    var c := w.check;
    && c.freqLimit >= 0 && w.mono >= c.lastMonoTs as real && Tuned(c)
    && (c.freqKnown && c.lastTs != 0 ==> Explained(c, w.clock - c.lastTs as real, w.mono - c.lastMonoTs as real))
  }

  lemma RateMonotone(f: int, g: int, r: real, t: real)
    requires f <= g && r >= 0.0 && t >= 0.0
    ensures Mul(Mul(Rate(f), r), t) <= Mul(Mul(Rate(g), r), t)
  {
    Products.MulMonotone(r, Rate(f), Rate(g));
    MulComm(r, Rate(f));
    MulComm(r, Rate(g));
    Products.MulMonotone(t, Mul(Rate(f), r), Mul(Rate(g), r));
    MulComm(t, Mul(Rate(f), r));
    MulComm(t, Mul(Rate(g), r));
  }

  /** Time passes at a frequency within the enclosure. */
  lemma ExplainedPass(c: Check, clock: real, mono: real, dc: real, dm: real)
    requires c.freqLimit >= 0 && c.minFreq <= c.currentFreq <= c.maxFreq && mono >= 0.0 && dm >= 0.0
    requires Explained(c, clock, mono)
    requires Explained(c.(minFreq := c.currentFreq, maxFreq := c.currentFreq), dc, dm)
    ensures Explained(c, clock + dc, mono + dm)
  {
    hide Mul;
    var lo, hi := Slowest(c.freqLimit), Rate(c.freqLimit);
    RateMonotone(c.minFreq, c.currentFreq, lo, dm);
    RateMonotone(c.currentFreq, c.maxFreq, hi, dm);
    MulAdd(Mul(Rate(c.minFreq), lo), mono, dm, mono + dm);
    MulAdd(Mul(Rate(c.maxFreq), hi), mono, dm, mono + dm);
  }

  /** The enclosure of the frequencies can only grow between samples. */
  lemma ExplainedWider(c: Check, d: Check, clock: real, mono: real)
    requires c.freqLimit == d.freqLimit >= 0 && d.minFreq <= c.minFreq && c.maxFreq <= d.maxFreq && mono >= 0.0
    requires Explained(c, clock, mono)
    ensures Explained(d, clock, mono)
  {
    hide Mul;
    RateMonotone(d.minFreq, c.minFreq, Slowest(c.freqLimit), mono);
    RateMonotone(c.maxFreq, d.maxFreq, Rate(c.freqLimit), mono);
  }

  /** What is explained raises no alarm. */
  lemma ExplainedIsNotTooFar(c: Check, interval: int, mono: int)
    requires c.freqLimit >= 0 && Running(c.minFreq) && Running(c.maxFreq) && mono >= 0
    requires Explained(c, interval as real, mono as real)
    ensures !TooFar(c, interval, mono)
  {
    hide Mul;
    var m, r := mono as real, Rate(c.minFreq);
    MulAssoc(Rate(c.maxFreq), Rate(c.freqLimit), m);
    MulAssoc(r, Slowest(c.freqLimit), m);
    ProductMonotone(Rate(-c.freqLimit), Slowest(c.freqLimit), m);
    Products.MulMonotone(r, Mul(Rate(-c.freqLimit), m), Mul(Slowest(c.freqLimit), m));
  }

  lemma StepSound(w: World, e: Event)
    requires Sound(w) && Happens(w, e) && !e.Slip?
    ensures Sound(Next(w, e)) && (e.Read? ==> !Alarms(w.check, e.ts, e.monoTs))
  {
    hide Mul, TooFar;
    var c := w.check;
    match e
    case Pass(mono, clock) =>
      if c.freqKnown && c.lastTs != 0 {
        PassExplains(c, clock, mono);
        ExplainedPass(c, w.clock - c.lastTs as real, w.mono - c.lastMonoTs as real, clock, mono);
        assert w.clock - c.lastTs as real + clock == w.clock + clock - c.lastTs as real;
        assert w.mono - c.lastMonoTs as real + mono == w.mono + mono - c.lastMonoTs as real;
      }
    case Adjust(freq) =>
      if c.freqKnown && c.lastTs != 0 {
        ExplainedWider(c, FreqSet(c, freq), w.clock - c.lastTs as real, w.mono - c.lastMonoTs as real);
      }
    case StepClock(step) =>
      assert w.clock + step as real - (c.lastTs + step) as real == w.clock - c.lastTs as real;
    case Read(ts, monoTs) =>
      assert w.clock - c.lastTs as real == (ts - c.lastTs) as real;
      assert w.mono - c.lastMonoTs as real == (monoTs - c.lastMonoTs) as real;
      if c.freqKnown && c.lastTs != 0 {
        ExplainedIsNotTooFar(c, ts - c.lastTs, monoTs - c.lastMonoTs);
      }
      NothingExplained(Sampled(c, ts, monoTs));
  }

  lemma PassExplains(c: Check, clock: real, mono: real)
    requires c.freqKnown && Happens(World(c, 0.0, 0.0), Pass(mono, clock))
    ensures Explained(c.(minFreq := c.currentFreq, maxFreq := c.currentFreq), clock, mono)
  {
  }

  lemma NothingExplained(c: Check)
    ensures Explained(c, 0.0, 0.0)
  {
  }

  ghost predicate Initial(w: World) {
    && w.check == Check(w.check.freqLimit, false, 0, -CHECK_MAX_FREQ, CHECK_MAX_FREQ, 0, 0)
    && w.check.freqLimit >= 0 && w.mono >= 0.0
  }

  /** Every step of the clock is reported. */
  ghost predicate Reported(es: seq<Event>) {
    forall i :: 0 <= i < |es| ==> !es[i].Slip?
  }

  /**
   No false alarm: over every run of a clock that keeps its limit, with corrections within
   CHECK_MAX_FREQ and every correction and step reported, no sample raises the alarm.
   */
  lemma {:induction false} NoFalseAlarm(w: World, es: seq<Event>)
    requires Initial(w) && IsRun(w, es) && Reported(es)
    ensures Sound(After(w, es))
    ensures forall i :: 0 <= i < |es| && es[i].Read? ==> !Alarms(After(w, es[..i]).check, es[i].ts, es[i].monoTs)
  {
    hide Mul, Alarms, Happens, Next;
    if es != [] {
      var n := |es| - 1;
      var init := es[..n];
      assert forall i :: 0 <= i <= n ==> init[..i] == es[..i];
      assert forall i :: 0 <= i < n ==> init[i] == es[i];
      NoFalseAlarm(w, init);
      StepSound(After(w, init), es[n]);
    }
  }

  // ----- the enclosure is exact

  /** The corrections applied since the last accepted sample, beginning with the one in force then. */
  ghost function Applied(w: World, es: seq<Event>): seq<int> {
    if es == [] then []
    else
      var init, e := es[..|es| - 1], es[|es| - 1];
      var c := After(w, init).check;
      match e
      case Adjust(freq) => Applied(w, init) + [freq]
      case Read(ts, monoTs) => if Accepts(c, ts, monoTs) then [c.currentFreq] else Applied(w, init)
      case _ => Applied(w, init)
  }

  ghost predicate Encloses(c: Check, fs: seq<int>) {
    && (c.freqKnown <==> fs != [])
    && (forall f :: f in fs ==> c.minFreq <= f <= c.maxFreq)
    && (c.freqKnown ==> c.minFreq in fs && c.maxFreq in fs && fs[|fs| - 1] == c.currentFreq)
  }

  lemma EnclosesAdjusted(c: Check, fs: seq<int>, freq: int)
    requires Encloses(c, fs) && -CHECK_MAX_FREQ <= freq <= CHECK_MAX_FREQ
    requires !c.freqKnown ==> c.minFreq == CHECK_MAX_FREQ && c.maxFreq == -CHECK_MAX_FREQ
    ensures Encloses(FreqSet(c, freq), fs + [freq])
  {
    assert freq in fs + [freq] && forall f :: f in fs ==> f in fs + [freq];
  }

  lemma EnclosesSample(c: Check, fs: seq<int>, ts: int, mono: int)
    requires Encloses(c, fs)
    ensures Encloses(Sampled(c, ts, mono), if Accepts(c, ts, mono) then [c.currentFreq] else fs)
  {
    assert c.currentFreq in [c.currentFreq];
  }

  lemma {:induction false} StaysTuned(w: World, es: seq<Event>)
    requires Initial(w) && IsRun(w, es)
    ensures Tuned(After(w, es).check)
  {
    if es != [] {
      var n := |es| - 1;
      var init := es[..n];
      assert forall i :: 0 <= i <= n ==> init[..i] == es[..i];
      assert forall i :: 0 <= i < n ==> init[i] == es[i];
      StaysTuned(w, init);
      assert Happens(After(w, init), es[n]);
      TunedStep(After(w, init), es[n]);
    }
  }

  lemma TunedStep(w: World, e: Event)
    requires Tuned(w.check) && Happens(w, e)
    ensures Tuned(Next(w, e).check)
  {
  }

  /** The least and the greatest frequency are exactly those of the corrections since the last accepted sample. */
  lemma {:induction false} EnclosureIsExact(w: World, es: seq<Event>)
    requires Initial(w) && IsRun(w, es)
    ensures Encloses(After(w, es).check, Applied(w, es))
  {
    hide Mul, Encloses;
    if es == [] {
      EnclosesNothing(w.check);
    } else {
      var n := |es| - 1;
      var init := es[..n];
      assert forall i :: 0 <= i <= n ==> init[..i] == es[..i];
      assert forall i :: 0 <= i < n ==> init[i] == es[i];
      EnclosureIsExact(w, init);
      StaysTuned(w, init);
      var c, fs := After(w, init).check, Applied(w, init);
      assert Happens(After(w, es[..n]), es[n]);
      match es[n]
      case Adjust(freq) => EnclosesAdjusted(c, fs, freq);
      case Read(ts, mono) => EnclosesSample(c, fs, ts, mono);
      case StepClock(step) => EnclosesStep(c, fs, step);
      case _ =>
    }
  }

  lemma EnclosesNothing(c: Check)
    requires !c.freqKnown
    ensures Encloses(c, [])
  {
  }

  lemma EnclosesStep(c: Check, fs: seq<int>, step: int)
    requires Encloses(c, fs)
    ensures Encloses(Stepped(c, step), fs)
  {
  }

  // ----- every alarm is justified

  /**
   A rate without correction and a correction, both within their limits, that make up the interval; a clock that runs
   backwards has the least correction.
   */
  ghost predicate Explanation(c: Check, interval: int, mono: int, rate: real, correction: real) {
    && (rate >= 0.0 || correction == Rate(c.minFreq))
    && Rate(-c.freqLimit) <= rate <= Rate(c.freqLimit) && Rate(c.minFreq) <= correction <= Rate(c.maxFreq)
    && Mul(correction, Mul(rate, mono as real)) == interval as real
  }

  /**
   An interval is too far off if and only if no rate within the limit and no correction that was enclosed can explain
   it.
   */
  lemma TooFarIsUnexplained(c: Check, interval: int, mono: int)
    requires 0 <= c.freqLimit && Running(c.minFreq) && c.minFreq <= c.maxFreq && mono > 0
    ensures TooFar(c, interval, mono) <==> !exists r, f :: Explanation(c, interval, mono, r, f)
  {
    var m := mono as real;
    var lo, hi := Rate(-c.freqLimit), Rate(c.freqLimit);
    forall r, f | Explanation(c, interval, mono, r, f)
      ensures !TooFar(c, interval, mono)
    {
      Between(lo, r, hi, Rate(c.minFreq), f, Rate(c.maxFreq), m);
    }
    if !TooFar(c, interval, mono) {
      var r, f := Explain(c, interval, mono);
    }
  }

  lemma Between(lo: real, r: real, hi: real, a: real, f: real, b: real, m: real)
    requires lo <= r <= hi && 0.0 <= hi && 0.0 <= a <= f <= b && m >= 0.0 && (r >= 0.0 || f == a)
    ensures Mul(a, Mul(lo, m)) <= Mul(f, Mul(r, m)) <= Mul(b, Mul(hi, m))
  {
    ProductMonotone(lo, r, m);
    ProductMonotone(r, hi, m);
    Products.MulMonotone(a, Mul(lo, m), Mul(r, m));
    Products.MulMonotone(f, Mul(r, m), Mul(hi, m));
    assert Mul(hi, m) >= 0.0;
    ProductMonotone(f, b, Mul(hi, m));
    if r >= 0.0 {
      assert Mul(r, m) >= 0.0;
      ProductMonotone(a, f, Mul(r, m));
    }
  }

  lemma ProductMonotone(x: real, y: real, m: real)
    requires x <= y && m >= 0.0
    ensures Mul(x, m) <= Mul(y, m)
  {
    Products.MulMonotone(m, x, y);
    MulComm(m, x);
    MulComm(m, y);
  }

  lemma Explain(c: Check, interval: int, mono: int) returns (r: real, f: real)
    requires 0 <= c.freqLimit && Running(c.minFreq) && c.minFreq <= c.maxFreq && mono > 0
    requires !TooFar(c, interval, mono)
    ensures Explanation(c, interval, mono, r, f)
  {
    hide Mul, Quotient;
    var m, i := mono as real, interval as real;
    var lo, hi := Rate(-c.freqLimit), Rate(c.freqLimit);
    var a, b := Rate(c.minFreq), Rate(c.maxFreq);
    if i <= Mul(a, Mul(hi, m)) {
      f := a;
      r := SolveRate(i, a, m, lo, hi);
    } else {
      r := hi;
      f := SolveCorrection(i, hi, m, a, b);
    }
  }

  lemma SolveRate(i: real, a: real, m: real, lo: real, hi: real) returns (r: real)
    requires a > 0.0 && m > 0.0 && Mul(a, Mul(lo, m)) <= i <= Mul(a, Mul(hi, m))
    ensures lo <= r <= hi && Mul(a, Mul(r, m)) == i
  {
    var d := a * m;
    assert d > 0.0;
    assert Mul(lo, d) == Mul(a, Mul(lo, m)) && Mul(hi, d) == Mul(a, Mul(hi, m));
    QuotientBetween(i, d, lo, hi);
    r := i / d;
    assert r * d == i;
    assert Mul(a, Mul(r, m)) == r * d;
  }

  lemma SolveCorrection(i: real, hi: real, m: real, a: real, b: real) returns (f: real)
    requires hi > 0.0 && m > 0.0 && Mul(a, Mul(hi, m)) <= i <= Mul(b, Mul(hi, m))
    ensures a <= f <= b && Mul(f, Mul(hi, m)) == i
  {
    var d := Mul(hi, m);
    assert d > 0.0;
    QuotientBetween(i, d, a, b);
    f := i / d;
    assert f * d == i;
  }

  /**
   When the alarm is raised: a frequency is known and within its limit, there was a sample before, at least a tenth of a
   second ago by the monotonic clock, the clock has gone back or advanced by at least as much, and nothing explains it.
   */
  lemma AlarmIsExact(c: Check, ts: int, mono: int)
    requires 0 <= c.freqLimit && Running(c.minFreq) && c.minFreq <= c.maxFreq
    ensures var interval, passed := ts - c.lastTs, mono - c.lastMonoTs;
            Alarms(c, ts, mono) <==>
            && c.freqKnown && c.lastTs != 0 && c.maxFreq <= 900000000
            && passed >= 100000000 && (interval < 0 || interval >= 100000000)
            && !exists r, f :: Explanation(c, interval, passed, r, f)
  {
    hide TooFar, Explanation;
    if mono - c.lastMonoTs > 0 {
      TooFarIsUnexplained(c, ts - c.lastTs, mono - c.lastMonoTs);
    }
  }

  // ----- a jump is caught

  ghost function Slipped(es: seq<Event>): real {
    if es == [] then 0.0
    else Slipped(es[..|es| - 1]) + var e := es[|es| - 1]; if e.Slip? then e.jump else 0.0
  }

  ghost function Stepping(es: seq<Event>): int {
    if es == [] then 0
    else Stepping(es[..|es| - 1]) + var e := es[|es| - 1]; if e.StepClock? then e.step else 0
  }

  /** The corrections in force during some events, beginning with the one at their start. */
  ghost function InForce(freq: int, es: seq<Event>): seq<int> {
    if es == [] then [freq]
    else InForce(freq, es[..|es| - 1]) + var e := es[|es| - 1]; if e.Adjust? then [e.freq] else []
  }

  /** The clock as it would be without the jumps. */
  ghost function Without(w: World, jumps: real): World {
    w.(clock := w.clock - jumps)
  }

  /** No read. */
  ghost predicate Unread(es: seq<Event>) {
    forall i :: 0 <= i < |es| ==> !es[i].Read?
  }

  /** The reported steps never happen to take the last time stamp to zero, which stands for none. */
  ghost predicate NeverZero(ts: int, es: seq<Event>) {
    forall i :: 0 <= i <= |es| ==> ts + Stepping(es[..i]) != 0
  }

  /** What is known of the check after some events without a read: the last sample has moved with the reported steps. */
  ghost predicate Awaits(w: World, jumps: real, ts: int, mono: int, fs: seq<int>) {
    var c := w.check;
    Sound(Without(w, jumps)) && c.freqKnown && c.lastTs == ts && c.lastMonoTs == mono && Encloses(c, fs)
  }

  lemma AwaitsStep(w: World, e: Event, jumps: real, ts: int, mono: int, fs: seq<int>)
    requires Awaits(w, jumps, ts, mono, fs) && ts != 0 && Happens(w, e) && !e.Read?
    ensures Awaits(Next(w, e), if e.Slip? then jumps + e.jump else jumps, if e.StepClock? then ts + e.step else ts,
                   mono, if e.Adjust? then fs + [e.freq] else fs)
  {
    hide Mul, Encloses, Explained;
    match e
    case Adjust(freq) =>
      EnclosesAdjusted(w.check, fs, freq);
      StepSound(Without(w, jumps), e);
    case StepClock(step) =>
      EnclosesStep(w.check, fs, step);
      StepSound(Without(w, jumps), e);
      assert Next(Without(w, jumps), e) == Without(Next(w, e), jumps);
    case Pass(dm, dc) =>
      StepSound(Without(w, jumps), e);
      assert Next(Without(w, jumps), e) == Without(Next(w, e), jumps);
    case Slip(jump) =>
      assert Without(Next(w, e), jumps + jump) == Without(w, jumps);
  }

  lemma ShorterRun(w: World, es: seq<Event>, ts: int)
    requires es != [] && IsRun(w, es) && Unread(es) && NeverZero(ts, es)
    ensures var init, e := es[..|es| - 1], es[|es| - 1];
            && IsRun(w, init) && Unread(init) && NeverZero(ts, init) && ts + Stepping(init) != 0
            && !e.Read? && Happens(After(w, init), e) && After(w, es) == Next(After(w, init), e)
  {
    hide Happens, Next;
    var n := |es| - 1;
    var init := es[..n];
    assert forall i :: 0 <= i <= n ==> init[..i] == es[..i];
    assert forall i :: 0 <= i < n ==> init[i] == es[i];
  }

  lemma LastCounted(freq: int, es: seq<Event>)
    requires es != []
    ensures var init, e := es[..|es| - 1], es[|es| - 1];
            && Slipped(es) == (if e.Slip? then Slipped(init) + e.jump else Slipped(init))
            && Stepping(es) == (if e.StepClock? then Stepping(init) + e.step else Stepping(init))
            && InForce(freq, es) == if e.Adjust? then InForce(freq, init) + [e.freq] else InForce(freq, init)
  {
    var init := es[..|es| - 1];
    assert InForce(freq, init) + [] == InForce(freq, init);
  }

  lemma {:induction false} AwaitsRun(w: World, es: seq<Event>, ts: int, mono: int)
    requires Awaits(w, 0.0, ts, mono, [w.check.currentFreq]) && IsRun(w, es) && Unread(es) && NeverZero(ts, es)
    ensures Awaits(After(w, es), Slipped(es), ts + Stepping(es), mono, InForce(w.check.currentFreq, es))
  {
    if es != [] {
      var init, e, f := es[..|es| - 1], es[|es| - 1], w.check.currentFreq;
      hide *;
      ShorterRun(w, es, ts);
      LastCounted(f, es);
      AwaitsRun(w, init, ts, mono);
      AwaitsStep(After(w, init), e, Slipped(init), ts + Stepping(init), mono, InForce(f, init));
    }
  }

  /** The jumps exceed what lies between the least and the greatest advance that the limits allow. */
  ghost predicate Beyond(jumps: real, limit: int, lo: int, hi: int, mono: real) {
    var width := Mul(Rate(hi), Mul(Rate(limit), mono)) - Mul(Rate(lo), Mul(Rate(-limit), mono));
    jumps > width || jumps < -width
  }

  /** A clock that keeps its limit but for jumps that are more than the limits allow is too far off. */
  lemma JumpIsTooFar(c: Check, interval: int, mono: int, jumps: real)
    requires c.freqLimit >= 0 && Running(c.minFreq) && c.minFreq <= c.maxFreq && mono >= 0
    requires Explained(c, interval as real - jumps, mono as real)
    requires Beyond(jumps, c.freqLimit, c.minFreq, c.maxFreq, mono as real)
    ensures TooFar(c, interval, mono)
  {
    hide Mul;
    var m, r := mono as real, Rate(c.minFreq);
    MulAssoc(Rate(c.maxFreq), Rate(c.freqLimit), m);
    MulAssoc(r, Slowest(c.freqLimit), m);
    ProductMonotone(Rate(-c.freqLimit), Slowest(c.freqLimit), m);
    Products.MulMonotone(r, Mul(Rate(-c.freqLimit), m), Mul(Slowest(c.freqLimit), m));
  }

  /**
   Between two reads, each at least a tenth of a second after the one before by either clock, or before it by the clock
   that is checked, unreported jumps that add up to more than the limit and the corrections allow raise the alarm.
   */
  lemma JumpIsCaught(
    w: World, es: seq<Event>, ts0: int, mono0: int, between: seq<Event>, ts: int, mono: int, lo: int, hi: int)
    requires Initial(w) && IsRun(w, es + [Read(ts0, mono0)]) && Reported(es)
    requires var c := After(w, es).check;
             c.freqKnown && mono0 - c.lastMonoTs >= 100000000 && !(0 <= ts0 - c.lastTs < 100000000)
    requires var v := After(w, es + [Read(ts0, mono0)]);
             && IsRun(v, between + [Read(ts, mono)]) && Unread(between) && NeverZero(ts0, between)
             && var fs := InForce(After(w, es).check.currentFreq, between);
                lo in fs && hi in fs && forall f :: f in fs ==> lo <= f <= hi
    requires var last := ts0 + Stepping(between);
             mono - mono0 >= 100000000 && !(0 <= ts - last < 100000000)
    requires Beyond(Slipped(between), w.check.freqLimit, lo, hi, (mono - mono0) as real)
    ensures Alarms(After(After(w, es + [Read(ts0, mono0)]), between).check, ts, mono)
  {
    hide Mul, Happens, Next, TooFar, Explained, Beyond, Sound, Awaits, Alarms, IsRun, Stepping, Slipped, InForce, After;
    SoundBefore(w, es, Read(ts0, mono0));
    var u, v := After(w, es), After(w, es + [Read(ts0, mono0)]);
    TakenAt(u, ts0, mono0);
    SameLimit(w, es + [Read(ts0, mono0)]);
    PrefixIsRun(v, between, Read(ts, mono));
    AwaitsRun(v, between, ts0, mono0);
    SameLimit(v, between);
    assert ts0 + Stepping(between) != 0 by {
      assert between[..|between|] == between;
    }
    var x := After(v, between);
    FinalRead(x, Slipped(between), ts0 + Stepping(between), mono0, InForce(u.check.currentFreq, between),
              ts, mono, lo, hi);
  }

  lemma {:induction false} SameLimit(w: World, es: seq<Event>)
    ensures After(w, es).check.freqLimit == w.check.freqLimit
  {
    if es != [] {
      SameLimit(w, es[..|es| - 1]);
    }
  }

  lemma PrefixIsRun(w: World, es: seq<Event>, e: Event)
    requires IsRun(w, es + [e])
    ensures IsRun(w, es) && Happens(After(w, es), e) && After(w, es + [e]) == Next(After(w, es), e)
  {
    var all := es + [e];
    assert all[..|es|] == es && all[|es|] == e;
    forall i | 0 <= i < |es|
      ensures Happens(After(w, es[..i]), es[i])
    {
      assert all[..i] == es[..i] && all[i] == es[i];
    }
  }

  lemma SoundBefore(w: World, es: seq<Event>, e: Event)
    requires Initial(w) && IsRun(w, es + [e]) && Reported(es)
    ensures Sound(After(w, es)) && Happens(After(w, es), e) && After(w, es + [e]) == Next(After(w, es), e)
  {
    PrefixIsRun(w, es, e);
    NoFalseAlarm(w, es);
  }

  /** A read that is late enough becomes the last sample. */
  lemma TakenAt(w: World, ts: int, mono: int)
    requires Sound(w) && w.check.freqKnown && Happens(w, Read(ts, mono))
    requires mono - w.check.lastMonoTs >= 100000000 && !(0 <= ts - w.check.lastTs < 100000000)
    ensures var v := Next(w, Read(ts, mono));
            v.check.currentFreq == w.check.currentFreq && Awaits(v, 0.0, ts, mono, [w.check.currentFreq])
  {
    hide Mul;
    var v := Next(w, Read(ts, mono));
    StepSound(w, Read(ts, mono));
    assert v.clock - 0.0 == v.clock;
    assert Without(v, 0.0) == v;
    assert w.check.currentFreq in [w.check.currentFreq];
  }

  lemma FinalRead(
    w: World, jumps: real, last: int, mono0: int, fs: seq<int>, ts: int, mono: int, lo: int, hi: int)
    requires Awaits(w, jumps, last, mono0, fs) && last != 0 && Happens(w, Read(ts, mono))
    requires lo in fs && hi in fs && forall f :: f in fs ==> lo <= f <= hi
    requires mono - mono0 >= 100000000 && !(0 <= ts - last < 100000000)
    requires Beyond(jumps, w.check.freqLimit, lo, hi, (mono - mono0) as real)
    ensures Alarms(w.check, ts, mono)
  {
    hide Mul, Explained, TooFar, Beyond;
    var c := w.check;
    assert c.minFreq == lo && c.maxFreq == hi;
    assert w.clock - jumps - last as real == (ts - last) as real - jumps;
    assert w.mono - mono0 as real == (mono - mono0) as real;
    JumpIsTooFar(c, ts - last, mono - mono0, jumps);
  }
}
