/** The proportional integral servo (pi.c). */
module Pi {
  import opened Prelude
  import opened Products

  const BILLION := 1000000000.0
  const FREQ_EST_MARGIN := 0.001

  datatype Limits = Limits(maxFrequency: real, stepThreshold: real, firstStepThreshold: real)

  /** count is 0 without a sample, 1 with the first sample of an estimate, and 2 once the frequency is known. */
  datatype State = State(
    offset: int, local: int, drift: real, kp: real, ki: real, lastFreq: real, count: nat, firstUpdate: bool)

  function FreqEstInterval(ki: real): (i: real)
    requires ki >= 0.0
    ensures i <= 1000.0
  {
    if ki == 0.0 then 1000.0 else if 0.016 / ki > 1000.0 then 1000.0 else 0.016 / ki
  }

  /** Far enough apart, in nanoseconds of local time, to estimate a frequency. */
  predicate LongEnough(ki: real, diff: int)
    requires ki >= 0.0
  {
    diff > 0 && diff as real / BILLION * (1.0 + FREQ_EST_MARGIN) >= FreqEstInterval(ki)
  }

  /** The drift corrected by the change of the offset over a change of local time. */
  function Estimate(drift: real, offset: int, local: int): real
    requires local > 0
  {
    drift + Quotient(Mul(BILLION - drift, offset as real), local as real)
  }

  /** The offset is over a step threshold. */
  predicate IsFarOff(p: Limits, first: bool, offset: int) {
    MustStep(first, p.stepThreshold, p.firstStepThreshold, offset as real)
  }

  /** The invariant of the servo. */
  ghost predicate Bounded(p: Limits, s: State) {
    && s.kp >= 0.0 && s.ki >= 0.0 && s.count <= 2
    && -p.maxFrequency <= s.drift <= p.maxFrequency && -p.maxFrequency <= s.lastFreq <= p.maxFrequency
  }

  /** The state after a sample; its lastFreq is the frequency given out. */
  function Sampled(p: Limits, s: State, offset: int, local: int): (State, ServoState)
    requires p.maxFrequency >= 0.0 && s.ki >= 0.0
  {
    if s.count == 0 then (s.(offset := offset, local := local, count := 1), Unlocked)
    else if s.count == 1 then
      if s.local >= local then (s.(count := 0), Unlocked)
      else if !LongEnough(s.ki, local - s.local) then (s, Unlocked)
      else
        var f := Clamp(Estimate(s.drift, offset - s.offset, local - s.local), p.maxFrequency);
        (s.(drift := f, lastFreq := f, count := 2, firstUpdate := false),
         if IsFarOff(p, s.firstUpdate, offset) then Jump else Locked)
    else if IsFarOff(p, false, offset) then (s.(count := 0), Unlocked)
    else
      var f := Mul(s.kp, offset as real) + s.drift + Mul(s.ki, offset as real);
      if -p.maxFrequency <= f <= p.maxFrequency then
        (s.(drift := s.drift + Mul(s.ki, offset as real), lastFreq := f, firstUpdate := false), Locked)
      else
        (s.(lastFreq := Clamp(f, p.maxFrequency), firstUpdate := false), Locked)
  }

  /** Integration stops at the limits, and that alone keeps the drift within them. */
  lemma SampleKeepsBounds(p: Limits, s: State, offset: int, local: int)
    requires p.maxFrequency >= 0.0 && Bounded(p, s)
    ensures Bounded(p, Sampled(p, s, offset, local).0)
  {
    var o := offset as real;
    if o >= 0.0 {
      SignOfProduct(s.kp, o);
      SignOfProduct(s.ki, o);
    } else {
      SignOfProduct(s.kp, -o);
      SignOfProduct(s.ki, -o);
    }
  }

  lemma SignOfProduct(k: real, o: real)
    requires k >= 0.0 && o >= 0.0
    ensures Mul(k, o) >= 0.0 && Mul(k, -o) <= 0.0
  {
  }

  /**
   A frequency estimate is exact: a clock that took the uncorrected time u for the local interval at
   the old drift would have shown the interval of the master at the estimated one.
   */
  lemma EstimateIsExact(drift: real, offset: int, local: int, u: real)
    requires local > 0 && Mul(u, 1.0 - drift / BILLION) == local as real
    ensures Mul(u, 1.0 - Estimate(drift, offset, local) / BILLION) == (local - offset) as real
  {
    var o, l := offset as real, local as real;
    var q := Mul(BILLION - drift, o) / l;
    assert q * l == (BILLION - drift) * o;
    var r := 1.0 - drift / BILLION;
    assert u * (q / BILLION) == o by {
      assert q / BILLION * l == r * o;
      assert u * (q / BILLION * l) == u * (r * o) == (u * r) * o;
      CancelInterval(u * (q / BILLION), o, l);
    }
    assert u * (r - q / BILLION) == u * r - u * (q / BILLION);
  }

  lemma CancelInterval(x: real, y: real, d: real)
    requires d > 0.0 && x * d == y * d
    ensures x == y
  {
    Cancel(d, x, y);
    Cancel(d, y, x);
  }

  // ----- runs

  /** Samples, new gains for a new sync interval, and resets. */
  datatype Event = Sample(offset: int, local: int) | Gains(kp: real, ki: real) | Reset

  ghost predicate IsRun(es: seq<Event>) {
    forall i :: 0 <= i < |es| && es[i].Gains? ==> es[i].kp >= 0.0 && es[i].ki >= 0.0
  }

  function Step(p: Limits, s: State, e: Event): (State, seq<(ServoState, real)>)
    requires p.maxFrequency >= 0.0 && s.ki >= 0.0
  {
    match e
    case Sample(offset, local) => var (t, out) := Sampled(p, s, offset, local); (t, [(out, t.lastFreq)])
    case Gains(kp, ki) => (s.(kp := kp, ki := ki), [])
    case Reset => (s.(count := 0), [])
  }

  /** The state and everything given out after a run. */
  ghost function Run(p: Limits, s: State, es: seq<Event>): (r: (State, seq<(ServoState, real)>))
    requires p.maxFrequency >= 0.0 && s.ki >= 0.0 && IsRun(es)
    ensures r.0.ki >= 0.0
  {
    if es == [] then (s, [])
    else
      var (t, outs) := Run(p, s, es[..|es| - 1]);
      var (u, out) := Step(p, t, es[|es| - 1]);
      (u, outs + out)
  }

  /** Over every run the drift and every frequency given out stay within the limits of the clock. */
  lemma {:induction false} RunKeepsBounds(p: Limits, s: State, es: seq<Event>)
    requires p.maxFrequency >= 0.0 && Bounded(p, s) && IsRun(es)
    ensures var (t, outs) := Run(p, s, es);
            Bounded(p, t) && forall i :: 0 <= i < |outs| ==> -p.maxFrequency <= outs[i].1 <= p.maxFrequency
  {
    if es != [] {
      RunKeepsBounds(p, s, es[..|es| - 1]);
      var t := Run(p, s, es[..|es| - 1]).0;
      var e := es[|es| - 1];
      if e.Sample? {
        SampleKeepsBounds(p, t, e.offset, e.local);
      }
    }
  }

  /** What the count says about the last output. */
  ghost predicate CountTells(s: State, outs: seq<(ServoState, real)>) {
    && (s.count == 1 ==> outs != [] && outs[|outs| - 1].0 == Unlocked)
    && (s.count == 2 ==> outs != [] && outs[|outs| - 1].0 != Unlocked)
  }

  /** Every jump comes right after an output that left the clock alone, so no two jumps follow each other. */
  lemma {:induction false} JumpFollowsUnlocked(p: Limits, s: State, es: seq<Event>)
    requires p.maxFrequency >= 0.0 && s.ki >= 0.0 && s.count == 0 && IsRun(es)
    ensures var (t, outs) := Run(p, s, es);
            && t.count <= 2 && CountTells(t, outs)
            && forall i :: 0 <= i < |outs| && outs[i].0 == Jump ==> i > 0 && outs[i - 1].0 == Unlocked
  {
    if es != [] {
      JumpFollowsUnlocked(p, s, es[..|es| - 1]);
    }
  }

  ghost predicate EverLocked(outs: seq<(ServoState, real)>) {
    exists i :: 0 <= i < |outs| && outs[i].0 != Unlocked
  }

  /** Wherever the frequency starts, it is within the limits from the first estimate on. */
  lemma {:induction false} RunEntersBounds(p: Limits, s: State, es: seq<Event>)
    requires p.maxFrequency >= 0.0 && s.kp >= 0.0 && s.ki >= 0.0 && s.count == 0 && IsRun(es)
    ensures var (t, outs) := Run(p, s, es);
            && t.kp >= 0.0 && (EverLocked(outs) ==> Bounded(p, t))
            && forall i :: 0 <= i < |outs| && outs[i].0 != Unlocked ==> -p.maxFrequency <= outs[i].1 <= p.maxFrequency
  {
    if es != [] {
      var init, e := es[..|es| - 1], es[|es| - 1];
      RunEntersBounds(p, s, init);
      JumpFollowsUnlocked(p, s, init);
      var (t, outs) := Run(p, s, init);
      if t.count == 2 {
        assert EverLocked(outs) by {
          assert outs[|outs| - 1].0 != Unlocked;
        }
      }
      EnterStep(p, t, outs, e);
    }
  }

  lemma EnterStep(p: Limits, t: State, outs: seq<(ServoState, real)>, e: Event)
    requires p.maxFrequency >= 0.0 && t.kp >= 0.0 && t.ki >= 0.0 && t.count <= 2 && IsRun([e])
    requires EverLocked(outs) ==> Bounded(p, t)
    requires t.count == 2 ==> EverLocked(outs)
    ensures var (u, out) := Step(p, t, e);
            && u.kp >= 0.0 && (EverLocked(outs + out) ==> Bounded(p, u))
            && forall i :: 0 <= i < |out| && out[i].0 != Unlocked ==> -p.maxFrequency <= out[i].1 <= p.maxFrequency
  {
    var (u, out) := Step(p, t, e);
    if EverLocked(outs + out) {
      var i :| 0 <= i < |outs + out| && (outs + out)[i].0 != Unlocked;
      if i < |outs| {
        assert outs[i].0 != Unlocked;
        assert EverLocked(outs);
      }
    }
    assert [e][0] == e;
    if e.Sample? && Bounded(p, t) {
      SampleKeepsBounds(p, t, e.offset, e.local);
    }
  }

  // ----- when it waits, steps and corrects

  /**
   The wait for the first estimate, with its margin of a thousandth: a thousand seconds, or less as the integral gain is
   greater.
   */
  lemma WaitIsExact(ki: real, diff: int)
    requires ki >= 0.0
    ensures LongEnough(ki, diff) <==>
            diff > 0 && (1001 * diff >= 1000000000000000 || Mul(ki, (1001 * diff) as real) >= 16000000000.0)
  {
    var x := diff as real / BILLION * (1.0 + FREQ_EST_MARGIN);
    assert (1001 * diff) as real == x * 1000000000000.0;
    if ki > 0.0 && diff > 0 {
      var q := 0.016 / ki;
      assert Mul(q, ki) == 0.016;
      if x >= q {
        Products.MulMonotone(ki, q, x);
        MulComm(ki, q);
      } else {
        MulStrict(ki, x, q);
        MulComm(ki, x);
      }
      assert Mul(ki, (1001 * diff) as real) == Mul(ki, x) * 1000000000000.0;
    }
  }

  lemma RunExtended(p: Limits, s: State, es: seq<Event>, e: Event)
    requires p.maxFrequency >= 0.0 && s.ki >= 0.0 && IsRun(es) && e.Sample?
    ensures IsRun(es + [e])
    ensures var (t, outs) := Run(p, s, es);
            var (u, out) := Sampled(p, t, e.offset, e.local);
            Run(p, s, es + [e]) == (u, outs + [(out, u.lastFreq)])
  {
    assert (es + [e])[..|es|] == es;
  }

  /**
   A servo without a sample: the second of two samples, if it is late enough, brings the estimate, and the jump if the
   offset is over a threshold; if not nothing is changed.
   */
  lemma EstimateFollows(p: Limits, s: State, o0: int, l0: int, o1: int, l1: int)
    requires p.maxFrequency >= 0.0 && s.ki >= 0.0 && s.count == 0
    ensures var (t, outs) := Run(p, s, [Sample(o0, l0), Sample(o1, l1)]);
            && |outs| == 2 && outs[0] == (Unlocked, s.lastFreq)
            && if LongEnough(s.ki, l1 - l0)
               then
                 && t.count == 2 && t.drift == t.lastFreq == Clamp(Estimate(s.drift, o1 - o0, l1 - l0), p.maxFrequency)
                 && outs[1] == (if IsFarOff(p, s.firstUpdate, o1) then Jump else Locked, t.lastFreq)
               else outs[1] == (Unlocked, s.lastFreq) && t.drift == s.drift && t.count == if l0 < l1 then 1 else 0
  {
    var a, b := Sample(o0, l0), Sample(o1, l1);
    RunExtended(p, s, [], a);
    RunExtended(p, s, [a], b);
    assert [] + [a] == [a] && [a] + [b] == [a, b];
    hide Estimate, LongEnough, IsFarOff, Clamp;
    if l1 <= l0 {
      NotLongEnough(s.ki, l1 - l0);
    }
  }

  lemma NotLongEnough(ki: real, diff: int)
    requires ki >= 0.0 && diff <= 0
    ensures !LongEnough(ki, diff)
  {
  }

  /**
   A locked servo that meets an offset over the step threshold gives up, and steps the clock after two more samples if
   they are late enough and the offset is still over it.
   */
  lemma FarOffIsStepped(p: Limits, s: State, o: int, l: int, o0: int, l0: int, o1: int, l1: int)
    requires p.maxFrequency >= 0.0 && s.ki >= 0.0 && s.count == 2 && LongEnough(s.ki, l1 - l0)
    requires p.stepThreshold != 0.0 && !(-p.stepThreshold <= o as real <= p.stepThreshold)
    requires !(-p.stepThreshold <= o1 as real <= p.stepThreshold)
    ensures var outs := Run(p, s, [Sample(o, l), Sample(o0, l0), Sample(o1, l1)]).1;
            |outs| == 3 && outs[0].0 == Unlocked == outs[1].0 && outs[2].0 == Jump
  {
    var a, b, c := Sample(o, l), Sample(o0, l0), Sample(o1, l1);
    RunExtended(p, s, [], a);
    RunExtended(p, s, [a], b);
    RunExtended(p, s, [a, b], c);
    assert [] + [a] == [a] && [a] + [b] == [a, b] && [a, b] + [c] == [a, b, c];
    hide Estimate, LongEnough, Clamp;
    if l1 <= l0 {
      NotLongEnough(s.ki, l1 - l0);
    }
  }

  /** A locked servo gives out the sum of its terms as far as it can, and integrates exactly if it can. */
  lemma IntegratesUnlessLimited(p: Limits, s: State, offset: int, local: int)
    requires p.maxFrequency >= 0.0 && s.ki >= 0.0 && s.count == 2
    ensures var (t, out) := Sampled(p, s, offset, local);
            var sum := Mul(s.kp, offset as real) + s.drift + Mul(s.ki, offset as real);
            && (out == Unlocked <==>
                  p.stepThreshold != 0.0 && !(-p.stepThreshold <= offset as real <= p.stepThreshold))
            && out != Jump
            && (out == Locked ==>
                  && t.lastFreq == Clamp(sum, p.maxFrequency)
                  && t.drift == if t.lastFreq == sum then s.drift + Mul(s.ki, offset as real) else s.drift)
  {
    hide Mul;
  }

  /** The first step threshold is for the first update alone: after it, a jump is due to the other one. */
  lemma {:induction false} FirstThresholdOnce(p: Limits, s: State, es: seq<Event>)
    requires p.maxFrequency >= 0.0 && s.ki >= 0.0 && s.count == 0 && s.firstUpdate && IsRun(es)
    ensures var (t, outs) := Run(p, s, es);
            && (t.firstUpdate <==> !EverLocked(outs))
            && (EverLocked(outs) ==>
                  forall o, l :: Sampled(p, t, o, l).1 == Jump ==>
                    p.stepThreshold != 0.0 && !(-p.stepThreshold <= o as real <= p.stepThreshold))
  {
    if es != [] {
      var init, e := es[..|es| - 1], es[|es| - 1];
      FirstThresholdOnce(p, s, init);
      JumpFollowsUnlocked(p, s, init);
      var (t, outs) := Run(p, s, init);
      if t.count == 2 {
        assert EverLocked(outs) by {
          assert outs[|outs| - 1].0 != Unlocked;
        }
      }
      FirstUpdateStep(p, t, outs, e);
    }
  }

  lemma FirstUpdateStep(p: Limits, t: State, outs: seq<(ServoState, real)>, e: Event)
    requires p.maxFrequency >= 0.0 && t.ki >= 0.0 && t.count <= 2 && IsRun([e])
    requires (t.firstUpdate <==> !EverLocked(outs)) && (t.count == 2 ==> EverLocked(outs))
    ensures var (u, out) := Step(p, t, e);
            u.firstUpdate <==> !EverLocked(outs + out)
  {
    var (u, out) := Step(p, t, e);
    hide Estimate, LongEnough, Clamp, IsFarOff, Mul;
    assert EverLocked(outs + out) <==> EverLocked(outs) || (out != [] && out[0].0 != Unlocked) by {
      if EverLocked(outs) {
        var i :| 0 <= i < |outs| && outs[i].0 != Unlocked;
        assert (outs + out)[i].0 != Unlocked;
      }
      if out != [] {
        assert (outs + out)[|outs|] == out[0];
      }
    }
  }

  /** The gains in force after some events. */
  function GainsAfter(kp: real, ki: real, es: seq<Event>): (real, real) {
    if es == [] then (kp, ki)
    else if es[|es| - 1].Gains? then (es[|es| - 1].kp, es[|es| - 1].ki)
    else GainsAfter(kp, ki, es[..|es| - 1])
  }

  /** The offsets of all samples, each multiplied by the integral gain in force. */
  function Integral(kp: real, ki: real, es: seq<Event>): real {
    if es == [] then 0.0
    else
      var init, e := es[..|es| - 1], es[|es| - 1];
      Integral(kp, ki, init) + if e.Sample? then Mul(GainsAfter(kp, ki, init).1, e.offset as real) else 0.0
  }

  /** The servo stays locked and away from its limits. */
  ghost predicate Unlimited(p: Limits, outs: seq<(ServoState, real)>) {
    forall x :: x in outs ==> x.0 == Locked && -p.maxFrequency < x.1 < p.maxFrequency
  }

  /**
   A locked servo that does not run into its limits: the drift is the integral of the offsets, and the output is the
   drift and the last offset times the proportional gain.
   */
  lemma {:induction false} DriftIsIntegral(p: Limits, s: State, es: seq<Event>)
    requires p.maxFrequency >= 0.0 && s.ki >= 0.0 && s.count == 2 && IsRun(es)
    requires forall i :: 0 <= i < |es| ==> !es[i].Reset?
    requires Unlimited(p, Run(p, s, es).1)
    ensures var (t, outs) := Run(p, s, es);
            && t.count == 2 && (t.kp, t.ki) == GainsAfter(s.kp, s.ki, es)
            && t.drift == s.drift + Integral(s.kp, s.ki, es)
            && (es != [] && es[|es| - 1].Sample? ==>
                  outs != [] && outs[|outs| - 1].1 == t.drift + Mul(t.kp, es[|es| - 1].offset as real))
  {
    if es != [] {
      var init, e := es[..|es| - 1], es[|es| - 1];
      var (t, outs) := Run(p, s, init);
      var (u, out) := Step(p, t, e);
      assert Run(p, s, es) == (u, outs + out);
      UnlimitedParts(p, outs, out);
      DriftIsIntegral(p, s, init);
      hide Run, Unlimited;
      if e.Sample? {
        LockedStep(p, t, e.offset, e.local);
        assert (outs + out)[|outs|] == out[0];
      }
    }
  }

  lemma UnlimitedParts(p: Limits, outs: seq<(ServoState, real)>, out: seq<(ServoState, real)>)
    requires Unlimited(p, outs + out)
    ensures Unlimited(p, outs)
    ensures forall x :: x in out ==> x.0 == Locked && -p.maxFrequency < x.1 < p.maxFrequency
  {
    assert forall x :: x in outs || x in out ==> x in outs + out;
  }

  lemma LockedStep(p: Limits, t: State, o: int, l: int)
    requires p.maxFrequency >= 0.0 && t.ki >= 0.0 && t.count == 2
    requires var (u, out) := Sampled(p, t, o, l);
             out == Locked && -p.maxFrequency < u.lastFreq < p.maxFrequency
    ensures var u := Sampled(p, t, o, l).0;
            && u.count == 2 && u.kp == t.kp && u.ki == t.ki && u.drift == t.drift + Mul(t.ki, o as real)
            && u.lastFreq == u.drift + Mul(t.kp, o as real)
  {
  }

  // ----- the servo

  class Servo {
    const offset: array<int>
    const local: array<int>
    var drift: real
    var kp: real
    var ki: real
    var lastFreq: real
    var count: nat
    var firstUpdate: bool
    const limits: Limits

    ghost predicate Valid()
      reads this, offset, local
    {
      && offset.Length == 2 == local.Length && offset != local
      && limits.maxFrequency >= 0.0 && kp >= 0.0 && ki >= 0.0 && count <= 2
    }

    ghost function Now(): State
      reads this, offset, local
      requires offset.Length == 2 == local.Length
    {
      State(offset[0], local[0], drift, kp, ki, lastFreq, count, firstUpdate)
    }

    constructor (fadj: int, limits: Limits)
      requires limits.maxFrequency >= 0.0
      ensures Valid() && fresh(offset) && fresh(local)
      ensures Now() == State(0, 0, fadj as real, 0.0, 0.0, fadj as real, 0, true) && this.limits == limits
    {
      offset := new int[2](_ => 0);
      local := new int[2](_ => 0);
      drift, lastFreq, kp, ki, count, firstUpdate := fadj as real, fadj as real, 0.0, 0.0, 0, true;
      this.limits := limits;
    }

    method TakeSample(o: int, ts: int) returns (ppb: real, state: ServoState)
      requires Valid()
      modifies this, offset, local
      ensures Valid() && (Now(), state) == Sampled(limits, old(Now()), o, ts) && ppb == lastFreq
    {
      hide Mul, Clamp, Estimate, LongEnough;
      ppb := lastFreq;
      if count == 0 {
        offset[0], local[0] := o, ts;
        state := Unlocked;
        count := 1;
      } else if count == 1 {
        offset[1], local[1] := o, ts;
        ppb, state := SecondSample();
      } else if limits.stepThreshold != 0.0 && limits.stepThreshold < Abs(o as real) {
        state := Unlocked;
        count := 0;
      } else {
        ppb := Correct(o);
        state := Locked;
      }
      lastFreq := ppb;
      if state != Unlocked {
        firstUpdate := false;
      }
    }

    /** With two samples the frequency is estimated, once they are far enough apart. */
    method SecondSample() returns (ppb: real, state: ServoState)
      requires Valid() && count == 1
      modifies this`drift, this`count
      ensures var (t, out) := Sampled(limits, old(Now()), offset[1], local[1]);
              state == out && ppb == t.lastFreq && Now() == t.(lastFreq := lastFreq, firstUpdate := firstUpdate)
    {
      hide Mul, Clamp, Estimate, LongEnough;
      if local[0] >= local[1] {
        count := 0;
        return lastFreq, Unlocked;
      }
      var waited := WaitedLongEnough();
      if !waited {
        return lastFreq, Unlocked;
      }
      EstimateDrift();
      state := if IsFarOff(limits, firstUpdate, offset[1]) then Jump else Locked;
      ppb := drift;
      count := 2;
    }

    method WaitedLongEnough() returns (waited: bool)
      requires offset.Length == 2 == local.Length && local[0] < local[1] && ki >= 0.0
      ensures waited == LongEnough(ki, local[1] - local[0])
    {
      var diff := (local[1] - local[0]) as real / BILLION;
      diff := diff + diff * FREQ_EST_MARGIN;
      waited := !(diff < FreqEstInterval(ki));
    }

    method EstimateDrift()
      requires offset.Length == 2 == local.Length && local[0] < local[1] && limits.maxFrequency >= 0.0
      modifies this`drift
      ensures drift == Clamp(Estimate(old(drift), offset[1] - offset[0], local[1] - local[0]), limits.maxFrequency)
    {
      hide Mul, Quotient;
      drift := drift + Quotient(Mul(BILLION - drift, (offset[1] - offset[0]) as real), (local[1] - local[0]) as real);
      if drift < -limits.maxFrequency {
        drift := -limits.maxFrequency;
      } else if drift > limits.maxFrequency {
        drift := limits.maxFrequency;
      }
    }

    /** Proportional and integral correction; the integral grows only while the output is within the limits. */
    method Correct(o: int) returns (ppb: real)
      requires limits.maxFrequency >= 0.0
      modifies this`drift
      ensures var f := Mul(kp, o as real) + old(drift) + Mul(ki, o as real);
              && ppb == Clamp(f, limits.maxFrequency)
              && drift == if ppb == f then old(drift) + Mul(ki, o as real) else old(drift)
    {
      hide Mul;
      var kiTerm := Mul(ki, o as real);
      ppb := Mul(kp, o as real) + drift + kiTerm;
      if ppb < -limits.maxFrequency {
        ppb := -limits.maxFrequency;
      } else if ppb > limits.maxFrequency {
        ppb := limits.maxFrequency;
      } else {
        drift := drift + kiTerm;
      }
    }

    method ResetCount()
      requires Valid()
      modifies this`count
      ensures Valid() && Now() == old(Now()).(count := 0)
    {
      count := 0;
    }
  }
}
