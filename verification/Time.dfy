/** Points and lengths of time as seconds and attoseconds (qot_types.h). */
module Time {
  import opened Prelude

  const ASEC_PER_SEC := 1000000000000000000
  const NSEC := 1000000000

  /** The attoseconds of n units, of which there are dv in a second and which are ml attoseconds each. */
  function Scaled(n: int, dv: int, ml: int): int
    requires dv > 0
  {
    n / dv * ASEC_PER_SEC + n % dv * ml
  }

  lemma ScaledIsExact(n: int, dv: int, ml: int)
    requires dv > 0 && dv * ml == ASEC_PER_SEC
    ensures Scaled(n, dv, ml) == n * ml
  {
    var q, r := n / dv, n % dv;
    assert n == q * dv + r;
    assert q * dv * ml == q * (dv * ml);
    assert (q * dv + r) * ml == q * dv * ml + r * ml;
  }

  lemma RemainderFits(r: int, dv: int, ml: int)
    requires 0 <= r < dv && ml >= 0 && dv * ml == ASEC_PER_SEC
    ensures 0 <= r * ml < ASEC_PER_SEC
  {
    assert ml > 0;
    assert (dv - r) * ml >= ml;
  }

  lemma ScaledParts(n: int, dv: int, ml: int)
    requires n > 0 && dv > 0 && ml > 0
    ensures var asec := (n - dv * (n / dv)) * ml;
            && Scaled(n, dv, ml) == n / dv * ASEC_PER_SEC + asec && asec >= 0
            && (dv * ml == ASEC_PER_SEC ==>
                  asec < ASEC_PER_SEC && Scaled(n, dv, ml) == n * ml && -(n * ml) == (-n) * ml)
  {
    assert n - dv * (n / dv) == n % dv;
    if dv * ml == ASEC_PER_SEC {
      ScaledIsExact(n, dv, ml);
      RemainderFits(n % dv, dv, ml);
    }
  }

  class TimeLength {
    var sec: int
    var asec: int

    constructor ()
      ensures sec == 0 && asec == 0
    {
      sec, asec := 0, 0;
    }

    ghost predicate Valid()
      reads this
    {
      sec >= 0 && 0 <= asec < ASEC_PER_SEC
    }

    ghost function Atto(): int
      reads this
    {
      sec * ASEC_PER_SEC + asec
    }

    function ToScalar(f1: int, f2: int): int
      requires f2 > 0
      reads this
    {
      sec * f1 + asec / f2
    }

    /** Negative if this length is greater than the other one, positive if it is less. */
    function Cmp(o: TimeLength): (c: int)
      requires Valid() && o.Valid()
      reads this, o
      ensures c == -1 <==> Atto() > o.Atto()
      ensures c == 1 <==> Atto() < o.Atto()
      ensures c == 0 <==> Atto() == o.Atto()
    {
      if sec > o.sec then -1
      else if sec < o.sec then 1
      else if asec > o.asec then -1
      else if asec < o.asec then 1
      else 0
    }

    /** Copies the smaller of two lengths. */
    method SetToMin(l1: TimeLength, l2: TimeLength)
      requires l1.Valid() && l2.Valid() && this != l1 && this != l2
      modifies this
      ensures Valid() && Atto() == if l1.Atto() <= l2.Atto() then l1.Atto() else l2.Atto()
    {
      if l1.Cmp(l2) > 0 {
        sec, asec := l1.sec, l1.asec;
      } else {
        sec, asec := l2.sec, l2.asec;
      }
    }

    method FromScalar(t: int, dv: int, ml: int)
      requires t >= 0 && dv >= 0 && ml >= 0
      modifies this
      ensures Atto() == if t == 0 || dv == 0 || ml == 0 then 0 else Scaled(t, dv, ml)
      ensures dv * ml == ASEC_PER_SEC ==> Valid() && Atto() == t * ml
    {
      if t == 0 || dv == 0 || ml == 0 {
        sec, asec := 0, 0;
        return;
      }
      hide Scaled;
      sec := t / dv;
      asec := t - dv * sec;
      asec := asec * ml;
      ScaledParts(t, dv, ml);
    }
  }

  class TimePoint {
    var sec: int
    var asec: int

    constructor (sec: int, asec: int)
      ensures this.sec == sec && this.asec == asec
    {
      this.sec, this.asec := sec, asec;
    }

    ghost predicate Valid()
      reads this
    {
      0 <= asec < ASEC_PER_SEC
    }

    ghost function Atto(): int
      reads this
    {
      sec * ASEC_PER_SEC + asec
    }

    function ToScalar(f1: int, f2: int): int
      requires f2 > 0
      reads this
    {
      sec * f1 + asec / f2
    }

    /** Negative times too are seconds plus a non-negative fraction. */
    method FromScalar(t: int, dv: int, ml: int)
      requires dv >= 0 && ml >= 0
      modifies this
      ensures Atto() ==
              if t == 0 || dv == 0 || ml == 0 then 0 else if t > 0 then Scaled(t, dv, ml) else -Scaled(-t, dv, ml)
      ensures dv * ml == ASEC_PER_SEC ==> Valid() && Atto() == t * ml
    {
      if t == 0 || dv == 0 || ml == 0 {
        sec, asec := 0, 0;
        return;
      }
      hide Scaled;
      var tm := if t < 0 then -t else t;
      sec := tm / dv;
      asec := tm - dv * sec;
      asec := asec * ml;
      ScaledParts(tm, dv, ml);
      if t < 0 {
        sec := -sec;
        if asec != 0 {
          sec := sec - 1;
          asec := ASEC_PER_SEC - asec;
        }
      }
    }

    method Add(v: TimeLength)
      requires asec >= 0 && v.asec >= 0
      modifies this
      ensures Valid() && Atto() == old(Atto()) + v.Atto()
    {
      asec := asec + v.asec;
      sec := sec + v.sec;
      var tm := asec / ASEC_PER_SEC;
      sec := sec + tm;
      asec := asec - tm * ASEC_PER_SEC;
    }

    method Sub(v: TimeLength)
      requires Valid() && v.Valid()
      modifies this
      ensures Valid() && Atto() == old(Atto()) - v.Atto()
    {
      sec := sec - v.sec;
      if asec < v.asec {
        sec := sec - 1;
        asec := ASEC_PER_SEC - (v.asec - asec);
      } else {
        asec := asec - v.asec;
      }
    }

    /** Negative if this point is after the other one, positive if it is before. */
    function Cmp(o: TimePoint): (c: int)
      requires Valid() && o.Valid()
      reads this, o
      ensures c == -1 <==> Atto() > o.Atto()
      ensures c == 1 <==> Atto() < o.Atto()
      ensures c == 0 <==> Atto() == o.Atto()
    {
      if sec > o.sec then -1
      else if sec < o.sec then 1
      else if asec > o.asec then -1
      else if asec < o.asec then 1
      else 0
    }
  }

  /** The conversion of a 64-bit integer to the argument of abs, which is an int. */
  function Int32(x: int): (y: int)
    ensures -0x8000_0000 <= x < 0x8000_0000 ==> y == x
  {
    (x + 0x8000_0000) % 0x1_0000_0000 - 0x8000_0000
  }

  function AbsInt(x: int): (y: int)
    ensures y >= 0 && (y == x || y == -x)
  {
    if x < 0 then -x else x
  }

  /** timepoint_diff: seconds and fractions are taken apart, and each gives its absolute difference. */
  method Diff(v: TimeLength, t1: TimePoint, t2: TimePoint)
    modifies v
    ensures v.sec == AbsInt(Int32(t1.sec - t2.sec)) && v.asec == AbsInt(t1.asec - t2.asec)
  {
    v.sec := AbsInt(Int32(t1.sec - t2.sec));
    if t2.asec > t1.asec {
      v.asec := t2.asec - t1.asec;
    } else {
      v.asec := t1.asec - t2.asec;
    }
  }

  /** Casting to a scalar rounds down to whole units, also for times before the reference. */
  lemma ToScalarRoundsDown(sec: int, asec: int, dv: int, ml: int)
    requires asec >= 0 && dv * ml == ASEC_PER_SEC && ml > 0
    ensures sec * dv + asec / ml == (sec * ASEC_PER_SEC + asec) / ml
  {
    var q, r := asec / ml, asec % ml;
    assert asec == q * ml + r;
    assert sec * (dv * ml) == sec * dv * ml;
    assert sec * ASEC_PER_SEC + asec == (sec * dv + q) * ml + r;
    DivisionIs(sec * ASEC_PER_SEC + asec, ml, sec * dv + q, r);
  }

  lemma DivisionIs(a: int, b: int, q: int, r: int)
    requires b > 0 && a == q * b + r && 0 <= r < b
    ensures a / b == q
  {
    DivisionBounds(a, b);
    SameFloor(a, b, q, a / b);
  }

  lemma DivisionBounds(a: int, b: int)
    requires b > 0
    ensures a / b * b <= a < a / b * b + b
  {
    assert a == a / b * b + a % b;
  }

  lemma SameFloor(a: int, b: int, p: int, q: int)
    requires b > 0 && p * b <= a < p * b + b && q * b <= a < q * b + b
    ensures p == q
  {
    MulSuccessor(p, b);
    MulSuccessor(q, b);
    if p < q {
      MulMonotone(p + 1, q, b);
    } else if q < p {
      MulMonotone(q + 1, p, b);
    }
  }

  /** Reading back a point made from a scalar gives the scalar, for every unit and for negative times too. */
  lemma ScalarRoundTrip(p: TimePoint, t: int, dv: int, ml: int)
    requires p.asec >= 0 && dv * ml == ASEC_PER_SEC && ml > 0 && p.Atto() == t * ml
    ensures p.ToScalar(dv, ml) == t
  {
    ToScalarRoundsDown(p.sec, p.asec, dv, ml);
    DivisionIs(t * ml, ml, t, 0);
  }

  lemma LengthRoundTrip(l: TimeLength, t: int, dv: int, ml: int)
    requires l.asec >= 0 && dv * ml == ASEC_PER_SEC && ml > 0 && l.Atto() == t * ml
    ensures l.ToScalar(dv, ml) == t
  {
    ToScalarRoundsDown(l.sec, l.asec, dv, ml);
    DivisionIs(t * ml, ml, t, 0);
  }

  /** And a point is restored from its scalar if and only if it is a whole number of units. */
  lemma PointRoundTrip(p: TimePoint, dv: int, ml: int)
    requires p.Valid() && dv * ml == ASEC_PER_SEC && ml > 0
    ensures p.ToScalar(dv, ml) * ml == p.Atto() <==> p.asec % ml == 0
  {
    ToScalarRoundsDown(p.sec, p.asec, dv, ml);
    var q, r := p.asec / ml, p.asec % ml;
    assert p.asec == q * ml + r;
    assert (p.sec * dv + q) * ml == p.sec * (dv * ml) + q * ml;
  }
}
