/**
 The data set comparison of the best master clock algorithm (bmc.c) and the
 selection of the best data set from a list of candidates.
 */
module Bmc {
  import opened Prelude

  type ClockIdentity = s: seq<Byte> | |s| == 8 witness [0, 0, 0, 0, 0, 0, 0, 0]

  datatype PortIdentity = PortIdentity(clockIdentity: ClockIdentity, portNumber: Word)
  {
    /** The packed structure in memory on a little-endian host, as `memcmp` sees it. */
    function Bytes(): (s: seq<Byte>)
      ensures |s| == 10
    {
      clockIdentity + [portNumber % 256, portNumber / 256]
    }
  }

  datatype ClockQuality = ClockQuality(clockClass: Byte, clockAccuracy: Byte, offsetScaledLogVariance: Word)

  datatype Dataset = Dataset(
    priority1: Byte, identity: ClockIdentity, quality: ClockQuality, priority2: Byte,
    stepsRemoved: Word, sender: PortIdentity, receiver: PortIdentity)

  const A_BETTER_TOPO := 2
  const A_BETTER := 1
  const B_BETTER := -1
  const B_BETTER_TOPO := -2

  /** `memcmp`, up to the size of a nonzero answer. */
  function MemCmp(s: seq<int>, t: seq<int>): (r: int)
    requires |s| == |t|
    ensures -1 <= r <= 1
    ensures r == 0 <==> s == t
  {
    if s == [] then 0
    else if s[0] < t[0] then -1
    else if s[0] > t[0] then 1
    else
      assert s == [s[0]] + s[1..] && t == [t[0]] + t[1..];
      MemCmp(s[1..], t[1..])
  }

  function Dscmp2(a: Dataset, b: Dataset): (r: int)
  {
    var A, B := a.stepsRemoved, b.stepsRemoved;
    if A + 1 < B then A_BETTER
    else if B + 1 < A then B_BETTER
    else if A < B then
      var diff := MemCmp(b.receiver.Bytes(), b.sender.Bytes());
      if diff < 0 then A_BETTER else if diff > 0 then A_BETTER_TOPO else 0
    else if A > B then
      var diff := MemCmp(a.receiver.Bytes(), a.sender.Bytes());
      if diff < 0 then B_BETTER else if diff > 0 then B_BETTER_TOPO else 0
    else
      var diff := MemCmp(a.sender.Bytes(), b.sender.Bytes());
      if diff < 0 then A_BETTER_TOPO
      else if diff > 0 then B_BETTER_TOPO
      else if a.receiver.portNumber < b.receiver.portNumber then A_BETTER_TOPO
      else if a.receiver.portNumber > b.receiver.portNumber then B_BETTER_TOPO
      else 0
  }

  /**
   The comparison proper.  `None` is the null pointer; the source's shortcut for
   equal pointers is subsumed, since equal data sets compare as 0.
   */
  function Dscmp(oa: Option<Dataset>, ob: Option<Dataset>): (r: int)
  {
    if oa.None? && ob.None? then 0
    else if ob.None? then A_BETTER
    else if oa.None? then B_BETTER
    else
      var a, b := oa.value, ob.value;
      var diff := MemCmp(a.identity, b.identity);
      if diff == 0 then Dscmp2(a, b)
      else if a.priority1 < b.priority1 then A_BETTER
      else if a.priority1 > b.priority1 then B_BETTER
      else if a.quality.clockClass < b.quality.clockClass then A_BETTER
      else if a.quality.clockClass > b.quality.clockClass then B_BETTER
      else if a.quality.clockAccuracy < b.quality.clockAccuracy then A_BETTER
      else if a.quality.clockAccuracy > b.quality.clockAccuracy then B_BETTER
      else if a.quality.offsetScaledLogVariance < b.quality.offsetScaledLogVariance then A_BETTER
      else if a.quality.offsetScaledLogVariance > b.quality.offsetScaledLogVariance then B_BETTER
      else if a.priority2 < b.priority2 then A_BETTER
      else if a.priority2 > b.priority2 then B_BETTER
      else if diff < 0 then A_BETTER
      else B_BETTER
  }

  // ----- lexicographic order on equally long sequences

  lemma {:induction false} MemCmpAntisymmetric(s: seq<int>, t: seq<int>)
    requires |s| == |t|
    ensures MemCmp(s, t) == -MemCmp(t, s)
  {
    if s != [] && s[0] == t[0] {
      MemCmpAntisymmetric(s[1..], t[1..]);
    }
  }

  lemma {:induction false} MemCmpTransitive(s: seq<int>, t: seq<int>, u: seq<int>)
    requires |s| == |t| == |u|
    requires MemCmp(s, t) <= 0 && MemCmp(t, u) <= 0
    ensures MemCmp(s, u) <= 0
    ensures MemCmp(s, t) < 0 || MemCmp(t, u) < 0 ==> MemCmp(s, u) < 0
  {
    if s != [] && s[0] == t[0] == u[0] {
      MemCmpTransitive(s[1..], t[1..], u[1..]);
    }
  }

  lemma {:induction false} MemCmpConcat(s1: seq<int>, s2: seq<int>, t1: seq<int>, t2: seq<int>)
    requires |s1| == |t1| && |s2| == |t2|
    ensures MemCmp(s1 + s2, t1 + t2) == if s1 != t1 then MemCmp(s1, t1) else MemCmp(s2, t2)
  {
    if s1 == [] {
      assert s1 + s2 == s2 && t1 + t2 == t2;
    } else if s1[0] == t1[0] {
      assert (s1 + s2)[1..] == s1[1..] + s2 && (t1 + t2)[1..] == t1[1..] + t2;
      MemCmpConcat(s1[1..], s2, t1[1..], t2);
      assert s1 == [s1[0]] + s1[1..] && t1 == [t1[0]] + t1[1..];
    }
  }

  // ----- the order behind the comparison

  /** What ranks the grandmaster: smaller is better, most significant first. */
  function Rank(d: Dataset): (k: seq<int>)
    ensures |k| == 5
  {
    [d.priority1, d.quality.clockClass, d.quality.clockAccuracy, d.quality.offsetScaledLogVariance, d.priority2]
  }

  /** What ranks the path to the grandmaster. */
  function Path(d: Dataset): (k: seq<int>)
    ensures |k| == 12
  {
    [d.stepsRemoved] + d.sender.Bytes() + [d.receiver.portNumber]
  }

  /** The whole key: a data set is better when its key is lexicographically smaller. */
  function Key(d: Dataset): (k: seq<int>)
    ensures |k| == 25
  {
    Rank(d) + (d.identity + Path(d))
  }

  /** One grandmaster identity is announced with one set of priorities and qualities. */
  ghost predicate Consistent(a: Dataset, b: Dataset) {
    a.identity == b.identity ==> Rank(a) == Rank(b)
  }

  /** The "error-1" condition: one step apart, and the longer path claims to receive from itself. */
  predicate ErrorOne(a: Dataset, b: Dataset) {
    && a.identity == b.identity
    && ((a.stepsRemoved + 1 == b.stepsRemoved && b.receiver == b.sender)
        || (b.stepsRemoved + 1 == a.stepsRemoved && a.receiver == a.sender))
  }

  function Sign(x: int): (s: int)
    ensures -1 <= s <= 1
  {
    if x < 0 then -1 else if x > 0 then 1 else 0
  }

  lemma DscmpAntisymmetric(oa: Option<Dataset>, ob: Option<Dataset>)
    ensures Dscmp(oa, ob) == -Dscmp(ob, oa)
  {
    if oa.Some? && ob.Some? {
      MemCmpAntisymmetric(oa.value.identity, ob.value.identity);
      MemCmpAntisymmetric(oa.value.sender.Bytes(), ob.value.sender.Bytes());
    }
  }

  lemma BytesInjective(p: PortIdentity, q: PortIdentity)
    ensures p.Bytes() == q.Bytes() <==> p == q
  {
    if p.Bytes() == q.Bytes() {
      assert p.clockIdentity == p.Bytes()[..8] && q.clockIdentity == q.Bytes()[..8];
      assert p.Bytes()[8] == p.portNumber % 256 && p.Bytes()[9] == p.portNumber / 256;
      assert q.Bytes()[8] == q.portNumber % 256 && q.Bytes()[9] == q.portNumber / 256;
    }
  }

  /** Ports of one clock are in the order of the low bytes of their numbers first, as they lie in memory. */
  lemma PortOrder(p: PortIdentity, q: PortIdentity)
    requires p.clockIdentity == q.clockIdentity
    ensures MemCmp(p.Bytes(), q.Bytes()) < 0 <==>
            || p.portNumber % 256 < q.portNumber % 256
            || (p.portNumber % 256 == q.portNumber % 256 && p.portNumber < q.portNumber)
  {
    var a, b := [p.portNumber % 256, p.portNumber / 256], [q.portNumber % 256, q.portNumber / 256];
    MemCmpConcat(p.clockIdentity, a, q.clockIdentity, b);
    MemCmpSteps(a, b);
    MemCmpSteps(a[1..], b[1..]);
  }

  lemma PathOrder(a: Dataset, b: Dataset)
    requires a.identity == b.identity
    ensures Sign(Dscmp2(a, b)) == MemCmp(Path(b), Path(a)) <==> !ErrorOne(a, b)
  {
    var sa, sb := a.sender.Bytes(), b.sender.Bytes();
    var ra, rb := [a.receiver.portNumber], [b.receiver.portNumber];
    assert Path(a) == [a.stepsRemoved] + (sa + ra) && Path(b) == [b.stepsRemoved] + (sb + rb);
    MemCmpConcat([b.stepsRemoved], sb + rb, [a.stepsRemoved], sa + ra);
    MemCmpConcat(sb, rb, sa, ra);
    MemCmpAntisymmetric(sa, sb);
    BytesInjective(a.sender, a.receiver);
    BytesInjective(b.sender, b.receiver);
    assert MemCmp(rb, ra) == Sign(b.receiver.portNumber as int - a.receiver.portNumber as int);
    if a.stepsRemoved != b.stepsRemoved {
      assert MemCmp([b.stepsRemoved], [a.stepsRemoved]) == Sign(b.stepsRemoved as int - a.stepsRemoved as int);
    }
  }

  lemma RankOrder(a: Dataset, b: Dataset)
    requires a.identity != b.identity
    ensures Dscmp(Some(a), Some(b)) ==
            if Rank(a) != Rank(b) then MemCmp(Rank(b), Rank(a)) else MemCmp(b.identity, a.identity)
  {
    var ka, kb := Rank(a), Rank(b);
    MemCmpAntisymmetric(a.identity, b.identity);
    MemCmpSteps(kb, ka);
    MemCmpSteps(kb[1..], ka[1..]);
    MemCmpSteps(kb[2..], ka[2..]);
    MemCmpSteps(kb[3..], ka[3..]);
    MemCmpSteps(kb[4..], ka[4..]);
  }

  lemma MemCmpSteps(s: seq<int>, t: seq<int>)
    requires |s| == |t| > 0
    ensures MemCmp(s, t) == if s[0] != t[0] then Sign(s[0] - t[0]) else MemCmp(s[1..], t[1..])
  {
  }

  /**
   Between consistently announced data sets the sign of the comparison is the
   lexicographic order of the keys, except in the "error-1" condition.
   */
  lemma DscmpIsKeyOrder(a: Dataset, b: Dataset)
    requires Consistent(a, b)
    ensures Sign(Dscmp(Some(a), Some(b))) == MemCmp(Key(b), Key(a)) <==> !ErrorOne(a, b)
  {
    MemCmpConcat(Rank(b), b.identity + Path(b), Rank(a), a.identity + Path(a));
    MemCmpConcat(b.identity, Path(b), a.identity, Path(a));
    if a.identity == b.identity {
      PathOrder(a, b);
    } else {
      RankOrder(a, b);
    }
  }

  /**
   Without consistent announcements the comparison runs in a circle: x announced at two
   priorities, with y between them and the worse announcement on the shorter path.
   */
  lemma InconsistentAnnouncementsCycle(
    x: ClockIdentity, y: ClockIdentity, q: ClockQuality, s: PortIdentity, r: PortIdentity)
    requires x != y && s != r
    ensures var a, b := Dataset(10, x, q, 128, 5, s, r), Dataset(20, y, q, 128, 0, s, r);
            var c := Dataset(30, x, q, 128, 1, s, r);
            && !ErrorOne(a, b) && !ErrorOne(b, c) && !ErrorOne(a, c)
            && Dscmp(Some(a), Some(b)) > 0 && Dscmp(Some(b), Some(c)) > 0 && Dscmp(Some(c), Some(a)) > 0
  {
    MemCmpAntisymmetric(x, y);
  }

  // ----- the best of a list of candidates

  /**
   The loop shared by `port_compute_best` and the state decision event: candidates
   that do not qualify are skipped and the best so far is replaced only by a better one.
   */
  function BestIndex(cs: seq<Option<Dataset>>): (best: Option<nat>)
    ensures best.Some? ==> best.value < |cs| && cs[best.value].Some?
    ensures best.None? <==> forall i :: 0 <= i < |cs| ==> cs[i].None?
  {
    if cs == [] then None
    else
      var n := |cs| - 1;
      var best := BestIndex(cs[..n]);
      if cs[n].None? then best
      else if best.None? || Dscmp(cs[n], cs[best.value]) > 0 then Some(n)
      else best
  }

  function Best(cs: seq<Option<Dataset>>): (best: Option<Dataset>) {
    var i := BestIndex(cs);
    if i.None? then None else cs[i.value]
  }

  method ChooseBest(cs: seq<Option<Dataset>>) returns (best: Option<nat>)
    ensures best == BestIndex(cs)
  {
    best := None;
    for n := 0 to |cs|
      invariant best == BestIndex(cs[..n])
    {
      assert cs[..n + 1][..n] == cs[..n];
      if cs[n].Some? {
        if best.None? || Dscmp(cs[n], cs[best.value]) > 0 {
          best := Some(n);
        }
      }
    }
    assert cs[..|cs|] == cs;
  }

  /** The data sets on offer. */
  ghost function Offered(cs: seq<Option<Dataset>>): set<Dataset> {
    set i | 0 <= i < |cs| && cs[i].Some? :: cs[i].value
  }

  /** One grandmaster is announced alike by all data sets on offer. */
  ghost predicate Agreeing(ds: set<Dataset>) {
    forall a, b :: a in ds && b in ds ==> Consistent(a, b)
  }

  /** No data set on offer has a smaller key. */
  ghost predicate IsBest(d: Dataset, ds: set<Dataset>) {
    d in ds && forall e :: e in ds ==> MemCmp(Key(d), Key(e)) <= 0
  }

  /** No data set on offer meets a best one in "error-1". */
  ghost predicate Undisputed(ds: set<Dataset>) {
    forall m, x :: IsBest(m, ds) && x in ds ==> !ErrorOne(x, m)
  }

  lemma {:induction false} BestExists(ds: set<Dataset>) returns (m: Dataset)
    requires ds != {}
    ensures IsBest(m, ds)
  {
    var d :| d in ds;
    var rest := ds - {d};
    if rest == {} {
      assert ds == {d};
      MemCmpAntisymmetric(Key(d), Key(d));
      m := d;
    } else {
      var b := BestExists(rest);
      BestOfBoth(b, rest, d);
      assert ds == rest + {d};
      m := if MemCmp(Key(d), Key(b)) <= 0 then d else b;
    }
  }

  lemma BestOfBoth(b: Dataset, ds: set<Dataset>, d: Dataset)
    requires IsBest(b, ds)
    ensures IsBest(if MemCmp(Key(d), Key(b)) <= 0 then d else b, ds + {d})
  {
    hide MemCmp, Key;
    MemCmpAntisymmetric(Key(d), Key(b));
    MemCmpAntisymmetric(Key(d), Key(d));
    if MemCmp(Key(d), Key(b)) <= 0 {
      forall e | e in ds
        ensures MemCmp(Key(d), Key(e)) <= 0
      {
        MemCmpTransitive(Key(d), Key(b), Key(e));
      }
    }
  }

  lemma BestKeysAgree(m: Dataset, n: Dataset, ds: set<Dataset>)
    requires IsBest(m, ds) && IsBest(n, ds)
    ensures Key(m) == Key(n)
  {
    hide Key;
    MemCmpAntisymmetric(Key(m), Key(n));
  }

  /** A best data set beats or equals every other one, unless they meet in "error-1"; then neither beats the other. */
  lemma BestAgainst(m: Dataset, x: Dataset, ds: set<Dataset>)
    requires Agreeing(ds) && IsBest(m, ds) && x in ds
    ensures Dscmp(Some(x), Some(m)) <= 0
    ensures IsBest(x, ds) ==> !ErrorOne(x, m)
    ensures ErrorOne(x, m) ==>
              x.stepsRemoved == m.stepsRemoved + 1 && x.receiver == x.sender && Dscmp(Some(m), Some(x)) == 0
    ensures !ErrorOne(x, m) && !IsBest(x, ds) ==> Dscmp(Some(m), Some(x)) > 0
  {
    DscmpAntisymmetric(Some(m), Some(x));
    if ErrorOne(x, m) {
      ShorterIsBetter(m, x);
      ErrorOneIsNeutral(x, m);
      if IsBest(x, ds) {
        ShorterIsBetter(x, m);
      }
    } else {
      hide Dscmp, Key, MemCmp;
      DscmpIsKeyOrder(x, m);
      MemCmpAntisymmetric(Key(x), Key(m));
      if MemCmp(Key(m), Key(x)) == 0 {
        assert Key(m) == Key(x);
      }
    }
  }

  lemma ShorterIsBetter(a: Dataset, b: Dataset)
    requires a.identity == b.identity && Rank(a) == Rank(b) && MemCmp(Key(a), Key(b)) <= 0
    ensures a.stepsRemoved <= b.stepsRemoved
  {
    MemCmpConcat(Rank(a), a.identity + Path(a), Rank(b), b.identity + Path(b));
    MemCmpConcat(a.identity, Path(a), b.identity, Path(b));
    assert Path(a)[0] == a.stepsRemoved && Path(b)[0] == b.stepsRemoved;
  }

  lemma ErrorOneIsNeutral(x: Dataset, m: Dataset)
    requires ErrorOne(x, m)
    ensures Dscmp(Some(x), Some(m)) == 0 == Dscmp(Some(m), Some(x))
  {
    BytesInjective(x.receiver, x.sender);
    BytesInjective(m.receiver, m.sender);
  }

  /** The last candidate against the best of those before it. */
  lemma BestStep(cs: seq<Option<Dataset>>)
    requires cs != [] && cs[|cs| - 1].Some?
    ensures var n := |cs| - 1;
            && Offered(cs) == Offered(cs[..n]) + {cs[n].value} && (Best(cs[..n]).Some? <==> Offered(cs[..n]) != {})
            && (Best(cs[..n]).Some? ==> Best(cs[..n]).value in Offered(cs[..n]))
            && Best(cs) == if Best(cs[..n]).None? || Dscmp(cs[n], Best(cs[..n])) > 0 then cs[n] else Best(cs[..n])
  {
    var n := |cs| - 1;
    var before := cs[..n];
    assert forall i :: 0 <= i < n ==> before[i] == cs[i];
    assert Offered(cs) == Offered(before) + {cs[n].value};
    if Best(before).None? {
      assert Offered(before) == {};
    } else {
      assert before[BestIndex(before).value].value in Offered(before);
    }
  }

  lemma BestSkips(cs: seq<Option<Dataset>>)
    requires cs != [] && cs[|cs| - 1].None?
    ensures Best(cs) == Best(cs[..|cs| - 1]) && Offered(cs) == Offered(cs[..|cs| - 1])
  {
    var n := |cs| - 1;
    assert forall i :: 0 <= i < n ==> cs[..n][i] == cs[i];
  }

  /** A loop that meets a best one of all data sets on offer ends with one, as long as the best ones are undisputed. */
  lemma {:induction false} BestIsBest(cs: seq<Option<Dataset>>, ds: set<Dataset>)
    requires Agreeing(ds) && Undisputed(ds) && Offered(cs) <= ds
    ensures Best(cs).None? <==> Offered(cs) == {}
    ensures Best(cs).Some? ==> Best(cs).value in Offered(cs)
    ensures (exists m :: m in Offered(cs) && IsBest(m, ds)) ==> Best(cs).Some? && IsBest(Best(cs).value, ds)
  {
    hide Dscmp, Key, MemCmp, ErrorOne, IsBest;
    if cs == [] {
      assert Offered(cs) == {} && Best(cs).None?;
    } else if cs[|cs| - 1].None? {
      BestSkips(cs);
      BestIsBest(cs[..|cs| - 1], ds);
    } else {
      var n := |cs| - 1;
      BestStep(cs);
      BestIsBest(cs[..n], ds);
      var d := cs[n].value;
      if Best(cs[..n]).Some? {
        var e := Best(cs[..n]).value;
        if IsBest(e, ds) {
          BestAgainst(e, d, ds);
        } else if IsBest(d, ds) {
          BestAgainst(d, e, ds);
        }
      }
    }
  }

  // ----- when the order of the candidates matters

  lemma Listing(ds: set<Dataset>) returns (cs: seq<Option<Dataset>>)
    ensures Offered(cs) == ds && forall i :: 0 <= i < |cs| ==> cs[i].Some?
  {
    cs := [];
    var left := ds;
    while left != {}
      invariant left <= ds && Offered(cs) == ds - left && forall i :: 0 <= i < |cs| ==> cs[i].Some?
      decreases left
    {
      var d :| d in left;
      ghost var before := cs;
      cs := cs + [Some(d)];
      assert cs[..|cs| - 1] == before;
      BestStep(cs);
      left := left - {d};
    }
  }

  lemma OfferedBoth(cs: seq<Option<Dataset>>, ds: seq<Option<Dataset>>)
    ensures Offered(cs + ds) == Offered(cs) + Offered(ds)
  {
    var all := cs + ds;
    forall d | d in Offered(cs) + Offered(ds)
      ensures d in Offered(all)
    {
      if d in Offered(cs) {
        var i :| 0 <= i < |cs| && cs[i] == Some(d);
        assert all[i] == Some(d);
      } else {
        var i :| 0 <= i < |ds| && ds[i] == Some(d);
        assert all[|cs| + i] == Some(d);
      }
    }
  }

  /** After x, candidates that x meets in "error-1" are never chosen. */
  lemma {:induction false} Hidden(x: Dataset, ks: seq<Option<Dataset>>, rs: seq<Option<Dataset>>)
    requires forall k :: k in Offered(ks) ==> ErrorOne(x, k)
    requires (forall i :: 0 <= i < |ks| ==> ks[i].Some?) && forall i :: 0 <= i < |rs| ==> rs[i].Some?
    ensures var b := Best([Some(x)] + ks + rs);
            b.Some? && b.value in {x} + Offered(rs)
    decreases |rs|, |ks|
  {
    hide Dscmp, ErrorOne;
    var all := [Some(x)] + ks + rs;
    var n := |all| - 1;
    if rs != [] {
      var m := |rs| - 1;
      assert all[..n] == [Some(x)] + ks + rs[..m];
      Hidden(x, ks, rs[..m]);
      BestStep(all);
      BestStep(rs);
    } else if ks != [] {
      var m := |ks| - 1;
      assert all[..n] == [Some(x)] + ks[..m] + [];
      BestStep(ks);
      Hidden(x, ks[..m], []);
      BestStep(all);
      ErrorOneIsNeutral(x, ks[m].value);
      assert Offered(rs) == {} && Offered(rs[..0]) == {};
    } else {
      assert all == [Some(x)] && all[..0] == [];
    }
  }

  /** An order in which the loop misses the best ones. */
  lemma MissingOrder(ds: set<Dataset>, m: Dataset, x: Dataset) returns (cs: seq<Option<Dataset>>)
    requires Agreeing(ds) && IsBest(m, ds) && x in ds && ErrorOne(x, m)
    ensures Offered(cs) == ds && Best(cs).Some? && !IsBest(Best(cs).value, ds)
  {
    hide Dscmp, Key, MemCmp;
    var bests := set k | k in ds && IsBest(k, ds);
    BestAgainst(m, x, ds);
    var ks := Listing(bests);
    var rs := Listing(ds - bests - {x});
    forall k | k in bests
      ensures ErrorOne(x, k)
    {
      BestKeysAgree(m, k, ds);
      KeyTells(m, k);
    }
    Hidden(x, ks, rs);
    cs := [Some(x)] + ks + rs;
    OfferedBoth([Some(x)] + ks, rs);
    OfferedBoth([Some(x)], ks);
    OfferedOne(x);
    assert ds == {x} + bests + (ds - bests - {x});
  }

  lemma OfferedOne(x: Dataset)
    ensures Offered([Some(x)]) == {x}
  {
    assert [Some(x)][0] == Some(x);
  }

  lemma KeyTells(a: Dataset, b: Dataset)
    requires Key(a) == Key(b)
    ensures a.identity == b.identity && a.stepsRemoved == b.stepsRemoved
  {
    assert Key(a)[5..13] == a.identity && Key(b)[5..13] == b.identity;
    assert Key(a)[13] == a.stepsRemoved && Key(b)[13] == b.stepsRemoved;
  }

  /** An order that begins with a best one finds a best one, disputed or not. */
  lemma {:induction false} FirstStays(ds: set<Dataset>, m: Dataset, cs: seq<Option<Dataset>>)
    requires Agreeing(ds) && IsBest(m, ds) && Offered(cs) <= ds && cs != [] && cs[0] == Some(m)
    ensures Best(cs) == Some(m)
  {
    hide Dscmp, Key, MemCmp, IsBest;
    var n := |cs| - 1;
    if n == 0 {
      assert cs[..0] == [];
      BestStep(cs);
    } else if cs[n].None? {
      BestSkips(cs);
      FirstStays(ds, m, cs[..n]);
    } else {
      BestStep(cs);
      FirstStays(ds, m, cs[..n]);
      BestAgainst(m, cs[n].value, ds);
    }
  }

  /**
   The exact condition for the loop: whatever the order of the candidates, it ends with one that
   has the least key, if and only if no candidate meets a best one in "error-1".
   */
  lemma BestIsBestExactly(ds: set<Dataset>)
    requires Agreeing(ds)
    ensures Undisputed(ds) <==>
            forall cs :: Offered(cs) == ds && ds != {} ==> Best(cs).Some? && IsBest(Best(cs).value, ds)
  {
    hide Dscmp, Key, MemCmp, ErrorOne, IsBest, Best;
    if Undisputed(ds) {
      forall cs | Offered(cs) == ds && ds != {}
        ensures Best(cs).Some? && IsBest(Best(cs).value, ds)
      {
        var m := BestExists(ds);
        BestIsMember(m, ds);
        BestIsBest(cs, ds);
      }
    } else {
      var m, x :| IsBest(m, ds) && x in ds && ErrorOne(x, m);
      var cs := MissingOrder(ds, m, x);
    }
  }

  lemma BestIsMember(m: Dataset, ds: set<Dataset>)
    requires IsBest(m, ds)
    ensures m in ds
  {
  }

  /**
   And under the same condition, and no other, the key of the winner does not depend on the order of the candidates.
   */
  lemma BestIgnoresOrder(ds: set<Dataset>)
    requires Agreeing(ds)
    ensures Undisputed(ds) <==>
            forall cs, cs' :: Offered(cs) == ds == Offered(cs') && ds != {} ==>
              Best(cs).Some? && Best(cs').Some? && Key(Best(cs).value) == Key(Best(cs').value)
  {
    hide Dscmp, Key, MemCmp, ErrorOne, IsBest, Best;
    BestIsBestExactly(ds);
    if Undisputed(ds) {
      forall cs, cs' | Offered(cs) == ds == Offered(cs') && ds != {}
        ensures Best(cs).Some? && Best(cs').Some? && Key(Best(cs).value) == Key(Best(cs').value)
      {
        BestKeysAgree(Best(cs).value, Best(cs').value, ds);
      }
    } else {
      var m, x :| IsBest(m, ds) && x in ds && ErrorOne(x, m);
      var cs := MissingOrder(ds, m, x);
      var rest := Listing(ds);
      var cs' := [Some(m)] + rest;
      OfferedBoth([Some(m)], rest);
      OfferedOne(m);
      BestIsMember(m, ds);
      assert Offered(cs') == ds;
      FirstStays(ds, m, cs');
      if Key(Best(cs).value) == Key(m) {
        BestByKey(ds, m, Best(cs).value, cs);
      }
    }
  }

  lemma BestByKey(ds: set<Dataset>, m: Dataset, d: Dataset, cs: seq<Option<Dataset>>)
    requires IsBest(m, ds) && Key(d) == Key(m) && Best(cs) == Some(d) && Offered(cs) == ds
    ensures IsBest(d, ds)
  {
    hide Key, MemCmp;
    var i := BestIndex(cs).value;
    assert cs[i] == Some(d);
  }

  /**
   In "error-1" the loop may end with a data set that another candidate beats: the first
   candidate, heard from the parent port, hides the second and then loses to the third.
   */
  lemma ErrorOneHidesTheBest(d1: Dataset, d2: Dataset, d3: Dataset)
    requires d1.identity == d2.identity == d3.identity && Rank(d1) == Rank(d2) == Rank(d3)
    requires d1.stepsRemoved == d3.stepsRemoved == d2.stepsRemoved + 1
    requires d1.receiver == d1.sender && d3.receiver != d3.sender
    requires MemCmp(d3.sender.Bytes(), d1.sender.Bytes()) < 0
    ensures Best([Some(d1), Some(d2), Some(d3)]) == Some(d3)
    ensures Dscmp(Some(d2), Some(d3)) > 0
  {
    var cs := [Some(d1), Some(d2), Some(d3)];
    assert cs[..2] == [Some(d1), Some(d2)] && cs[..2][..1] == [Some(d1)] && cs[..2][..1][..0] == [];
    BytesInjective(d3.sender, d3.receiver);
    BytesInjective(d1.sender, d1.receiver);
    assert BestIndex(cs[..2][..1]) == Some(0);
    assert Dscmp(Some(d2), Some(d1)) == 0;
    assert BestIndex(cs[..2]) == Some(0);
    assert Dscmp(Some(d3), Some(d1)) > 0;
    assert BestIndex(cs) == Some(2);
  }
}
