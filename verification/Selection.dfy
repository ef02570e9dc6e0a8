/**
 Selection of the true time from a number of uncertain offsets (`filter` and `select_clock` in clock.c),
 after the selection algorithm in section 11.2.1 of RFC 5905.
 */
module Selection {
  import opened Prelude

  // ----- sorting in place

  ghost predicate SortedBy<T>(s: seq<T>, key: T -> int) {
    forall i, j :: 0 <= i <= j < |s| ==> key(s[i]) <= key(s[j])
  }

  /** The first smallest element of a[i..]. */
  method FindMin<T>(a: array<T>, i: nat, key: T -> int) returns (m: nat)
    requires i < a.Length
    ensures i <= m < a.Length
    ensures forall j :: i <= j < a.Length ==> key(a[m]) <= key(a[j])
    ensures forall j :: i <= j < m ==> key(a[m]) < key(a[j])
  {
    m := i;
    var min := key(a[i]);
    for j := i to a.Length
      invariant i <= m < a.Length && min == key(a[m])
      invariant forall h :: i <= h < j ==> min <= key(a[h])
      invariant forall h :: i <= h < m ==> min < key(a[h])
    {
      if min > key(a[j]) {
        min, m := key(a[j]), j;
      }
    }
  }

  method Swap<T>(a: array<T>, i: nat, m: nat)
    requires i <= m < a.Length
    modifies a
    ensures a[..] == old(a[..])[i := old(a[m])][m := old(a[i])]
    ensures multiset(a[..]) == multiset(old(a[..]))
  {
    a[i], a[m] := a[m], a[i];
    assert a[..] == old(a[..])[i := old(a[m])][m := old(a[i])];
  }

  method SelectionSort<T>(a: array<T>, key: T -> int)
    modifies a
    ensures multiset(a[..]) == multiset(old(a[..]))
    ensures SortedBy(a[..], key)
  {
    for i := 0 to a.Length
      invariant multiset(a[..]) == multiset(old(a[..]))
      invariant forall h, j :: 0 <= h < i && h <= j < a.Length ==> key(a[h]) <= key(a[j])
    {
      var m := FindMin(a, i, key);
      Swap(a, i, m);
    }
  }

  // ----- intervals and their end points

  datatype Interval = Interval(offset: int, low: int, up: int)

  datatype Kind = Low | Mid | High

  datatype Point = Point(kind: Kind, offset: int)

  datatype Bound = Bound(low: int, up: int)

  function PointsOf(iv: Interval): seq<Point> {
    [Point(Low, iv.low), Point(Mid, iv.offset), Point(High, iv.up)]
  }

  function Points(ivs: seq<Interval>): (ps: seq<Point>)
    ensures |ps| == 3 * |ivs|
  {
    if ivs == [] then [] else Points(ivs[..|ivs| - 1]) + PointsOf(ivs[|ivs| - 1])
  }

  /** A point of the kind, with an offset of at most the limit if there is one. */
  predicate Counts(p: Point, k: Kind, limit: Option<int>) {
    p.kind == k && (limit.None? || p.offset <= limit.value)
  }

  /** How many of the first i points count. */
  function CountTo(ps: seq<Point>, i: nat, k: Kind, limit: Option<int>): (n: nat)
    requires i <= |ps|
    ensures n <= i
  {
    if i == 0 then 0 else CountTo(ps, i - 1, k, limit) + (if Counts(ps[i - 1], k, limit) then 1 else 0)
  }

  /** How many of the first i points are of a kind. */
  function Tally(ps: seq<Point>, i: nat, k: Kind): nat
    requires i <= |ps|
  {
    CountTo(ps, i, k, None)
  }

  /** How many points of a kind have an offset of at most x. */
  function Count(ps: seq<Point>, k: Kind, x: int): nat {
    CountTo(ps, |ps|, k, Some(x))
  }

  lemma {:induction false} CountPrefix(a: seq<Point>, b: seq<Point>, i: nat, k: Kind, limit: Option<int>)
    requires i <= |a| && i <= |b| && a[..i] == b[..i]
    ensures CountTo(a, i, k, limit) == CountTo(b, i, k, limit)
  {
    if i > 0 {
      assert a[..i - 1] == a[..i][..i - 1] == b[..i][..i - 1] == b[..i - 1];
      assert a[i - 1] == a[..i][i - 1] == b[..i][i - 1] == b[i - 1];
      CountPrefix(a, b, i - 1, k, limit);
    }
  }

  lemma {:induction false} CountMonotone(ps: seq<Point>, i: nat, j: nat, k: Kind, limit: Option<int>)
    requires i <= j <= |ps|
    ensures CountTo(ps, i, k, limit) <= CountTo(ps, j, k, limit)
    decreases j
  {
    if i < j {
      CountMonotone(ps, i, j - 1, k, limit);
    }
  }

  lemma {:induction false} CountConcat(a: seq<Point>, b: seq<Point>, j: nat, k: Kind, limit: Option<int>)
    requires j <= |b|
    ensures CountTo(a + b, |a| + j, k, limit) == CountTo(a, |a|, k, limit) + CountTo(b, j, k, limit)
  {
    if j == 0 {
      CountPrefix(a + b, a, |a|, k, limit);
    } else {
      CountConcat(a, b, j - 1, k, limit);
    }
  }

  /** Counting does not depend on the order of the points. */
  lemma {:induction false} CountPermuted(a: seq<Point>, b: seq<Point>, k: Kind, limit: Option<int>)
    requires multiset(a) == multiset(b)
    ensures CountTo(a, |a|, k, limit) == CountTo(b, |b|, k, limit)
    decreases |a|
  {
    if a == [] {
      assert |b| == |multiset(b)| == 0;
    } else {
      var n := |a| - 1;
      var j := Position(b, a[n]);
      Removed(a, b, j);
      CountPermuted(a[..n], b[..j] + b[j + 1..], k, limit);
      CountPrefix(a, a[..n], n, k, limit);
      CountWithout(b, j, k, limit);
    }
  }

  lemma CountWithout(b: seq<Point>, j: nat, k: Kind, limit: Option<int>)
    requires j < |b|
    ensures var c := b[..j] + b[j + 1..];
            CountTo(b, |b|, k, limit) == CountTo(c, |c|, k, limit) + (if Counts(b[j], k, limit) then 1 else 0)
  {
    var l, r := b[..j + 1], b[j + 1..];
    assert b == l + r;
    CountConcat(l, r, |r|, k, limit);
    CountPrefix(l, b[..j], j, k, limit);
    CountConcat(b[..j], r, |r|, k, limit);
  }

  lemma Position(b: seq<Point>, p: Point) returns (j: nat)
    requires p in multiset(b)
    ensures j < |b| && b[j] == p
  {
    assert p in b;
    j :| j < |b| && b[j] == p;
  }

  lemma Removed(a: seq<Point>, b: seq<Point>, j: nat)
    requires a != [] && multiset(a) == multiset(b) && j < |b| && b[j] == a[|a| - 1]
    ensures multiset(a[..|a| - 1]) == multiset(b[..j] + b[j + 1..])
  {
    var n := |a| - 1;
    assert a == a[..n] + [a[n]];
    assert b == b[..j] + [b[j]] + b[j + 1..];
    assert multiset(a[..n]) == multiset(a) - multiset{a[n]};
    assert multiset(b[..j] + b[j + 1..]) == multiset(b) - multiset{b[j]};
  }

  ghost predicate Ordered(ps: seq<Point>) {
    forall i, j :: 0 <= i <= j < |ps| ==> ps[i].offset <= ps[j].offset
  }

  // ----- the two scans

  /** Intervals entered less intervals left, before the point at i. */
  function Rise(ps: seq<Point>, i: nat): int
    requires i <= |ps|
  {
    Tally(ps, i, Low) - Tally(ps, i, High)
  }

  /** How many points are of a kind, from the one at i on. */
  function TallyFrom(ps: seq<Point>, i: nat, k: Kind): int
    requires i <= |ps|
  {
    Tally(ps, |ps|, k) - Tally(ps, i, k)
  }

  /** The same from the other end: intervals entered less intervals left, from the point at i on. */
  function Fall(ps: seq<Point>, i: nat): int
    requires i <= |ps|
  {
    TallyFrom(ps, i, High) - TallyFrom(ps, i, Low)
  }

  /** Where the ascending scan, at i, first finds itself in enough intervals; |ps| if never. */
  function UpIndex(ps: seq<Point>, need: int, i: nat): (r: nat)
    requires i <= |ps|
    ensures i <= r <= |ps|
    decreases |ps| - i
  {
    if i == |ps| then i else if Rise(ps, i + 1) >= need then i else UpIndex(ps, need, i + 1)
  }

  lemma {:induction false} UpIndexIsFirst(ps: seq<Point>, need: int, i: nat)
    requires i <= |ps|
    ensures var r := UpIndex(ps, need, i);
            && (r < |ps| ==> Rise(ps, r + 1) >= need)
            && forall j :: i < j <= r ==> Rise(ps, j) < need
    decreases |ps| - i
  {
    if i < |ps| && Rise(ps, i + 1) < need {
      UpIndexIsFirst(ps, need, i + 1);
    }
  }

  /** Where the descending scan, about to look at i - 1, first finds itself in enough intervals; -1 if never. */
  function DownIndex(ps: seq<Point>, need: int, i: nat): (r: int)
    requires i <= |ps|
    ensures -1 <= r < i
  {
    if i == 0 then -1 else if Fall(ps, i - 1) >= need then i - 1 else DownIndex(ps, need, i - 1)
  }

  lemma {:induction false} DownIndexIsLast(ps: seq<Point>, need: int, i: nat)
    requires i <= |ps|
    ensures var r := DownIndex(ps, need, i);
            && (r >= 0 ==> Fall(ps, r) >= need)
            && forall j :: r < j < i ==> Fall(ps, j) < need
  {
    if i > 0 && Fall(ps, i - 1) < need {
      DownIndexIsLast(ps, need, i - 1);
    }
  }

  /** Midpoints passed by the ascending scan. */
  function PassedUp(ps: seq<Point>, up: nat): nat
    requires up <= |ps|
  {
    Tally(ps, if up < |ps| then up + 1 else up, Mid)
  }

  /** Midpoints passed by the descending scan. */
  function PassedDown(ps: seq<Point>, down: int): int
    requires -1 <= down <= |ps|
  {
    TallyFrom(ps, if down < 0 then 0 else down, Mid)
  }

  function Passed(ps: seq<Point>, up: nat, down: int): int
    requires up <= |ps| && -1 <= down <= |ps|
  {
    PassedUp(ps, up) + PassedDown(ps, down)
  }

  /** Both scans stop, at most f midpoints lie outside and the bounds are in order. */
  predicate AcceptsAt(ps: seq<Point>, f: nat, up: nat, down: int)
    requires up <= |ps| && -1 <= down < |ps|
  {
    up < |ps| && down >= 0 && Passed(ps, up, down) <= f && ps[up].offset < ps[down].offset
  }

  predicate Accepts(ps: seq<Point>, m: nat, f: nat) {
    AcceptsAt(ps, f, UpIndex(ps, m - f, 0), DownIndex(ps, m - f, |ps|))
  }

  function BoundFor(ps: seq<Point>, m: nat, f: nat): Bound
    requires Accepts(ps, m, f)
  {
    Bound(ps[UpIndex(ps, m - f, 0)].offset, ps[DownIndex(ps, m - f, |ps|)].offset)
  }

  /** The numbers of falsetickers that are tried. */
  predicate Tried(m: nat, f: nat) {
    f == 0 || f < m / 2
  }

  /** The first number of falsetickers, from f on, that is accepted. */
  function Search(ps: seq<Point>, m: nat, f: nat): (r: Option<nat>)
    ensures r.Some? ==> Accepts(ps, m, r.value)
    decreases m - f
  {
    if Accepts(ps, m, f) then Some(f) else if f + 1 >= m / 2 then None else Search(ps, m, f + 1)
  }

  method ScanUp(ps: array<Point>, need: int, l0: int) returns (ghost up: nat, d: nat, l: int)
    ensures up == UpIndex(ps[..], need, 0)
    ensures d == PassedUp(ps[..], up)
    ensures l == if up < ps.Length then ps[..][up].offset else l0
  {
    var c, i := 0, 0;
    d, l := 0, l0;
    ghost var s := ps[..];
    while i < ps.Length
      invariant i <= ps.Length && c == Rise(s, i) && d == Tally(s, i, Mid)
      invariant UpIndex(s, need, i) == UpIndex(s, need, 0)
    {
      match ps[i].kind {
        case Low => c := c + 1;
        case Mid => d := d + 1;
        case High => c := c - 1;
      }
      if c >= need {
        l := ps[i].offset;
        return i, d, l;
      }
      i := i + 1;
    }
    up := i;
  }

  method ScanDown(ps: array<Point>, need: int, u0: int) returns (ghost down: int, d: int, u: int)
    ensures down == DownIndex(ps[..], need, ps.Length)
    ensures d == PassedDown(ps[..], down)
    ensures u == if down >= 0 then ps[..][down].offset else u0
  {
    var c, i := 0, ps.Length - 1;
    d, u := 0, u0;
    ghost var s := ps[..];
    while i >= 0
      invariant -1 <= i < ps.Length && c == Fall(s, i + 1) && d == TallyFrom(s, i + 1, Mid)
      invariant DownIndex(s, need, i + 1) == DownIndex(s, need, ps.Length)
    {
      match ps[i].kind {
        case High => c := c + 1;
        case Mid => d := d + 1;
        case Low => c := c - 1;
      }
      if c >= need {
        u := ps[i].offset;
        return i, d, u;
      }
      i := i - 1;
    }
    down := i;
  }

  /** `select_clock`.  The bounds keep their values from one number of falsetickers to the next. */
  method SelectClock(ivs: seq<Interval>) returns (r: Option<Bound>, ghost ps: seq<Point>)
    ensures Ordered(ps) && multiset(ps) == multiset(Points(ivs))
    ensures var f := Search(ps, |ivs|, 0);
            r == if f.None? then None else Some(BoundFor(ps, |ivs|, f.value))
  {
    var pts := Collect(ivs);
    SelectionSort(pts, (p: Point) => p.offset);
    ps := pts[..];
    CountPermuted(ps, Points(ivs), Mid, None);
    TallyPoints(ivs, Mid);
    r := SelectSorted(pts, |ivs|);
  }

  /** Both scans for one number of falsetickers. */
  method Attempt(pts: array<Point>, m: nat, f: nat, l0: int, u0: int) returns (ok: bool, l: int, u: int)
    requires Tally(pts[..], pts.Length, Mid) == m && Tried(m, f) && (m == 0 ==> pts.Length == 0 && l0 == u0)
    ensures ok <==> Accepts(pts[..], m, f)
    ensures ok ==> Bound(l, u) == BoundFor(pts[..], m, f)
    ensures m == 0 ==> l == u
  {
    ghost var ps := pts[..];
    ghost var up, down;
    var d1, d2;
    up, d1, l := ScanUp(pts, m - f, l0);
    down, d2, u := ScanDown(pts, m - f, u0);
    StaleBoundsFail(ps, m, f, up, down, l, u);
    ok := d1 + d2 <= f && l < u;
  }

  method SelectSorted(pts: array<Point>, m: nat) returns (r: Option<Bound>)
    requires Tally(pts[..], pts.Length, Mid) == m && (m == 0 ==> pts.Length == 0)
    ensures var f := Search(pts[..], m, 0);
            r == if f.None? then None else Some(BoundFor(pts[..], m, f.value))
  {
    ghost var ps := pts[..];
    var f, l, u := 0, 0, 0;
    while true
      invariant ps == pts[..] && Tried(m, f)
      invariant Search(ps, m, f) == Search(ps, m, 0)
      invariant m == 0 ==> l == u
      decreases m - f
    {
      var ok;
      ok, l, u := Attempt(pts, m, f, l, u);
      if ok {
        return Some(Bound(l, u));
      }
      f := f + 1;
      if f >= m / 2 {
        return None;
      }
    }
  }

  /** A scan that finds nothing passes every midpoint, so bounds left over from an earlier round are never accepted. */
  lemma StaleBoundsFail(ps: seq<Point>, m: nat, f: nat, up: nat, down: int, l: int, u: int)
    requires Tally(ps, |ps|, Mid) == m && Tried(m, f) && up <= |ps| && -1 <= down < |ps|
    requires m == 0 ==> ps == [] && l == u
    requires up < |ps| ==> l == ps[up].offset
    requires down >= 0 ==> u == ps[down].offset
    ensures PassedUp(ps, up) + PassedDown(ps, down) <= f && l < u <==> AcceptsAt(ps, f, up, down)
  {
    CountMonotone(ps, if down < 0 then 0 else down, |ps|, Mid, None);
  }

  method Collect(ivs: seq<Interval>) returns (pts: array<Point>)
    ensures fresh(pts) && pts[..] == Points(ivs)
  {
    pts := new Point[3 * |ivs|](_ => Point(Low, 0));
    for i := 0 to |ivs|
      invariant pts[..3 * i] == Points(ivs[..i])
    {
      var j := 3 * i;
      ghost var before := pts[..j];
      pts[j] := Point(Low, ivs[i].low);
      pts[j + 1] := Point(Mid, ivs[i].offset);
      pts[j + 2] := Point(High, ivs[i].up);
      assert ivs[..i + 1][..i] == ivs[..i];
      assert pts[..3 * (i + 1)] == before + PointsOf(ivs[i]);
    }
    assert ivs[..|ivs|] == ivs && pts[..] == pts[..3 * |ivs|];
  }

  lemma {:induction false} TallyPoints(ivs: seq<Interval>, k: Kind)
    ensures Tally(Points(ivs), 3 * |ivs|, k) == |ivs|
  {
    if ivs != [] {
      var n := |ivs| - 1;
      TallyPoints(ivs[..n], k);
      CountConcat(Points(ivs[..n]), PointsOf(ivs[n]), 3, k, None);
      CountThree(ivs[n], k, None);
    }
  }

  /** The point of a kind that an interval contributes. */
  function PointOf(iv: Interval, k: Kind): Point {
    Point(k, match k case Low => iv.low case Mid => iv.offset case High => iv.up)
  }

  lemma CountThree(iv: Interval, k: Kind, limit: Option<int>)
    ensures CountTo(PointsOf(iv), 3, k, limit) == if Counts(PointOf(iv, k), k, limit) then 1 else 0
  {
    assert CountTo(PointsOf(iv), 1, k, limit) == if Counts(PointOf(iv, Low), k, limit) then 1 else 0;
  }

  // ----- what the counts of a sorted list say

  /** Points that all have an offset of at most x are among those counted up to x. */
  lemma TallyAtMost(ps: seq<Point>, i: nat, k: Kind, x: int)
    requires i <= |ps| && forall j :: 0 <= j < i ==> ps[j].offset <= x
    ensures Tally(ps, i, k) <= Count(ps, k, x)
  {
    PrefixCounts(ps, i, k, x);
    CountMonotone(ps, i, |ps|, k, Some(x));
  }

  lemma {:induction false} PrefixCounts(ps: seq<Point>, i: nat, k: Kind, x: int)
    requires i <= |ps| && forall j :: 0 <= j < i ==> ps[j].offset <= x
    ensures Tally(ps, i, k) == CountTo(ps, i, k, Some(x))
  {
    if i > 0 {
      PrefixCounts(ps, i - 1, k, x);
    }
  }

  /** When all other points lie beyond x, every point counted up to x is among the first i. */
  lemma TallyAtLeast(ps: seq<Point>, i: nat, k: Kind, x: int)
    requires i <= |ps| && forall j :: i <= j < |ps| ==> ps[j].offset > x
    ensures Count(ps, k, x) <= Tally(ps, i, k)
  {
    NothingAfter(ps, i, |ps|, k, x);
    LimitLowers(ps, i, k, x);
  }

  lemma {:induction false} NothingAfter(ps: seq<Point>, i: nat, n: nat, k: Kind, x: int)
    requires i <= n <= |ps| && forall j :: i <= j < n ==> ps[j].offset > x
    ensures CountTo(ps, n, k, Some(x)) == CountTo(ps, i, k, Some(x))
    decreases n
  {
    if i < n {
      NothingAfter(ps, i, n - 1, k, x);
    }
  }

  lemma {:induction false} LimitLowers(ps: seq<Point>, i: nat, k: Kind, x: int)
    requires i <= |ps|
    ensures CountTo(ps, i, k, Some(x)) <= Tally(ps, i, k)
  {
    if i > 0 {
      LimitLowers(ps, i - 1, k, x);
    }
  }

  /** Where the points beyond x begin. */
  lemma Boundary(ps: seq<Point>, x: int) returns (b: nat)
    requires Ordered(ps)
    ensures b <= |ps|
    ensures forall j :: 0 <= j < b ==> ps[j].offset <= x
    ensures forall j :: b <= j < |ps| ==> ps[j].offset > x
    ensures Rise(ps, b) == Count(ps, Low, x) - Count(ps, High, x)
  {
    b := 0;
    while b < |ps| && ps[b].offset <= x
      invariant b <= |ps| && forall j :: 0 <= j < b ==> ps[j].offset <= x
    {
      b := b + 1;
    }
    TallyAtMost(ps, b, Low, x);
    TallyAtLeast(ps, b, Low, x);
    TallyAtMost(ps, b, High, x);
    TallyAtLeast(ps, b, High, x);
  }

  /** Intervals entered by x less intervals left before x: how many a point is in, for proper intervals. */
  function Depth(ps: seq<Point>, x: int): int {
    Count(ps, Low, x) - Count(ps, High, x - 1)
  }

  ghost predicate Balanced(ps: seq<Point>) {
    Ordered(ps) && Tally(ps, |ps|, Low) == Tally(ps, |ps|, High)
  }

  /** A place between points that is in enough intervals gives an offset that is. */
  lemma RiseGivesDepth(ps: seq<Point>, i: nat, x: int)
    requires Ordered(ps) && i <= |ps|
    requires forall j :: 0 <= j < i ==> ps[j].offset <= x
    requires forall j :: i <= j < |ps| ==> ps[j].offset >= x
    ensures Rise(ps, i) <= Depth(ps, x)
  {
    TallyAtMost(ps, i, Low, x);
    TallyAtLeast(ps, i, High, x - 1);
  }

  /** The lower bound is an offset in enough intervals, at the low end of one of them. */
  lemma UpBound(ps: seq<Point>, need: int)
    requires Balanced(ps) && need > 0
    ensures var up := UpIndex(ps, need, 0);
            up < |ps| ==> Depth(ps, ps[up].offset) >= need && ps[up].kind == Low
  {
    UpIndexIsFirst(ps, need, 0);
    var up := UpIndex(ps, need, 0);
    if up < |ps| {
      RiseGivesDepth(ps, up + 1, ps[up].offset);
      assert up > 0 ==> Rise(ps, up) < need;
    }
  }

  /** The upper bound is an offset in enough intervals, at the high end of one of them. */
  lemma DownBound(ps: seq<Point>, need: int)
    requires Balanced(ps) && need > 0
    ensures var down := DownIndex(ps, need, |ps|);
            down >= 0 ==> Depth(ps, ps[down].offset) >= need && ps[down].kind == High
  {
    DownIndexIsLast(ps, need, |ps|);
    var down := DownIndex(ps, need, |ps|);
    if down >= 0 {
      RiseGivesDepth(ps, down, ps[down].offset);
      assert Fall(ps, down) == Rise(ps, down);
      assert down + 1 < |ps| ==> Fall(ps, down + 1) < need;
    }
  }

  /** The scans stop on either side of every offset that lies deep enough inside. */
  lemma InsideBounds(ps: seq<Point>, need: int, x: int)
    requires Balanced(ps) && need > 0
    requires Count(ps, Low, x - 1) - Count(ps, High, x - 1) >= need
    requires Count(ps, Low, x) - Count(ps, High, x) >= need
    ensures var up, down := UpIndex(ps, need, 0), DownIndex(ps, need, |ps|);
            up < |ps| && down >= 0 && ps[up].offset < x < ps[down].offset
  {
    UpIndexIsFirst(ps, need, 0);
    DownIndexIsLast(ps, need, |ps|);
    var b := Boundary(ps, x - 1);
    assert UpIndex(ps, need, 0) < b;
    var c := Boundary(ps, x);
    assert Fall(ps, c) == Rise(ps, c);
    assert c < |ps|;
    assert DownIndex(ps, need, |ps|) >= c;
  }

  /** The midpoints that no scan passed lie within the bounds. */
  lemma MidpointsInside(ps: seq<Point>, f: nat, up: nat, down: int)
    requires Ordered(ps) && up < |ps| && 0 <= down < |ps| && AcceptsAt(ps, f, up, down)
    ensures Count(ps, Mid, ps[down].offset) - Count(ps, Mid, ps[up].offset - 1) >= Tally(ps, |ps|, Mid) - f
  {
    assert up < down;
    TallyAtMost(ps, down, Mid, ps[down].offset);
    TallyAtLeast(ps, up + 1, Mid, ps[up].offset - 1);
  }

  /** And if the scans passed too many, too few lie away from the bounds. */
  lemma MidpointsMissing(ps: seq<Point>, f: nat, up: nat, down: int)
    requires Ordered(ps) && up < |ps| && 0 <= down < |ps| && ps[up].offset < ps[down].offset && Passed(ps, up, down) > f
    ensures Count(ps, Mid, ps[down].offset - 1) - Count(ps, Mid, ps[up].offset) < Tally(ps, |ps|, Mid) - f
  {
    assert up < down;
    TallyAtMost(ps, up + 1, Mid, ps[up].offset);
    TallyAtLeast(ps, down, Mid, ps[down].offset - 1);
  }

  // ----- in terms of the intervals

  /** The ends of every interval are in order. */
  predicate Proper(ivs: seq<Interval>) {
    forall i :: 0 <= i < |ivs| ==> ivs[i].low <= ivs[i].up
  }

  /** How many intervals contain x. */
  function Containing(ivs: seq<Interval>, x: int): (n: nat)
    ensures n <= |ivs|
  {
    if ivs == [] then 0
    else
      var iv := ivs[|ivs| - 1];
      Containing(ivs[..|ivs| - 1], x) + (if iv.low <= x <= iv.up then 1 else 0)
  }

  /** How many intervals contain x away from their ends. */
  function Surrounding(ivs: seq<Interval>, x: int): nat {
    if ivs == [] then 0
    else
      var iv := ivs[|ivs| - 1];
      Surrounding(ivs[..|ivs| - 1], x) + (if iv.low < x < iv.up then 1 else 0)
  }

  /** How many intervals with their ends reversed have them on both sides of x. */
  function Reversed(ivs: seq<Interval>, x: int): nat {
    if ivs == [] then 0
    else
      var iv := ivs[|ivs| - 1];
      Reversed(ivs[..|ivs| - 1], x) + (if iv.up < iv.low && iv.up <= x <= iv.low then 1 else 0)
  }

  lemma {:induction false} ProperHasNoneReversed(ivs: seq<Interval>, x: int)
    requires Proper(ivs)
    ensures Reversed(ivs, x) == 0
  {
    if ivs != [] {
      ProperHasNoneReversed(ivs[..|ivs| - 1], x);
    }
  }

  /** How many midpoints lie between a and b. */
  function MidpointsIn(ivs: seq<Interval>, a: int, b: int): nat {
    if ivs == [] then 0
    else MidpointsIn(ivs[..|ivs| - 1], a, b) + (if a <= ivs[|ivs| - 1].offset <= b then 1 else 0)
  }

  lemma PointsLast(ivs: seq<Interval>)
    requires ivs != []
    ensures Points(ivs) == Points(ivs[..|ivs| - 1]) + PointsOf(ivs[|ivs| - 1])
    ensures |PointsOf(ivs[|ivs| - 1])| == 3
  {
  }

  lemma CountLast(ivs: seq<Interval>, k: Kind, x: int)
    requires ivs != []
    ensures var n := |ivs| - 1;
            Count(Points(ivs), k, x) ==
            Count(Points(ivs[..n]), k, x) + (if PointOf(ivs[n], k).offset <= x then 1 else 0)
  {
    hide CountTo, Points, PointsOf;
    var n := |ivs| - 1;
    var before, last := Points(ivs[..n]), PointsOf(ivs[n]);
    PointsLast(ivs);
    CountConcat(before, last, 3, k, Some(x));
    CountThree(ivs[n], k, Some(x));
  }

  lemma {:induction false} DepthIsContaining(ivs: seq<Interval>, x: int)
    ensures Depth(Points(ivs), x) <= Containing(ivs, x)
  {
    if ivs != [] {
      DepthIsContaining(ivs[..|ivs| - 1], x);
      CountLast(ivs, Low, x);
      CountLast(ivs, High, x - 1);
    }
  }

  lemma {:induction false} SurroundingIsDepth(ivs: seq<Interval>, x: int)
    ensures Surrounding(ivs, x) - Reversed(ivs, x) <= Count(Points(ivs), Low, x - 1) - Count(Points(ivs), High, x - 1)
    ensures Surrounding(ivs, x) - Reversed(ivs, x) <= Count(Points(ivs), Low, x) - Count(Points(ivs), High, x)
  {
    if ivs != [] {
      SurroundingIsDepth(ivs[..|ivs| - 1], x);
      CountLast(ivs, Low, x - 1);
      CountLast(ivs, High, x - 1);
      CountLast(ivs, Low, x);
      CountLast(ivs, High, x);
    }
  }

  lemma {:induction false} MidpointsAreCounted(ivs: seq<Interval>, a: int, b: int)
    requires a <= b + 1
    ensures MidpointsIn(ivs, a, b) == Count(Points(ivs), Mid, b) - Count(Points(ivs), Mid, a - 1)
  {
    if ivs != [] {
      MidpointsAreCounted(ivs[..|ivs| - 1], a, b);
      CountLast(ivs, Mid, b);
      CountLast(ivs, Mid, a - 1);
    }
  }

  /** ps are the end points and midpoints of the intervals, sorted. */
  ghost predicate Arranged(ps: seq<Point>, ivs: seq<Interval>) {
    Ordered(ps) && multiset(ps) == multiset(Points(ivs))
  }

  lemma ArrangedCounts(ps: seq<Point>, ivs: seq<Interval>)
    requires Arranged(ps, ivs)
    ensures |ps| == 3 * |ivs| && Balanced(ps) && Tally(ps, |ps|, Mid) == |ivs|
  {
    assert |ps| == |multiset(ps)| == |Points(ivs)|;
    forall k
      ensures Tally(ps, |ps|, k) == |ivs|
    {
      CountPermuted(ps, Points(ivs), k, None);
      TallyPoints(ivs, k);
    }
  }

  /** What bounds that tolerate f falsetickers among the intervals are worth. */
  ghost predicate Trustworthy(ivs: seq<Interval>, f: nat, b: Bound) {
    && b.low < b.up
    && Containing(ivs, b.low) >= |ivs| - f && Containing(ivs, b.up) >= |ivs| - f
    && MidpointsIn(ivs, b.low, b.up) >= |ivs| - f
    && (forall x :: Surrounding(ivs, x) - Reversed(ivs, x) >= |ivs| - f ==> b.low < x < b.up)
  }

  /**
   Bounds that are accepted with f falsetickers lie in all but f of the intervals, have all but f midpoints between
   them, and enclose every offset inside all but f of the intervals, any with their ends reversed around it made up
   for.
   */
  lemma AcceptedIsTrustworthy(ps: seq<Point>, ivs: seq<Interval>, f: nat)
    requires Arranged(ps, ivs) && Tried(|ivs|, f) && Accepts(ps, |ivs|, f)
    ensures Trustworthy(ivs, f, BoundFor(ps, |ivs|, f))
  {
    hide Arranged, UpIndex, DownIndex, Passed, Containing, Surrounding, Reversed, MidpointsIn;
    var b := BoundFor(ps, |ivs|, f);
    AcceptedEnds(ps, ivs, f);
    AcceptedMidpoints(ps, ivs, f);
    forall x | Surrounding(ivs, x) - Reversed(ivs, x) >= |ivs| - f
      ensures b.low < x < b.up
    {
      SurroundedIsInside(ps, ivs, f, x);
    }
  }

  lemma {:induction false} AcceptedMidpoints(ps: seq<Point>, ivs: seq<Interval>, f: nat)
    requires Arranged(ps, ivs) && Tried(|ivs|, f) && Accepts(ps, |ivs|, f)
    ensures var b := BoundFor(ps, |ivs|, f);
            MidpointsIn(ivs, b.low, b.up) >= |ivs| - f
  {
    hide UpIndex, DownIndex, MidpointsIn, Points, CountTo;
    ArrangedCounts(ps, ivs);
    var b := BoundFor(ps, |ivs|, f);
    MidpointsInside(ps, f, UpIndex(ps, |ivs| - f, 0), DownIndex(ps, |ivs| - f, |ps|));
    MidpointsAreCounted(ivs, b.low, b.up);
    CountPermuted(ps, Points(ivs), Mid, Some(b.up));
    CountPermuted(ps, Points(ivs), Mid, Some(b.low - 1));
  }

  lemma {:induction false} AcceptedEnds(ps: seq<Point>, ivs: seq<Interval>, f: nat)
    requires Arranged(ps, ivs) && Tried(|ivs|, f) && Accepts(ps, |ivs|, f)
    ensures var b := BoundFor(ps, |ivs|, f);
            |ivs| > 0 && Containing(ivs, b.low) >= |ivs| - f && Containing(ivs, b.up) >= |ivs| - f
  {
    ArrangedCounts(ps, ivs);
    UpBound(ps, |ivs| - f);
    DownBound(ps, |ivs| - f);
    DeepIsContained(ps, ivs, BoundFor(ps, |ivs|, f).low);
    DeepIsContained(ps, ivs, BoundFor(ps, |ivs|, f).up);
  }

  lemma DeepIsContained(ps: seq<Point>, ivs: seq<Interval>, x: int)
    requires Arranged(ps, ivs)
    ensures Depth(ps, x) <= Containing(ivs, x)
  {
    CountPermuted(ps, Points(ivs), Low, Some(x));
    CountPermuted(ps, Points(ivs), High, Some(x - 1));
    DepthIsContaining(ivs, x);
  }

  lemma {:induction false} SurroundedIsInside(ps: seq<Point>, ivs: seq<Interval>, f: nat, x: int)
    requires Arranged(ps, ivs) && Tried(|ivs|, f) && |ivs| > 0 && Surrounding(ivs, x) - Reversed(ivs, x) >= |ivs| - f
    ensures var up, down := UpIndex(ps, |ivs| - f, 0), DownIndex(ps, |ivs| - f, |ps|);
            up < |ps| && down >= 0 && ps[up].offset < x < ps[down].offset
  {
    ArrangedCounts(ps, ivs);
    SurroundingIsDepth(ivs, x);
    CountPermuted(ps, Points(ivs), Low, Some(x - 1));
    CountPermuted(ps, Points(ivs), High, Some(x - 1));
    CountPermuted(ps, Points(ivs), Low, Some(x));
    CountPermuted(ps, Points(ivs), High, Some(x));
    InsideBounds(ps, |ivs| - f, x);
  }

  /** The search settles for the smallest number of falsetickers that works. */
  lemma {:induction false} SearchIsFirst(ps: seq<Point>, m: nat, f: nat)
    ensures var r := Search(ps, m, f);
            && (r.Some? ==> f <= r.value && (r.value == f || r.value < m / 2))
            && forall g :: f <= g && (g == f || g < m / 2) && (r.Some? ==> g < r.value) ==> !Accepts(ps, m, g)
    decreases m - f
  {
    if !Accepts(ps, m, f) && f + 1 < m / 2 {
      SearchIsFirst(ps, m, f + 1);
    }
  }

  /**
   Success, whatever order equal offsets were sorted in: the bounds are trustworthy for
   the smallest number of falsetickers that is accepted, and fewer than half are tolerated.
   */
  lemma SelectionIsSound(ps: seq<Point>, ivs: seq<Interval>)
    requires Arranged(ps, ivs) && Search(ps, |ivs|, 0).Some?
    ensures var f := Search(ps, |ivs|, 0).value;
            && Tried(|ivs|, f) && Trustworthy(ivs, f, BoundFor(ps, |ivs|, f))
            && forall g :: 0 <= g < f ==> !Accepts(ps, |ivs|, g)
  {
    SearchIsFirst(ps, |ivs|, 0);
    AcceptedIsTrustworthy(ps, ivs, Search(ps, |ivs|, 0).value);
  }

  /** All but f of the intervals have x inside, any with their ends reversed around it made up for. */
  predicate IsDeep(ivs: seq<Interval>, x: int, need: int) {
    Surrounding(ivs, x) - Reversed(ivs, x) >= need
  }

  /**
   Failure: for every number f that is tried, an offset deep inside all but f of the intervals does exist only if the
   midpoints contradict it: fewer than all but f of them lie strictly between the points where the scans stop.
   */
  lemma {:induction false} FailureIsJustified(ps: seq<Point>, ivs: seq<Interval>, f: nat, x: int)
    requires Arranged(ps, ivs) && |ivs| > 0 && Search(ps, |ivs|, 0).None?
    requires Tried(|ivs|, f) && IsDeep(ivs, x, |ivs| - f)
    ensures var up, down := UpIndex(ps, |ivs| - f, 0), DownIndex(ps, |ivs| - f, |ps|);
            && up < |ps| && down >= 0 && ps[up].offset < x < ps[down].offset && Passed(ps, up, down) > f
            && MidpointsIn(ivs, ps[up].offset + 1, ps[down].offset - 1) < |ivs| - f
  {
    SearchIsFirst(ps, |ivs|, 0);
    assert !Accepts(ps, |ivs|, f);
    RefusalIsJustified(ps, ivs, f, x);
  }

  lemma {:induction false} RefusalIsJustified(ps: seq<Point>, ivs: seq<Interval>, f: nat, x: int)
    requires Arranged(ps, ivs) && |ivs| > 0 && Tried(|ivs|, f) && IsDeep(ivs, x, |ivs| - f)
    requires !Accepts(ps, |ivs|, f)
    ensures var up, down := UpIndex(ps, |ivs| - f, 0), DownIndex(ps, |ivs| - f, |ps|);
            && up < |ps| && down >= 0 && ps[up].offset < x < ps[down].offset && Passed(ps, up, down) > f
            && MidpointsIn(ivs, ps[up].offset + 1, ps[down].offset - 1) < |ivs| - f
  {
    SurroundedIsInside(ps, ivs, f, x);
    ArrangedCounts(ps, ivs);
    hide UpIndex, DownIndex, MidpointsIn, Points, CountTo, Surrounding, Reversed;
    var up, down := UpIndex(ps, |ivs| - f, 0), DownIndex(ps, |ivs| - f, |ps|);
    var l, u := ps[up].offset, ps[down].offset;
    MidpointsMissing(ps, f, up, down);
    MidpointsAreCounted(ivs, l + 1, u - 1);
    CountPermuted(ps, Points(ivs), Mid, Some(u - 1));
    CountPermuted(ps, Points(ivs), Mid, Some(l));
  }

  /** How many of the midpoints of some intervals are deep inside. */
  function DeepMidpoints(some: seq<Interval>, ivs: seq<Interval>, need: int): nat {
    if some == [] then 0
    else
      DeepMidpoints(some[..|some| - 1], ivs, need)
      + (if IsDeep(ivs, some[|some| - 1].offset, need) then 1 else 0)
  }

  lemma {:induction false} DeepMidpointExists(some: seq<Interval>, ivs: seq<Interval>, need: int) returns (x: int)
    requires DeepMidpoints(some, ivs, need) > 0
    ensures IsDeep(ivs, x, need)
  {
    x := some[|some| - 1].offset;
    if !IsDeep(ivs, x, need) {
      x := DeepMidpointExists(some[..|some| - 1], ivs, need);
    }
  }

  lemma {:induction false} DeepMidpointsAreInside(some: seq<Interval>, ivs: seq<Interval>, need: int, l: int, u: int)
    requires forall x :: IsDeep(ivs, x, need) ==> l < x < u
    ensures DeepMidpoints(some, ivs, need) <= MidpointsIn(some, l + 1, u - 1)
  {
    if some != [] {
      DeepMidpointsAreInside(some[..|some| - 1], ivs, need, l, u);
    }
  }

  /**
   Success: if all but f of the midpoints lie deep inside all but f of the intervals, then the selection succeeds, with
   f falsetickers or fewer.
   */
  lemma SelectionSucceeds(ps: seq<Point>, ivs: seq<Interval>, f: nat)
    requires Arranged(ps, ivs) && |ivs| > 0 && Tried(|ivs|, f)
    requires DeepMidpoints(ivs, ivs, |ivs| - f) >= |ivs| - f
    ensures var r := Search(ps, |ivs|, 0);
            r.Some? && r.value <= f
  {
    var need := |ivs| - f;
    var x := DeepMidpointExists(ivs, ivs, need);
    SearchIsFirst(ps, |ivs|, 0);
    hide Search, Accepts, IsDeep;
    if !Accepts(ps, |ivs|, f) {
      RefusalIsJustified(ps, ivs, f, x);
      var up, down := UpIndex(ps, need, 0), DownIndex(ps, need, |ps|);
      forall y | IsDeep(ivs, y, need)
        ensures ps[up].offset < y < ps[down].offset
      {
        RefusalIsJustified(ps, ivs, f, y);
      }
      DeepMidpointsAreInside(ivs, ivs, need, ps[up].offset, ps[down].offset);
    }
  }

  /** In particular intervals that all have all midpoints inside need no falseticker. */
  lemma UnanimousIsAccepted(ps: seq<Point>, ivs: seq<Interval>)
    requires Arranged(ps, ivs) && |ivs| > 0
    requires forall i, j :: 0 <= i < |ivs| && 0 <= j < |ivs| ==> ivs[i].low < ivs[j].offset < ivs[i].up
    ensures Search(ps, |ivs|, 0) == Some(0)
  {
    AllMidpointsDeep(ivs, ivs);
    SelectionSucceeds(ps, ivs, 0);
  }

  lemma {:induction false} AllMidpointsDeep(some: seq<Interval>, ivs: seq<Interval>)
    requires forall i, j :: 0 <= i < |ivs| && 0 <= j < |some| ==> ivs[i].low < some[j].offset < ivs[i].up
    ensures DeepMidpoints(some, ivs, |ivs|) == |some|
  {
    if some != [] {
      AllMidpointsDeep(some[..|some| - 1], ivs);
      AllSurround(ivs, some[|some| - 1].offset);
    }
  }

  lemma {:induction false} AllSurround(ivs: seq<Interval>, x: int)
    requires forall i :: 0 <= i < |ivs| ==> ivs[i].low < x < ivs[i].up
    ensures Surrounding(ivs, x) == |ivs| && Reversed(ivs, x) == 0
  {
    if ivs != [] {
      AllSurround(ivs[..|ivs| - 1], x);
    }
  }

  /** Without falsetickers the bounds are exactly the intersection of all intervals. */
  lemma UnanimousIntersection(ps: seq<Point>, ivs: seq<Interval>, x: int)
    requires Arranged(ps, ivs) && Accepts(ps, |ivs|, 0)
    ensures var b := BoundFor(ps, |ivs|, 0);
            (forall i :: 0 <= i < |ivs| ==> ivs[i].low <= x <= ivs[i].up) <==> b.low <= x <= b.up
  {
    ArrangedCounts(ps, ivs);
    var m, b := |ivs|, BoundFor(ps, |ivs|, 0);
    AcceptedIsTrustworthy(ps, ivs, 0);
    AllContain(ivs, b.low);
    AllContain(ivs, b.up);
    UpBound(ps, m);
    DownBound(ps, m);
    var lo := EndPoint(ps, ivs, UpIndex(ps, m, 0));
    var hi := EndPoint(ps, ivs, DownIndex(ps, m, |ps|));
  }

  lemma {:induction false} AllContain(ivs: seq<Interval>, x: int)
    requires Containing(ivs, x) == |ivs|
    ensures forall i :: 0 <= i < |ivs| ==> ivs[i].low <= x <= ivs[i].up
  {
    if ivs != [] {
      AllContain(ivs[..|ivs| - 1], x);
    }
  }

  /** Every sorted point is the point of some interval. */
  lemma EndPoint(ps: seq<Point>, ivs: seq<Interval>, i: nat) returns (j: nat)
    requires multiset(ps) == multiset(Points(ivs)) && i < |ps|
    ensures j < |ivs| && ps[i] == PointOf(ivs[j], ps[i].kind)
  {
    assert ps[i] in multiset(Points(ivs));
    var h := Position(Points(ivs), ps[i]);
    j := Origin(ivs, h);
  }

  lemma {:induction false} Origin(ivs: seq<Interval>, h: nat) returns (j: nat)
    requires h < 3 * |ivs|
    ensures j < |ivs| && Points(ivs)[h] == PointOf(ivs[j], Points(ivs)[h].kind)
  {
    var n := |ivs| - 1;
    if h < 3 * n {
      j := Origin(ivs[..n], h);
    } else {
      j := n;
      assert Points(ivs)[h] == PointsOf(ivs[n])[h - 3 * n];
    }
  }
}
