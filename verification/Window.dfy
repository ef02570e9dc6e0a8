/** What a moving filter computes: a window of the newest samples, its median and its mean. */
module Window {
  import opened Prelude

  /** Add a sample to a window of at most len samples, dropping the oldest one when it is full. */
  function Push(w: seq<int>, x: int, len: nat): (r: seq<int>)
    requires 0 < len && |w| <= len
    ensures |r| == if |w| < len then |w| + 1 else len
  {
    if |w| < len then w + [x] else w[1..] + [x]
  }

  /** The window after a history of samples since the last reset. */
  function Replay(history: seq<int>, len: nat): (w: seq<int>)
    requires 0 < len
    ensures |w| <= len
  {
    if history == [] then [] else Push(Replay(history[..|history| - 1], len), history[|history| - 1], len)
  }

  lemma {:induction false} ReplayIsNewest(history: seq<int>, len: nat)
    requires 0 < len
    ensures Replay(history, len) == if |history| <= len then history else history[|history| - len..]
  {
    if history != [] {
      ReplayIsNewest(history[..|history| - 1], len);
      assert history == history[..|history| - 1] + [history[|history| - 1]];
    }
  }

  ghost predicate Sorted(s: seq<int>) {
    forall i :: 0 < i < |s| ==> s[i - 1] <= s[i]
  }

  function Insert(s: seq<int>, x: int): (r: seq<int>)
    ensures |r| == |s| + 1
    ensures r[0] == if s == [] || x <= s[0] then x else s[0]
    ensures Sorted(s) ==> Sorted(r)
  {
    if s == [] || x <= s[0] then [x] + s else [s[0]] + Insert(s[1..], x)
  }

  function Sort(s: seq<int>): (r: seq<int>)
    ensures |r| == |s| && Sorted(r)
  {
    if s == [] then [] else Insert(Sort(s[1..]), s[0])
  }

  lemma {:induction false} InsertAdds(s: seq<int>, x: int)
    ensures multiset(Insert(s, x)) == multiset(s) + multiset{x}
  {
    if s != [] && s[0] < x {
      InsertAdds(s[1..], x);
      assert s == [s[0]] + s[1..];
    }
  }

  lemma {:induction false} SortPermutes(s: seq<int>)
    ensures multiset(Sort(s)) == multiset(s)
  {
    if s != [] {
      SortPermutes(s[1..]);
      InsertAdds(Sort(s[1..]), s[0]);
      assert s == [s[0]] + s[1..];
    }
  }

  lemma {:induction false} HeadIsLeast(s: seq<int>, x: int)
    requires Sorted(s) && x in multiset(s)
    ensures s[0] <= x
  {
    assert s == [s[0]] + s[1..];
    if x != s[0] {
      assert x in multiset(s[1..]);
      HeadIsLeast(s[1..], x);
      assert s[0] <= s[1] == s[1..][0];
    }
  }

  /** A multiset has one sorted arrangement. */
  lemma {:induction false} SortedIsUnique(s: seq<int>, t: seq<int>)
    requires Sorted(s) && Sorted(t) && multiset(s) == multiset(t)
    ensures s == t
  {
    assert |s| == |multiset(s)| == |multiset(t)| == |t|;
    if s != [] {
      HeadsAgree(s, t);
      assert s == [s[0]] + s[1..] && t == [t[0]] + t[1..];
      WithoutHead(s);
      WithoutHead(t);
      SortedIsUnique(s[1..], t[1..]);
    }
  }

  lemma WithoutHead(s: seq<int>)
    requires s != []
    ensures multiset(s[1..]) == multiset(s) - multiset{s[0]}
  {
    assert s == [s[0]] + s[1..];
  }

  lemma HeadsAgree(s: seq<int>, t: seq<int>)
    requires s != [] && t != [] && Sorted(s) && Sorted(t) && multiset(s) == multiset(t)
    ensures s[0] == t[0]
  {
    assert s[0] in multiset(s) && t[0] in multiset(t);
    HeadIsLeast(s, t[0]);
    HeadIsLeast(t, s[0]);
  }

  /** The middle value of a sorted sequence, or the truncated mean of the middle two. */
  function Middle(s: seq<int>): int
    requires |s| > 0
  {
    var k := |s| / 2;
    if |s| % 2 == 1 then s[k] else TruncDiv(s[k - 1] + s[k], 2)
  }

  function Median(w: seq<int>): int
    requires |w| > 0
  {
    Middle(Sort(w))
  }

  function Sum(s: seq<int>): int {
    if s == [] then 0 else s[0] + Sum(s[1..])
  }

  function Mean(w: seq<int>): (m: int)
    requires |w| > 0
    ensures Sum(w) >= 0 ==> 0 <= m && m * |w| <= Sum(w) < m * |w| + |w|
    ensures Sum(w) <= 0 ==> m <= 0 && m * |w| - |w| < Sum(w) <= m * |w|
  {
    TruncDiv(Sum(w), |w|)
  }

  lemma {:induction false} SumConcat(s: seq<int>, t: seq<int>)
    ensures Sum(s + t) == Sum(s) + Sum(t)
  {
    if s == [] {
      assert s + t == t;
    } else {
      assert (s + t)[1..] == s[1..] + t;
      SumConcat(s[1..], t);
    }
  }

  lemma SumUpdate(s: seq<int>, i: nat, x: int)
    requires i < |s|
    ensures Sum(s[i := x]) == Sum(s) - s[i] + x
  {
    assert s == s[..i] + ([s[i]] + s[i + 1..]);
    assert s[i := x] == s[..i] + ([x] + s[i + 1..]);
    SumConcat(s[..i], [s[i]] + s[i + 1..]);
    SumConcat(s[..i], [x] + s[i + 1..]);
  }

  /** A ring of samples: in filling order until full, and from the oldest slot on after that. */
  function Unroll(ring: seq<int>, cnt: nat, index: nat): (w: seq<int>)
    requires cnt <= |ring| && index <= |ring|
  {
    if cnt < |ring| then ring[..cnt] else ring[index..] + ring[..index]
  }

  /** Overwriting the slot at the index pushes the sample into the window. */
  lemma RingStep(ring: seq<int>, cnt: nat, index: nat, x: int)
    requires 0 < |ring| && cnt <= |ring| && index < |ring| && (cnt < |ring| ==> index == cnt)
    ensures var n := if cnt < |ring| then cnt + 1 else cnt;
            Unroll(ring[index := x], n, NextSlot(index, |ring|)) == Push(Unroll(ring, cnt, index), x, |ring|)
  {
    var next := ring[index := x];
    if cnt < |ring| {
      assert next[..cnt + 1] == ring[..cnt] + [x];
    } else if index + 1 < |ring| {
      assert next[index + 1..] == ring[index..][1..];
      assert next[..index + 1] == ring[..index] + [x];
    } else {
      assert next == ring[..index] + [x];
    }
  }

  lemma SumUnroll(ring: seq<int>, cnt: nat, index: nat)
    requires cnt <= |ring| && index <= |ring|
    requires forall i :: cnt <= i < |ring| ==> ring[i] == 0
    ensures Sum(Unroll(ring, cnt, index)) == Sum(ring)
  {
    var k := if cnt < |ring| then cnt else index;
    assert ring == ring[..k] + ring[k..];
    SumConcat(ring[..k], ring[k..]);
    if cnt < |ring| {
      SumBounds(ring[k..], 0, 0);
    } else {
      SumConcat(ring[k..], ring[..k]);
    }
  }

  predicate Within(s: seq<int>, lo: int, hi: int) {
    forall i :: 0 <= i < |s| ==> lo <= s[i] <= hi
  }

  lemma {:induction false} SumBounds(s: seq<int>, lo: int, hi: int)
    requires Within(s, lo, hi)
    ensures lo * |s| <= Sum(s) <= hi * |s|
  {
    if s != [] {
      SumBounds(s[1..], lo, hi);
      assert |s| == 1 + |s[1..]|;
    }
  }

  lemma {:induction false} InsertWithin(s: seq<int>, x: int, lo: int, hi: int)
    requires Within(s, lo, hi) && lo <= x <= hi
    ensures Within(Insert(s, x), lo, hi)
  {
    if s != [] && s[0] < x {
      InsertWithin(s[1..], x, lo, hi);
    }
  }

  lemma {:induction false} SortWithin(s: seq<int>, lo: int, hi: int)
    requires Within(s, lo, hi)
    ensures Within(Sort(s), lo, hi)
  {
    if s != [] {
      SortWithin(s[1..], lo, hi);
      InsertWithin(Sort(s[1..]), s[0], lo, hi);
    }
  }

  /** Whatever bounds the samples bounds the filtered value, rounding included. */
  lemma FilterBounds(w: seq<int>, lo: int, hi: int)
    requires |w| > 0 && Within(w, lo, hi)
    ensures lo <= Median(w) <= hi
    ensures lo <= Mean(w) <= hi
  {
    SumBounds(w, lo, hi);
    TruncDivBetween(Sum(w), |w|, lo, hi);
    SortWithin(w, lo, hi);
    var s := Sort(w);
    if |s| % 2 == 0 {
      TruncDivBetween(s[|s| / 2 - 1] + s[|s| / 2], 2, lo, hi);
    }
  }

  /**
   The median is the middle one of the samples in order, however they were put in order; of an even number of samples it
   is halfway between the middle two, rounded toward zero.
   */
  lemma MedianIsMiddle(w: seq<int>, s: seq<int>)
    requires |w| > 0 && Sorted(s) && multiset(s) == multiset(w)
    ensures |s| == |w|
    ensures var k, m := |s| / 2, Median(w);
            if |s| % 2 == 1 then m == s[k]
            else
              var both := s[k - 1] + s[k];
              if both >= 0 then 0 <= both - 2 * m <= 1 else -1 <= both - 2 * m <= 0
  {
    SortPermutes(w);
    SortedIsUnique(s, Sort(w));
  }

  // ----- outliers

  predicate IsOutside(x: int, lo: int, hi: int) {
    x < lo || hi < x
  }

  /** How many samples are outside the bounds. */
  function Outside(s: seq<int>, lo: int, hi: int): nat {
    if s == [] then 0 else Outside(s[1..], lo, hi) + if IsOutside(s[0], lo, hi) then 1 else 0
  }

  lemma {:induction false} OutsideInserted(s: seq<int>, x: int, lo: int, hi: int)
    ensures Outside(Insert(s, x), lo, hi) == Outside(s, lo, hi) + if IsOutside(x, lo, hi) then 1 else 0
  {
    if s == [] || x <= s[0] {
      assert ([x] + s)[1..] == s;
    } else {
      OutsideInserted(s[1..], x, lo, hi);
      assert Insert(s, x)[1..] == Insert(s[1..], x);
    }
  }

  lemma {:induction false} OutsideSorted(s: seq<int>, lo: int, hi: int)
    ensures Outside(Sort(s), lo, hi) == Outside(s, lo, hi)
  {
    if s != [] {
      OutsideSorted(s[1..], lo, hi);
      OutsideInserted(Sort(s[1..]), s[0], lo, hi);
    }
  }

  lemma {:induction false} ManyOutside(s: seq<int>, a: nat, b: nat, lo: int, hi: int)
    requires a <= b <= |s| && forall i :: a <= i < b ==> IsOutside(s[i], lo, hi)
    ensures Outside(s, lo, hi) >= b - a
  {
    if s != [] {
      var a', b' := if a == 0 then 0 else a - 1, if b == 0 then 0 else b - 1;
      ManyOutside(s[1..], a', b', lo, hi);
    }
  }

  lemma {:induction false} FewOutside(s: seq<int>, n: nat, lo: int, hi: int)
    requires n <= |s| && Within(s[n..], lo, hi)
    ensures Outside(s, lo, hi) <= n
  {
    if s != [] {
      var n' := if n == 0 then 0 else n - 1;
      assert forall i :: 0 <= i < |s[1..]| - n' && n > 0 ==> s[1..][n'..][i] == s[n..][i];
      assert n == 0 ==> s[0..] == s && forall i :: 0 <= i < |s| - 1 ==> s[1..][0..][i] == s[i + 1];
      FewOutside(s[1..], n', lo, hi);
      assert n == 0 ==> !IsOutside(s[0], lo, hi);
    }
  }

  lemma {:induction false} SortedAscends(s: seq<int>, i: nat, j: nat)
    requires Sorted(s) && i <= j < |s|
    ensures s[i] <= s[j]
  {
    if i < j {
      SortedAscends(s, i, j - 1);
    }
  }

  /** In a sorted window the places below the middle hold half of the samples, and so do those above. */
  lemma MiddleInside(s: seq<int>, k: nat, lo: int, hi: int)
    requires Sorted(s) && k < |s| && 2 * Outside(s, lo, hi) < |s| && |s| - 1 <= 2 * k + 1 <= |s| + 1
    ensures lo <= s[k] <= hi
  {
    if s[k] < lo {
      forall i | 0 <= i < k + 1
        ensures IsOutside(s[i], lo, hi)
      {
        SortedAscends(s, i, k);
      }
      ManyOutside(s, 0, k + 1, lo, hi);
    } else if s[k] > hi {
      forall i | k <= i < |s|
        ensures IsOutside(s[i], lo, hi)
      {
        SortedAscends(s, k, i);
      }
      ManyOutside(s, k, |s|, lo, hi);
    }
  }

  /** What a median is for: it keeps the bounds as long as fewer than half of the samples are outside them. */
  lemma MedianIgnoresOutliers(w: seq<int>, lo: int, hi: int)
    requires |w| > 0 && 2 * Outside(w, lo, hi) < |w|
    ensures lo <= Median(w) <= hi
  {
    OutsideSorted(w, lo, hi);
    var s := Sort(w);
    MiddleInside(s, |s| / 2, lo, hi);
    if |s| % 2 == 0 {
      MiddleInside(s, |s| / 2 - 1, lo, hi);
      TruncDivBetween(s[|s| / 2 - 1] + s[|s| / 2], 2, lo, hi);
    }
  }
}
