/** The moving median filter (mmedian.c): a ring of samples and its indices sorted by value. */
module MovingMedian {
  import opened Prelude
  import opened Window

  /** Every index below n, once. */
  ghost function Range(n: nat): multiset<int> {
    if n == 0 then multiset{} else Range(n - 1) + multiset{n - 1}
  }

  lemma {:induction false} RangeMembers(n: nat, k: int)
    ensures Range(n)[k] == if 0 <= k < n then 1 else 0
  {
    if n > 0 {
      RangeMembers(n - 1, k);
    }
  }

  ghost predicate InRange(o: seq<int>, n: nat) {
    forall i :: 0 <= i < |o| ==> 0 <= o[i] < n
  }

  lemma PermutationInRange(o: seq<int>, n: nat)
    requires multiset(o) <= Range(n)
    ensures InRange(o, n)
  {
    forall i | 0 <= i < |o|
      ensures 0 <= o[i] < n
    {
      assert o[i] in multiset(o);
      RangeMembers(n, o[i]);
    }
  }

  /** The listed indices are in increasing order of the samples they refer to. */
  ghost predicate Ordered(o: seq<int>, samples: seq<int>)
    requires InRange(o, |samples|)
  {
    forall i :: 0 < i < |o| ==> samples[o[i - 1]] <= samples[o[i]]
  }

  /** The samples in the order of their indices. */
  function Values(o: seq<int>, samples: seq<int>): (v: seq<int>)
    requires InRange(o, |samples|)
    ensures |v| == |o| && forall i :: 0 <= i < |o| ==> v[i] == samples[o[i]]
  {
    seq(|o|, i requires 0 <= i < |o| => samples[o[i]])
  }

  function Drop(o: seq<int>, p: nat): (r: seq<int>)
    requires p < |o|
    ensures |r| == |o| - 1
  {
    o[..p] + o[p + 1..]
  }

  function Put(o: seq<int>, p: nat, x: int): (r: seq<int>)
    requires p <= |o|
    ensures |r| == |o| + 1
  {
    o[..p] + [x] + o[p..]
  }

  lemma DropRemoves(o: seq<int>, p: nat)
    requires p < |o|
    ensures multiset(Drop(o, p)) + multiset{o[p]} == multiset(o)
  {
    assert o == o[..p] + [o[p]] + o[p + 1..];
  }

  lemma PutAdds(o: seq<int>, p: nat, x: int)
    requires p <= |o|
    ensures multiset(Put(o, p, x)) == multiset(o) + multiset{x}
  {
    assert o == o[..p] + o[p..];
  }

  /** o lists the indices below n, each once, in increasing order of the samples they refer to. */
  ghost predicate IsOrder(o: seq<int>, n: nat, samples: seq<int>) {
    multiset(o) == Range(n) && InRange(o, |samples|) && Ordered(o, samples)
  }

  /** The same, with one index still missing. */
  ghost predicate IsOrderBut(o: seq<int>, n: nat, samples: seq<int>, index: int) {
    multiset(o) + multiset{index} == Range(n) && InRange(o, |samples|) && Ordered(o, samples)
  }

  /** While the ring fills, the new slot is the first one not yet listed. */
  lemma GrowOrder(o: seq<int>, samples: seq<int>, index: nat, x: int)
    requires index < |samples| && IsOrder(o, index, samples)
    ensures IsOrderBut(o, index + 1, samples[index := x], index)
  {
    PermutationInRange(o, index);
  }

  /** When the ring is full, the slot overwritten has to be taken off the list. */
  lemma DropOrder(o: seq<int>, samples: seq<int>, p: nat, x: int)
    requires p < |o| && IsOrder(o, |samples|, samples)
    ensures IsOrderBut(Drop(o, p), |samples|, samples[o[p] := x], o[p])
  {
    Distinct(o, |samples|, p);
    DropRemoves(o, p);
  }

  lemma PutOrder(o: seq<int>, n: nat, samples: seq<int>, p: nat, x: int)
    requires p <= |o| && 0 <= x < |samples| && IsOrderBut(o, n, samples, x)
    requires p > 0 ==> samples[o[p - 1]] <= samples[x]
    requires p < |o| ==> samples[x] <= samples[o[p]]
    ensures IsOrder(Put(o, p, x), n, samples)
  {
    PutAdds(o, p, x);
    PutOrdered(o, samples, p, x);
  }

  lemma PutOrdered(o: seq<int>, samples: seq<int>, p: nat, x: int)
    requires p <= |o| && 0 <= x < |samples| && InRange(o, |samples|) && Ordered(o, samples)
    requires p > 0 ==> samples[o[p - 1]] <= samples[x]
    requires p < |o| ==> samples[x] <= samples[o[p]]
    ensures InRange(Put(o, p, x), |samples|) && Ordered(Put(o, p, x), samples)
  {
  }

  lemma PositionOf(o: seq<int>, x: int) returns (p: nat)
    requires x in multiset(o)
    ensures p < |o| && o[p] == x
  {
    assert x in o;
    p :| p < |o| && o[p] == x;
  }

  /** Reordering indices reorders values and loses none. */
  lemma {:induction false} ValuesArePermuted(o: seq<int>, n: nat, samples: seq<int>)
    requires n <= |samples| && multiset(o) == Range(n) && InRange(o, |samples|)
    ensures multiset(Values(o, samples)) == multiset(samples[..n])
    decreases n
  {
    if n == 0 {
      PermutationInRange(o, 0);
      assert o == [] && Values(o, samples) == [] == samples[..0];
    } else {
      RangeMembers(n, n - 1);
      var p := PositionOf(o, n - 1);
      DropLast(o, n, p);
      ValuesArePermuted(Drop(o, p), n - 1, samples);
      ValuesStep(o, n, p, samples);
    }
  }

  lemma ValuesStep(o: seq<int>, n: nat, p: nat, samples: seq<int>)
    requires 0 < n <= |samples| && p < |o| && o[p] == n - 1
    requires InRange(o, |samples|) && InRange(Drop(o, p), |samples|)
    requires multiset(Values(Drop(o, p), samples)) == multiset(samples[..n - 1])
    ensures multiset(Values(o, samples)) == multiset(samples[..n])
  {
    ValuesDrop(o, p, samples);
    TakeOneMore(samples, n);
  }

  lemma DropLast(o: seq<int>, n: nat, p: nat)
    requires n > 0 && multiset(o) == Range(n) && p < |o| && o[p] == n - 1
    ensures multiset(Drop(o, p)) == Range(n - 1) && InRange(Drop(o, p), n - 1)
  {
    DropRemoves(o, p);
    Cancel(multiset(Drop(o, p)), Range(n - 1), n - 1);
    PermutationInRange(Drop(o, p), n - 1);
  }

  lemma Cancel(a: multiset<int>, b: multiset<int>, x: int)
    requires a + multiset{x} == b + multiset{x}
    ensures a == b
  {
    assert a == (a + multiset{x}) - multiset{x} && b == (b + multiset{x}) - multiset{x};
  }

  lemma TakeOneMore(s: seq<int>, n: nat)
    requires 0 < n <= |s|
    ensures multiset(s[..n]) == multiset(s[..n - 1]) + multiset{s[n - 1]}
  {
    assert s[..n] == s[..n - 1] + [s[n - 1]];
  }

  lemma ValuesDrop(o: seq<int>, p: nat, samples: seq<int>)
    requires p < |o| && InRange(o, |samples|)
    ensures InRange(Drop(o, p), |samples|)
    ensures multiset(Values(o, samples)) == multiset(Values(Drop(o, p), samples)) + multiset{samples[o[p]]}
  {
    var v, w := Values(o, samples), Values(Drop(o, p), samples);
    assert v == v[..p] + [v[p]] + v[p + 1..];
    assert w == v[..p] + v[p + 1..];
  }

  lemma Distinct(o: seq<int>, n: nat, p: nat)
    requires multiset(o) <= Range(n) && p < |o|
    ensures forall i :: 0 <= i < |o| && i != p ==> o[i] != o[p]
  {
    forall i | 0 <= i < |o| && i != p
      ensures o[i] != o[p]
    {
      if o[i] == o[p] {
        var j := if i < p then i else i - 1;
        assert Drop(o, p)[j] == o[p];
        DropRemoves(o, p);
        assert multiset(o)[o[p]] >= 2;
        RangeMembers(n, o[p]);
      }
    }
  }

  class Filter {
    const len: nat
    var cnt: nat
    var index: nat
    const order: array<int>    // indices sorted by value
    const samples: array<int>  // values in a circular buffer
    ghost var window: seq<int> // the newest samples, oldest first

    ghost predicate Valid()
      reads this, order, samples
    {
      && 0 < len && order.Length == samples.Length == len && order != samples
      && cnt <= len && index < len
      && window == Unroll(samples[..], cnt, index)
      && (cnt < len ==> index == cnt)
      && IsOrder(order[..cnt], cnt, samples[..])
    }

    constructor (length: nat)
      requires length >= 1
      ensures Valid() && len == length && window == [] && fresh(order) && fresh(samples)
    {
      len := length;
      cnt, index := 0, 0;
      order, samples := new int[length], new int[length];
      window := [];
    }

    method Reset()
      requires Valid()
      modifies this
      ensures Valid() && window == []
    {
      cnt, index := 0, 0;
      window := [];
    }

    /** Remove the index of the replaced value from the order. */
    method Remove() returns (ghost p: nat)
      requires 0 < cnt <= order.Length
      requires exists i :: 0 <= i < cnt && order[i] == index
      modifies order
      ensures p < cnt && old(order[p]) == index && order[..cnt - 1] == Drop(old(order[..cnt]), p)
    {
      ghost var before := order[..cnt];
      var i := 0;
      while i < cnt && order[i] != index
        invariant 0 <= i <= cnt && forall k :: 0 <= k < i ==> before[k] != index
      {
        i := i + 1;
      }
      p := i;
      while i + 1 < cnt
        invariant p <= i < cnt
        invariant forall k :: 0 <= k < p ==> order[k] == before[k]
        invariant forall k :: p <= k < i ==> order[k] == before[k + 1]
        invariant forall k :: i <= k < cnt ==> order[k] == before[k]
      {
        order[i] := order[i + 1];
        i := i + 1;
      }
      assert order[..cnt - 1] == before[..p] + before[p + 1..];
    }

    /** Insert the index of the new value into the order. */
    method Insert() returns (ghost p: nat)
      requires order != samples && 0 < cnt <= order.Length && index < samples.Length
      requires forall i :: 0 <= i < cnt - 1 ==> 0 <= order[i] < samples.Length
      modifies order
      ensures p < cnt && order[..cnt] == Put(old(order[..cnt - 1]), p, index)
      ensures p > 0 ==> samples[old(order[p - 1])] <= samples[index]
      ensures p < cnt - 1 ==> samples[index] <= samples[old(order[p])]
    {
      ghost var before := order[..cnt - 1];
      var i := cnt - 1;
      while i > 0 && samples[order[i - 1]] > samples[index]
        invariant 0 <= i < cnt
        invariant forall k :: 0 <= k < i ==> order[k] == before[k]
        invariant forall k :: i < k < cnt ==> order[k] == before[k - 1]
        invariant i < cnt - 1 ==> samples[index] <= samples[before[i]]
      {
        order[i] := order[i - 1];
        i := i - 1;
      }
      order[i] := index;
      p := i;
      assert order[..cnt] == before[..i] + [index] + before[i..];
    }

    /** Store the new value in the next free slot. */
    method Append(x: int)
      requires Valid() && cnt < len
      modifies this`cnt, samples
      ensures cnt == old(cnt) + 1
      ensures samples[..] == old(samples[..])[index := x]
      ensures IsOrderBut(order[..cnt - 1], cnt, samples[..], index)
    {
      ghost var o, values := order[..cnt], samples[..];
      samples[index] := x;
      cnt := cnt + 1;
      assert samples[..] == values[index := x];
      GrowOrder(o, values, index, x);
    }

    /** Store the new value in place of the oldest one, and take that one off the order. */
    method Replace(x: int)
      requires Valid() && cnt == len
      modifies order, samples
      ensures samples[..] == old(samples[..])[index := x]
      ensures IsOrderBut(order[..cnt - 1], cnt, samples[..], index)
    {
      ghost var o, values := order[..cnt], samples[..];
      ListedSomewhere();
      samples[index] := x;
      assert samples[..] == values[index := x];
      ghost var p := Remove();
      DropOrder(o, values, p, x);
    }

    lemma ListedSomewhere()
      requires Valid() && cnt == len
      ensures exists i :: 0 <= i < cnt && order[i] == index
    {
      RangeMembers(cnt, index);
      var p := PositionOf(order[..cnt], index);
    }

    method Place()
      requires order != samples && 0 < cnt <= order.Length && index < samples.Length
      requires IsOrderBut(order[..cnt - 1], cnt, samples[..], index)
      modifies order
      ensures IsOrder(order[..cnt], cnt, samples[..])
    {
      ghost var o, values := order[..cnt - 1], samples[..];
      ghost var p := Insert();
      PutOrder(o, cnt, values, p, index);
    }

    method Store(x: int)
      requires Valid()
      modifies this`cnt, order, samples
      ensures cnt == if old(cnt) < len then old(cnt) + 1 else len
      ensures samples[..] == old(samples[..])[index := x]
      ensures IsOrder(order[..cnt], cnt, samples[..])
    {
      if cnt < len {
        Append(x);
      } else {
        Replace(x);
      }
      Place();
    }

    method Sample(x: int) returns (r: int)
      requires Valid()
      modifies this, order, samples
      ensures Valid() && window == Push(old(window), x, len)
      ensures |window| > 0 && r == Median(window)
    {
      Store(x);
      RingStep(old(samples[..]), old(cnt), index, x);
      index := NextSlot(index, len);
      window := Unroll(samples[..], cnt, index);
      r := Current();
    }

    method Current() returns (r: int)
      requires Valid() && cnt > 0
      ensures |window| == cnt && r == Median(window)
    {
      OrderedIsSorted();
      ghost var s := Sort(window);
      if cnt % 2 == 1 {
        r := samples[order[cnt / 2]];
        assert r == s[cnt / 2];
      } else {
        r := TruncDiv(samples[order[cnt / 2 - 1]] + samples[order[cnt / 2]], 2);
        assert s[cnt / 2 - 1] == samples[order[cnt / 2 - 1]] && s[cnt / 2] == samples[order[cnt / 2]];
      }
    }

    lemma OrderedIsSorted()
      requires Valid()
      ensures Values(order[..cnt], samples[..]) == Sort(window)
    {
      var v := Values(order[..cnt], samples[..]);
      ValuesArePermuted(order[..cnt], cnt, samples[..]);
      var ring := samples[..];
      assert multiset(window) == multiset(ring[..cnt]) by {
        if cnt == len {
          assert ring[..cnt] == ring[..index] + ring[index..];
        }
      }
      SortPermutes(window);
      SortedIsUnique(v, Sort(window));
    }
  }
}
