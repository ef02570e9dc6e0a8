/** The moving average filter (mave.c): a ring of samples and their running sum. */
module MovingAverage {
  import opened Prelude
  import opened Window

  class Filter {
    const len: nat
    var cnt: nat
    var index: nat
    var sum: int
    const val: array<int>
    ghost var window: seq<int>

    ghost predicate Valid()
      reads this, val
    {
      && 0 < len == val.Length && cnt <= len && index < len
      && window == Unroll(val[..], cnt, index)
      && (cnt < len ==> index == cnt)
      && (forall i :: cnt <= i < len ==> val[i] == 0)
      && sum == Sum(val[..])
    }

    constructor (length: nat)
      requires length >= 1
      ensures Valid() && len == length && window == [] && fresh(val)
    {
      len := length;
      cnt, index, sum := 0, 0, 0;
      val := new int[length](_ => 0);
      window := [];
      new;
      SumBounds(val[..], 0, 0);
    }

    method Reset()
      requires Valid()
      modifies this, val
      ensures Valid() && window == []
    {
      cnt, index, sum := 0, 0, 0;
      forall i | 0 <= i < val.Length {
        val[i] := 0;
      }
      window := [];
      SumBounds(val[..], 0, 0);
    }

    method Sample(x: int) returns (r: int)
      requires Valid()
      modifies this, val
      ensures Valid() && window == Push(old(window), x, len)
      ensures |window| > 0 && r == Mean(window)
    {
      SumUpdate(val[..], index, x);
      RingStep(val[..], cnt, index, x);
      sum := sum - val[index];
      val[index] := x;
      assert val[..] == old(val[..])[index := x];
      window := Push(window, x, len);
      index := NextSlot(index, len);
      sum := sum + x;
      if cnt < len {
        cnt := cnt + 1;
      }
      SumUnroll(val[..], cnt, index);
      r := TruncDiv(sum, cnt);
    }
  }
}
