/** Which frames of an animation go into its thumbnail, in exact arithmetic. */
module FrameSampling {
  import opened Basics

  const MAX_SOURCE_FRAMES: nat := 100

  /** Python's round of num / den: to the nearest integer, halves to the even one. */
  function RoundHalfEven(num: nat, den: nat): nat
    requires den > 0
  {
    var q, r := num / den, num % den;
    if 2 * r < den || (2 * r == den && q % 2 == 0) then q else q + 1
  }

  /** sorted of a set of numbers below n. */
  function Ascending(s: set<nat>, n: nat): seq<nat> {
    if n == 0 then []
    else if n - 1 in s then Ascending(s, n - 1) + [n - 1]
    else Ascending(s, n - 1)
  }

  function Sample(lastIndex: nat, sampleCount: nat, position: nat): nat
    requires sampleCount >= 2
  {
    RoundHalfEven(position * lastIndex, sampleCount - 1)
  }

  function Samples(lastIndex: nat, sampleCount: nat): set<nat>
    requires sampleCount >= 2
  {
    set position: nat | position < sampleCount :: Sample(lastIndex, sampleCount, position)
  }

  function FrameIndexes(frameCount: nat): seq<nat> {
    if frameCount <= MAX_SOURCE_FRAMES then seq(frameCount, i => i)
    else
      var sampleCount := Max(2, MAX_SOURCE_FRAMES);
      Ascending(Samples(frameCount - 1, sampleCount), frameCount)
  }

  predicate Increasing(q: seq<nat>) {
    forall i, j :: 0 <= i < j < |q| ==> q[i] < q[j]
  }

  /** The largest is the last. */
  lemma LargestIsLast(q: seq<nat>, x: nat)
    requires Increasing(q) && x in q && forall i :: 0 <= i < |q| ==> q[i] <= x
    ensures q != [] && q[|q| - 1] == x && q == q[..|q| - 1] + [x]
    ensures forall i :: 0 <= i < |q| - 1 ==> q[i] < x
  {
    var k :| 0 <= k < |q| && q[k] == x;
    assert q[|q| - 1] <= x == q[k];
  }

  /** Sorting the elements of an increasing sequence gives it back. */
  lemma {:induction false} AscendingOfIncreasing(q: seq<nat>, s: set<nat>, n: nat)
    requires Increasing(q)
    requires forall i :: 0 <= i < |q| ==> q[i] < n && q[i] in s
    requires forall x :: x in s && x < n ==> x in q
    ensures Ascending(s, n) == q
    decreases n
  {
    if n == 0 {
    } else if n - 1 in s {
      LargestIsLast(q, n - 1);
      var front := q[..|q| - 1];
      forall x | x in s && x < n - 1 ensures x in front { assert x in front + [n - 1]; }
      AscendingOfIncreasing(front, s, n - 1);
    } else {
      AscendingOfIncreasing(q, s, n - 1);
    }
  }

  /** There is no half: 99 is odd. */
  lemma NeverHalf(num: nat)
    ensures 2 * (num % 99) != 99
    ensures RoundHalfEven(num, 99) == (2 * num + 99) / 198
    ensures 99 * RoundHalfEven(num, 99) - 49 <= num <= 99 * RoundHalfEven(num, 99) + 49
  {
  }

  /** Stepping by last / 99 moves the rounded value by the floor or the ceiling of it. */
  lemma StepIsFloorOrCeiling(num: nat, last: nat)
    ensures var gap := RoundHalfEven(num + last, 99) - RoundHalfEven(num, 99);
            last / 99 <= gap <= CeilDiv(last, 99)
  {
    NeverHalf(num);
    NeverHalf(num + last);
  }

  lemma SampleGap(lastIndex: nat, position: nat)
    ensures lastIndex / 99
         <= Sample(lastIndex, 100, position + 1) - Sample(lastIndex, 100, position)
         <= CeilDiv(lastIndex, 99)
  {
    assert (position + 1) * lastIndex == position * lastIndex + lastIndex;
    StepIsFloorOrCeiling(position * lastIndex, lastIndex);
  }

  lemma {:induction false} SamplesIncrease(lastIndex: nat, i: nat, j: nat)
    requires i < j && lastIndex >= 99
    ensures Sample(lastIndex, 100, i) < Sample(lastIndex, 100, j)
  {
    SampleGap(lastIndex, j - 1);
    if i < j - 1 { SamplesIncrease(lastIndex, i, j - 1); }
  }

  lemma SampleEnds(lastIndex: nat)
    ensures Sample(lastIndex, 100, 0) == 0 && Sample(lastIndex, 100, 99) == lastIndex
  {
    assert 0 * lastIndex == 0;
    NeverHalf(99 * lastIndex);
  }

  lemma SampleIsNearest(lastIndex: nat, position: nat)
    ensures var sample := Sample(lastIndex, 100, position);
            99 * sample - 49 <= position * lastIndex <= 99 * sample + 49
  {
    NeverHalf(position * lastIndex);
  }

  predicate IsSampled(q: seq<nat>, last: nat) {
    |q| == 100 && forall i :: 0 <= i < 100 ==> q[i] == Sample(last, 100, i)
  }

  /** From the first to the last, a floor or a ceiling of last / 99 apart. */
  predicate IsSpread(q: seq<nat>, last: nat) {
    && |q| == 100 && q[0] == 0 && q[99] == last
    && forall i :: 0 <= i < 99 ==> last / 99 <= q[i + 1] - q[i] <= CeilDiv(last, 99)
  }

  /** Each is nearest to its even spacing: no whole number is closer to i * last / 99. */
  predicate IsNearest(q: seq<nat>, last: nat) {
    |q| == 100 && forall i :: 0 <= i < 100 ==> 99 * q[i] - 49 <= i * last <= 99 * q[i] + 49
  }

  lemma SampledSpread(q: seq<nat>, last: nat)
    requires IsSampled(q, last)
    ensures IsSpread(q, last)
  {
    SampleEnds(last);
    forall i | 0 <= i < 99 ensures last / 99 <= q[i + 1] - q[i] <= CeilDiv(last, 99) { SampleGap(last, i); }
  }

  lemma SampledNearest(q: seq<nat>, last: nat)
    requires IsSampled(q, last)
    ensures IsNearest(q, last)
  {
    forall i | 0 <= i < 100 ensures 99 * q[i] - 49 <= i * last <= 99 * q[i] + 49 { SampleIsNearest(last, i); }
  }

  lemma SampledIncrease(q: seq<nat>, last: nat)
    requires IsSampled(q, last) && last >= 99
    ensures Increasing(q)
  {
    forall i, j | 0 <= i < j < 100 ensures q[i] < q[j] { SamplesIncrease(last, i, j); }
  }

  /** Few frames are all taken. Of many, exactly 100 are: the first, the last, and evenly spaced ones between. */
  lemma FrameIndexesExactly(frameCount: nat)
    ensures var r := FrameIndexes(frameCount);
            && Increasing(r)
            && (frameCount <= 100 ==> |r| == frameCount && forall i :: 0 <= i < frameCount ==> r[i] == i)
            && (frameCount > 100 ==> IsSpread(r, frameCount - 1) && IsNearest(r, frameCount - 1))
  {
    if frameCount > 100 {
      var last := frameCount - 1;
      var q := seq(100, i requires 0 <= i < 100 => Sample(last, 100, i));
      SampledSpread(q, last);
      SampledNearest(q, last);
      SampledIncrease(q, last);
      SortedSamples(frameCount, q);
    }
  }

  lemma SortedSamples(frameCount: nat, q: seq<nat>)
    requires frameCount > 100 && |q| == 100 && Increasing(q) && q[99] == frameCount - 1
    requires forall i :: 0 <= i < 100 ==> q[i] == Sample(frameCount - 1, 100, i)
    ensures FrameIndexes(frameCount) == q
  {
    var last := frameCount - 1;
    forall i | 0 <= i < 100 ensures q[i] < frameCount && q[i] in Samples(last, 100) { }
    forall x | x in Samples(last, 100) ensures x in q {
      var position: nat :| position < 100 && Sample(last, 100, position) == x;
      assert q[position] == x;
    }
    AscendingOfIncreasing(q, Samples(last, 100), frameCount);
  }
}
