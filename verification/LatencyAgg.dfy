/**
  services/latency_agg.py: fixed log-spaced buckets and the 95th percentile read
  back from their counts.
*/
module LatencyAgg {
  import opened Wrappers
  import opened Reals

  /** Upper bounds in seconds, ascending. Index 5 is the open-ended overflow bucket. */
  const BUCKET_BOUNDS: seq<real> := [0.001, 0.01, 0.1, 1.0, 10.0]

  /** bucket_for: the loop over the bounds, the overflow bucket when none is large enough. */
  method BucketFor(seconds: real) returns (bucket: nat)
    ensures bucket == BucketOf(seconds)
  {
    bucket := 0;
    while bucket < |BUCKET_BOUNDS|
      invariant 0 <= bucket <= |BUCKET_BOUNDS|
      invariant forall k :: 0 <= k < bucket ==> seconds > BUCKET_BOUNDS[k]
    {
      if seconds <= BUCKET_BOUNDS[bucket] {
        break;
      }
      bucket := bucket + 1;
    }
    assert bucket > 0 ==> seconds > BUCKET_BOUNDS[bucket - 1];
  }

  /** The bucket a sample belongs to: the first whose bound is large enough. */
  function BucketOf(seconds: real): (bucket: nat)
    ensures bucket <= 5
    ensures forall k :: 0 <= k < 5 ==> (seconds <= BUCKET_BOUNDS[k] <==> bucket <= k)
  {
    if seconds <= 0.001 then 0
    else if seconds <= 0.01 then 1
    else if seconds <= 0.1 then 2
    else if seconds <= 1.0 then 3
    else if seconds <= 10.0 then 4
    else 5
  }

  /** The bounds run from a millisecond up by tens. */
  lemma BoundsAreDecades(k: nat)
    requires k < 5
    ensures BUCKET_BOUNDS[0] == 0.001 && (k > 0 ==> BUCKET_BOUNDS[k] == 10.0 * BUCKET_BOUNDS[k - 1])
  {
  }

  /** Counts per bucket after counting each sample through BucketFor. */
  function BucketCount(samples: seq<real>, bucket: nat): nat {
    if samples == [] then 0
    else (if BucketOf(samples[0]) == bucket then 1 else 0) + BucketCount(samples[1..], bucket)
  }

  predicate Counts(samples: seq<real>, buckets: seq<nat>) {
    |buckets| == 6 && forall b :: 0 <= b < 6 ==> buckets[b] == BucketCount(samples, b)
  }

  function AtMost(samples: seq<real>, x: real): nat {
    if samples == [] then 0 else (if samples[0] <= x then 1 else 0) + AtMost(samples[1..], x)
  }

  function Below(samples: seq<real>, x: real): nat {
    if samples == [] then 0 else (if samples[0] < x then 1 else 0) + Below(samples[1..], x)
  }

  /** ceil(0.95 * count). */
  function Rank(count: nat): nat {
    (95 * count + 99) / 100
  }

  /** The rank is the least that reaches 95 of every 100. */
  lemma RankIsNearest(count: nat)
    ensures 100 * Rank(count) >= 95 * count && forall n: nat :: 100 * n >= 95 * count ==> Rank(count) <= n
  {
  }

  /** x is the nearest-rank 95th percentile: the sample that stands at the rank in ascending order. */
  predicate IsP95(samples: seq<real>, x: real) {
    x in samples && Below(samples, x) < Rank(|samples|) <= AtMost(samples, x)
  }

  function CountUpTo(samples: seq<real>, bucket: nat): nat {
    BucketCount(samples, bucket) + if bucket == 0 then 0 else CountUpTo(samples, bucket - 1)
  }

  lemma {:induction false} CountUpToCons(samples: seq<real>, bucket: nat)
    requires samples != []
    ensures CountUpTo(samples, bucket)
            == (if BucketOf(samples[0]) <= bucket then 1 else 0) + CountUpTo(samples[1..], bucket)
  {
    if bucket > 0 {
      CountUpToCons(samples, bucket - 1);
    }
  }

  /** The cumulative bucket counts count the samples at or below each bound. */
  lemma {:induction false} CumulativeIsAtMost(samples: seq<real>, bucket: nat)
    requires bucket < 5
    ensures CountUpTo(samples, bucket) == AtMost(samples, BUCKET_BOUNDS[bucket])
  {
    if samples == [] {
      NoSamples(bucket);
    } else {
      CountUpToCons(samples, bucket);
      CumulativeIsAtMost(samples[1..], bucket);
    }
  }

  lemma {:induction false} NoSamples(bucket: nat)
    ensures CountUpTo([], bucket) == 0
  {
    if bucket > 0 {
      NoSamples(bucket - 1);
    }
  }

  lemma {:induction false} CountsGrow(samples: seq<real>, x: real, y: real)
    requires x <= y
    ensures AtMost(samples, x) <= AtMost(samples, y) && Below(samples, x) <= Below(samples, y)
    ensures Below(samples, x) <= AtMost(samples, x) <= |samples|
    ensures x < y ==> AtMost(samples, x) <= Below(samples, y)
  {
    if samples != [] {
      CountsGrow(samples[1..], x, y);
    }
  }

  /** A bound is at or above the 95th percentile exactly when enough samples are at or below it. */
  lemma BoundCoversP95(samples: seq<real>, p95: real, bound: real)
    requires IsP95(samples, p95)
    ensures p95 <= bound <==> AtMost(samples, bound) >= Rank(|samples|)
  {
    if p95 <= bound {
      CountsGrow(samples, p95, bound);
    } else {
      CountsGrow(samples, bound, p95);
    }
  }

  /** The largest sample below x: everything below x is at or below it. */
  lemma {:induction false} LargestBelow(samples: seq<real>, x: real) returns (y: real)
    requires exists z :: z in samples && z < x
    ensures y in samples && y < x && forall z :: z in samples && z < x ==> z <= y
  {
    var first, rest := samples[0], samples[1..];
    assert samples == [first] + rest;
    if exists z :: z in rest && z < x {
      y := LargestBelow(rest, x);
      if y < first < x {
        y := first;
      }
    } else {
      y := first;
    }
  }

  lemma {:induction false} SameCut(samples: seq<real>, x: real, y: real)
    requires forall z :: z in samples ==> (z <= y <==> z < x)
    ensures AtMost(samples, y) == Below(samples, x)
  {
    if samples != [] {
      assert samples[0] in samples && forall z :: z in samples[1..] ==> z in samples;
      SameCut(samples[1..], x, y);
    }
  }

  lemma {:induction false} NoneBelow(samples: seq<real>, x: real)
    requires forall z :: z in samples ==> z >= x
    ensures Below(samples, x) == 0
  {
    if samples != [] {
      assert samples[0] in samples && forall z :: z in samples[1..] ==> z in samples;
      NoneBelow(samples[1..], x);
    }
  }

  /** A sample with enough samples at or below it leads down to the percentile itself. */
  lemma {:induction false} DescendToP95(samples: seq<real>, x: real) returns (p95: real)
    requires x in samples && AtMost(samples, x) >= Rank(|samples|)
    ensures IsP95(samples, p95)
    decreases AtMost(samples, x)
  {
    if Below(samples, x) < Rank(|samples|) {
      p95 := x;
    } else {
      if forall z :: z in samples ==> z >= x {
        NoneBelow(samples, x);
      }
      var y := LargestBelow(samples, x);
      SameCut(samples, x, y);
      Member(samples, x);
      p95 := DescendToP95(samples, y);
    }
  }

  lemma {:induction false} Member(samples: seq<real>, x: real)
    requires x in samples
    ensures Below(samples, x) < AtMost(samples, x)
  {
    CountsGrow(samples[1..], x, x);
    if samples[0] != x {
      assert samples == [samples[0]] + samples[1..];
      Member(samples[1..], x);
    }
  }

  lemma {:induction false} AllAtMost(samples: seq<real>) returns (top: real)
    requires samples != []
    ensures top in samples && AtMost(samples, top) == |samples|
    ensures forall z :: z in samples ==> z <= top
  {
    assert samples == [samples[0]] + samples[1..];
    if |samples| == 1 {
      top := samples[0];
      assert samples[1..] == [];
    } else {
      var rest := AllAtMost(samples[1..]);
      top := if samples[0] > rest then samples[0] else rest;
      CountsGrow(samples[1..], rest, top);
      CountsGrow(samples[1..], top, top);
    }
    assert AtMost(samples, top) == 1 + AtMost(samples[1..], top);
  }

  /** Every non-empty list of samples has a nearest-rank 95th percentile, and only one. */
  lemma P95Exists(samples: seq<real>) returns (p95: real)
    requires samples != []
    ensures IsP95(samples, p95)
    ensures forall other :: IsP95(samples, other) ==> other == p95
  {
    var top := AllAtMost(samples);
    p95 := DescendToP95(samples, top);
    forall other | IsP95(samples, other)
      ensures other == p95
    {
      if other < p95 {
        CountsGrow(samples, other, p95);
      } else if p95 < other {
        CountsGrow(samples, p95, other);
      }
    }
  }

  /** p95_upper_bound: for the counts of any list of samples, the least bucket bound at or above its
      true 95th percentile, and None exactly when there are no samples or that percentile lies past the
      last bound. */
  method P95UpperBound(buckets: seq<nat>, count: nat, ghost samples: seq<real>) returns (bound: Option<real>)
    requires Counts(samples, buckets) && count == |samples|
    ensures count == 0 ==> bound == None
    ensures forall p95 :: IsP95(samples, p95) ==>
              match bound
              case Some(b) => b in BUCKET_BOUNDS && p95 <= b && forall c :: c in BUCKET_BOUNDS && p95 <= c ==> b <= c
              case None => forall c :: c in BUCKET_BOUNDS ==> p95 > c
  {
    if count == 0 {
      return None;
    }
    var target := Rank(count);
    var cumulative := 0;
    var i := 0;
    while i < |BUCKET_BOUNDS|
      invariant 0 <= i <= |BUCKET_BOUNDS|
      invariant cumulative == if i == 0 then 0 else CountUpTo(samples, i - 1)
      invariant forall k :: 0 <= k < i ==> AtMost(samples, BUCKET_BOUNDS[k]) < target
    {
      cumulative := cumulative + buckets[i];
      CumulativeIsAtMost(samples, i);
      if cumulative >= target {
        forall p95 | IsP95(samples, p95)
          ensures p95 <= BUCKET_BOUNDS[i] && forall c :: c in BUCKET_BOUNDS && p95 <= c ==> BUCKET_BOUNDS[i] <= c
        {
          BoundCoversP95(samples, p95, BUCKET_BOUNDS[i]);
          NoSmallerBound(samples, p95, i);
        }
        return Some(BUCKET_BOUNDS[i]);
      }
      i := i + 1;
    }
    forall p95 | IsP95(samples, p95)
      ensures forall c :: c in BUCKET_BOUNDS ==> p95 > c
    {
      NoSmallerBound(samples, p95, i);
    }
    return None;
  }

  lemma NoSmallerBound(samples: seq<real>, p95: real, i: nat)
    requires IsP95(samples, p95) && i <= |BUCKET_BOUNDS|
    requires forall k :: 0 <= k < i ==> AtMost(samples, BUCKET_BOUNDS[k]) < Rank(|samples|)
    ensures forall k :: 0 <= k < i ==> p95 > BUCKET_BOUNDS[k]
  {
    forall k | 0 <= k < i
      ensures p95 > BUCKET_BOUNDS[k]
    {
      BoundCoversP95(samples, p95, BUCKET_BOUNDS[k]);
    }
  }

  /** LatencyAgg.add and the maximum it keeps. */
  class LatencyAgg {
    var count: nat
    var total: real
    var max: real

    constructor ()
      ensures Holds([])
    {
      count, total, max := 0, 0.0, 0.0;
    }

    /** The three attributes summarise these samples. */
    ghost predicate Holds(samples: seq<real>)
      reads this
    {
      count == |samples| && total == Sum(samples) && max == Max(samples)
    }

    method Add(value: real, ghost samples: seq<real>)
      requires Holds(samples)
      modifies this
      ensures Holds(samples + [value])
    {
      count := count + 1;
      total := total + value;
      if value > max {
        max := value;
      }
      assert (samples + [value])[..|samples|] == samples;
    }
  }

  function Sum(samples: seq<real>): real {
    if samples == [] then 0.0 else Sum(samples[..|samples| - 1]) + samples[|samples| - 1]
  }

  /** The greatest sample, or zero when none is positive. */
  function Max(samples: seq<real>): real {
    if samples == [] then 0.0
    else
      var rest := Max(samples[..|samples| - 1]);
      if samples[|samples| - 1] > rest then samples[|samples| - 1] else rest
  }

  /** The total adds up over any split of the samples, down to single ones. */
  lemma {:induction false} SumAdds(a: seq<real>, b: seq<real>, x: real)
    ensures Sum(a + b) == Sum(a) + Sum(b) && Sum([x]) == x
    decreases |b|
  {
    assert [x][..0] == [];
    if b == [] {
      assert a + b == a;
    } else {
      assert (a + b)[..|a + b| - 1] == a + b[..|b| - 1];
      SumAdds(a, b[..|b| - 1], x);
    }
  }

  /** The maximum is one of the samples, or zero. */
  lemma {:induction false} MaxIsASample(samples: seq<real>)
    ensures Max(samples) == 0.0 || Max(samples) in samples
  {
    if samples != [] {
      MaxIsASample(samples[..|samples| - 1]);
      assert samples == samples[..|samples| - 1] + [samples[|samples| - 1]];
    }
  }

  /** The average a snapshot reports never exceeds the maximum it reports, as no sample does. */
  lemma {:induction false} MaxBoundsSamples(samples: seq<real>)
    ensures forall x :: x in samples ==> x <= Max(samples)
    ensures Sum(samples) <= Max(samples) * |samples| as real && Max(samples) >= 0.0
  {
    if samples != [] {
      var front, last := samples[..|samples| - 1], samples[|samples| - 1];
      assert samples == front + [last];
      MaxBoundsSamples(front);
      assert |samples| as real == |front| as real + 1.0;
      Scale(Max(front), Max(samples), |front| as real);
    }
  }
}
