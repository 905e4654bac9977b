/**
 * Choosing the training bucket for each step (`train` in nl_gen/execute.py):
 * the cumulative occupancy scale of the training buckets, and the bucket
 * picked for a uniform draw `r` in [0, 1), the smallest index whose scale
 * entry exceeds `r`. The random number generator is not modelled: the draw is
 * a parameter.
 */
module Sampling {
  import opened Common
  import opened Bucketing

  /** `sum(xs)` over bucket occupancies. */
  function Total(xs: seq<nat>): nat {
    if xs == [] then 0 else Total(xs[..|xs| - 1]) + xs[|xs| - 1]
  }

  /** `train_bucket_sizes`: the number of examples in each bucket. */
  function Sizes(dataSet: seq<seq<Example>>): (sizes: seq<nat>)
    ensures |sizes| == |dataSet|
  {
    seq(|dataSet|, b requires 0 <= b < |dataSet| => |dataSet[b]|)
  }

  /** `part / float(total)`. */
  function Share(part: nat, total: nat): real
    requires total > 0
  {
    part as real / total as real
  }

  lemma ShareMonotone(a: nat, c: nat, total: nat)
    requires a <= c && total > 0
    ensures Share(a, total) <= Share(c, total)
  {
    assert Share(c, total) - Share(a, total) == (c - a) as real / total as real;
  }

  lemma ShareBounds(a: nat, total: nat)
    requires a <= total && total > 0
    ensures 0.0 <= Share(a, total) <= 1.0
    ensures a == total ==> Share(a, total) == 1.0
    ensures a == 0 ==> Share(a, total) == 0.0
  {
    ShareMonotone(a, total, total);
  }

  lemma ShareDifference(a: nat, d: nat, c: nat, total: nat)
    requires a + d == c && total > 0
    ensures Share(c, total) - Share(a, total) == Share(d, total)
  {
  }

  /**
   * `train_buckets_scale`: entry `i` is the share of examples held by buckets
   * `0 .. i`. Python divides by `float(sum(sizes))` only when there is an
   * entry to compute, so an all-empty non-empty list raises
   * ZeroDivisionError (None here) while the empty list gives the empty scale.
   */
  function Scale(sizes: seq<nat>): (scale: Option<seq<real>>)
    ensures scale.None? <==> |sizes| > 0 && Total(sizes) == 0
    ensures scale.Some? ==> |scale.value| == |sizes|
  {
    if |sizes| > 0 && Total(sizes) == 0 then None
    else
      Some(seq(|sizes|, i requires 0 <= i < |sizes| => Share(Total(sizes[..i + 1]), Total(sizes))))
  }

  /** `[i for i in range(len(scale)) if scale[i] > r]`. */
  function Candidates(scale: seq<real>, r: real): seq<int> {
    Where(seq(|scale|, i requires 0 <= i < |scale| => scale[i] > r))
  }

  /**
   * `bucket_id = min(candidates)`: the smallest index whose scale entry exceeds
   * the draw; None when there is none (Python's `min` of an empty list raises
   * ValueError).
   */
  function ChooseBucket(scale: seq<real>, r: real): Option<int> {
    var candidates := Candidates(scale, r);
    if candidates == [] then None else Some(MinOf(candidates))
  }

  /**
   * The choice is the first bucket whose scale entry exceeds the draw, and
   * there is none exactly when no entry exceeds it.
   */
  lemma ChooseBucketIsFirst(scale: seq<real>, r: real)
    ensures var b := ChooseBucket(scale, r);
      (b.Some? ==> 0 <= b.value < |scale| && scale[b.value] > r) &&
      (b.Some? ==> forall j :: 0 <= j < b.value ==> scale[j] <= r) &&
      (b.None? <==> forall i :: 0 <= i < |scale| ==> scale[i] <= r)
  {
    var candidates := Candidates(scale, r);
    WhereIndices(seq(|scale|, i requires 0 <= i < |scale| => scale[i] > r));
    if candidates != [] {
      MinOfIsMinimum(candidates);
    }
    assert forall j :: 0 <= j < |scale| && scale[j] > r ==> j in candidates;
  }

  lemma TotalPrefixStep(xs: seq<nat>, i: nat)
    requires i < |xs|
    ensures Total(xs[..i + 1]) == Total(xs[..i]) + xs[i]
  {
    assert xs[..i + 1][..i] == xs[..i];
  }

  lemma {:induction false} TotalPrefixMonotone(xs: seq<nat>, i: nat, j: nat)
    requires i <= j <= |xs|
    ensures Total(xs[..i]) <= Total(xs[..j])
  {
    if i < j {
      TotalPrefixMonotone(xs, i, j - 1);
      TotalPrefixStep(xs, j - 1);
    }
  }

  /**
   * When some bucket is occupied the scale is a cumulative distribution:
   * non-decreasing, within [0, 1], ending at exactly 1.
   */
  lemma ScaleEntry(sizes: seq<nat>, i: nat)
    requires Total(sizes) > 0 && i < |sizes|
    ensures Scale(sizes).Some? && |Scale(sizes).value| == |sizes|
    ensures Scale(sizes).value[i] == Share(Total(sizes[..i + 1]), Total(sizes))
  {
  }

  lemma ScaleMonotone(sizes: seq<nat>, i: nat, j: nat)
    requires Total(sizes) > 0 && i <= j < |sizes|
    ensures Scale(sizes).Some? && Scale(sizes).value[i] <= Scale(sizes).value[j]
  {
    var total, a, c := Total(sizes), Total(sizes[..i + 1]), Total(sizes[..j + 1]);
    assert Share(a, total) <= Share(c, total) by {
      TotalPrefixMonotone(sizes, i + 1, j + 1);
      ShareMonotone(a, c, total);
    }
    ScaleEntry(sizes, i);
    ScaleEntry(sizes, j);
  }

  lemma ScaleBounded(sizes: seq<nat>, i: nat)
    requires Total(sizes) > 0 && i < |sizes|
    ensures Scale(sizes).Some? && 0.0 <= Scale(sizes).value[i] <= 1.0
    ensures i == |sizes| - 1 ==> Scale(sizes).value[i] == 1.0
  {
    ScaleEntry(sizes, i);
    assert sizes[..|sizes|] == sizes;
    TotalPrefixMonotone(sizes, i + 1, |sizes|);
    ShareBounds(Total(sizes[..i + 1]), Total(sizes));
  }

  lemma ScaleIsCumulative(sizes: seq<nat>)
    requires Total(sizes) > 0
    ensures Scale(sizes).Some?
    ensures var scale := Scale(sizes).value;
      |scale| > 0 &&
      (forall i, j :: 0 <= i <= j < |scale| ==> scale[i] <= scale[j]) &&
      (forall i :: 0 <= i < |scale| ==> 0.0 <= scale[i] <= 1.0) &&
      scale[|scale| - 1] == 1.0
  {
    assert sizes != [];
    forall i, j | 0 <= i <= j < |sizes|
      ensures Scale(sizes).value[i] <= Scale(sizes).value[j]
    {
      ScaleMonotone(sizes, i, j);
    }
    forall i | 0 <= i < |sizes|
      ensures 0.0 <= Scale(sizes).value[i] <= 1.0
    {
      ScaleBounded(sizes, i);
    }
    ScaleBounded(sizes, |sizes| - 1);
  }

  /** The draws below bucket `b`'s slice of [0, 1). */
  function Lower(scale: seq<real>, b: nat): real
    requires b < |scale|
  {
    if b == 0 then 0.0 else scale[b - 1]
  }

  /** Bucket `b`'s slice of [0, 1) is as wide as its share of the examples. */
  lemma SliceWidth(sizes: seq<nat>, b: nat)
    requires Total(sizes) > 0 && b < |sizes|
    ensures Scale(sizes).Some?
    ensures var scale := Scale(sizes).value;
      scale[b] - Lower(scale, b) == Share(sizes[b], Total(sizes))
  {
    var total := Total(sizes);
    var lo, hi := Total(sizes[..b]), Total(sizes[..b + 1]);
    TotalPrefixStep(sizes, b);
    ScaleEntry(sizes, b);
    var scale := Scale(sizes).value;
    if b == 0 {
      assert sizes[..0] == [];
      ShareBounds(0, total);
    } else {
      ScaleEntry(sizes, b - 1);
    }
    assert Lower(scale, b) == Share(lo, total);
    assert scale[b] == Share(hi, total);
    ShareDifference(lo, sizes[b], hi, total);
  }

  /**
   * Over a non-decreasing scale, bucket `b` is chosen exactly for the draws in
   * its slice [Lower(b), scale[b]).
   */
  lemma ChosenIffInSlice(scale: seq<real>, r: real, b: nat)
    requires b < |scale| && 0.0 <= r
    requires forall i, j :: 0 <= i <= j < |scale| ==> scale[i] <= scale[j]
    ensures ChooseBucket(scale, r) == Some(b) <==> Lower(scale, b) <= r < scale[b]
  {
    ChooseBucketIsFirst(scale, r);
    if Lower(scale, b) <= r < scale[b] {
      assert forall j :: 0 <= j < b ==> scale[j] <= r by {
        if b > 0 {
          assert forall j :: 0 <= j < b ==> scale[j] <= scale[b - 1];
        }
      }
      assert ChooseBucket(scale, r).Some?;
    }
  }

  /**
   * Sampling is proportional to occupancy: bucket `b` is chosen exactly for
   * the draws in its slice [Lower(b), scale[b]) of [0, 1), whose width is
   * bucket `b`'s share of all training examples.
   */
  lemma ChoiceIsProportional(sizes: seq<nat>, r: real, b: nat)
    requires Total(sizes) > 0 && 0.0 <= r < 1.0 && b < |sizes|
    ensures Scale(sizes).Some?
    ensures var scale := Scale(sizes).value;
      (ChooseBucket(scale, r) == Some(b) <==> Lower(scale, b) <= r < scale[b]) &&
      scale[b] - Lower(scale, b) == Share(sizes[b], Total(sizes))
  {
    ScaleIsCumulative(sizes);
    SliceWidth(sizes, b);
    ChosenIffInSlice(Scale(sizes).value, r, b);
  }

  /**
   * For every draw in [0, 1) from a non-empty training set, a bucket is
   * chosen (the candidate list is non-empty) and it holds examples.
   */
  lemma SampledBucketNonEmpty(dataSet: seq<seq<Example>>, r: real)
    requires Total(Sizes(dataSet)) > 0 && 0.0 <= r < 1.0
    ensures Scale(Sizes(dataSet)).Some?
    ensures var b := ChooseBucket(Scale(Sizes(dataSet)).value, r);
      b.Some? && 0 <= b.value < |dataSet| && |dataSet[b.value]| > 0
  {
    var sizes := Sizes(dataSet);
    ScaleIsCumulative(sizes);
    var scale := Scale(sizes).value;
    var b := ChooseBucket(scale, r);
    ChooseBucketIsFirst(scale, r);
    assert scale[|scale| - 1] > r;
    ChoiceIsProportional(sizes, r, b.value);
    ShareBounds(0, Total(sizes));
  }
}
