/** get_ld_lb: a lower bound on the Levenshtein distance from the two byte
    histograms, computed in one pass over each buffer. */
module LowerBound {
  import opened SizeT
  import opened Buffers
  import opened Levenshtein
  import opened Histogram

  /** `distance`: the absolute difference of two sizes, computed without
      underflow. */
  function Distance(size1: Size, size2: Size): (d: Size)
    ensures size1 + d == size2 || size2 + d == size1
  {
    if size1 < size2 then size2 - size1 else size1 - size2
  }

  /** Halving with rounding up as the source writes it, `1 + (t - 1) / 2` for a
      positive `t` and 0 for 0. */
  function HalfUp(t: nat): (h: nat)
    ensures t <= 2 * h <= t + 1
  {
    if t == 0 then 0 else 1 + (t - 1) / 2
  }

  /** The bound the estimator reports: the larger of the largest bucket
      difference and half (rounded up) of all bucket differences plus the
      length difference. */
  ghost function HistogramBound(a: seq<byte>, b: seq<byte>): nat
  {
    Max(MaxGap(a, b, 256), HalfUp(SumGap(a, b, 256) + Gap(|a|, |b|)))
  }

  /** No edit script is shorter than the histogram bound. */
  lemma HistogramBoundSound(a: seq<byte>, b: seq<byte>)
    ensures HistogramBound(a, b) <= Lev(a, b)
  {
    MaxGapAtMostLev(a, b, 256);
    ImbalanceAtMostTwiceLev(a, b);
  }

  /** Against an empty buffer the bound is exact: it is the other length. */
  lemma HistogramBoundEmpty(b: seq<byte>)
    ensures HistogramBound([], b) == |b|
    ensures HistogramBound(b, []) == |b|
  {
    SumGapEmpty(b, 256);
    CountTotal(b);
    MaxGapAtMostLev([], b, 256);
    MaxGapAtMostLev(b, [], 256);
  }

  /** Identical buffers have bound 0. */
  lemma HistogramBoundSame(a: seq<byte>)
    ensures HistogramBound(a, a) == 0
  {
    LevZeroIffEqual(a, a);
    HistogramBoundSound(a, a);
  }

  /** The two histogram loops: `freq[c]` counts the occurrences of byte `c`. */
  method BuildHistogram(s: Buffer) returns (freq: seq<Size>)
    ensures |freq| == 256
    ensures forall c: byte :: freq[c] == Count(s, c)
  {
    var counts := new Size[256](_ => 0);
    var i := 0;
    while i < |s|
      invariant 0 <= i <= |s|
      invariant forall c: byte :: counts[c] == Count(s[..i], c)
    {
      assert s[..i + 1][..i] == s[..i];
      counts[s[i]] := counts[s[i]] + 1;
      i := i + 1;
    }
    assert s[..|s|] == s;
    return counts[..];
  }

  /** On success `*bound` is the histogram bound, which is at most the
      Levenshtein distance; the only failure is a bucket-difference sum that
      does not fit in a `size_t`, and then `*bound` is untouched. */
  method GetLowerBound(buffer1: Buffer, buffer2: Buffer, bound: Size) returns (r: Ret)
    ensures r.Ok() <==> SumGap(buffer1, buffer2, 256) + Gap(|buffer1|, |buffer2|) <= SIZE_MAX
    ensures r.Ok() ==> r.res == HistogramBound(buffer1, buffer2)
    ensures r.Ok() ==> r.res <= Lev(buffer1, buffer2)
    ensures !r.Ok() ==> r.code == 1 && r.res == bound
  {
    var freq1 := BuildHistogram(buffer1);
    var freq2 := BuildHistogram(buffer2);

    var bound': Size := 0;
    var i := 0;
    while i < 256
      invariant 0 <= i <= 256
      invariant bound' == MaxGap(buffer1, buffer2, i)
    {
      var t1 := Distance(freq1[i], freq2[i]);
      if bound' < t1 {
        bound' := t1;
      }
      i := i + 1;
    }

    var t1: Size := 0;
    i := 0;
    while i < 256
      invariant 0 <= i <= 256
      invariant t1 == SumGap(buffer1, buffer2, i)
    {
      var t2 := Distance(freq1[i], freq2[i]);
      var sum := AddAug(t1, t2);
      if !sum.Ok() {
        SumGapMonotone(buffer1, buffer2, i + 1, 256);
        return Ret(sum.code, bound);
      }
      t1 := sum.res;
      i := i + 1;
    }
    var t2 := Distance(|buffer1|, |buffer2|);
    var sum := AddAug(t1, t2);
    if !sum.Ok() {
      return Ret(sum.code, bound);
    }
    t1 := sum.res;
    if t1 != 0 {
      t1 := 1 + (t1 - 1) / 2;
    }
    if bound' < t1 {
      bound' := t1;
    }
    HistogramBoundSound(buffer1, buffer2);
    return Ret(0, bound');
  }

  /** Adding buckets never decreases the sum. */
  lemma {:induction false} SumGapMonotone(a: seq<byte>, b: seq<byte>, m: nat, n: nat)
    requires m <= n <= 256
    ensures SumGap(a, b, m) <= SumGap(a, b, n)
    decreases n - m
  {
    if m < n {
      SumGapMonotone(a, b, m, n - 1);
    }
  }

  /** The sum of bucket differences below `n` includes bucket `c` on top of
      the buckets below `c`. */
  lemma {:induction false} SumGapAtLeastBucket(a: seq<byte>, b: seq<byte>, c: nat, n: nat)
    requires c < n <= 256
    ensures SumGap(a, b, c) + Gap(Count(a, c), Count(b, c)) <= SumGap(a, b, n)
  {
    SumGapMonotone(a, b, c + 1, n);
  }
}
