/** Byte histograms of a buffer and how far the histograms of two buffers can
    drift apart under one edit. These are the facts behind the lower bound:
    every edit moves at most one unit in one bucket of each histogram. */
module Histogram {
  import opened Buffers
  import opened Levenshtein

  /** Number of occurrences of byte `c` in `s`. */
  function Count(s: seq<byte>, c: byte): (n: nat)
    ensures n <= |s|
  {
    if |s| == 0 then 0 else Count(s[..|s| - 1], c) + (if s[|s| - 1] == c then 1 else 0)
  }

  /** A byte that does not occur is counted zero times. */
  lemma {:induction false} CountAbsent(s: seq<byte>, c: byte)
    requires forall i :: 0 <= i < |s| ==> s[i] != c
    ensures Count(s, c) == 0
  {
    if |s| > 0 {
      CountAbsent(s[..|s| - 1], c);
    }
  }

  /** A byte that occurs at exactly one position is counted once. */
  lemma {:induction false} CountOnce(s: seq<byte>, c: byte, p: nat)
    requires p < |s| && s[p] == c
    requires forall i :: 0 <= i < |s| && i != p ==> s[i] != c
    ensures Count(s, c) == 1
  {
    if p == |s| - 1 {
      CountAbsent(s[..|s| - 1], c);
    } else {
      CountOnce(s[..|s| - 1], c, p);
    }
  }

  /** Occurrences in `s` of the bytes below `n`. */
  function CountBelow(s: seq<byte>, n: nat): nat
    requires n <= 256
  {
    if n == 0 then 0 else CountBelow(s, n - 1) + Count(s, n - 1)
  }

  /** Sum over the buckets below `n` of the difference between the two counts. */
  function SumGap(a: seq<byte>, b: seq<byte>, n: nat): nat
    requires n <= 256
  {
    if n == 0 then 0 else SumGap(a, b, n - 1) + Gap(Count(a, n - 1), Count(b, n - 1))
  }

  /** Largest difference between the two counts over the buckets below `n`
      (0 when there is no bucket). */
  function MaxGap(a: seq<byte>, b: seq<byte>, n: nat): (m: nat)
    requires n <= 256
    ensures forall c: byte :: c < n ==> Gap(Count(a, c), Count(b, c)) <= m
    ensures n == 0 ==> m == 0
    ensures n > 0 ==> exists c: byte :: c < n && Gap(Count(a, c), Count(b, c)) == m
  {
    if n == 0 then 0 else Max(MaxGap(a, b, n - 1), Gap(Count(a, n - 1), Count(b, n - 1)))
  }

  /** Every byte of `s` falls in exactly one of the 256 buckets. */
  lemma {:induction false} CountTotal(s: seq<byte>)
    ensures CountBelow(s, 256) == |s|
  {
    if |s| == 0 {
      CountBelowEmpty(256);
    } else {
      CountTotal(s[..|s| - 1]);
      CountBelowDropLast(s, 256);
    }
  }

  lemma {:induction false} CountBelowEmpty(n: nat)
    requires n <= 256
    ensures CountBelow([], n) == 0
  {
    if n > 0 {
      CountBelowEmpty(n - 1);
    }
  }

  lemma {:induction false} CountBelowDropLast(s: seq<byte>, n: nat)
    requires |s| > 0 && n <= 256
    ensures CountBelow(s, n) == CountBelow(s[..|s| - 1], n) + (if s[|s| - 1] < n then 1 else 0)
  {
    if n > 0 {
      CountBelowDropLast(s, n - 1);
    }
  }

  /** Against an empty buffer every bucket difference is the count itself. */
  lemma {:induction false} SumGapEmpty(s: seq<byte>, n: nat)
    requires n <= 256
    ensures SumGap([], s, n) == CountBelow(s, n)
    ensures SumGap(s, [], n) == CountBelow(s, n)
  {
    if n > 0 {
      SumGapEmpty(s, n - 1);
    }
  }

  /** Dropping the last byte of `a` changes one bucket by one: the sum moves by
      at most one, and not at all when that byte lies outside the buckets. */
  lemma {:induction false} SumGapDropFirst(a: seq<byte>, b: seq<byte>, n: nat)
    requires |a| > 0 && n <= 256
    ensures SumGap(a, b, n) <= SumGap(a[..|a| - 1], b, n) + 1
    ensures a[|a| - 1] >= n ==> SumGap(a, b, n) == SumGap(a[..|a| - 1], b, n)
  {
    if n > 0 {
      SumGapDropFirst(a, b, n - 1);
    }
  }

  /** The same for the last byte of `b`. */
  lemma {:induction false} SumGapDropSecond(a: seq<byte>, b: seq<byte>, n: nat)
    requires |b| > 0 && n <= 256
    ensures SumGap(a, b, n) <= SumGap(a, b[..|b| - 1], n) + 1
    ensures b[|b| - 1] >= n ==> SumGap(a, b, n) == SumGap(a, b[..|b| - 1], n)
  {
    if n > 0 {
      SumGapDropSecond(a, b, n - 1);
    }
  }

  /** A byte matched at the end of both buffers leaves every difference as it was. */
  lemma {:induction false} SumGapDropMatch(a: seq<byte>, b: seq<byte>, n: nat)
    requires |a| > 0 && |b| > 0 && a[|a| - 1] == b[|b| - 1] && n <= 256
    ensures SumGap(a, b, n) == SumGap(a[..|a| - 1], b[..|b| - 1], n)
  {
    if n > 0 {
      SumGapDropMatch(a, b, n - 1);
    }
  }

  /** Histogram imbalance plus length difference is at most twice the edit
      distance: an edit changes each of the two terms by at most one, and a
      substitution changes the length term not at all. */
  lemma {:induction false} ImbalanceAtMostTwiceLev(a: seq<byte>, b: seq<byte>)
    ensures SumGap(a, b, 256) + Gap(|a|, |b|) <= 2 * Lev(a, b)
    decreases |a| + |b|
  {
    if |a| == 0 {
      SumGapEmpty(b, 256);
      CountTotal(b);
    } else if |b| == 0 {
      SumGapEmpty(a, 256);
      CountTotal(a);
    } else {
      var a', b' := a[..|a| - 1], b[..|b| - 1];
      if Lev(a, b) == Lev(a', b) + 1 {
        ImbalanceAtMostTwiceLev(a', b);
        SumGapDropFirst(a, b, 256);
      } else if Lev(a, b) == Lev(a, b') + 1 {
        ImbalanceAtMostTwiceLev(a, b');
        SumGapDropSecond(a, b, 256);
      } else {
        ImbalanceAtMostTwiceLev(a', b');
        if a[|a| - 1] == b[|b| - 1] {
          SumGapDropMatch(a, b, 256);
        } else {
          SumGapDropFirst(a, b, 256);
          SumGapDropSecond(a', b, 256);
        }
      }
    }
  }

  /** The difference in any single bucket is at most the edit distance. */
  lemma {:induction false} BucketGapAtMostLev(a: seq<byte>, b: seq<byte>, c: byte)
    ensures Gap(Count(a, c), Count(b, c)) <= Lev(a, b)
    decreases |a| + |b|
  {
    if |a| > 0 && |b| > 0 {
      var a', b' := a[..|a| - 1], b[..|b| - 1];
      if Lev(a, b) == Lev(a', b) + 1 {
        BucketGapAtMostLev(a', b, c);
      } else if Lev(a, b) == Lev(a, b') + 1 {
        BucketGapAtMostLev(a, b', c);
      } else {
        BucketGapAtMostLev(a', b', c);
      }
    }
  }

  /** Hence the largest bucket difference is at most the edit distance. */
  lemma MaxGapAtMostLev(a: seq<byte>, b: seq<byte>, n: nat)
    requires n <= 256
    ensures MaxGap(a, b, n) <= Lev(a, b)
  {
    if n > 0 {
      var c: byte :| c < n && Gap(Count(a, c), Count(b, c)) == MaxGap(a, b, n);
      BucketGapAtMostLev(a, b, c);
    }
  }
}
