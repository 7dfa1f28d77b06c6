/** Worked examples of the three estimators on concrete byte strings. */
module Scenarios {
  import opened Buffers
  import opened Levenshtein
  import opened ExactDistance
  import opened Histogram
  import opened LowerBound
  import opened UpperBound

  /** "kitten" and "sitting" in ASCII. */
  const KITTEN: seq<byte> := [107, 105, 116, 116, 101, 110]
  const SITTING: seq<byte> := [115, 105, 116, 116, 105, 110, 103]

  /** The classic example: three edits (k -> s, e -> i, insert g). */
  lemma KittenSitting()
    ensures Lev(KITTEN, SITTING) == 3
  {
    KittenSittingDistance(KITTEN, SITTING);
  }

  /** The last cell of the last row, for the strings given byte by byte. */
  lemma KittenSittingDistance(k: seq<byte>, s: seq<byte>)
    requires |k| == 6 && k[0] == 107 && k[1] == 105 && k[2] == 116 && k[3] == 116 && k[4] == 101 && k[5] == 110
    requires |s| == 7 && s[0] == 115 && s[1] == 105 && s[2] == 116 && s[3] == 116 && s[4] == 105 && s[5] == 110 && s[6] == 103
    ensures Lev(k, s) == 3
  {
    KittenSittingRows(k, s, 7);
    assert TABLE[7][6] == Cell(s, k, 7, 6);
    assert s[..7] == s && k[..6] == k;
    LevSymmetric(s, k);
  }

  /** The lower bound of the example is exact too. */
  lemma KittenSittingLowerBound()
    ensures HistogramBound(KITTEN, SITTING) == 3
  {
    KittenSittingHistogram(KITTEN, SITTING);
  }

  /** The buckets of 'e', 'g', 'i', 'k' and 's' each differ by one and the
      lengths by one; half of six is three, which the distance caps. */
  lemma KittenSittingHistogram(k: seq<byte>, s: seq<byte>)
    requires |k| == 6 && k[0] == 107 && k[1] == 105 && k[2] == 116 && k[3] == 116 && k[4] == 101 && k[5] == 110
    requires |s| == 7 && s[0] == 115 && s[1] == 105 && s[2] == 116 && s[3] == 116 && s[4] == 105 && s[5] == 110 && s[6] == 103
    ensures HistogramBound(k, s) == 3
  {
    CountOnce(k, 101, 4); CountAbsent(s, 101);
    CountAbsent(k, 103);  CountOnce(s, 103, 6);
    CountOnce(k, 105, 1);
    assert Count(s, 105) == 2 by {
      CountOnce(s[..4], 105, 1);
      assert Count(s[..5], 105) == 2 by { assert s[..5][..4] == s[..4]; }
      assert Count(s[..6], 105) == 2 by { assert s[..6][..5] == s[..5]; }
    }
    CountOnce(k, 107, 0); CountAbsent(s, 107);
    CountAbsent(k, 115);  CountOnce(s, 115, 0);
    SumGapAtLeastBucket(k, s, 101, 103);
    SumGapAtLeastBucket(k, s, 103, 105);
    SumGapAtLeastBucket(k, s, 105, 107);
    SumGapAtLeastBucket(k, s, 107, 115);
    SumGapAtLeastBucket(k, s, 115, 256);
    HistogramBoundSound(k, s);
    KittenSittingDistance(k, s);
  }

  /** Both strings fit in one window, so the upper bound of the example is
      exact as well. */
  lemma KittenSittingUpperBound()
    ensures WindowSum(KITTEN, SITTING) == 3
  {
    KittenSitting();
    WindowSumOneWindow(KITTEN, SITTING);
  }

  /** The rows the two-row programme computes for the example. "kitten" is
      the shorter buffer, so it runs along each row (7 cells) and "sitting"
      drives the outer loop (8 rows): row `i` holds the distances from the
      first `i` bytes of "sitting" to every prefix of "kitten". */
  const TABLE: seq<seq<nat>> :=
    [[0, 1, 2, 3, 4, 5, 6],
     [1, 1, 2, 3, 4, 5, 6],
     [2, 2, 1, 2, 3, 4, 5],
     [3, 3, 2, 1, 2, 3, 4],
     [4, 4, 3, 2, 1, 2, 3],
     [5, 5, 4, 3, 2, 2, 3],
     [6, 6, 5, 4, 3, 3, 2],
     [7, 7, 6, 5, 4, 4, 3]]

  /** Each row of the table follows from the one above by the cell update
      with the next byte of "sitting". */
  lemma TableUpdates(k: seq<byte>, s: seq<byte>, i: nat)
    requires |k| == 6 && k[0] == 107 && k[1] == 105 && k[2] == 116 && k[3] == 116 && k[4] == 101 && k[5] == 110
    requires |s| == 7 && s[0] == 115 && s[1] == 105 && s[2] == 116 && s[3] == 116 && s[4] == 105 && s[5] == 110 && s[6] == 103
    requires 0 < i <= 7
    ensures RowUpdated(TABLE[i - 1], TABLE[i], s[i - 1], k)
  {
  }

  /** The rows of the table are the rows of the edit matrix with `s` as the
      larger buffer and `k` as the smaller one, which are "sitting" and
      "kitten" given byte by byte. */
  lemma {:induction false} KittenSittingRows(k: seq<byte>, s: seq<byte>, i: nat)
    requires |k| == 6 && k[0] == 107 && k[1] == 105 && k[2] == 116 && k[3] == 116 && k[4] == 101 && k[5] == 110
    requires |s| == 7 && s[0] == 115 && s[1] == 105 && s[2] == 116 && s[3] == 116 && s[4] == 105 && s[5] == 110 && s[6] == 103
    requires i <= 7
    ensures forall j :: 0 <= j <= 6 ==> TABLE[i][j] == Cell(s, k, i, j)
  {
    if i == 0 {
      forall j | 0 <= j <= 6
        ensures TABLE[0][j] == Cell(s, k, 0, j)
      {
      }
    } else {
      KittenSittingRows(k, s, i - 1);
      TableUpdates(k, s, i);
      RowStep(s, k, i - 1, TABLE[i - 1], TABLE[i]);
    }
  }
}
