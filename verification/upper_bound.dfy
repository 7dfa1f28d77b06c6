/** get_ld_ub: an upper bound on the Levenshtein distance, the sum of the exact
    distances between aligned windows of at most 1024 bytes. */
module UpperBound {
  import opened SizeT
  import opened Buffers
  import opened Levenshtein
  import opened ExactDistance

  /** Length of a full window. */
  const WINDOW: nat := 1024

  /** `minimum` of two sizes. */
  function Minimum(size1: Size, size2: Size): (m: Size)
    ensures m <= size1 && m <= size2
    ensures m == size1 || m == size2
  {
    Min(size1, size2)
  }

  /** Length of the next window of a remainder of `n` bytes. */
  function WindowLength(n: nat): (w: nat)
    ensures w <= n && w <= WINDOW
    ensures w == n || w == WINDOW
  {
    if n < WINDOW then n else WINDOW
  }

  /** The loop takes the next window size as `minimum` of what is left and
      the size of the previous window rather than of WINDOW; this is still the
      next window's length, because a window shorter than WINDOW is the last. */
  lemma NextWindowLength(rest: Size, size: Size)
    requires size == WindowLength(rest + size)
    ensures Minimum(rest, size) == WindowLength(rest)
  {
  }

  /** Sum of the distances between the i-th windows of `a` and of `b`, a
      buffer that has run out contributing an empty window. */
  function WindowSum(a: seq<byte>, b: seq<byte>): nat
    decreases |a| + |b|
  {
    if |a| == 0 && |b| == 0 then 0
    else
      var n1, n2 := WindowLength(|a|), WindowLength(|b|);
      Lev(a[..n1], b[..n2]) + WindowSum(a[n1..], b[n2..])
  }

  /** Concatenation of a sequence of windows. */
  function Flatten(w: seq<seq<byte>>): seq<byte>
  {
    if |w| == 0 then [] else w[0] + Flatten(w[1..])
  }

  /** The windows the loop visits in one buffer: consecutive slices that cover
      it exactly, each of WINDOW bytes except possibly the last, none empty. */
  function Windows(s: seq<byte>): (w: seq<seq<byte>>)
    ensures Flatten(w) == s
    ensures forall i :: 0 <= i < |w| ==> 0 < |w[i]| <= WINDOW
    ensures forall i :: 0 <= i < |w| - 1 ==> |w[i]| == WINDOW
    decreases |s|
  {
    if |s| == 0 then []
    else
      var n := WindowLength(|s|);
      var w := [s[..n]] + Windows(s[n..]);
      assert w[1..] == Windows(s[n..]);
      assert s == s[..n] + s[n..];
      w
  }

  function Head(w: seq<seq<byte>>): seq<byte> { if |w| == 0 then [] else w[0] }

  function Tail(w: seq<seq<byte>>): seq<seq<byte>> { if |w| == 0 then [] else w[1..] }

  /** Sum of the distances between the i-th windows of the two lists, a list
      that has run out contributing empty windows. */
  function PairSum(w1: seq<seq<byte>>, w2: seq<seq<byte>>): nat
    decreases |w1| + |w2|
  {
    if |w1| == 0 && |w2| == 0 then 0 else Lev(Head(w1), Head(w2)) + PairSum(Tail(w1), Tail(w2))
  }

  /** The window sum pairs the windows of the two buffers index by index. */
  lemma {:induction false} WindowSumIsPairSum(a: seq<byte>, b: seq<byte>)
    ensures WindowSum(a, b) == PairSum(Windows(a), Windows(b))
    decreases |a| + |b|
  {
    if |a| > 0 || |b| > 0 {
      var n1, n2 := WindowLength(|a|), WindowLength(|b|);
      WindowSumIsPairSum(a[n1..], b[n2..]);
      assert Head(Windows(a)) == a[..n1] && Tail(Windows(a)) == Windows(a[n1..]);
      assert Head(Windows(b)) == b[..n2] && Tail(Windows(b)) == Windows(b[n2..]);
    }
  }

  /** Editing window by window is one way of editing the whole buffers, so the
      window sum is never below the distance. */
  lemma {:induction false} WindowSumAtLeastLev(a: seq<byte>, b: seq<byte>)
    ensures Lev(a, b) <= WindowSum(a, b)
    decreases |a| + |b|
  {
    if |a| > 0 || |b| > 0 {
      var n1, n2 := WindowLength(|a|), WindowLength(|b|);
      WindowSumAtLeastLev(a[n1..], b[n2..]);
      assert a == a[..n1] + a[n1..] && b == b[..n2] + b[n2..];
      LevSubadditive(a[..n1], a[n1..], b[..n2], b[n2..]);
    }
  }

  /** Each window pair costs at most its longer window, and the longer windows
      of aligned windows add up to the longer buffer; so the sum fits in a
      `size_t` and the unchecked accumulation cannot wrap. */
  lemma {:induction false} WindowSumAtMostLonger(a: seq<byte>, b: seq<byte>)
    ensures WindowSum(a, b) <= Max(|a|, |b|)
    decreases |a| + |b|
  {
    if |a| > 0 || |b| > 0 {
      var n1, n2 := WindowLength(|a|), WindowLength(|b|);
      WindowSumAtMostLonger(a[n1..], b[n2..]);
      LevAtMostLonger(a[..n1], b[..n2]);
    }
  }

  /** Against an empty buffer every window costs its length: the bound is exact. */
  lemma {:induction false} WindowSumEmpty(b: seq<byte>)
    ensures WindowSum([], b) == |b|
    ensures WindowSum(b, []) == |b|
    decreases |b|
  {
    if |b| > 0 {
      var n := WindowLength(|b|);
      WindowSumEmpty(b[n..]);
      var empty: seq<byte> := [];
      assert empty[..0] == [] && empty[0..] == [];
    }
  }

  /** Identical buffers have upper bound 0. */
  lemma {:induction false} WindowSumSame(a: seq<byte>)
    ensures WindowSum(a, a) == 0
    decreases |a|
  {
    if |a| > 0 {
      var n := WindowLength(|a|);
      WindowSumSame(a[n..]);
      LevZeroIffEqual(a[..n], a[..n]);
    }
  }

  /** Buffers that fit in one window are compared exactly. */
  lemma WindowSumOneWindow(a: seq<byte>, b: seq<byte>)
    requires |a| <= WINDOW && |b| <= WINDOW
    ensures WindowSum(a, b) == Lev(a, b)
  {
    if |a| > 0 || |b| > 0 {
      assert a[..|a|] == a && b[..|b|] == b;
      assert a[|a|..] == [] && b[|b|..] == [];
    }
  }

  /** The window sum of the parts of `a` and `b` from `start1` and `start2` on,
      window by window from those offsets: the distances the loop has still
      to add when its windows start there. */
  ghost function Remaining(a: seq<byte>, b: seq<byte>, start1: nat, start2: nat): nat
    requires start1 <= |a| && start2 <= |b|
    decreases |a| - start1 + |b| - start2
  {
    if start1 == |a| && start2 == |b| then 0
    else
      var n1, n2 := WindowLength(|a| - start1), WindowLength(|b| - start2);
      Lev(a[start1..start1 + n1], b[start2..start2 + n2]) + Remaining(a, b, start1 + n1, start2 + n2)
  }

  /** What remains from a pair of offsets is the window sum of the suffixes
      that start there. */
  lemma {:induction false} RemainingIsWindowSum(a: seq<byte>, b: seq<byte>, start1: nat, start2: nat)
    requires start1 <= |a| && start2 <= |b|
    ensures Remaining(a, b, start1, start2) == WindowSum(a[start1..], b[start2..])
    decreases |a| - start1 + |b| - start2
  {
    if start1 < |a| || start2 < |b| {
      var n1, n2 := WindowLength(|a| - start1), WindowLength(|b| - start2);
      RemainingIsWindowSum(a, b, start1 + n1, start2 + n2);
      assert a[start1..][..n1] == a[start1..start1 + n1] && b[start2..][..n2] == b[start2..start2 + n2];
      assert a[start1..][n1..] == a[start1 + n1..] && b[start2..][n2..] == b[start2 + n2..];
    }
  }

  /** Rows over a window never overflow the row-size computation. */
  lemma WindowRowsFit(size1: nat, size2: nat, allocOk: bool)
    requires size1 <= WINDOW
    ensures Computable(size1, size2, allocOk) <==> allocOk
  {
    assert Min(size1, size2) + 1 <= WINDOW + 1;
  }

  /** One pass of the loop of get_ld_ub: the exact distance between the next
      window of each buffer, which fails only when the allocator refuses. */
  method CompareWindows(buffer1: Buffer, buffer2: Buffer, allocOk: bool,
                        start1: nat, start2: nat, distance: Size) returns (r: Ret)
    requires start1 <= |buffer1| && start2 <= |buffer2|
    requires start1 < |buffer1| || start2 < |buffer2|
    ensures r.Ok() <==> allocOk
    ensures r.Ok() ==> Remaining(buffer1, buffer2, start1, start2)
                       == r.res + Remaining(buffer1, buffer2,
                                            start1 + WindowLength(|buffer1| - start1),
                                            start2 + WindowLength(|buffer2| - start2))
    ensures !r.Ok() ==> r.code == 1 && r.res == distance
  {
    var size1, size2 := WindowLength(|buffer1| - start1), WindowLength(|buffer2| - start2);
    var window1 := buffer1[start1..start1 + size1];
    var window2 := buffer2[start2..start2 + size2];
    WindowRowsFit(size1, size2, allocOk);
    r := GetLevenshteinDistance(window1, window2, allocOk, distance);
  }

  /** The window sum lies between the distance and the longer length. */
  lemma WindowSumBetween(a: seq<byte>, b: seq<byte>)
    ensures Lev(a, b) <= WindowSum(a, b) <= Max(|a|, |b|)
  {
    WindowSumAtLeastLev(a, b);
    WindowSumAtMostLonger(a, b);
  }

  /** On success `*bound` is the window sum, which lies between the distance and
      the longer length; the only failure is the exact engine's failure on the
      first window pair, which happens only when the allocator refuses the rows,
      and then `*bound` is untouched. */
  method GetUpperBound(buffer1: Buffer, buffer2: Buffer, allocOk: bool, bound: Size) returns (r: Ret)
    ensures r.Ok() <==> allocOk || (|buffer1| == 0 && |buffer2| == 0)
    ensures r.Ok() ==> r.res == WindowSum(buffer1, buffer2)
    ensures r.Ok() ==> Lev(buffer1, buffer2) <= r.res <= Max(|buffer1|, |buffer2|)
    ensures !r.Ok() ==> r.code == 1 && r.res == bound
  {
    var bound': nat := 0;
    var distance: Size := 0;
    var rest1: Size := |buffer1|;
    var rest2: Size := |buffer2|;
    // Offsets of `sub_buf_1.pointer` and `sub_buf_2.pointer` in the buffers.
    var start1: nat, start2: nat := 0, 0;
    var size1 := Minimum(rest1, WINDOW);
    var size2 := Minimum(rest2, WINDOW);

    while size1 != 0 || size2 != 0
      invariant start1 + rest1 == |buffer1| && start2 + rest2 == |buffer2|
      invariant size1 == WindowLength(rest1) && size2 == WindowLength(rest2)
      invariant allocOk || (start1 == 0 && start2 == 0)
      invariant bound' + Remaining(buffer1, buffer2, start1, start2) == Remaining(buffer1, buffer2, 0, 0)
      decreases rest1 + rest2
    {
      var call := CompareWindows(buffer1, buffer2, allocOk, start1, start2, distance);
      if !call.Ok() {
        return Ret(call.code, bound);
      }
      distance := call.res;
      bound' := bound' + distance;

      rest1 := rest1 - size1;
      rest2 := rest2 - size2;
      start1 := start1 + size1;
      start2 := start2 + size2;
      NextWindowLength(rest1, size1);
      NextWindowLength(rest2, size2);
      size1 := Minimum(rest1, size1);
      size2 := Minimum(rest2, size2);
    }

    RemainingIsWindowSum(buffer1, buffer2, 0, 0);
    assert buffer1[0..] == buffer1 && buffer2[0..] == buffer2;
    WindowSumBetween(buffer1, buffer2);
    return Ret(0, bound');
  }
}
