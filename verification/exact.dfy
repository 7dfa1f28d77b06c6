/** get_levenshtein_distance: the exact distance by a dynamic programme that
    keeps only two rows of the edit matrix, each as long as the shorter buffer
    plus one. */
module ExactDistance {
  import opened SizeT
  import opened Buffers
  import opened Levenshtein

  /** The byte size of one row, `(small_size + 1) * sizeof(size_t)`, computed with
      size_t_add and size_t_mul_aug; it fails exactly when that size does not fit
      in a `size_t`. */
  function RowBytes(smallSize: Size): (r: Ret)
    ensures r.Ok() <==> (smallSize + 1) * SIZE_OF_SIZE_T <= SIZE_MAX
    ensures r.Ok() ==> r.res == (smallSize + 1) * SIZE_OF_SIZE_T
  {
    var i := Add(0, smallSize, 1);
    if !i.Ok() then i else MulAug(i.res, SIZE_OF_SIZE_T)
  }

  /** The two ways the computation can fail: the row size overflows, or the
      allocator (whose answer is the parameter `allocOk`) refuses the rows. */
  predicate Computable(size1: nat, size2: nat, allocOk: bool)
  {
    (Min(size1, size2) + 1) * SIZE_OF_SIZE_T <= SIZE_MAX && allocOk
  }

  /** Cell (i, k) of the edit matrix: the distance between the first i bytes of
      `large` and the first k bytes of `small`. */
  ghost function Cell(large: seq<byte>, small: seq<byte>, i: nat, k: nat): nat
    requires i <= |large| && k <= |small|
  {
    Lev(large[..i], small[..k])
  }

  /** The cell update: cell (i + 1, j + 1) from its three neighbours. */
  lemma LevCell(large: seq<byte>, small: seq<byte>, i: nat, j: nat)
    requires i < |large| && j < |small|
    ensures Cell(large, small, i + 1, j + 1)
         == Min3(Cell(large, small, i, j + 1) + 1,
                 Cell(large, small, i + 1, j) + 1,
                 Cell(large, small, i, j) + Cost(large[i], small[j]))
  {
    assert large[..i + 1] == large[..i] + [large[i]];
    assert small[..j + 1] == small[..j] + [small[j]];
    LevSnoc(large[..i], small[..j], large[i], small[j]);
  }

  /** While the longer buffer is shorter than SIZE_MAX, every cell of the edit
      matrix plus one still fits in a `size_t`, so the unchecked `+ 1` of the
      cell update and of `row_2[0] = i + 1` never wraps and the arrays of
      naturals hold exactly what the source's `size_t` rows hold. */
  lemma CellSuccessorFits(large: seq<byte>, small: seq<byte>, i: nat, k: nat)
    requires |small| <= |large| < SIZE_MAX && i <= |large| && k <= |small|
    ensures Cell(large, small, i, k) + 1 <= SIZE_MAX
  {
    LevAtMostLonger(large[..i], small[..k]);
  }

  /** At exactly SIZE_MAX bytes the first cell of the last row is SIZE_MAX, and
      the source's `row_2[j] + 1` at `j == 0` leaves the `size_t` range: the
      one length at which the source's rows and the model's differ. That
      addition happens only when the shorter buffer has a byte; against an
      empty one the answer is the first cell itself, which fits. */
  lemma FirstCellOverflowsAtSizeMax(large: seq<byte>, small: seq<byte>)
    requires |large| == SIZE_MAX
    ensures Cell(large, small, |large|, 0) + 1 > SIZE_MAX
    ensures |small| == 0 ==> Cell(large, small, |large|, |small|) == SIZE_MAX
  {
    assert large[..|large|] == large && small[..0] == [];
  }

  /** `next[j + 1]` is the cell update of `next[j]` and `prev[j]`, `prev[j + 1]`
      for byte `x` of the longer buffer against byte `small[j]`. */
  predicate CellUpdated(prev: seq<nat>, next: seq<nat>, x: byte, small: seq<byte>, j: nat)
    requires j < |small| && |prev| == |small| + 1 && |next| == |small| + 1
  {
    next[j + 1] == Min3(prev[j + 1] + 1, next[j] + 1, prev[j] + Cost(x, small[j]))
  }

  /** Every cell of `next` after the first is the cell update of its neighbours. */
  predicate RowUpdated(prev: seq<nat>, next: seq<nat>, x: byte, small: seq<byte>)
    requires |prev| == |small| + 1 && |next| == |small| + 1
  {
    forall j :: 0 <= j < |small| ==> CellUpdated(prev, next, x, small, j)
  }

  /** One pass of the outer loop as a fact about whole rows: if `prev` holds row
      `i` of the edit matrix and `next` is filled from it by the cell update,
      starting from `i + 1`, then `next` holds row `i + 1`. */
  lemma RowStep(large: seq<byte>, small: seq<byte>, i: nat, prev: seq<nat>, next: seq<nat>)
    requires i < |large| && |prev| == |small| + 1 && |next| == |small| + 1
    requires forall k :: 0 <= k <= |small| ==> prev[k] == Cell(large, small, i, k)
    requires next[0] == i + 1
    requires RowUpdated(prev, next, large[i], small)
    ensures forall k :: 0 <= k <= |small| ==> next[k] == Cell(large, small, i + 1, k)
  {
    assert small[..0] == [];
    var j := 0;
    while j < |small|
      invariant 0 <= j <= |small|
      invariant forall k :: 0 <= k <= j ==> next[k] == Cell(large, small, i + 1, k)
    {
      assert CellUpdated(prev, next, large[i], small, j);
      LevCell(large, small, i, j);
      j := j + 1;
    }
  }

  /** One pass of the outer loop of get_levenshtein_distance: fills `row2` with
      row `i + 1` of the edit matrix from row `i` in `row1`. */
  method FillRow(large: seq<byte>, small: seq<byte>, i: nat, row1: array<nat>, row2: array<nat>)
    requires i < |large| && row1 != row2
    requires row1.Length == |small| + 1 && row2.Length == |small| + 1
    requires forall k :: 0 <= k <= |small| ==> row1[k] == Cell(large, small, i, k)
    modifies row2
    ensures forall k :: 0 <= k <= |small| ==> row2[k] == Cell(large, small, i + 1, k)
  {
    assert small[..0] == [];
    row2[0] := i + 1;
    var j := 0;
    while j < |small|
      invariant 0 <= j <= |small|
      invariant forall k :: 0 <= k <= j ==> row2[k] == Cell(large, small, i + 1, k)
    {
      var t := row1[j];
      if small[j] != large[i] {
        t := t + 1;
      }
      if t > row1[j + 1] + 1 {
        t := row1[j + 1] + 1;
      }
      if t > row2[j] + 1 {
        t := row2[j] + 1;
      }
      LevCell(large, small, i, j);
      row2[j + 1] := t;
      j := j + 1;
    }
  }

  /** On success `*distance` is the Levenshtein distance between the buffers,
      whichever of them is the longer; on failure `*distance` is untouched. */
  method GetLevenshteinDistance(buffer1: Buffer, buffer2: Buffer, allocOk: bool, distance: Size)
    returns (r: Ret)
    ensures r.Ok() <==> Computable(|buffer1|, |buffer2|, allocOk)
    ensures r.Ok() ==> r.res == Lev(buffer1, buffer2)
    ensures !r.Ok() ==> r.code == 1 && r.res == distance
  {
    // On a tie in length `buffer2` plays the shorter buffer.
    var small, large;
    if |buffer1| < |buffer2| {
      small, large := buffer1, buffer2;
    } else {
      small, large := buffer2, buffer1;
    }
    var rowBytes := RowBytes(|small|);
    if !rowBytes.Ok() {
      return Ret(1, distance);
    }
    if !allocOk {
      return Ret(1, distance);
    }
    var n := |small|;
    var row1 := new nat[n + 1];
    var row2 := new nat[n + 1];

    var j := 0;
    while j < n + 1
      invariant 0 <= j <= n + 1
      invariant forall k :: 0 <= k < j ==> row1[k] == k
    {
      row1[j] := j;
      j := j + 1;
    }
    assert large[..0] == [];

    var i := 0;
    while i < |large|
      invariant 0 <= i <= |large|
      invariant fresh(row1) && fresh(row2) && row1 != row2
      invariant row1.Length == n + 1 && row2.Length == n + 1
      invariant forall k :: 0 <= k <= n ==> row1[k] == Cell(large, small, i, k)
    {
      FillRow(large, small, i, row1, row2);
      row1, row2 := row2, row1;
      i := i + 1;
    }

    assert large[..|large|] == large && small[..n] == small;
    LevSymmetric(buffer1, buffer2);
    LevAtMostLonger(buffer1, buffer2);
    return Ret(0, row1[n]);
  }
}
