# bytelev: Levenshtein distance between byte strings, with cheap bounds

bytelev compares two files as byte strings. It can compute three things:

- the exact Levenshtein distance, by a dynamic programme that keeps two rows of the edit matrix;
- a lower bound from the byte histograms of the two files;
- an upper bound, the sum of exact distances between aligned windows of at most 1024 bytes.

The row sizes of the dynamic programme and the lower bound's sum go through a layer of checked `size_t` operations, which report failure instead of wrapping. The cell updates of the dynamic programme, the histogram increments, and the upper bound's running sum and offsets use plain `size_t` arithmetic without a check (see Left out for when each of these can wrap).

This project models that engine of `main.c` in Dafny and proves its properties:

- `SizeT` (size_t.dfy) models the checked arithmetic. Every `int f(size_t *res, ...)` becomes a function returning `Ret(code, res)`. The incoming `*res` is a parameter, so "`*res` is written only on success" is an equation.
  - `size_t_from_string` is modelled together with a digits-only `strtol`.
  - It also has an overflow-checked replacement parse (see Findings).
- `Buffers` (buffer.dfy) defines `struct buffer` as an immutable sequence of bytes whose length is a `size_t`.
- `Levenshtein` (levenshtein.dfy) defines the distance `Lev` by the textbook recursion on last bytes. It proves symmetry, `Lev(a, b) == 0 <==> a == b`, the length bounds and subadditivity over concatenation.
- `ExactDistance` (exact.dfy) models `get_levenshtein_distance` as a method on two arrays. Its loop invariants say that row 1 holds row `i` of the edit matrix.
- `Histogram` (histogram.dfy) defines byte counts and the per-bucket differences. It proves that one edit moves them by at most one.
- `LowerBound` (lower_bound.dfy) models `distance` and `get_ld_lb`, and proves the result never exceeds `Lev`.
- `UpperBound` (upper_bound.dfy) models `minimum` and `get_ld_ub`. It proves that the windows tile both buffers and that the result is the window sum, which lies between `Lev` and the longer length.
- `Scenarios` (scenarios.dfy) works "kitten" against "sitting" out in full for all three estimators.

Allocation (`calloc`) is a boolean parameter `allocOk`: the allocator's answer. The lengths and constants are those of an LP64 platform:

- `SIZE_MAX = 2^64 - 1`
- `sizeof(size_t) = 8`
- `LONG_MAX = 2^63 - 1`

## Model

| member | source | states |
|---|---|---|
| SizeT.Add | main.c:32-40 | succeeds iff the true sum is at most SIZE_MAX, then stores that sum; on failure returns 1 and leaves `*res` as it was |
| SizeT.Sub | main.c:42-50 | succeeds iff the difference is not negative, then stores it; `*res` untouched on failure |
| SizeT.MulGuard | main.c:55-59 | the division guard `SIZE_MAX / op1 < op2` holds exactly when the product exceeds SIZE_MAX |
| SizeT.Mul | main.c:52-62 | succeeds iff the true product is at most SIZE_MAX (always when `op1` is 0), then stores it; `*res` untouched on failure |
| SizeT.Div | main.c:64-72 | succeeds iff the divisor is non-zero, then stores the floor quotient (`q*op2 <= op1 < q*op2 + op2`); `*res` untouched on failure |
| SizeT.Mod | main.c:74-82 | succeeds iff the divisor is non-zero, then stores the remainder (below the divisor, and quotient times divisor plus it gives back `op1`) |
| SizeT.AddAug | main.c:127 | the sum with `*res` as first operand, under the same success condition |
| SizeT.SubAug | main.c:128 | the difference with `*res` as first operand |
| SizeT.MulAug | main.c:129 | the product with `*res` as first operand |
| SizeT.DivAug | main.c:130 | the quotient with `*res` as dividend |
| SizeT.ModAug | main.c:131 | the remainder with `*res` as dividend |
| SizeT.Inc | main.c:133 | fails only when `*res` is SIZE_MAX, otherwise adds one |
| SizeT.Dec | main.c:134 | fails only when `*res` is 0, otherwise subtracts one |
| SizeT.DecimalValueZero | main.c:95-103 | a digit string denotes 0 exactly when all its digits are '0', so the all-zero shortcut agrees with the conversion |
| SizeT.DigitRun | main.c:105 | the length of the longest digit prefix: everything before it is a digit and the character at it is not |
| SizeT.Strtol | main.c:105 | `end` reaches the end of the string exactly when the string is all digits; then the value is the decimal value saturated at LONG_MAX; the value always lies in 0..LONG_MAX |
| SizeT.FromString | main.c:84-125 | accepts exactly the non-empty digit strings whose value is below LONG_MAX and stores that value; rejects the empty string and a leading sign; all-'0' strings give 0; every other success is positive; `*res` untouched on failure |
| SizeT.Accumulate | main.c:84-125 | the corrected conversion digit by digit through MulAug and AddAug: succeeds exactly on digit strings whose value fits in a `size_t` and stores that value |
| SizeT.ParseSize | main.c:84-125 | the corrected `size_t_from_string`: accepts exactly the non-empty digit strings whose value is at most SIZE_MAX, with no sentinel |
| SizeT.FromStringRefusesLongMax | main.c:106-110 | every digit string whose value is between LONG_MAX and SIZE_MAX is refused by the source's parse and accepted by the corrected one |
| SizeT.LongMaxText | main.c:106-110 | "9223372036854775807" is a digit string denoting LONG_MAX |
| SizeT.FromStringRefusesLongMaxText | main.c:106-110 | the concrete input "9223372036854775807" is refused by the source's parse and accepted with value LONG_MAX by the corrected one |
| SizeT.DecimalValueSnoc | main.c:105 | appending a digit multiplies the value by ten and adds the digit |
| Levenshtein.LevSnoc | main.c:318-329 | the cell recurrence: the distance of two extended strings is the minimum of deletion, insertion and substitution from the shorter prefixes |
| Levenshtein.LevSymmetric | main.c:281-288 | the distance does not depend on argument order, which is why the source may put either buffer in the rows |
| Levenshtein.LevZeroIffEqual | main.c:268-341 | the distance is 0 exactly for equal byte strings |
| Levenshtein.LevAtMostLonger | main.c:321-329 | the distance never exceeds the longer length, so no cell value exceeds SIZE_MAX; whether the `+ 1` on a cell fits is `CellSuccessorFits` |
| Levenshtein.LevAtLeastLengthGap | main.c:392-393 | the distance is at least the length difference |
| Levenshtein.LevSubadditive | main.c:439-455 | the distance of two concatenations is at most the sum of the distances of the pieces |
| Levenshtein.SingleSubstitution | main.c:318-322 | equal-length strings differing in exactly one position are at distance 1 |
| ExactDistance.RowBytes | main.c:291-298 | `(small_size + 1) * sizeof(size_t)` is computed exactly and fails exactly when it exceeds SIZE_MAX |
| ExactDistance.LevCell | main.c:318-329 | cell (i+1, j+1) of the edit matrix is the minimum over its three neighbours |
| ExactDistance.CellSuccessorFits | main.c:315-327 | below SIZE_MAX bytes in the longer buffer, every cell plus one fits in a `size_t`, so the unchecked `+ 1` additions do not wrap |
| ExactDistance.FirstCellOverflowsAtSizeMax | main.c:315-326 | at exactly SIZE_MAX bytes the first cell of the last row plus one exceeds SIZE_MAX: the one length at which the source's additions wrap, provided the shorter buffer has a byte; against an empty shorter buffer the answer is SIZE_MAX itself |
| ExactDistance.RowStep | main.c:315-330 | filling a row from row `i` by the cell update, starting from `i + 1`, yields row `i + 1` |
| ExactDistance.FillRow | main.c:315-330 | one pass of the outer loop turns row `i` of the edit matrix in `row_1` into row `i + 1` in `row_2` |
| ExactDistance.GetLevenshteinDistance | main.c:268-341 | succeeds exactly when the row size fits and allocation succeeds, and then stores `Lev(buffer_1, buffer_2)`, whichever buffer is shorter; on failure returns 1 and leaves `*distance` untouched |
| Histogram.Count | main.c:366-373 | a bucket never exceeds the buffer length, so the increments cannot wrap |
| Histogram.MaxGap | main.c:375-381 | the largest bucket difference bounds every bucket difference and is attained by one bucket (0 with no buckets) |
| Histogram.CountAbsent | main.c:366-373 | a byte that does not occur has an empty bucket |
| Histogram.CountOnce | main.c:366-373 | a byte that occurs at exactly one position has a bucket of one |
| Histogram.CountTotal | main.c:366-373 | the 256 buckets add up to the buffer length |
| Histogram.SumGapEmpty | main.c:383-391 | against an empty buffer the bucket differences add up to the other buffer's counts |
| Histogram.SumGapDropFirst | main.c:383-391 | dropping a byte from the first buffer moves the sum of bucket differences by at most one |
| Histogram.SumGapDropSecond | main.c:383-391 | the same for the second buffer |
| Histogram.SumGapDropMatch | main.c:383-391 | dropping an equal byte from both buffers leaves the sum of bucket differences unchanged |
| Histogram.ImbalanceAtMostTwiceLev | main.c:383-400 | the sum of bucket differences plus the length difference is at most twice the distance |
| Histogram.BucketGapAtMostLev | main.c:375-381 | every single bucket difference is at most the distance |
| Histogram.MaxGapAtMostLev | main.c:375-381 | the largest bucket difference is at most the distance |
| LowerBound.Distance | main.c:347-353 | the absolute difference of two sizes, computed without underflow |
| LowerBound.HalfUp | main.c:398-400 | `1 + (t - 1) / 2` (0 for 0) is the ceiling of t/2 |
| LowerBound.HistogramBoundSound | main.c:490 | the histogram bound never exceeds the distance |
| LowerBound.HistogramBoundEmpty | main.c:355-407 | against an empty buffer the lower bound equals the other length, which is the distance |
| LowerBound.HistogramBoundSame | main.c:355-407 | identical buffers have lower bound 0 |
| LowerBound.SumGapMonotone | main.c:384-391 | partial sums of bucket differences only grow, so an overflow part-way means the total overflows |
| LowerBound.SumGapAtLeastBucket | main.c:384-391 | the running sum of bucket differences up to `n` includes bucket `c` on top of the buckets below `c` |
| LowerBound.BuildHistogram | main.c:363-373 | bucket `c` holds the number of occurrences of byte `c`; the buckets are `size_t` and the increments never wrap |
| LowerBound.GetLowerBound | main.c:355-407 | fails exactly when the sum of bucket differences plus the length difference exceeds SIZE_MAX; on success stores the larger of the largest bucket difference and half (rounded up) of that sum, which is at most `Lev`; `*bound` untouched on failure |
| UpperBound.Minimum | main.c:413-419 | the smaller of two sizes |
| UpperBound.WindowLength | main.c:436-437 | a window is the whole remainder or 1024 bytes, whichever is shorter |
| UpperBound.Windows | main.c:449-454 | the windows of a buffer are non-empty, cover it exactly in order, and all but the last hold 1024 bytes |
| UpperBound.WindowSumIsPairSum | main.c:439-455 | the window sum pairs the i-th window of one buffer with the i-th of the other, an exhausted buffer giving empty windows |
| UpperBound.WindowSumAtLeastLev | main.c:491 | the window sum is never below the distance |
| UpperBound.WindowSumAtMostLonger | main.c:447 | the window sum is at most the longer length, so `bound_ += distance` cannot wrap |
| UpperBound.WindowSumEmpty | main.c:439-455 | against an empty buffer the upper bound equals the other length |
| UpperBound.WindowSumSame | main.c:439-455 | identical buffers have upper bound 0 |
| UpperBound.WindowSumOneWindow | main.c:436-443 | buffers of at most 1024 bytes get the exact distance |
| UpperBound.RemainingIsWindowSum | main.c:441-454 | the distances the loop still has to add from a pair of window offsets are the window sum of the suffixes from those offsets |
| UpperBound.NextWindowLength | main.c:449-454 | taking `minimum` of what is left and the previous window size (not 1024) still yields the next window's length |
| UpperBound.WindowRowsFit | main.c:291-298 | rows for a window never overflow the row-size computation, so only allocation can fail |
| UpperBound.CompareWindows | main.c:441-447 | one loop pass succeeds exactly when allocation succeeds, and its distance is what that window pair adds to the sum |
| UpperBound.WindowSumBetween | main.c:491 | the window sum lies between the distance and the longer length |
| UpperBound.GetUpperBound | main.c:421-459 | terminates; succeeds exactly when allocation succeeds or both buffers are empty; on success stores the window sum, which is between `Lev` and the longer length; `*bound` untouched on failure |
| Scenarios.KittenSittingRows | main.c:281-335 | the 8 rows of 7 cells the two-row programme computes for "kitten" against "sitting": "kitten" is the shorter buffer along each row, "sitting" drives the outer loop |
| Scenarios.TableUpdates | main.c:317-330 | each row of the "kitten"/"sitting" table follows from the row above by the cell update with the next byte of "sitting" |
| Scenarios.KittenSitting | main.c:268-341 | "kitten" and "sitting" are at distance 3 |
| Scenarios.KittenSittingDistance | main.c:311-337 | the last cell of the last row, with symmetry: "kitten" and "sitting", given byte by byte, are at distance 3 |
| Scenarios.KittenSittingHistogram | main.c:355-407 | for "kitten" and "sitting" given byte by byte, five buckets differ by one and the lengths by one, so the lower bound is 3 |
| Scenarios.KittenSittingLowerBound | main.c:355-407 | the lower bound of "kitten" against "sitting" is 3, equal to the distance |
| Scenarios.KittenSittingUpperBound | main.c:421-459 | the upper bound of "kitten" against "sitting" is 3 |

## Left out

- `get_file_size`, `buffer_create` and `buffer_destroy` (file I/O through the C stdio library): the model takes the two byte sequences as given.
- `main` and the command line are left out: argument dispatch, the `read_limit`, printing and exit codes. The usage text is cited only for the promises it makes about the bounds.
- `calloc` and `free` are reduced to the allocator's yes/no answer, `allocOk`. Freeing the rows on every path is not modelled. `get_ld_ub` sees the same answer for every window pair.
- SizeT.Strtol: does not skip leading white space, set `errno` or read a sign. `size_t_from_string` rejects a leading sign before calling it, and white space is not modelled.
- SizeT.FromString: rejects a string with leading white space. The source accepts it when `strtol` skips that white space and reads digits up to the end, e.g. " 12" gives 12.
- The constants are those of LP64. On a platform with a 32-bit `long`, the source's parse would saturate at 2^31 - 1 instead.
- ExactDistance.GetLevenshteinDistance: the DP cells are unbounded naturals, while the source adds `+ 1` to `size_t` cells without a check. The two agree whenever the longer buffer is shorter than SIZE_MAX bytes: `CellSuccessorFits` shows every cell plus one then fits. They differ when the longer buffer has exactly SIZE_MAX bytes and the shorter buffer is non-empty. There the source's `row_2[0] + 1` in the last pass wraps to 0 (`FirstCellOverflowsAtSizeMax`), so the source can report a wrong distance where the model promises `Lev`. With an empty shorter buffer the inner loop never runs and the source returns SIZE_MAX, which is `Lev`. No allocator can hold a buffer of that size in memory, but the type `Buffer` admits the length.
- LowerBound.BuildHistogram: the buckets are `size_t` and the source increments them without a check. Each bucket is at most the buffer length, which is a `size_t`, so no increment wraps.
- UpperBound.GetUpperBound: the running sum is an unbounded natural, while the source adds to it without a check. `WindowSumAtMostLonger` shows the sum stays within the longer length, so no overflow path is modelled, as in the source. The remaining lengths `buf_*_t` become offsets into the buffers; a window is never longer than what is left (`WindowLength`), so the source's unchecked subtractions never wrap.
- The `assert`s at main.c:289 and main.c:299 are not modelled as statements. The first follows from the choice of the shorter buffer. The second follows from `RowBytes` being at least 8.

## Findings

| source | as written | input that shows it | evidently intended | confidence | as-written member | corrected member |
|---|---|---|---|---|---|---|
| main.c:106-110 | `size_t_from_string` treats a `strtol` result equal to LONG_MAX as an overflow and fails, so it rejects the text of LONG_MAX itself. Saturation also rejects every value from LONG_MAX up to SIZE_MAX, although those fit in a `size_t`. | "9223372036854775807" | accept every digit string whose value fits in a `size_t`, using an overflow-checked unsigned parse | medium; not executed | SizeT.FromString, SizeT.FromStringRefusesLongMaxText | SizeT.ParseSize |
