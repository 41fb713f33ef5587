# Sorting and matrix multiplication, modelled in Dafny

The repository benchmarks two families of algorithms.

- `tarea1/sorting.cpp` sorts a `vector<int>` in place with three algorithms:
  - `bubbleSort`, with no early exit;
  - `mergeSort(v, bottom, top)`, which merges through a temporary buffer;
  - `quickSort(v, bottom, top)`, which uses a Lomuto partition around the last element.

  The last two work on the inclusive range `[bottom, top]` and do nothing when `bottom >= top`.
- `tarea1/matrix.cpp` multiplies square `int` matrices three ways:
  - `cubicMultiplication(A, B, out)`, the iterative algorithm, writing into the caller's `out`;
  - `optimizedCubicMultiplication(A, B, out)`, which first transposes `B` in place and then multiplies rows by rows;
  - `strassenMultiplication(A, B)`, Strassen's recursive algorithm, which takes its operands by value.

  The file also has the helpers `createMatrix`, `add` and `subtract`.

## Project layout

- `sort_spec.dfy` (module `SortSpec`) is the specification of sorting:
  - `Sorted`;
  - `SortsRange`: a range sorted in place, rearranged, with nothing outside it changed;
  - the uniqueness of a sorted permutation;
  - `Merge`, the functional merge that the loops of `mergeSort` perform, with its invariant `Merging`.
- `sorting.dfy` (module `Sorting`) holds the three sorts, imperatively, on `array<int>`:
  - each loop of the source is a method with its loop invariants;
  - `MergeSort` and `QuickSort` are recursive methods on the inclusive bounds.
- `matrix_spec.dfy` (module `MatrixSpec`) treats matrices as values (`seq<seq<int>>`):
  - `CreateMatrix`, `Add`, `Subtract`;
  - `Dot`, the running sum of the inner loops;
  - `Product`, the matrix product, and `Transpose`.
- `strassen.dfy` (module `Strassen`) models `strassenMultiplication` as a function on values. It proves that the function equals `Product` whenever N is a power of two.
- `cubic.dfy` (module `Cubic`) models the two iterative multipliers as methods on `array2<int>` and ties their results to `Product` and `StrassenMultiplication`.

## Model

| member | source | states |
|---|---|---|
| SortSpec.Sorted | tarea1/sorting.cpp:22-119 | the reference meaning of sorted: each element is at most the next one |
| SortSpec.SortedPairs | tarea1/sorting.cpp:22-34 | in a sorted sequence every element is at most every later one |
| SortSpec.PairsSorted | tarea1/sorting.cpp:22-34 | a sequence whose every element is at most every later one is sorted |
| SortSpec.SortedPermutationUnique | tarea1/sorting.cpp:22-119 | two sorted rearrangements of the same elements are equal |
| SortSpec.PermutationWithin | tarea1/sorting.cpp:103-115 | when two sequences agree outside [lo, hi), they hold the same elements exactly when their [lo, hi) slices do (both directions) |
| SortSpec.SortedAroundPivot | tarea1/sorting.cpp:112-118 | a sorted part no larger than the pivot, then the pivot, then a sorted part above it, form a sorted range |
| SortSpec.SortsRange | tarea1/sorting.cpp:22-119 | the reference meaning of sorting [lo, hi) in place: that slice ends sorted, holds the same elements, and every cell outside it is unchanged |
| SortSpec.SortsRangePermutes | tarea1/sorting.cpp:22-119 | sorting a range in place rearranges the whole vector |
| SortSpec.SortsRangeUnique | tarea1/sorting.cpp:22-119 | sorting a range has one possible outcome, so bubbleSort, mergeSort and quickSort leave the same vector |
| SortSpec.SortsRangeIdempotent | tarea1/sorting.cpp:22-119 | sorting an already sorted range changes nothing |
| SortSpec.Merge | tarea1/sorting.cpp:64-78 | the reference merge the loops are proved against: take the smaller head, the left one on a tie, and append the rest once a run is used up |
| SortSpec.MergeLength | tarea1/sorting.cpp:56-78 | the merge is exactly as long as both runs together, so it fills `tmp` of size `range` |
| SortSpec.MergePermutation | tarea1/sorting.cpp:64-78 | the merge holds exactly the elements of both runs |
| SortSpec.MergeSorted | tarea1/sorting.cpp:64-78 | merging two sorted runs gives a sorted run |
| SortSpec.Merging | tarea1/sorting.cpp:64-78 | the merge-loop invariant: what the buffer holds, followed by the merge of what is left of both runs, is the merge of both runs |
| SortSpec.TakeLeft | tarea1/sorting.cpp:65-66 | taking the left head when it is no larger than the right one (a tie goes left) continues the merge |
| SortSpec.TakeRight | tarea1/sorting.cpp:67-68 | taking the right head when it is strictly smaller continues the merge |
| SortSpec.FinishMerge | tarea1/sorting.cpp:72-78 | once one run is used up, appending the rest of both completes the merge |
| Sorting.Swap | tarea1/sorting.cpp:29-31 | the two cells are exchanged, every other cell is unchanged, and the elements are the same |
| Sorting.BubblePass | tarea1/sorting.cpp:26-32 | one pass over [0, top) carries the largest element of the prefix to top - 1; the suffix is unchanged; the elements are the same; a prefix no larger than the suffix stays so |
| Sorting.BubbleSort | tarea1/sorting.cpp:22-34 | the whole vector ends sorted and holds the same elements |
| Sorting.MergeHeads | tarea1/sorting.cpp:56-70 | the first merge loop stops with one run used up, and the buffer is a correct merge prefix |
| Sorting.AppendRun | tarea1/sorting.cpp:72-78 | a trailing loop appends exactly the rest [from, to] of its run to the buffer |
| Sorting.MergeRuns | tarea1/sorting.cpp:56-78 | the buffer holds the merge of [bottom, middle] and [middle + 1, top], one element per index |
| Sorting.MergeTails | tarea1/sorting.cpp:72-78 | the buffer after both trailing loops is the full merge, of length top - bottom + 1 |
| Sorting.CopyBack | tarea1/sorting.cpp:80-82 | the buffer is copied over [bottom, top] and nothing else changes |
| Sorting.MergeHalves | tarea1/sorting.cpp:56-82 | merging two sorted halves leaves [bottom, top] sorted, with the same elements, and nothing outside it changed |
| Sorting.MergedRange | tarea1/sorting.cpp:80-82 | writing the merge of two sorted runs over their range sorts that range |
| Sorting.SortsInclusive | tarea1/sorting.cpp:48-119 | the reference meaning of mergeSort(v, bottom, top) and quickSort(v, bottom, top): nothing changes when bottom >= top, otherwise [bottom, top] is sorted in place |
| Sorting.InclusiveRange | tarea1/sorting.cpp:49 | sorting the inclusive range [bottom, top] sorts the half-open range [bottom, top + 1) |
| Sorting.MergeSort | tarea1/sorting.cpp:48-83 | mergeSort(v, bottom, top) does nothing when bottom >= top; otherwise it sorts [bottom, top] in place, keeps its elements and changes nothing else |
| Sorting.SortedHalves | tarea1/sorting.cpp:53-54 | after both recursive calls, both halves are sorted |
| Sorting.HalvesThenWhole | tarea1/sorting.cpp:53-82 | sorting the halves, then merging them in place, sorts the original range |
| Sorting.SortedThenMerged | tarea1/sorting.cpp:53-82 | the same fact on half-open ranges: three in-place sorts compose into one |
| Sorting.PartitionScan | tarea1/sorting.cpp:100-110 | after the loop, [bottom, i] is at most the pivot v[top] and (i, top) is above it; the elements are the same; v[top] and everything outside [bottom, top) are unchanged |
| Sorting.Partition | tarea1/sorting.cpp:100-115 | the pivot ends at p with [bottom, p) at most it and (p, top] above it; the range keeps its elements and nothing outside it changes |
| Sorting.PartitionedAt | tarea1/sorting.cpp:100-115 | the reference meaning of the partition: the old last element sits at p, [lo, p) is at most it, (p, hi) is above it, the range keeps its elements and nothing outside it changes |
| Sorting.QuickSort | tarea1/sorting.cpp:97-119 | quickSort(v, bottom, top) does nothing when bottom >= top; otherwise it sorts [bottom, top] in place, keeps its elements and changes nothing else |
| Sorting.QuickStep | tarea1/sorting.cpp:112-118 | partitioning, then sorting both sides, sorts the range |
| Sorting.PartitionThenSides | tarea1/sorting.cpp:117-118 | the same fact on half-open ranges around the pivot |
| Sorting.SortScenario | tarea1/sorting.cpp:22-119 | whichever sort is used, [5, 3, 8, 1] becomes [1, 3, 5, 8] |
| MatrixSpec.CreateMatrix | tarea1/matrix.cpp:23-30 | createMatrix(N) is N x N with every entry 0 |
| MatrixSpec.Add | tarea1/matrix.cpp:43-52 | add is N x N, N the size of A, and each entry is the sum of the operands' entries |
| MatrixSpec.Subtract | tarea1/matrix.cpp:65-74 | subtract is N x N and each entry is the difference of the operands' entries |
| MatrixSpec.AddZero | tarea1/matrix.cpp:43-52 | adding createMatrix(N) gives A back |
| MatrixSpec.AddCommutes | tarea1/matrix.cpp:43-52 | add(A, B) == add(B, A) |
| MatrixSpec.SubtractUndoesAdd | tarea1/matrix.cpp:65-74 | subtract(add(A, B), B) == A |
| MatrixSpec.Dot | tarea1/matrix.cpp:96-101 | the reference running sum u[0] v[0] + ... + u[d - 1] v[d - 1], accumulated from index 0 up as the inner loops do |
| MatrixSpec.DotStep | tarea1/matrix.cpp:96-101 | one more step of the inner loop adds A[row][index] * B[index][column] to the running sum |
| MatrixSpec.DotAppend | tarea1/matrix.cpp:171-191 | a running sum over two halves of the inner index is the sum of the two halves' sums |
| MatrixSpec.DotSymmetric | tarea1/matrix.cpp:204-210 | the running sum does not depend on the order of its factors, which turns right-hand linearity into left-hand |
| MatrixSpec.DotAdd | tarea1/matrix.cpp:193-202 | the running sum is additive in its first argument |
| MatrixSpec.DotSubtract | tarea1/matrix.cpp:193-202 | the running sum is subtractive in its first argument |
| MatrixSpec.Column | tarea1/matrix.cpp:98 | column j has one entry per row, the row's j-th |
| MatrixSpec.Product | tarea1/matrix.cpp:89-104 | the product of two N x N matrices is N x N |
| MatrixSpec.Transpose | tarea1/matrix.cpp:120-129 | the transpose is N x N with entry (i, j) equal to entry (j, i) |
| MatrixSpec.TransposeTwice | tarea1/matrix.cpp:120-129 | transposing twice gives the matrix back |
| Strassen.Quadrant | tarea1/matrix.cpp:180-191 | a quadrant is K x K, and its entry (i, j) is entry (row + i, col + j) of the matrix |
| Strassen.Join | tarea1/matrix.cpp:217-224 | four K x K quadrants join into a 2K x 2K matrix |
| Strassen.JoinQuadrants | tarea1/matrix.cpp:180-191 | splitting a matrix into quadrants and joining them back gives the matrix |
| Strassen.QuadrantsOfJoin | tarea1/matrix.cpp:217-224 | joining four quadrants and splitting the result gives the four quadrants back |
| Strassen.SameEntries | tarea1/matrix.cpp:217-224 | two K x K matrices with the same entries are equal |
| Strassen.Split | tarea1/matrix.cpp:171-191 | the eight quadrants of the first copy loop are K x K |
| Strassen.SplitJoins | tarea1/matrix.cpp:180-191 | the eight quadrants join back into A and B, so the copy loop loses nothing |
| Strassen.Combine | tarea1/matrix.cpp:212-224 | C built from P1..P7 is 2K x 2K |
| Strassen.StrassenMultiplication | tarea1/matrix.cpp:160-227 | strassenMultiplication of two N x N matrices, N a power of two, is N x N |
| Strassen.StrassenBase | tarea1/matrix.cpp:162-166 | for N = 1 the result is [[A[0][0] * B[0][0]]] |
| Strassen.ProductAddLeft | tarea1/matrix.cpp:204-210 | (X1 + X2) Y == X1 Y + X2 Y, entry by entry |
| Strassen.ProductSubtractLeft | tarea1/matrix.cpp:204-210 | (X1 - X2) Y == X1 Y - X2 Y, entry by entry |
| Strassen.ProductAddRight | tarea1/matrix.cpp:204-210 | X (Y1 + Y2) == X Y1 + X Y2, entry by entry |
| Strassen.ProductSubtractRight | tarea1/matrix.cpp:204-210 | X (Y1 - Y2) == X Y1 - X Y2, entry by entry |
| Strassen.ProductOfQuadrants | tarea1/matrix.cpp:171-191 | an entry of A B in any quadrant is the sum of the two quadrant products over the halves of the inner index |
| Strassen.DotOfHalves | tarea1/matrix.cpp:182-189 | row row + i of A times column col + j of B is the sum of the products of their quadrant halves |
| Strassen.RowOfHalves | tarea1/matrix.cpp:182-189 | a row of the matrix is the same row of its left quadrant followed by that of its right one |
| Strassen.ColumnOfHalves | tarea1/matrix.cpp:182-189 | a column of the matrix is the same column of its upper quadrant followed by that of its lower one |
| Strassen.UpperLeft | tarea1/matrix.cpp:193-212 | C11 = P5 + P4 + P6 - P2, with the true products of S1..S10, equals A11 B11 + A12 B21, entry by entry |
| Strassen.UpperRight | tarea1/matrix.cpp:193-213 | C12 = P1 + P2, with the true products, equals A11 B12 + A12 B22, entry by entry |
| Strassen.LowerLeft | tarea1/matrix.cpp:193-214 | C21 = P3 + P4, with the true products, equals A21 B11 + A22 B21, entry by entry |
| Strassen.LowerRight | tarea1/matrix.cpp:193-215 | C22 = P5 + P1 - P3 - P7, with the true products, equals A21 B12 + A22 B22, entry by entry |
| Strassen.TrueProducts | tarea1/matrix.cpp:193-210 | the seven products of S1..S10 and the quadrants are K x K |
| Strassen.UpperLeftEntry | tarea1/matrix.cpp:212 | C11 agrees with A B at each entry of the upper-left quadrant |
| Strassen.UpperLeftQuadrant | tarea1/matrix.cpp:212 | C11 is the upper-left quadrant of A B |
| Strassen.UpperRightEntry | tarea1/matrix.cpp:213 | C12 agrees with A B at each entry of the upper-right quadrant |
| Strassen.UpperRightQuadrant | tarea1/matrix.cpp:213 | C12 is the upper-right quadrant of A B |
| Strassen.LowerLeftEntry | tarea1/matrix.cpp:214 | C21 agrees with A B at each entry of the lower-left quadrant |
| Strassen.LowerLeftQuadrant | tarea1/matrix.cpp:214 | C21 is the lower-left quadrant of A B |
| Strassen.LowerRightEntry | tarea1/matrix.cpp:215 | C22 agrees with A B at each entry of the lower-right quadrant |
| Strassen.LowerRightQuadrant | tarea1/matrix.cpp:215 | C22 is the lower-right quadrant of A B |
| Strassen.CombineProducts | tarea1/matrix.cpp:212-224 | assembling C11..C22 from the true products gives A B |
| Strassen.StrassenIsProduct | tarea1/matrix.cpp:160-227 | for N a power of two, strassenMultiplication(A, B) is the matrix product A B |
| Strassen.DotOfTwo | tarea1/matrix.cpp:96-101 | a two-term running sum is u[0] v[0] + u[1] v[1] |
| Strassen.ProductOfTwo | tarea1/matrix.cpp:89-104 | the 2 x 2 product written out entry by entry |
| Strassen.StrassenExample | tarea1/matrix.cpp:160-227 | [[1, 2], [3, 4]] times [[5, 6], [7, 8]] gives [[19, 22], [43, 50]] |
| Cubic.RowOf | tarea1/matrix.cpp:98 | the first d entries of an array row, in order |
| Cubic.ColumnOf | tarea1/matrix.cpp:98 | the first d entries of an array column, in order |
| Cubic.Cells | tarea1/matrix.cpp:9 | the contents of an array as a matrix value, row by row |
| Cubic.SumRowTimesColumn | tarea1/matrix.cpp:96-101 | the inner loop's sum is row `row` of A times column `column` of B over the columns of A |
| Cubic.CubicMultiplication | tarea1/matrix.cpp:89-104 | every out[row][column] with row < rows of A and column < columns of B becomes row times column; the rest of out is unchanged; on N x N arrays, out holds the matrix product of A and B |
| Cubic.SwapAcross | tarea1/matrix.cpp:124-128 | one row of the transposition swaps B[row][column] with B[column][row] for every column past the diagonal, and nothing else |
| Cubic.TransposeInPlace | tarea1/matrix.cpp:120-129 | afterwards B[i][j] is the old B[j][i]; as a value, B becomes Transpose of its old value |
| Cubic.CellsTransposed | tarea1/matrix.cpp:120-129 | an array whose every entry mirrors a matrix holds that matrix's transpose |
| Cubic.SumRowTimesRow | tarea1/matrix.cpp:136-141 | the inner loop's sum is row `row` of A times row `column` of B |
| Cubic.MultiplyByRows | tarea1/matrix.cpp:131-144 | every out[row][column] becomes row `row` of A times row `column` of the transposed B; the rest of out is unchanged |
| Cubic.OptimizedCubicMultiplication | tarea1/matrix.cpp:119-145 | B is left transposed, and out holds the same row-times-column products of the original A and B as cubicMultiplication; the rest of out is unchanged; on N x N arrays, out holds the matrix product of the original A and B |
| Cubic.ColumnOfCells | tarea1/matrix.cpp:98 | a column of an array's contents is the array's column |
| Cubic.CellsAreProduct | tarea1/matrix.cpp:89-104 | an N x N out whose entry (r, c) is row r of A times column c of B, for matrix values A and B, holds their product |
| Cubic.CubicIsProduct | tarea1/matrix.cpp:89-104 | on N x N arrays, an out whose every entry is row times column of the arrays A and B, as cubicMultiplication leaves it, holds their matrix product |
| Cubic.CubicAgreesWithStrassen | tarea1/matrix.cpp:160-227 | for N a power of two, an out holding the product of A and B, as either iterative multiplier leaves it, holds strassenMultiplication(A, B) |

## Left out

- The `main` functions and `testSortingFunction` are left out. They read datasets from files, time the runs with a clock and print averages. The dataset generators are left out for the same reasons.
- 32-bit `int` overflow is not modelled. Elements and matrix entries are unbounded integers, so sums and products that would wrap in C++ do not wrap here.
- Stability of the sorts is not stated, because equal `int` elements cannot be told apart.
- Sorting.MergeRuns: the `tmp` vector of size `range` is modelled as a sequence that grows at its end. `tmp[i++] = …` is an append, and the model has no separate index `i`.
- Sorting.MergeSort and Sorting.QuickSort require `0 <= bottom` and `top < a.Length` only when `bottom < top`. These are the bounds the source indexes within; out-of-range calls are undefined behaviour in C++.
- Strassen.StrassenMultiplication requires N to be a power of two. The source behaves differently for other N:
  - For N = 0, `N == 1` fails and `K = 0`, so the function calls itself on 0 x 0 matrices without end. `IsPowerOfTwo` excludes 0, and the model's `decreases |a|` relies on that.
  - For any N >= 1 the source stays in bounds: the quadrant copies read indices up to 2K - 1 <= N - 1, and `add`, `subtract` and the recursive calls only see K x K operands.
  - For odd N the result is wrong rather than undefined: `C` comes from `createMatrix(N)` and the final loop fills only its top-left 2K x 2K block, so its last row and column stay 0.
- Strassen.StrassenMultiplication: the base case for N = 1 is the product itself. The source gets it by calling `cubicMultiplication` into a fresh 1 x 1 matrix; `Cubic.CubicIsProduct` shows that this is the product.
- MatrixSpec.Add and MatrixSpec.Subtract require A and B to be N x N for the same N, with N the size of A. The source reads `B[i][j]` for `i, j < N` without checking B's size.
- Cubic.CubicMultiplication and Cubic.OptimizedCubicMultiplication:
  - They require `out` to be a different array from A and B. Aliasing them would change the result mid-computation.
  - The optimized one also requires A and B to be different arrays, since transposing B would otherwise transpose A. Every call in the source passes three distinct matrices.
  - The optimized one requires B to be square. Its transposition swaps `B[row][column]` with `B[column][row]` for `row < B.size()` and `column < B[0].size()`. A B with more columns than rows is indexed outside its rows. A B with more rows than columns stays in bounds during the transposition, but only its top square block is transposed. The multiplication that follows reads `B[column][index]` for every `index < A[0].size()`; when A has as many columns as B has rows, that runs past the end of B's shorter rows.
- Cubic.RowOf, Cubic.ColumnOf, Cubic.Cells: `array2<int>` stands for the `vector<vector<int>>` matrices. A ragged vector of rows, where rows have different lengths, cannot be expressed this way. `A[0].size()` and `B[0].size()` on an empty matrix are undefined in C++; for an array they are the second dimension.
