# Matrices in Dafny

A model of a small immutable dense-matrix library (`Matrix`) and its static shape
factory (`Shapes`), with exact integer entries in place of doubles.

- `Matrix` owns a two-dimensional array that it allocates itself. Construction
  copies the caller's array. `mult`, `add` and `transpose` each fill a freshly
  allocated, zero-initialised result. `mult` and `add` raise "Dimension mismatch"
  when the operand shapes do not fit. `equals` is structural.
- `Shapes` builds the identity matrix and the 2×(8·size+4) square-perimeter point
  set by filling an array and passing it to the copying constructor.

Files and modules:

- `grids.dfy`, module `Grids`: the value-level view. A matrix is a row-major
  `seq<seq<int>>`. This module defines the inner product `Dot`, `Product`, `Sum`,
  `Transposed` and `Identity`, and proves the algebraic laws: identity is a
  two-sided unit, transposition is an involution, and entrywise agreement is
  value equality.
- `matrix.dfy`, module `Matrices`: the `Matrix` class over a `const` `array2<int>`.
  The error path is a `Result` whose failure carries
  `IllegalArgument("Dimension mismatch")`. Every operation's loops are verified
  against the `Grids` functions. Immutability is enforced by the frame:
  - no member has a `modifies` clause, so neither `this` nor an argument can change;
  - every result's storage is `fresh`;
  - the copying constructor never shares storage with its argument.
- `square.dfy`, module `SquareLayout`: the column arithmetic of the square fill
  loop. It gives an operational reading (`ColumnAfter`: the last write wins)
  and closed forms for the source's offsets and for the corrected offsets.
- `shapes.dfy`, module `Shapes`: `Identity`, `Square` (the source's offsets) and
  `SquareIntended` (the corrected offsets).
- `laws.dfy`, module `Laws`: the laws restated over `Matrix` objects:
  - identity is a unit of `Mult`;
  - `Transpose` twice restores the original;
  - writing to the constructor's input afterwards is not seen through the matrix.
- `examples.dfy`, module `Examples`: the unit tests' worked values, over the
  value-level operations and through `Matrix.Copy` followed by `Add`, `Mult`
  and `Transpose`.

Two points where the code's behaviour is narrower or wider than its own
documentation suggests; the model follows the code:

- The doc comment of `square` (Shapes.java:47-51) promises "a matrix of height
  2 with each column representing a point on the square". The code keeps that
  promise only for size 1 (see Findings).
- A matrix may have zero columns: the code accepts a one-row, zero-column
  array such as `new double[1][0]`, and only `transpose` then faults, because
  its zero-filled result has zero rows and the constructor reads row 0
  (Matrix.java:28-44, 83-84). So `Matrix.Valid` demands height ≥ 1 only, and
  `Transpose` requires width ≥ 1.

## Model

| member | source | states |
|---|---|---|
| Matrices.Matrix.Copy | matrices/src/main/java/uk/ac/cam/sbc34/matrices/Matrix.java:33-45 | the storage is fresh, height is the number of rows, width is the row length, and the contents equal the argument's entries at construction time; at least one row is needed because row 0 is read |
| Matrices.Matrix.Zero | matrices/src/main/java/uk/ac/cam/sbc34/matrices/Matrix.java:28-30 | a fresh height×width matrix of zeros; needs at least one row |
| Matrices.Matrix.Get | matrices/src/main/java/uk/ac/cam/sbc34/matrices/Matrix.java:102-104 | for 0 ≤ row < height and 0 ≤ col < width, returns entry (row, col) of the contents; other indices are not admitted |
| Matrices.Matrix.Width | matrices/src/main/java/uk/ac/cam/sbc34/matrices/Matrix.java:106-108 | every row of the contents has exactly this many entries |
| Matrices.Matrix.Height | matrices/src/main/java/uk/ac/cam/sbc34/matrices/Matrix.java:110-112 | the contents have exactly this many rows, at least one |
| Matrices.Matrix.Mult | matrices/src/main/java/uk/ac/cam/sbc34/matrices/Matrix.java:48-66 | fails with "Dimension mismatch" exactly when width ≠ other.height; otherwise returns a fresh height×other.width matrix whose entry (r, c) is Σ_{i<width} this[r][i]·other[i][c]; neither operand changes |
| Matrices.Matrix.Add | matrices/src/main/java/uk/ac/cam/sbc34/matrices/Matrix.java:69-80 | fails with "Dimension mismatch" exactly when the widths or the heights differ; otherwise returns a fresh matrix of the same shape holding the entrywise sums; neither operand changes |
| Matrices.Matrix.Transpose | matrices/src/main/java/uk/ac/cam/sbc34/matrices/Matrix.java:83-93 | returns a fresh width×height matrix with result[j][i] = this[i][j]; needs width ≥ 1 because the zero result must have a row 0 |
| Matrices.Matrix.Equals | matrices/src/main/java/uk/ac/cam/sbc34/matrices/Matrix.java:119-129 | true exactly when heights and widths agree and the contents are equal; so false whenever a dimension differs, and reflexive, symmetric and transitive |
| Grids.SameEntriesIffEqual | matrices/src/main/java/uk/ac/cam/sbc34/matrices/Matrix.java:122-128 | for grids of one shape, agreement of every pair of corresponding entries (the loop `equals` runs) holds exactly when the grids are equal |
| Grids.TransposeInvolution | matrices/src/main/java/uk/ac/cam/sbc34/matrices/Matrix.java:83-93 | transposing an h×w grid and then the resulting w×h grid gives back the original |
| Grids.DotIdentityRight | matrices/src/main/java/uk/ac/cam/sbc34/matrices/Shapes.java:39-45 | the inner product of a row with column c of the identity, over any prefix, is the row's entry c once the prefix passes c, and 0 before |
| Grids.DotIdentityLeft | matrices/src/main/java/uk/ac/cam/sbc34/matrices/Shapes.java:39-45 | the inner product of row r of the identity with a column, over any prefix, is the column's entry r once the prefix passes r, and 0 before |
| Grids.ProductIdentityRight | matrices/src/main/java/uk/ac/cam/sbc34/matrices/Matrix.java:54-65 | an h×w grid times the w×w identity is the grid itself |
| Grids.ProductIdentityLeft | matrices/src/main/java/uk/ac/cam/sbc34/matrices/Matrix.java:54-65 | the h×h identity times an h×w grid is the grid itself |
| Shapes.Identity | matrices/src/main/java/uk/ac/cam/sbc34/matrices/Shapes.java:39-45 | a fresh size×size matrix (new object, new storage) with 1 on the diagonal and 0 elsewhere; size ≥ 1 because the constructor reads row 0 |
| Shapes.Square | matrices/src/main/java/uk/ac/cam/sbc34/matrices/Shapes.java:53-71 | a fresh 2×(8·size+4) matrix (new object, new storage) whose column c is the point SquareColumn(size, c) that the overlapping writes leave behind; needs size ≥ 1 |
| Shapes.SquareIntended | matrices/src/main/java/uk/ac/cam/sbc34/matrices/Shapes.java:47-54 | a fresh matrix (new object, new storage); with edges laid end to end, every one of the 8·size+4 columns is a point of the perimeter, for every size ≥ 0 |
| SquareLayout.ColumnAfterIsReached | matrices/src/main/java/uk/ac/cam/sbc34/matrices/Shapes.java:55-68 | after iterations −size .. u−1, a column holds the point of the latest write to it, or the origin if nothing wrote it, for any strictly increasing offsets |
| SquareLayout.SquareColumnAfterLoop | matrices/src/main/java/uk/ac/cam/sbc34/matrices/Shapes.java:55-68 | after the whole loop with the source's offsets: columns 0..2s hold the right edge; 2s+1..3s+2 the rest of the top edge; 3s+3..5s+3 the left edge; 5s+4..7s+4 the bottom edge; the remaining columns the origin |
| SquareLayout.EdgesWrittenIsStep | matrices/src/main/java/uk/ac/cam/sbc34/matrices/Shapes.java:57-67 | writing the right, top, left and bottom columns one after another is one loop iteration, with the last write to a column winning |
| SquareLayout.WritesInBoundsIff | matrices/src/main/java/uk/ac/cam/sbc34/matrices/Shapes.java:54-68 | the row length is non-negative and every written column lies inside it exactly when size ≥ 1 |
| SquareLayout.SquareOneColumns | matrices/src/main/java/uk/ac/cam/sbc34/matrices/Shapes.java:53-68 | the source's loop leaves square(1) with columns (1,−1) (1,0) (1,1) (−1,1) (0,1) (1,1) (−1,−1) (−1,0) (−1,1) (−1,−1) (0,−1) (1,−1) |
| SquareLayout.SquareOneOnPerimeter | matrices/src/main/java/uk/ac/cam/sbc34/matrices/Shapes.java:47-52 | every column the source's loop leaves in square(1) satisfies max(\|x\|, \|y\|) = 1 |
| SquareLayout.SquareTailNotOnPerimeter | matrices/src/main/java/uk/ac/cam/sbc34/matrices/Shapes.java:47-68 | for size ≥ 2, the source's loop never writes columns 7·size+5 .. 8·size+3, which keep the origin, which is not on the perimeter |
| SquareLayout.SquareTopStartOverwritten | matrices/src/main/java/uk/ac/cam/sbc34/matrices/Shapes.java:57-61 | for size ≥ 2, the first iteration puts the top-left corner (−size, size) in column size+2; a later right-edge write replaces it with (size, 2) |
| SquareLayout.IntendedWritesInBoundsIff | matrices/src/main/java/uk/ac/cam/sbc34/matrices/Shapes.java:54 | with the corrected offsets the writes stay in bounds exactly when size ≥ 0 |
| SquareLayout.IntendedColumnAfterLoop | matrices/src/main/java/uk/ac/cam/sbc34/matrices/Shapes.java:47-54 | with the corrected offsets, after the whole loop every column holds its point of the right, top, left or bottom edge |
| SquareLayout.IntendedTraversal | matrices/src/main/java/uk/ac/cam/sbc34/matrices/Shapes.java:47-54 | with the corrected offsets, column k·(2·size+1)+j is point j of edge k, edges in the order right, top, left, bottom |
| SquareLayout.IntendedOnPerimeter | matrices/src/main/java/uk/ac/cam/sbc34/matrices/Shapes.java:47-52 | with the corrected offsets every column is a point of the perimeter |
| SquareLayout.IntendedAgreesAtOne | matrices/src/main/java/uk/ac/cam/sbc34/matrices/Shapes.java:55-68 | for size 1 the source's loop and the corrected one leave the same columns |
| Laws.MultByIdentity | matrices/src/main/java/uk/ac/cam/sbc34/matrices/Matrix.java:48-66 | A × identity(A.width) and identity(A.height) × A both succeed and have A's shape and entries, so `equals` holds with A |
| Laws.TransposeTwice | matrices/src/main/java/uk/ac/cam/sbc34/matrices/Matrix.java:83-93 | transposing twice gives a matrix with the original's shape and entries |
| Laws.OverwriteAfterConstruction | matrices/src/test/java/uk/ac/cam/sbc34/matrices/MatrixTest.java:55-86 | after building a matrix from an array and then overwriting one entry of that array, the matrix still holds the array's original entries |
| Examples.AddExample | matrices/src/test/java/uk/ac/cam/sbc34/matrices/MatrixTest.java:28-54 | [[1,2,3],[4,5,6]] + [[7,8,9],[10,11,12]] = [[8,10,12],[14,16,18]] |
| Examples.MultExample | matrices/src/test/java/uk/ac/cam/sbc34/matrices/MatrixTest.java:88-114 | [[1,2,3],[4,5,6]] × [[7,8],[9,10],[11,12]] = [[58,64],[139,154]] |
| Examples.TransposeExample | matrices/src/test/java/uk/ac/cam/sbc34/matrices/MatrixTest.java:115-135 | the transpose of [[1,2,3],[4,5,6]] is [[1,4],[2,5],[3,6]] |
| Examples.AddThroughMatrix | matrices/src/test/java/uk/ac/cam/sbc34/matrices/MatrixTest.java:28-54 | `add` of the two test matrices, each built by the copying constructor, succeeds with contents [[8,10,12],[14,16,18]] |
| Examples.MultThroughMatrix | matrices/src/test/java/uk/ac/cam/sbc34/matrices/MatrixTest.java:88-114 | `mult` of the two test matrices succeeds with contents [[58,64],[139,154]] |
| Examples.TransposeThroughMatrix | matrices/src/test/java/uk/ac/cam/sbc34/matrices/MatrixTest.java:115-135 | `transpose` of the test matrix has contents [[1,4],[2,5],[3,6]] |

## Left out

- `rotation2d` (Shapes.java:28-36): it needs π, sine and cosine, which have no exact model. Its result is always a 2×2 matrix.
- Floating point: entries are exact integers. Not modelled: rounding in the product's accumulation, NaN making `equals` irreflexive, and −0.0 comparing equal to 0.0.
- `toString` (Matrix.java:114-117): it delegates to a library formatter.
- Ragged input to the copying constructor: a Java `double[][]` is modelled as `array2<int>`, which is rectangular by construction. Rows longer than row 0 would be truncated by the copy, and shorter ones fault; neither case is expressible.
- 32-bit integer arithmetic: sizes and indices are unbounded. Java's `8*size+4` overflows for size ≥ 2^28.
- Faults are preconditions, not modelled errors. This covers a negative or zero size for `identity` and `square`, out-of-range `get` indices, and `transpose` of a zero-column matrix. In the source each is an array-index or array-size exception, not a recoverable error.
- Matrices.Matrix.Zero: allocates zero storage directly rather than copying a zero array through the public constructor. The two are indistinguishable.
- Java visibility (`Zero` is private in the source), `equals` overloading rather than overriding `Object.equals`, the absence of `hashCode`, and the private constructor of `Shapes` (Shapes.java:73-74).
- Laws.MultByIdentity: requires width ≥ 1 because `identity(0)` faults.

## Findings

| source | as written | input that shows it | evidently intended | confidence | as-written member | corrected member |
|---|---|---|---|---|---|---|
| matrices/src/main/java/uk/ac/cam/sbc34/matrices/Shapes.java:57-67 | the top, left and bottom edges go to columns i+2·size+2, i+4·size+3 and i+6·size+4 | size = 2: column 19 is never written and stays (0,0); column 4, the top edge's first, is overwritten by the right edge's (2,2) | edges laid end to end at i+3·size+1, i+5·size+2 and i+7·size+3, so each of the 8·size+4 columns is a perimeter point in right, top, left, bottom order | high; not executed | SquareLayout.SquareTailNotOnPerimeter | Shapes.SquareIntended |
