/**
 Column arithmetic of the square-perimeter shape.

 The shape is a 2×(8·size+4) matrix: row 0 holds x coordinates and row 1
 holds y coordinates. Its fill loop runs `i` from -size to size. Each
 iteration writes four columns, one per edge: the right edge (size, i), the
 top edge (i, size), the left edge (-size, i) and the bottom edge
 (i, -size). Edge k goes to column `i + offsets[k]`, so a later write to a
 column overwrites an earlier one.

 The source's offsets are size, 2·size+2, 4·size+3 and 6·size+4. They tile
 the columns exactly only for size == 1. The layout the width and the
 documentation describe puts edge k at k·(2·size+1) + size instead. Both are
 modelled here with one loop model, parameterised by the offsets.
 */
module SquareLayout {

  datatype Point = Point(x: int, y: int)

  /** Number of columns of the shape. */
  function ColumnCount(size: int): int {
    8 * size + 4
  }

  /** Column offsets of the right, top, left and bottom edges, as in the source. */
  function AsWritten(size: int): seq<int> {
    [size, 2 * size + 2, 4 * size + 3, 6 * size + 4]
  }

  /** Column offsets of the four edges, laid end to end, 2·size+1 columns each. */
  function Intended(size: int): seq<int> {
    [size, 3 * size + 1, 5 * size + 2, 7 * size + 3]
  }

  /** Four offsets in strictly increasing order: no iteration writes one column twice. */
  predicate Increasing(offsets: seq<int>) {
    |offsets| == 4 && offsets[0] < offsets[1] < offsets[2] < offsets[3]
  }

  /** The point that edge `k` contributes in iteration `i`. */
  function EdgePoint(size: int, k: int, i: int): Point {
    if k == 0 then Point(size, i)
    else if k == 1 then Point(i, size)
    else if k == 2 then Point(-size, i)
    else Point(i, -size)
  }

  /** Column `c`, holding `p` before iteration `i`, once edges 0 .. k-1 of
      that iteration have been written. */
  function EdgesWritten(offsets: seq<int>, size: int, i: int, c: int, p: Point, k: nat): Point
    requires |offsets| == 4 && k <= 4
  {
    if k == 0 then p
    else if c == i + offsets[k - 1] then EdgePoint(size, k - 1, i)
    else EdgesWritten(offsets, size, i, c, p, k - 1)
  }

  /** Column `c`, holding `p` before iteration `i`, once the whole iteration
      is done: the last edge that writes it wins. */
  function Step(offsets: seq<int>, size: int, i: int, c: int, p: Point): Point
    requires |offsets| == 4
  {
    if c == i + offsets[3] then EdgePoint(size, 3, i)
    else if c == i + offsets[2] then EdgePoint(size, 2, i)
    else if c == i + offsets[1] then EdgePoint(size, 1, i)
    else if c == i + offsets[0] then EdgePoint(size, 0, i)
    else p
  }

  /** Writing the four edges one by one completes the iteration's step. */
  lemma EdgesWrittenIsStep(offsets: seq<int>, size: int, i: int, c: int, p: Point)
    requires |offsets| == 4
    ensures EdgesWritten(offsets, size, i, c, p, 4) == Step(offsets, size, i, c, p)
  {
    assert EdgesWritten(offsets, size, i, c, p, 1) == if c == i + offsets[0] then EdgePoint(size, 0, i) else p;
    assert EdgesWritten(offsets, size, i, c, p, 2) ==
      if c == i + offsets[1] then EdgePoint(size, 1, i) else EdgesWritten(offsets, size, i, c, p, 1);
    assert EdgesWritten(offsets, size, i, c, p, 3) ==
      if c == i + offsets[2] then EdgePoint(size, 2, i) else EdgesWritten(offsets, size, i, c, p, 2);
  }

  /** Column `c` of the zero-initialised shape after the iterations -size .. upto-1. */
  function ColumnAfter(offsets: seq<int>, size: int, upto: int, c: int): Point
    requires |offsets| == 4 && -size <= upto
    decreases upto + size
  {
    if upto == -size then Point(0, 0)
    else Step(offsets, size, upto - 1, c, ColumnAfter(offsets, size, upto - 1, c))
  }

  /** Closed form of `ColumnAfter`: the write with the latest iteration wins,
      which is the edge with the smallest offset among those that have reached
      column `c` before iteration `upto`. */
  function Reached(offsets: seq<int>, size: int, upto: int, c: int): Point
    requires |offsets| == 4
  {
    if -size <= c - offsets[0] < upto then EdgePoint(size, 0, c - offsets[0])
    else if -size <= c - offsets[1] < upto then EdgePoint(size, 1, c - offsets[1])
    else if -size <= c - offsets[2] < upto then EdgePoint(size, 2, c - offsets[2])
    else if -size <= c - offsets[3] < upto then EdgePoint(size, 3, c - offsets[3])
    else Point(0, 0)
  }

  /** The loop's effect, iteration by iteration, agrees with its closed form. */
  lemma {:induction false} ColumnAfterIsReached(offsets: seq<int>, size: int, upto: int, c: int)
    requires Increasing(offsets) && -size <= upto
    ensures ColumnAfter(offsets, size, upto, c) == Reached(offsets, size, upto, c)
    decreases upto + size
  {
    if upto > -size {
      ColumnAfterIsReached(offsets, size, upto - 1, c);
    }
  }

  /** Column that edge `k` writes in iteration `i`. */
  function WriteColumn(offsets: seq<int>, i: int, k: int): int
    requires |offsets| == 4 && 0 <= k < 4
  {
    i + offsets[k]
  }

  /** The row has a length and every column the loop writes lies inside it. */
  predicate WritesInBounds(offsets: seq<int>, size: int)
    requires |offsets| == 4
  {
    ColumnCount(size) >= 0 &&
    forall i, k :: -size <= i <= size && 0 <= k < 4 ==>
      0 <= WriteColumn(offsets, i, k) < ColumnCount(size)
  }

  /** The source's writes stay in bounds exactly when size >= 1: for size 0
      the bottom edge writes column 4 of a 4-column row, and for negative
      sizes the row length is negative. */
  lemma WritesInBoundsIff(size: int)
    ensures WritesInBounds(AsWritten(size), size) <==> size >= 1
  {
    if size == 0 {
      assert !(WriteColumn(AsWritten(0), 0, 3) < ColumnCount(0));
    }
  }

  /** The corrected writes stay in bounds exactly when size >= 0. */
  lemma IntendedWritesInBoundsIff(size: int)
    ensures WritesInBounds(Intended(size), size) <==> size >= 0
  {
  }

  /** Final column `c` of the source's shape, region by region. */
  function SquareColumn(size: int, c: int): Point {
    if c <= 2 * size then Point(size, c - size)
    else if c <= 3 * size + 2 then Point(c - 2 * size - 2, size)
    else if c <= 5 * size + 3 then Point(-size, c - 4 * size - 3)
    else if c <= 7 * size + 4 then Point(c - 6 * size - 4, -size)
    else Point(0, 0)
  }

  /** Final column `c` with the corrected offsets: the right, top, left and
      bottom edges one after the other. */
  function IntendedColumn(size: int, c: int): Point {
    if c <= 2 * size then Point(size, c - size)
    else if c <= 4 * size + 1 then Point(c - 3 * size - 1, size)
    else if c <= 6 * size + 2 then Point(-size, c - 5 * size - 2)
    else Point(c - 7 * size - 3, -size)
  }

  /** Column `c` once the whole loop, iterations -size .. size, has run. */
  function FilledColumn(offsets: seq<int>, size: int, c: int): Point
    requires |offsets| == 4 && size >= 0
  {
    ColumnAfter(offsets, size, size + 1, c)
  }

  /** After the whole loop, the source's shape holds `SquareColumn` in every column. */
  lemma SquareColumnAfterLoop(size: int, c: int)
    requires size >= 1 && 0 <= c < ColumnCount(size)
    ensures FilledColumn(AsWritten(size), size, c) == SquareColumn(size, c)
  {
    ColumnAfterIsReached(AsWritten(size), size, size + 1, c);
  }

  /** After the whole loop with the corrected offsets, column `c` is `IntendedColumn`. */
  lemma IntendedColumnAfterLoop(size: int, c: int)
    requires size >= 0 && 0 <= c < ColumnCount(size)
    ensures FilledColumn(Intended(size), size, c) == IntendedColumn(size, c)
  {
    ColumnAfterIsReached(Intended(size), size, size + 1, c);
  }

  function Abs(n: int): nat {
    if n < 0 then -n else n
  }

  /** `p` lies on the perimeter of the square with corners (±size, ±size). */
  predicate OnPerimeter(p: Point, size: int) {
    (if Abs(p.x) < Abs(p.y) then Abs(p.y) else Abs(p.x)) == size
  }

  /** The shape of size 1, column by column, as the source's loop leaves it. */
  lemma SquareOneColumns()
    ensures seq(12, c => FilledColumn(AsWritten(1), 1, c)) ==
      [Point(1, -1), Point(1, 0), Point(1, 1),
       Point(-1, 1), Point(0, 1), Point(1, 1),
       Point(-1, -1), Point(-1, 0), Point(-1, 1),
       Point(-1, -1), Point(0, -1), Point(1, -1)]
  {
    forall c | 0 <= c < 12 {
      SquareColumnAfterLoop(1, c);
    }
  }

  /** For size 1 every column the source's loop leaves is a point of the
      square's perimeter. */
  lemma SquareOneOnPerimeter(c: int)
    requires 0 <= c < ColumnCount(1)
    ensures OnPerimeter(FilledColumn(AsWritten(1), 1, c), 1)
  {
    SquareColumnAfterLoop(1, c);
  }

  /** For size >= 2 the source's loop never writes the last size-1 columns:
      they keep the origin, which is not on the perimeter. */
  lemma SquareTailNotOnPerimeter(size: int, c: int)
    requires size >= 2 && 7 * size + 5 <= c < ColumnCount(size)
    ensures FilledColumn(AsWritten(size), size, c) == Point(0, 0)
    ensures !OnPerimeter(FilledColumn(AsWritten(size), size, c), size)
  {
    SquareColumnAfterLoop(size, c);
  }

  /** For size >= 2 the first iteration puts the top-left corner in column
      size+2, the top edge's first column, and a later right-edge write
      replaces it. */
  lemma SquareTopStartOverwritten(size: int)
    requires size >= 2
    ensures ColumnAfter(AsWritten(size), size, -size + 1, size + 2) == Point(-size, size)
    ensures FilledColumn(AsWritten(size), size, size + 2) == Point(size, 2)
  {
    ColumnAfterIsReached(AsWritten(size), size, -size + 1, size + 2);
    SquareColumnAfterLoop(size, size + 2);
  }

  /** With the corrected offsets the loop leaves the right, top, left and
      bottom edges in order: column k·(2·size+1) + j is point j of edge k. */
  lemma IntendedTraversal(size: int, k: int, j: int)
    requires size >= 0 && 0 <= k < 4 && 0 <= j <= 2 * size
    ensures FilledColumn(Intended(size), size, k * (2 * size + 1) + j) == EdgePoint(size, k, j - size)
  {
    var c := k * (2 * size + 1) + j;
    if k == 0 {
      assert c == j;
    } else if k == 1 {
      assert c == 2 * size + 1 + j;
    } else if k == 2 {
      assert c == 4 * size + 2 + j;
    } else {
      assert c == 6 * size + 3 + j;
    }
    IntendedColumnAfterLoop(size, c);
  }

  /** With the corrected offsets every column the loop leaves is a point of
      the perimeter. */
  lemma IntendedOnPerimeter(size: int, c: int)
    requires size >= 0 && 0 <= c < ColumnCount(size)
    ensures OnPerimeter(FilledColumn(Intended(size), size, c), size)
  {
    IntendedColumnAfterLoop(size, c);
  }

  /** For size 1 the source's loop and the corrected one leave the same columns. */
  lemma IntendedAgreesAtOne(c: int)
    requires 0 <= c < ColumnCount(1)
    ensures FilledColumn(Intended(1), 1, c) == FilledColumn(AsWritten(1), 1, c)
  {
    IntendedColumnAfterLoop(1, c);
    SquareColumnAfterLoop(1, c);
  }
}
