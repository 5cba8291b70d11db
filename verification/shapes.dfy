/**
 Stateless factories for matrices with common two-dimensional shapes. Each
 fills a zero-initialised array and hands it to the copying constructor.
 */
module Shapes {
  import opened Grids
  import opened SquareLayout
  import opened Matrices

  /** A 2×n grid whose column c is the point `points[c]`: x in row 0, y in row 1. */
  function PointGrid(points: seq<Point>): (g: Grid)
    ensures IsShape(g, 2, |points|)
  {
    [seq(|points|, c requires 0 <= c < |points| => points[c].x),
     seq(|points|, c requires 0 <= c < |points| => points[c].y)]
  }

  /** A 2-row array holding one point per column holds the grid of those points. */
  lemma PointsStored(data: array2<int>, points: seq<Point>)
    requires data.Length0 == 2 && data.Length1 == |points|
    requires forall c :: 0 <= c < |points| ==> Point(data[0, c], data[1, c]) == points[c]
    ensures Snapshot(data) == PointGrid(points)
  {
    SameEntriesIffEqual(Snapshot(data), PointGrid(points), 2, |points|);
  }

  /** Stores the point (x, y) in column c: x in row 0, y in row 1. */
  method Put(data: array2<int>, c: int, x: int, y: int)
    requires data.Length0 == 2 && 0 <= c < data.Length1
    modifies data
    ensures forall c' :: 0 <= c' < data.Length1 ==>
      Point(data[0, c'], data[1, c']) == if c' == c then Point(x, y) else old(Point(data[0, c'], data[1, c']))
  {
    data[0, c] := x;
    data[1, c] := y;
  }

  /** The points a 2-row array holds, one per column. */
  function Columns(data: array2<int>): (points: seq<Point>)
    reads data
    requires data.Length0 == 2
    ensures |points| == data.Length1
    ensures forall c :: 0 <= c < data.Length1 ==> points[c] == Point(data[0, c], data[1, c])
  {
    seq(data.Length1, c requires 0 <= c < data.Length1 reads data => Point(data[0, c], data[1, c]))
  }

  /** Progress inside one iteration of a square fill loop: every column holds
      its point from `before`, overwritten by edges 0 .. k-1 of iteration `i`. */
  ghost predicate EdgesDone(data: array2<int>, offsets: seq<int>, size: int, i: int, before: seq<Point>, k: nat)
    reads data
    requires data.Length0 == 2 && |before| == data.Length1 && |offsets| == 4 && k <= 4
  {
    forall c :: 0 <= c < data.Length1 ==>
      Point(data[0, c], data[1, c]) == EdgesWritten(offsets, size, i, c, before[c], k)
  }

  /** One iteration of the `Square` fill loop: the four edge writes of
      iteration `i`, after which every column has taken one `Step`. */
  method SquareIteration(data: array2<int>, size: int, i: int)
    requires data.Length0 == 2 && data.Length1 == ColumnCount(size)
    requires size >= 1 && -size <= i <= size
    modifies data
    ensures forall c :: 0 <= c < data.Length1 ==>
      Point(data[0, c], data[1, c]) == Step(AsWritten(size), size, i, c, old(Point(data[0, c], data[1, c])))
  {
    ghost var offsets := AsWritten(size);
    ghost var before := Columns(data);
    assert EdgesDone(data, offsets, size, i, before, 0);
    Put(data, i + size, size, i);
    assert EdgesDone(data, offsets, size, i, before, 1);

    Put(data, i + 2 * size + 2, i, size);
    assert EdgesDone(data, offsets, size, i, before, 2);

    Put(data, i + 4 * size + 3, -size, i);
    assert EdgesDone(data, offsets, size, i, before, 3);

    Put(data, i + 6 * size + 4, i, -size);
    assert EdgesDone(data, offsets, size, i, before, 4);
    forall c | 0 <= c < data.Length1 {
      EdgesWrittenIsStep(offsets, size, i, c, before[c]);
    }
  }

  /** One iteration of the `SquareIntended` fill loop: the four edge writes of
      iteration `i`, after which every column has taken one `Step`. */
  method IntendedIteration(data: array2<int>, size: int, i: int)
    requires data.Length0 == 2 && data.Length1 == ColumnCount(size)
    requires size >= 0 && -size <= i <= size
    modifies data
    ensures forall c :: 0 <= c < data.Length1 ==>
      Point(data[0, c], data[1, c]) == Step(Intended(size), size, i, c, old(Point(data[0, c], data[1, c])))
  {
    ghost var offsets := Intended(size);
    ghost var before := Columns(data);
    assert EdgesDone(data, offsets, size, i, before, 0);
    Put(data, i + size, size, i);
    assert EdgesDone(data, offsets, size, i, before, 1);

    Put(data, i + 3 * size + 1, i, size);
    assert EdgesDone(data, offsets, size, i, before, 2);

    Put(data, i + 5 * size + 2, -size, i);
    assert EdgesDone(data, offsets, size, i, before, 3);

    Put(data, i + 7 * size + 3, i, -size);
    assert EdgesDone(data, offsets, size, i, before, 4);
    forall c | 0 <= c < data.Length1 {
      EdgesWrittenIsStep(offsets, size, i, c, before[c]);
    }
  }

  /** The size×size identity matrix. The constructor reads row 0, so size >= 1. */
  method Identity(size: int) returns (m: Matrix)
    requires size >= 1
    ensures fresh(m) && fresh(m.elements) && m.Valid() && m.height == size && m.width == size
    ensures m.Contents() == Grids.Identity(size)
  {
    var data := new int[size, size]((r, c) => 0);
    for i := 0 to size
      invariant forall r, c :: 0 <= r < size && 0 <= c < size ==>
        data[r, c] == if r == c && r < i then 1 else 0
    {
      data[i, i] := 1;
    }
    m := new Matrix.Copy(data);
    SameEntriesIffEqual(m.Contents(), Grids.Identity(size), size, size);
  }

  /** The square-perimeter shape exactly as the source fills it: row 0 holds x
      and row 1 holds y, and the edges go to columns i+size, i+2·size+2,
      i+4·size+3 and i+6·size+4. Only for size >= 1 do these stay in bounds
      (see `WritesInBoundsIff`). */
  method Square(size: int) returns (m: Matrix)
    requires size >= 1
    ensures fresh(m) && fresh(m.elements) && m.Valid() && m.height == 2 && m.width == ColumnCount(size)
    ensures m.Contents() == PointGrid(seq(ColumnCount(size), c => SquareColumn(size, c)))
  {
    var data := new int[2, 8 * size + 4]((r, c) => 0);
    ghost var offsets := AsWritten(size);
    for i := -size to size + 1
      invariant forall c :: 0 <= c < data.Length1 ==>
        Point(data[0, c], data[1, c]) == ColumnAfter(offsets, size, i, c)
    {
      SquareIteration(data, size, i);
    }
    forall c | 0 <= c < data.Length1
      ensures Point(data[0, c], data[1, c]) == SquareColumn(size, c)
    {
      SquareColumnAfterLoop(size, c);
    }
    PointsStored(data, seq(ColumnCount(size), c => SquareColumn(size, c)));
    m := new Matrix.Copy(data);
  }

  /** The square-perimeter shape as documented: the right, top, left and
      bottom edges laid end to end, edge k at columns k·(2·size+1) onwards.
      Every column is then a point of the perimeter (see `IntendedOnPerimeter`),
      and the writes stay in bounds for every size >= 0. */
  method SquareIntended(size: int) returns (m: Matrix)
    requires size >= 0
    ensures fresh(m) && fresh(m.elements) && m.Valid() && m.height == 2 && m.width == ColumnCount(size)
    ensures m.Contents() == PointGrid(seq(ColumnCount(size), c => IntendedColumn(size, c)))
    ensures forall c :: 0 <= c < m.width ==> OnPerimeter(Point(m.Get(0, c), m.Get(1, c)), size)
  {
    var data := new int[2, 8 * size + 4]((r, c) => 0);
    ghost var offsets := Intended(size);
    for i := -size to size + 1
      invariant forall c :: 0 <= c < data.Length1 ==>
        Point(data[0, c], data[1, c]) == ColumnAfter(offsets, size, i, c)
    {
      IntendedIteration(data, size, i);
    }
    forall c | 0 <= c < data.Length1
      ensures Point(data[0, c], data[1, c]) == IntendedColumn(size, c)
    {
      IntendedColumnAfterLoop(size, c);
    }
    PointsStored(data, seq(ColumnCount(size), c => IntendedColumn(size, c)));
    m := new Matrix.Copy(data);
    forall c | 0 <= c < m.width
      ensures OnPerimeter(Point(m.Get(0, c), m.Get(1, c)), size)
    {
      IntendedOnPerimeter(size, c);
    }
  }
}
