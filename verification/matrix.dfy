/**
 An immutable matrix of arbitrary dimensions over exact integers.

 Storage is a two-dimensional array owned exclusively by the matrix: every
 constructor and every operation allocates it fresh, and no member of
 `Matrix` has a `modifies` clause, so no operation can change an existing
 matrix (neither `this` nor an argument). Its contents are observed through
 `Contents()`, the value-level grid that the operations are specified against.
 */
module Matrices {
  import opened Grids

  /** The error the operations raise; the source throws an unchecked exception. */
  datatype Error = IllegalArgument(message: string)

  /** The one domain error: operand shapes do not fit the operation. */
  const DimensionMismatch: Error := IllegalArgument("Dimension mismatch")

  /** Either the result of an operation or the error it raised instead. */
  datatype Result<T> = Success(value: T) | Failure(error: Error)

  /** Value-level view of a two-dimensional array. */
  function Snapshot(a: array2<int>): (g: Grid)
    reads a
    ensures IsShape(g, a.Length0, a.Length1)
    ensures forall i, j :: 0 <= i < a.Length0 && 0 <= j < a.Length1 ==> g[i][j] == a[i, j]
  {
    seq(a.Length0, i requires 0 <= i < a.Length0 reads a =>
      seq(a.Length1, j requires 0 <= j < a.Length1 reads a => a[i, j]))
  }

  /** Progress of the product loops: entries of columns before `col`, and of
      rows before `row` in column `col`, hold their full inner product; the
      rest are still zero. */
  ghost predicate ProductProgress(out: array2<int>, a: Grid, b: Grid, n: nat, col: nat, row: nat)
    reads out
    requires IsShape(a, out.Length0, n) && IsShape(b, n, out.Length1)
  {
    forall rr, c :: 0 <= rr < out.Length0 && 0 <= c < out.Length1 ==>
      out[rr, c] == if c < col || (c == col && rr < row) then Dot(a, b, rr, c, n) else 0
  }

  /** The innermost product loop: adds the inner product of row `row` of
      `lhs` and column `col` of `rhs` into entry (row, col) of `out`, one
      term at a time, and touches no other entry. */
  method AccumulateEntry(out: array2<int>, lhs: array2<int>, rhs: array2<int>, row: nat, col: nat)
    requires out != lhs && out != rhs
    requires row < out.Length0 && col < out.Length1
    requires row < lhs.Length0 && lhs.Length1 == rhs.Length0 && col < rhs.Length1
    modifies out
    ensures out[row, col] == old(out[row, col]) + Dot(Snapshot(lhs), Snapshot(rhs), row, col, lhs.Length1)
    ensures forall r, c :: 0 <= r < out.Length0 && 0 <= c < out.Length1 && (r != row || c != col) ==>
      out[r, c] == old(out[r, c])
  {
    ghost var a := Snapshot(lhs);
    ghost var b := Snapshot(rhs);
    for i := 0 to lhs.Length1
      invariant out[row, col] == old(out[row, col]) + Dot(a, b, row, col, i)
      invariant forall r, c :: 0 <= r < out.Length0 && 0 <= c < out.Length1 && (r != row || c != col) ==>
        out[r, c] == old(out[r, c])
    {
      out[row, col] := out[row, col] + lhs[row, i] * rhs[i, col];
    }
  }

  /** Once every column is done, the result holds the product. */
  lemma ProgressComplete(out: array2<int>, a: Grid, b: Grid, n: nat)
    requires IsShape(a, out.Length0, n) && IsShape(b, n, out.Length1)
    requires ProductProgress(out, a, b, n, out.Length1, 0)
    ensures Snapshot(out) == Product(a, b, out.Length0, n, out.Length1)
  {
    SameEntriesIffEqual(Snapshot(out), Product(a, b, out.Length0, n, out.Length1), out.Length0, out.Length1);
  }

  class Matrix {
    const elements: array2<int>
    const width: nat
    const height: nat

    /** The dimensions describe the storage, and there is at least one row. */
    predicate Valid() {
      elements.Length0 == height && elements.Length1 == width && height >= 1
    }

    /** The entries, row-major. */
    function Contents(): (g: Grid)
      reads elements
      requires Valid()
      ensures IsShape(g, height, width)
    {
      Snapshot(elements)
    }

    /** Zero-filled matrix of the given shape (the private constructor). It
        reads row 0 of the new storage, so it needs at least one row. */
    constructor Zero(h: nat, w: nat)
      requires h >= 1
      ensures Valid() && fresh(elements)
      ensures height == h && width == w
      ensures Contents() == seq(h, i => seq(w, j => 0))
    {
      var zeros := new int[h, w]((i, j) => 0);
      elements := zeros;
      width := zeros.Length1;
      height := zeros.Length0;
      new;
      SameEntriesIffEqual(Contents(), seq(h, i => seq(w, j => 0)), h, w);
    }

    /** Copying constructor: the matrix owns fresh storage holding the same
        entries as `data`, so later writes to `data` are never seen through
        the matrix. Row 0 is read to size the copy. */
    constructor Copy(data: array2<int>)
      requires data.Length0 >= 1
      ensures Valid() && fresh(elements)
      ensures height == data.Length0 && width == data.Length1
      ensures Contents() == Snapshot(data)
    {
      var copy := new int[data.Length0, data.Length1];
      for i := 0 to data.Length0
        invariant forall r, c :: 0 <= r < i && 0 <= c < data.Length1 ==> copy[r, c] == data[r, c]
      {
        for j := 0 to data.Length1
          invariant forall r, c :: 0 <= r < i && 0 <= c < data.Length1 ==> copy[r, c] == data[r, c]
          invariant forall c :: 0 <= c < j ==> copy[i, c] == data[i, c]
        {
          copy[i, j] := data[i, j];
        }
      }
      elements := copy;
      width := copy.Length1;
      height := copy.Length0;
      new;
      assert Snapshot(copy) == Snapshot(data) by {
        SameEntriesIffEqual(Snapshot(copy), Snapshot(data), height, width);
      }
    }

    /** The entry at (row, col); out-of-range indices are a fault. */
    function Get(row: int, col: int): (v: int)
      reads elements
      requires Valid()
      requires 0 <= row < height && 0 <= col < width
      ensures v == Contents()[row][col]
    {
      elements[row, col]
    }

    /** Number of columns: the length of every row of the contents. */
    function Width(): (w: nat)
      reads elements
      requires Valid()
      ensures forall i :: 0 <= i < |Contents()| ==> |Contents()[i]| == w
    {
      width
    }

    /** Number of rows of the contents. */
    function Height(): (h: nat)
      reads elements
      requires Valid()
      ensures h == |Contents()| && h >= 1
    {
      height
    }

    /** Matrix product `this × other`, or a dimension mismatch when the inner
        dimensions disagree. Loops run column, then row, then inner index,
        accumulating into a zero-filled fresh result. */
    method Mult(other: Matrix) returns (r: Result<Matrix>)
      requires Valid() && other.Valid()
      ensures r.Failure? <==> width != other.height
      ensures r.Failure? ==> r.error == DimensionMismatch
      ensures r.Success? ==> fresh(r.value) && fresh(r.value.elements) && r.value.Valid()
      ensures r.Success? ==> r.value.height == height && r.value.width == other.width
      ensures r.Success? ==>
        r.value.Contents() == Product(Contents(), other.Contents(), height, width, other.width)
    {
      if width != other.height {
        return Failure(DimensionMismatch);
      }
      var m := new Matrix.Zero(height, other.width);
      ghost var a := Contents();
      ghost var b := other.Contents();
      var out := m.elements;
      for col := 0 to other.width
        invariant ProductProgress(out, a, b, width, col, 0)
      {
        for row := 0 to height
          invariant ProductProgress(out, a, b, width, col, row)
        {
          AccumulateEntry(out, elements, other.elements, row, col);
        }
      }
      ProgressComplete(out, a, b, width);
      r := Success(m);
    }

    /** Entrywise sum `this + other`, or a dimension mismatch when either
        dimension differs. */
    method Add(other: Matrix) returns (r: Result<Matrix>)
      requires Valid() && other.Valid()
      ensures r.Failure? <==> (width != other.width || height != other.height)
      ensures r.Failure? ==> r.error == DimensionMismatch
      ensures r.Success? ==> fresh(r.value) && fresh(r.value.elements) && r.value.Valid()
      ensures r.Success? ==> r.value.height == height && r.value.width == width
      ensures r.Success? ==>
        r.value.Contents() == Sum(Contents(), other.Contents(), height, width)
    {
      if width != other.width || height != other.height {
        return Failure(DimensionMismatch);
      }
      var m := new Matrix.Zero(height, width);
      var out := m.elements;
      for col := 0 to width
        invariant forall rr, c :: 0 <= rr < height && 0 <= c < col ==>
          out[rr, c] == elements[rr, c] + other.elements[rr, c]
      {
        for row := 0 to height
          invariant forall rr, c :: 0 <= rr < height && 0 <= c < col ==>
            out[rr, c] == elements[rr, c] + other.elements[rr, c]
          invariant forall rr :: 0 <= rr < row ==>
            out[rr, col] == elements[rr, col] + other.elements[rr, col]
        {
          out[row, col] := elements[row, col] + other.elements[row, col];
        }
      }
      assert m.Contents() == Sum(Contents(), other.Contents(), height, width) by {
        SameEntriesIffEqual(m.Contents(), Sum(Contents(), other.Contents(), height, width), height, width);
      }
      r := Success(m);
    }

    /** Transpose: a fresh width×height matrix. The zero result it fills has
        `width` rows, and the private constructor reads its row 0, so the
        operand needs at least one column. */
    method Transpose() returns (t: Matrix)
      requires Valid() && width >= 1
      ensures fresh(t) && fresh(t.elements) && t.Valid()
      ensures t.height == width && t.width == height
      ensures t.Contents() == Transposed(Contents(), height, width)
    {
      t := new Matrix.Zero(width, height);
      var out := t.elements;
      for col := 0 to height
        invariant forall rr, c :: 0 <= rr < width && 0 <= c < col ==> out[rr, c] == elements[c, rr]
      {
        for row := 0 to width
          invariant forall rr, c :: 0 <= rr < width && 0 <= c < col ==> out[rr, c] == elements[c, rr]
          invariant forall rr :: 0 <= rr < row ==> out[rr, col] == elements[col, rr]
        {
          out[row, col] := elements[col, row];
        }
      }
      assert t.Contents() == Transposed(Contents(), height, width) by {
        SameEntriesIffEqual(t.Contents(), Transposed(Contents(), height, width), width, height);
      }
    }

    /** Structural equality: false when the dimensions differ, otherwise true
        exactly when every pair of corresponding entries is equal. Hence
        reflexive, symmetric and transitive. */
    method Equals(m: Matrix) returns (same: bool)
      requires Valid() && m.Valid()
      ensures same <==> (m.height == height && m.width == width && m.Contents() == Contents())
    {
      if m.height != height || m.width != width {
        return false;
      }
      for i := 0 to height
        invariant forall r, c :: 0 <= r < i && 0 <= c < width ==> m.elements[r, c] == elements[r, c]
      {
        for j := 0 to width
          invariant forall r, c :: 0 <= r < i && 0 <= c < width ==> m.elements[r, c] == elements[r, c]
          invariant forall c :: 0 <= c < j ==> m.elements[i, c] == elements[i, c]
        {
          if m.Get(i, j) != Get(i, j) {
            return false;
          }
        }
      }
      SameEntriesIffEqual(m.Contents(), Contents(), height, width);
      return true;
    }
  }
}
