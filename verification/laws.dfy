/**
 Laws of the matrix API, stated over `Matrix` objects: the identity matrix is
 a two-sided unit of the product, transposing twice gives back the original,
 and construction copies its input so that later writes to the input are not
 seen through the matrix.
 */
module Laws {
  import opened Grids
  import opened Matrices
  import Shapes

  /** `a × identity(a.width)` and `identity(a.height) × a` both succeed and
      hold exactly the entries of `a`, so `equals` reports them equal to `a`. */
  method MultByIdentity(a: Matrix) returns (right: Matrix, left: Matrix)
    requires a.Valid() && a.width >= 1
    ensures right.Valid() && right.height == a.height && right.width == a.width
    ensures left.Valid() && left.height == a.height && left.width == a.width
    ensures right.Contents() == a.Contents() && left.Contents() == a.Contents()
  {
    var idRight := Shapes.Identity(a.width);
    var r := a.Mult(idRight);
    ProductIdentityRight(a.Contents(), a.height, a.width);
    right := r.value;

    var idLeft := Shapes.Identity(a.height);
    var l := idLeft.Mult(a);
    ProductIdentityLeft(a.Contents(), a.height, a.width);
    left := l.value;
  }

  /** Transposing twice gives a matrix with the shape and entries of the original. */
  method TransposeTwice(a: Matrix) returns (t: Matrix)
    requires a.Valid() && a.width >= 1
    ensures t.Valid() && t.height == a.height && t.width == a.width
    ensures t.Contents() == a.Contents()
  {
    var once := a.Transpose();
    t := once.Transpose();
    TransposeInvolution(a.Contents(), a.height, a.width);
  }

  /** Building a matrix and then overwriting an entry of the array it was
      built from leaves every entry of the matrix as it was. */
  method OverwriteAfterConstruction(data: array2<int>, row: nat, col: nat, v: int) returns (m: Matrix)
    requires data.Length0 >= 1 && row < data.Length0 && col < data.Length1
    modifies data
    ensures m.Valid() && m.height == data.Length0 && m.width == data.Length1
    ensures data[row, col] == v
    ensures m.Contents() == old(Snapshot(data))
  {
    m := new Matrix.Copy(data);
    data[row, col] := v;
  }
}
