/**
 The worked values the repository's unit tests use: first over the
 value-level operations that `Matrix.Add`, `Matrix.Mult` and
 `Matrix.Transpose` are specified against, then through the class itself,
 building each operand with the copying constructor as the tests do.
 */
module Examples {
  import opened Grids
  import opened Matrices

  lemma AddExample()
    ensures Sum([[1, 2, 3], [4, 5, 6]], [[7, 8, 9], [10, 11, 12]], 2, 3)
         == [[8, 10, 12], [14, 16, 18]]
  {
    var s := Sum([[1, 2, 3], [4, 5, 6]], [[7, 8, 9], [10, 11, 12]], 2, 3);
    SameEntriesIffEqual(s, [[8, 10, 12], [14, 16, 18]], 2, 3);
  }

  lemma MultExample()
    ensures Product([[1, 2, 3], [4, 5, 6]], [[7, 8], [9, 10], [11, 12]], 2, 3, 2)
         == [[58, 64], [139, 154]]
  {
    var a: Grid := [[1, 2, 3], [4, 5, 6]];
    var b: Grid := [[7, 8], [9, 10], [11, 12]];
    assert Dot(a, b, 0, 0, 3) == 58;
    assert Dot(a, b, 0, 1, 3) == 64;
    assert Dot(a, b, 1, 0, 3) == 139;
    assert Dot(a, b, 1, 1, 3) == 154;
    SameEntriesIffEqual(Product(a, b, 2, 3, 2), [[58, 64], [139, 154]], 2, 2);
  }

  lemma TransposeExample()
    ensures Transposed([[1, 2, 3], [4, 5, 6]], 2, 3) == [[1, 4], [2, 5], [3, 6]]
  {
    SameEntriesIffEqual(Transposed([[1, 2, 3], [4, 5, 6]], 2, 3), [[1, 4], [2, 5], [3, 6]], 3, 2);
  }

  /** A matrix built by the copying constructor from an array holding `g`. */
  method FromRows(g: Grid, h: nat, w: nat) returns (m: Matrix)
    requires IsShape(g, h, w) && h >= 1
    ensures m.Valid() && m.height == h && m.width == w
    ensures m.Contents() == g
  {
    var data := new int[h, w]((r, c) requires 0 <= r < h && 0 <= c < w => g[r][c]);
    m := new Matrix.Copy(data);
    SameEntriesIffEqual(m.Contents(), g, h, w);
  }

  method AddThroughMatrix() returns (c: Result<Matrix>)
    ensures c.Success? && c.value.Valid()
    ensures c.value.Contents() == [[8, 10, 12], [14, 16, 18]]
  {
    var a := FromRows([[1, 2, 3], [4, 5, 6]], 2, 3);
    var b := FromRows([[7, 8, 9], [10, 11, 12]], 2, 3);
    c := a.Add(b);
    AddExample();
  }

  method MultThroughMatrix() returns (c: Result<Matrix>)
    ensures c.Success? && c.value.Valid()
    ensures c.value.Contents() == [[58, 64], [139, 154]]
  {
    var a := FromRows([[1, 2, 3], [4, 5, 6]], 2, 3);
    var b := FromRows([[7, 8], [9, 10], [11, 12]], 3, 2);
    c := a.Mult(b);
    MultExample();
  }

  method TransposeThroughMatrix() returns (t: Matrix)
    ensures t.Valid() && t.Contents() == [[1, 4], [2, 5], [3, 6]]
  {
    var a := FromRows([[1, 2, 3], [4, 5, 6]], 2, 3);
    t := a.Transpose();
    TransposeExample();
  }
}
