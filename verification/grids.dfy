/**
 Pure, value-level view of a matrix: a row-major sequence of rows of exact
 integers. Every operation of the imperative `Matrix` class is specified
 against the functions of this module, and the algebraic laws the matrices
 obey (identity is a unit of the product, transposition is an involution,
 structural equality is value equality) are proved here once.
 */
module Grids {

  /** Row-major contents: `g[row][col]`. */
  type Grid = seq<seq<int>>

  /** `g` has exactly `h` rows, each of exactly `w` entries. */
  predicate IsShape(g: Grid, h: nat, w: nat) {
    |g| == h && forall i :: 0 <= i < h ==> |g[i]| == w
  }

  /** The inner-product prefix  a[row][0]*b[0][col] + ... + a[row][n-1]*b[n-1][col],
      accumulated from index 0 upwards, as the product loop does. */
  function Dot(a: Grid, b: Grid, row: nat, col: nat, n: nat): int
    requires row < |a| && n <= |a[row]| && n <= |b|
    requires forall i :: 0 <= i < n ==> col < |b[i]|
  {
    if n == 0 then 0 else Dot(a, b, row, col, n - 1) + a[row][n - 1] * b[n - 1][col]
  }

  /** Matrix product of an h×n grid by an n×w grid. */
  function Product(a: Grid, b: Grid, h: nat, n: nat, w: nat): (p: Grid)
    requires IsShape(a, h, n) && IsShape(b, n, w)
    ensures IsShape(p, h, w)
  {
    seq(h, r requires 0 <= r < h => seq(w, c requires 0 <= c < w => Dot(a, b, r, c, n)))
  }

  /** Entrywise sum of two h×w grids. */
  function Sum(a: Grid, b: Grid, h: nat, w: nat): (s: Grid)
    requires IsShape(a, h, w) && IsShape(b, h, w)
    ensures IsShape(s, h, w)
  {
    seq(h, r requires 0 <= r < h => seq(w, c requires 0 <= c < w => a[r][c] + b[r][c]))
  }

  /** Transpose of an h×w grid: a w×h grid. */
  function Transposed(a: Grid, h: nat, w: nat): (t: Grid)
    requires IsShape(a, h, w)
    ensures IsShape(t, w, h)
  {
    seq(w, r requires 0 <= r < w => seq(h, c requires 0 <= c < h => a[c][r]))
  }

  /** The n×n identity grid. */
  function Identity(n: nat): (id: Grid)
    ensures IsShape(id, n, n)
  {
    seq(n, r => seq(n, c => if r == c then 1 else 0))
  }

  /** Structural agreement, entry by entry, of two grids of the same shape. */
  predicate SameEntries(a: Grid, b: Grid, h: nat, w: nat)
    requires IsShape(a, h, w) && IsShape(b, h, w)
  {
    forall i, j :: 0 <= i < h && 0 <= j < w ==> a[i][j] == b[i][j]
  }

  /** Entry-by-entry agreement is exactly value equality of the grids. */
  lemma SameEntriesIffEqual(a: Grid, b: Grid, h: nat, w: nat)
    requires IsShape(a, h, w) && IsShape(b, h, w)
    ensures SameEntries(a, b, h, w) <==> a == b
  {
    if SameEntries(a, b, h, w) {
      forall i | 0 <= i < h
        ensures a[i] == b[i]
      {
        assert forall j :: 0 <= j < w ==> a[i][j] == b[i][j];
      }
    }
  }

  /** A row of `a` against column `c` of the identity picks out `a[row][c]`
      once the prefix has passed index `c`. */
  lemma {:induction false} DotIdentityRight(a: Grid, w: nat, row: nat, c: nat, k: nat)
    requires row < |a| && |a[row]| == w && c < w && k <= w
    ensures Dot(a, Identity(w), row, c, k) == if c < k then a[row][c] else 0
  {
    if k > 0 {
      DotIdentityRight(a, w, row, c, k - 1);
    }
  }

  /** Row `r` of the identity against a column of `b` picks out `b[r][col]`
      once the prefix has passed index `r`. */
  lemma {:induction false} DotIdentityLeft(b: Grid, h: nat, r: nat, col: nat, k: nat)
    requires |b| == h && r < h && k <= h
    requires forall i :: 0 <= i < h ==> col < |b[i]|
    ensures Dot(Identity(h), b, r, col, k) == if r < k then b[r][col] else 0
  {
    if k > 0 {
      DotIdentityLeft(b, h, r, col, k - 1);
    }
  }

  /** The identity is a right unit of the product. */
  lemma ProductIdentityRight(a: Grid, h: nat, w: nat)
    requires IsShape(a, h, w)
    ensures Product(a, Identity(w), h, w, w) == a
  {
    var p := Product(a, Identity(w), h, w, w);
    forall r, c | 0 <= r < h && 0 <= c < w
      ensures p[r][c] == a[r][c]
    {
      DotIdentityRight(a, w, r, c, w);
    }
    SameEntriesIffEqual(p, a, h, w);
  }

  /** The identity is a left unit of the product. */
  lemma ProductIdentityLeft(a: Grid, h: nat, w: nat)
    requires IsShape(a, h, w)
    ensures Product(Identity(h), a, h, h, w) == a
  {
    var p := Product(Identity(h), a, h, h, w);
    forall r, c | 0 <= r < h && 0 <= c < w
      ensures p[r][c] == a[r][c]
    {
      DotIdentityLeft(a, h, r, c, h);
    }
    SameEntriesIffEqual(p, a, h, w);
  }

  /** Transposing twice gives back the original grid. */
  lemma TransposeInvolution(a: Grid, h: nat, w: nat)
    requires IsShape(a, h, w)
    ensures Transposed(Transposed(a, h, w), w, h) == a
  {
    var tt := Transposed(Transposed(a, h, w), w, h);
    SameEntriesIffEqual(tt, a, h, w);
  }
}
