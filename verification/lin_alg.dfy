/**
  The linear algebra both implementations rely on, over exact reals.
  Vectors are `seq<real>`. The C kernel stores matrices flat in row-major
  order; NumPy's two-dimensional arrays are modelled as sequences of rows.
 */
module LinAlg {

  /** `Σ u[i]·v[i]` */
  function Dot(u: seq<real>, v: seq<real>): real
    requires |u| == |v|
    decreases |u|
  {
    if |u| == 0 then 0.0 else Dot(u[..|u| - 1], v[..|v| - 1]) + u[|u| - 1] * v[|v| - 1]
  }

  /** Element-wise difference `x - mu`. */
  function Sub(x: seq<real>, mu: seq<real>): (d: seq<real>)
    requires |x| == |mu|
    ensures |d| == |x|
    ensures forall i :: 0 <= i < |x| ==> d[i] == x[i] - mu[i]
    decreases |x|
  {
    if |x| == 0 then [] else Sub(x[..|x| - 1], mu[..|mu| - 1]) + [x[|x| - 1] - mu[|mu| - 1]]
  }

  predicate IsZero(v: seq<real>)
  {
    forall i :: 0 <= i < |v| ==> v[i] == 0.0
  }

  /** A zero factor makes the dot product vanish. */
  lemma {:induction false} DotZero(u: seq<real>, v: seq<real>)
    requires |u| == |v|
    requires IsZero(u) || IsZero(v)
    ensures Dot(u, v) == 0.0
    decreases |u|
  {
    if |u| > 0 {
      DotZero(u[..|u| - 1], v[..|v| - 1]);
    }
  }

  /** A vector's dot product with itself is a sum of squares. */
  lemma {:induction false} DotSelfNonNegative(u: seq<real>)
    ensures Dot(u, u) >= 0.0
    decreases |u|
  {
    if |u| > 0 {
      DotSelfNonNegative(u[..|u| - 1]);
    }
  }

  /** Extending both vectors by one entry adds that entry's product. */
  lemma DotSnoc(u: seq<real>, v: seq<real>, a: real, b: real)
    requires |u| == |v|
    ensures Dot(u + [a], v + [b]) == Dot(u, v) + a * b
  {
    assert (u + [a])[..|u|] == u;
    assert (v + [b])[..|v|] == v;
  }

  // ---------------------------------------------------------------- flat row-major matrices

  /** `i * cols + k` stays inside a `rows × cols` matrix. */
  lemma RowMajorBound(i: nat, k: nat, rows: nat, cols: nat)
    requires i < rows && k < cols
    ensures i * cols + k < rows * cols
    ensures (i + 1) * cols <= rows * cols
  {
    assert (i + 1) * cols <= rows * cols by {
      assert i + 1 <= rows;
    }
  }

  /** Row-major positions of earlier rows come before every position of a later row. */
  lemma RowMajorOrder(i': nat, j': nat, i: nat, j: nat, cols: nat)
    requires i' < i && j' < cols
    ensures i' * cols + j' < i * cols + j
  {
    assert (i' + 1) * cols <= i * cols by {
      assert i' + 1 <= i;
    }
  }

  /** Row `i` of a flat matrix with `cols` columns. */
  function Row(m: seq<real>, cols: nat, i: nat): (r: seq<real>)
    requires (i + 1) * cols <= |m|
    ensures |r| == cols
    ensures forall k :: 0 <= k < cols ==> r[k] == m[i * cols + k]
  {
    m[i * cols .. i * cols + cols]
  }

  /** The first `rows` entries of column `j` of a flat matrix with `cols` columns. */
  function Col(m: seq<real>, cols: nat, j: nat, rows: nat): (c: seq<real>)
    requires j < cols && rows * cols <= |m|
    ensures |c| == rows
    decreases rows
  {
    if rows == 0 then []
    else
      RowMajorBound(rows - 1, j, rows, cols);
      Col(m, cols, j, rows - 1) + [m[(rows - 1) * cols + j]]
  }

  /** One more row extends a column by that row's entry. */
  lemma ColSnoc(m: seq<real>, cols: nat, j: nat, rows: nat)
    requires j < cols && (rows + 1) * cols <= |m|
    ensures rows * cols + j < |m|
    ensures Col(m, cols, j, rows + 1) == Col(m, cols, j, rows) + [m[rows * cols + j]]
  {
    RowMajorBound(rows, j, rows + 1, cols);
  }

  /** Entry `k` of a column is the element at row-major position `k * cols + j`. */
  lemma {:induction false} ColAt(m: seq<real>, cols: nat, j: nat, rows: nat, k: nat)
    requires j < cols && rows * cols <= |m| && k < rows
    ensures k * cols + j < |m|
    ensures Col(m, cols, j, rows)[k] == m[k * cols + j]
    decreases rows
  {
    RowMajorBound(k, j, rows, cols);
    if k < rows - 1 {
      RowMajorBound(rows - 1, j, rows, cols);
      ColAt(m, cols, j, rows - 1, k);
    }
  }

  /** Row `i` of a `rows × cols` matrix lies inside its storage. */
  lemma RowBound(i: nat, rows: nat, cols: nat)
    requires i < rows
    ensures (i + 1) * cols <= rows * cols
  {
    assert (i + 1) * cols <= rows * cols by {
      assert i + 1 <= rows;
    }
  }

  /**
    Entry `(i, j)` of the product of a flat `aRows × aCols` matrix and a flat
    `aCols × bCols` matrix: row `i` of `a` against column `j` of `b`.
   */
  function Entry(a: seq<real>, b: seq<real>, aRows: nat, aCols: nat, bCols: nat, i: nat, j: nat): real
    requires i < aRows && aRows * aCols <= |a|
    requires j < bCols && aCols * bCols <= |b|
  {
    RowBound(i, aRows, aCols);
    Dot(Row(a, aCols, i), Col(b, bCols, j, aCols))
  }

  // ---------------------------------------------------------------- nested matrices

  predicate IsMatrix(m: seq<seq<real>>, cols: nat)
  {
    forall i :: 0 <= i < |m| ==> |m[i]| == cols
  }

  /** Column `j` of a matrix given by its rows. */
  function Column(m: seq<seq<real>>, j: nat): (c: seq<real>)
    requires forall i :: 0 <= i < |m| ==> j < |m[i]|
    ensures |c| == |m|
    ensures forall i :: 0 <= i < |m| ==> c[i] == m[i][j]
    decreases |m|
  {
    if |m| == 0 then [] else Column(m[..|m| - 1], j) + [m[|m| - 1][j]]
  }

  /** The first `n` entries of the row vector `u · m`. */
  function VecMatUpTo(u: seq<real>, m: seq<seq<real>>, cols: nat, n: nat): (r: seq<real>)
    requires |m| == |u| && IsMatrix(m, cols) && n <= cols
    ensures |r| == n
    ensures forall j :: 0 <= j < n ==> r[j] == Dot(u, Column(m, j))
    decreases n
  {
    if n == 0 then [] else VecMatUpTo(u, m, cols, n - 1) + [Dot(u, Column(m, n - 1))]
  }

  /** The row vector `u · m` for a matrix with `cols` columns. */
  function VecMat(u: seq<real>, m: seq<seq<real>>, cols: nat): (r: seq<real>)
    requires |m| == |u| && IsMatrix(m, cols)
    ensures |r| == cols
    ensures forall j :: 0 <= j < cols ==> r[j] == Dot(u, Column(m, j))
  {
    VecMatUpTo(u, m, cols, cols)
  }

  /** The quadratic form `d · m · dᵀ` of a square matrix. */
  function Quad(d: seq<real>, m: seq<seq<real>>): real
    requires |m| == |d| && IsMatrix(m, |d|)
  {
    Dot(VecMat(d, m, |d|), d)
  }

  /** The quadratic form of the zero vector is zero, whatever the matrix. */
  lemma QuadZero(d: seq<real>, m: seq<seq<real>>)
    requires |m| == |d| && IsMatrix(m, |d|)
    requires IsZero(d)
    ensures Quad(d, m) == 0.0
  {
    DotZero(VecMat(d, m, |d|), d);
  }

  predicate IsIdentity(m: seq<seq<real>>)
  {
    forall i, j :: 0 <= i < |m| && 0 <= j < |m[i]| ==> m[i][j] == if i == j then 1.0 else 0.0
  }

  /** Column `j` of the identity matrix is the `j`-th unit vector. */
  lemma IdentityColumn(m: seq<seq<real>>, j: nat)
    requires IsMatrix(m, |m|) && IsIdentity(m) && j < |m|
    ensures var c := Column(m, j);
      forall i :: 0 <= i < |c| ==> c[i] == if i == j then 1.0 else 0.0
  {
  }

  /** Entry `j` of `d · m` for the identity `m` is `d[j]`. */
  lemma IdentityVecMatAt(d: seq<real>, m: seq<seq<real>>, j: nat)
    requires |m| == |d| && IsMatrix(m, |d|) && IsIdentity(m) && j < |d|
    ensures VecMat(d, m, |d|)[j] == d[j]
  {
    IdentityColumn(m, j);
    DotUnit(d, Column(m, j), j);
  }

  /** For the identity matrix the quadratic form is the squared Euclidean norm. */
  lemma QuadIdentity(d: seq<real>, m: seq<seq<real>>)
    requires |m| == |d| && IsMatrix(m, |d|)
    requires IsIdentity(m)
    ensures Quad(d, m) == Dot(d, d)
  {
    var r := VecMat(d, m, |d|);
    forall j | 0 <= j < |d| ensures r[j] == d[j] {
      IdentityVecMatAt(d, m, j);
    }
    assert r == d;
  }

  /** Against the `j`-th unit vector the dot product picks entry `j`. */
  lemma {:induction false} DotUnit(u: seq<real>, e: seq<real>, j: nat)
    requires |u| == |e| && j < |u|
    requires forall i :: 0 <= i < |e| ==> e[i] == if i == j then 1.0 else 0.0
    ensures Dot(u, e) == u[j]
    decreases |u|
  {
    var n := |u| - 1;
    if j < n {
      DotUnit(u[..n], e[..n], j);
    } else {
      DotZero(u[..n], e[..n]);
    }
  }

  /** A matrix rebuilt from its flat row-major storage. */
  function Unflatten(m: seq<real>, rows: nat, cols: nat): (r: seq<seq<real>>)
    requires rows * cols <= |m|
    ensures |r| == rows && IsMatrix(r, cols)
    ensures forall i :: 0 <= i < rows ==> r[i] == Row(m, cols, i)
    decreases rows
  {
    if rows == 0 then []
    else
      RowMajorBound(rows - 1, 0, rows, cols + 1);
      assert rows * cols == (rows - 1) * cols + cols;
      Unflatten(m, rows - 1, cols) + [Row(m, cols, rows - 1)]
  }

  /** A column of the rebuilt matrix is the column of the flat storage. */
  lemma ColumnOfUnflatten(m: seq<real>, rows: nat, cols: nat, j: nat)
    requires rows * cols <= |m| && j < cols
    ensures Column(Unflatten(m, rows, cols), j) == Col(m, cols, j, rows)
  {
    var u := Unflatten(m, rows, cols);
    var c := Column(u, j);
    var c' := Col(m, cols, j, rows);
    forall k | 0 <= k < rows ensures c[k] == c'[k] {
      ColAt(m, cols, j, rows, k);
      RowMajorBound(k, j, rows, cols);
      assert u[k] == Row(m, cols, k);
    }
  }

  /** The product of two matrices given by rows: row `i` is `a[i] · b`. */
  function MatMul(a: seq<seq<real>>, b: seq<seq<real>>, cols: nat): (p: seq<seq<real>>)
    requires forall i :: 0 <= i < |a| ==> |a[i]| == |b|
    requires IsMatrix(b, cols)
    ensures |p| == |a| && IsMatrix(p, cols)
    ensures forall i, j :: 0 <= i < |a| && 0 <= j < cols ==> p[i][j] == Dot(a[i], Column(b, j))
    decreases |a|
  {
    if |a| == 0 then [] else MatMul(a[..|a| - 1], b, cols) + [VecMat(a[|a| - 1], b, cols)]
  }

  /** The transpose of a matrix with `cols` columns. */
  function Transpose(m: seq<seq<real>>, cols: nat): (t: seq<seq<real>>)
    requires IsMatrix(m, cols)
    ensures |t| == cols && IsMatrix(t, |m|)
    ensures forall j :: 0 <= j < cols ==> t[j] == Column(m, j)
  {
    TransposeUpTo(m, cols, cols)
  }

  function TransposeUpTo(m: seq<seq<real>>, cols: nat, n: nat): (t: seq<seq<real>>)
    requires IsMatrix(m, cols) && n <= cols
    ensures |t| == n && IsMatrix(t, |m|)
    ensures forall j :: 0 <= j < n ==> t[j] == Column(m, j)
    decreases n
  {
    if n == 0 then [] else TransposeUpTo(m, cols, n - 1) + [Column(m, n - 1)]
  }

  /** Transposing twice gives the rows back: a column of the transpose is a row. */
  lemma ColumnOfTranspose(m: seq<seq<real>>, cols: nat, i: nat)
    requires IsMatrix(m, cols) && i < |m|
    ensures Column(Transpose(m, cols), i) == m[i]
  {
    var t := Transpose(m, cols);
    var c := Column(t, i);
    forall j | 0 <= j < cols ensures c[j] == m[i][j] {
      assert t[j] == Column(m, j);
    }
  }

  /** The entries on the main diagonal of a square matrix. */
  function Diagonal(m: seq<seq<real>>): (d: seq<real>)
    requires IsMatrix(m, |m|)
    ensures |d| == |m|
    ensures forall i :: 0 <= i < |m| ==> d[i] == m[i][i]
  {
    DiagonalUpTo(m, |m|)
  }

  function DiagonalUpTo(m: seq<seq<real>>, n: nat): (d: seq<real>)
    requires IsMatrix(m, |m|) && n <= |m|
    ensures |d| == n
    ensures forall i :: 0 <= i < n ==> d[i] == m[i][i]
    decreases n
  {
    if n == 0 then [] else DiagonalUpTo(m, n - 1) + [m[n - 1][n - 1]]
  }
}
