/** Dense real matrices and vectors with exact arithmetic.

    A numpy 2-D array keeps its column count even when it has no rows, and
    `np.dot` checks that count; `Mat` therefore stores the width next to the
    rows.  `Matrix` is the subset of `Mat` whose rows all have that width. */
module LinAlg {
  import opened Results

  type Vector = seq<real>

  datatype Mat = Mat(cols: nat, rows: seq<Vector>) {
    predicate Rectangular() {
      forall i | 0 <= i < |rows| :: |rows[i]| == cols
    }
  }

  type Matrix = m: Mat | m.Rectangular() witness Mat(0, [])

  predicate HasShape(m: Matrix, r: nat, c: nat) {
    |m.rows| == r && m.cols == c
  }

  function Zeros(n: nat): (z: Vector)
    ensures |z| == n
    ensures forall i | 0 <= i < n :: z[i] == 0.0
  {
    seq(n, i => 0.0)
  }

  predicate IsZero(v: Vector) {
    forall i | 0 <= i < |v| :: v[i] == 0.0
  }

  function Dot(u: Vector, v: Vector): real
    requires |u| == |v|
  {
    if |u| == 0 then 0.0 else u[0] * v[0] + Dot(u[1..], v[1..])
  }

  /** The j-th column of `m`. */
  function Column(m: Matrix, j: nat): (c: Vector)
    requires j < m.cols
    ensures |c| == |m.rows|
    ensures forall k | 0 <= k < |m.rows| :: c[k] == m.rows[k][j]
  {
    seq(|m.rows|, k requires 0 <= k < |m.rows| => m.rows[k][j])
  }

  /** Matrix times vector: entry i is row i of `m` dotted with `x`. */
  function MatVec(m: Matrix, x: Vector): (y: Vector)
    requires m.cols == |x|
    ensures |y| == |m.rows|
    ensures forall i | 0 <= i < |m.rows| :: y[i] == Dot(m.rows[i], x)
  {
    seq(|m.rows|, i requires 0 <= i < |m.rows| => Dot(m.rows[i], x))
  }

  /** Row i of `a · b`. */
  function RowTimes(u: Vector, b: Matrix): (w: Vector)
    requires |u| == |b.rows|
    ensures |w| == b.cols
    ensures forall j | 0 <= j < b.cols :: w[j] == Dot(u, Column(b, j))
  {
    seq(b.cols, j requires 0 <= j < b.cols => Dot(u, Column(b, j)))
  }

  function MatMul(a: Matrix, b: Matrix): (c: Matrix)
    requires a.cols == |b.rows|
    ensures HasShape(c, |a.rows|, b.cols)
    ensures forall i | 0 <= i < |a.rows| :: c.rows[i] == RowTimes(a.rows[i], b)
  {
    Mat(b.cols, seq(|a.rows|, i requires 0 <= i < |a.rows| => RowTimes(a.rows[i], b)))
  }

  /** Rows lo..hi-1 of `m`, as numpy's `m[lo:hi]`. */
  function RowBlock(m: Matrix, lo: nat, hi: nat): (b: Matrix)
    requires lo <= hi <= |m.rows|
    ensures HasShape(b, hi - lo, m.cols)
    ensures forall j | 0 <= j < hi - lo :: b.rows[j] == m.rows[lo + j]
  {
    Mat(m.cols, m.rows[lo..hi])
  }

  /** The r x c matrix with entry (i, j) equal to f(i, j): a buffer of that
      shape filled in by a foreign routine. */
  function Tabulate(r: nat, c: nat, f: (nat, nat) -> real): (m: Matrix)
    ensures HasShape(m, r, c)
    ensures forall i, j | 0 <= i < r && 0 <= j < c :: m.rows[i][j] == f(i, j)
  {
    Mat(c, seq(r, i requires 0 <= i < r => seq(c, j requires 0 <= j < c => f(i, j))))
  }

  function TabulateVector(n: nat, f: nat -> real): (v: Vector)
    ensures |v| == n
    ensures forall i | 0 <= i < n :: v[i] == f(i)
  {
    seq(n, i requires 0 <= i < n => f(i))
  }

  function Identity(n: nat): (e: Matrix)
    ensures HasShape(e, n, n)
  {
    Mat(n, seq(n, i => seq(n, j => if i == j then 1.0 else 0.0)))
  }

  /** np.dot(m, x) for a 2-D `m` and a 1-D `x`: a ValueError unless aligned. */
  function Apply(m: Matrix, x: Vector): (r: Result<Vector>)
    ensures r.Success? <==> m.cols == |x|
    ensures r.Success? ==> |r.value| == |m.rows|
    ensures r.Success? ==> forall i | 0 <= i < |m.rows| :: r.value[i] == Dot(m.rows[i], x)
  {
    if m.cols == |x| then Success(MatVec(m, x)) else Failure(ProductShape)
  }

  /** np.dot(a, b) for two 2-D operands. */
  function Product(a: Matrix, b: Matrix): (r: Result<Matrix>)
    ensures r.Success? <==> a.cols == |b.rows|
    ensures r.Success? ==> HasShape(r.value, |a.rows|, b.cols)
    ensures r.Success? ==> forall i | 0 <= i < |a.rows| :: r.value.rows[i] == RowTimes(a.rows[i], b)
  {
    if a.cols == |b.rows| then Success(MatMul(a, b)) else Failure(ProductShape)
  }

  // ---------------------------------------------------------------------
  // Linearity of the dot product

  lemma {:induction false} DotZeroRight(u: Vector, z: Vector)
    requires |u| == |z| && IsZero(z)
    ensures Dot(u, z) == 0.0
  {
    if |u| > 0 {
      DotZeroRight(u[1..], z[1..]);
    }
  }

  lemma {:induction false} DotZeroLeft(z: Vector, v: Vector)
    requires |z| == |v| && IsZero(z)
    ensures Dot(z, v) == 0.0
  {
    if |z| > 0 {
      DotZeroLeft(z[1..], v[1..]);
    }
  }

  /** Dot(c·u + w, x) == c·Dot(u, x) + Dot(w, x). */
  lemma {:induction false} DotAffine(c: real, u: Vector, w: Vector, s: Vector, x: Vector)
    requires |u| == |w| == |s| == |x|
    requires forall j | 0 <= j < |s| :: s[j] == c * u[j] + w[j]
    ensures Dot(s, x) == c * Dot(u, x) + Dot(w, x)
  {
    if |u| > 0 {
      DotAffine(c, u[1..], w[1..], s[1..], x[1..]);
      calc {
        Dot(s, x);
        s[0] * x[0] + Dot(s[1..], x[1..]);
        (c * u[0] + w[0]) * x[0] + c * Dot(u[1..], x[1..]) + Dot(w[1..], x[1..]);
        c * (u[0] * x[0] + Dot(u[1..], x[1..])) + (w[0] * x[0] + Dot(w[1..], x[1..]));
      }
    }
  }

  /** The unit vector e_i picks out entry i. */
  lemma {:induction false} DotUnit(n: nat, i: nat, x: Vector)
    requires i < n == |x|
    ensures Dot(seq(n, j => if i == j then 1.0 else 0.0), x) == x[i]
    decreases n
  {
    var e := seq(n, j => if i == j then 1.0 else 0.0);
    if i == 0 {
      var z := e[1..];
      assert IsZero(z);
      DotZeroLeft(z, x[1..]);
    } else {
      assert e[1..] == seq(n - 1, j => if i - 1 == j then 1.0 else 0.0);
      DotUnit(n - 1, i - 1, x[1..]);
    }
  }

  // ---------------------------------------------------------------------
  // Matrix identities used by the identification

  /** Multiplying by a zero vector gives a zero vector, whatever the matrix. */
  lemma MatVecZero(m: Matrix, z: Vector)
    requires m.cols == |z| && IsZero(z)
    ensures IsZero(MatVec(m, z))
  {
    forall i | 0 <= i < |m.rows|
      ensures MatVec(m, z)[i] == 0.0
    {
      DotZeroRight(m.rows[i], z);
    }
  }

  lemma IdentityMatVec(x: Vector)
    ensures MatVec(Identity(|x|), x) == x
  {
    forall i | 0 <= i < |x|
      ensures MatVec(Identity(|x|), x)[i] == x[i]
    {
      DotUnit(|x|, i, x);
    }
  }

  /** `m` without its first row. */
  function Tail(m: Matrix): (t: Matrix)
    requires |m.rows| > 0
    ensures HasShape(t, |m.rows| - 1, m.cols)
  {
    Mat(m.cols, m.rows[1..])
  }

  /** One row of the associativity law: (u·B)·x == u·(B·x). */
  lemma {:induction false} RowTimesAssoc(u: Vector, b: Matrix, x: Vector)
    requires |u| == |b.rows| && b.cols == |x|
    ensures Dot(RowTimes(u, b), x) == Dot(u, MatVec(b, x))
    decreases |u|
  {
    if |u| == 0 {
      assert IsZero(RowTimes(u, b));
      DotZeroLeft(RowTimes(u, b), x);
    } else {
      RowTimesAssoc(u[1..], Tail(b), x);
      RowTimesFirst(u, b);
      DotAffine(u[0], b.rows[0], RowTimes(u[1..], Tail(b)), RowTimes(u, b), x);
      MatVecFirst(b, x);
    }
  }

  /** u·B is u[0] times B's first row plus the rest of u times the rest of B. */
  lemma RowTimesFirst(u: Vector, b: Matrix)
    requires |u| == |b.rows| > 0
    ensures forall j | 0 <= j < b.cols ::
      RowTimes(u, b)[j] == u[0] * b.rows[0][j] + RowTimes(u[1..], Tail(b))[j]
  {
    forall j | 0 <= j < b.cols
      ensures RowTimes(u, b)[j] == u[0] * b.rows[0][j] + RowTimes(u[1..], Tail(b))[j]
    {
      assert Column(b, j)[1..] == Column(Tail(b), j);
    }
  }

  lemma MatVecFirst(b: Matrix, x: Vector)
    requires |b.rows| > 0 && b.cols == |x|
    ensures MatVec(b, x)[0] == Dot(b.rows[0], x)
    ensures MatVec(b, x)[1..] == MatVec(Tail(b), x)
  {
    assert MatVec(b, x)[1..] == MatVec(Tail(b), x);
  }

  /** (A·B)·x == A·(B·x). */
  lemma MatVecAssoc(a: Matrix, b: Matrix, x: Vector)
    requires a.cols == |b.rows| && b.cols == |x|
    ensures MatVec(MatMul(a, b), x) == MatVec(a, MatVec(b, x))
  {
    forall i | 0 <= i < |a.rows|
      ensures MatVec(MatMul(a, b), x)[i] == MatVec(a, MatVec(b, x))[i]
    {
      RowTimesAssoc(a.rows[i], b, x);
    }
  }

  /** A row block of a product is the product of the row block. */
  lemma RowBlockMatMul(a: Matrix, b: Matrix, lo: nat, hi: nat)
    requires a.cols == |b.rows| && lo <= hi <= |a.rows|
    ensures RowBlock(MatMul(a, b), lo, hi) == MatMul(RowBlock(a, lo, hi), b)
  {
  }

  /** A slice of a matrix-vector product is the row block times the vector. */
  lemma MatVecSlice(m: Matrix, x: Vector, lo: nat, hi: nat)
    requires m.cols == |x| && lo <= hi <= |m.rows|
    ensures MatVec(m, x)[lo..hi] == MatVec(RowBlock(m, lo, hi), x)
  {
  }
}
