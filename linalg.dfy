/** Dense real vectors and matrices as nested sequences, with the few products NumPy's `@` computes. */
module Linalg {

  type Vector = seq<real>
  type Matrix = seq<seq<real>>

  /** `m` has `rows` rows of `cols` entries each. */
  predicate IsMatrix(m: Matrix, rows: nat, cols: nat)
  {
    |m| == rows && forall i :: 0 <= i < rows ==> |m[i]| == cols
  }

  predicate Symmetric(m: Matrix, n: nat)
    requires IsMatrix(m, n, n)
  {
    forall i, j :: 0 <= i < n && 0 <= j < n ==> m[i][j] == m[j][i]
  }

  /** `m` is zero off its diagonal. */
  predicate Diagonal(m: Matrix, n: nat)
    requires IsMatrix(m, n, n)
  {
    forall i, j :: 0 <= i < n && 0 <= j < n && i != j ==> m[i][j] == 0.0
  }

  /** The inner product, summed from the last component backwards. */
  function Dot(u: Vector, v: Vector): real
    requires |u| == |v|
    decreases |u|
  {
    if |u| == 0 then 0.0 else Dot(u[..|u| - 1], v[..|v| - 1]) + u[|u| - 1] * v[|v| - 1]
  }

  function Column(m: Matrix, rows: nat, cols: nat, j: nat): (c: Vector)
    requires IsMatrix(m, rows, cols) && j < cols
    ensures |c| == rows && forall i :: 0 <= i < rows ==> c[i] == m[i][j]
  {
    seq(rows, i requires 0 <= i < rows => m[i][j])
  }

  function MatMul(a: Matrix, b: Matrix, n: nat, k: nat, p: nat): (r: Matrix)
    requires IsMatrix(a, n, k) && IsMatrix(b, k, p)
    ensures IsMatrix(r, n, p)
    ensures forall i, j :: 0 <= i < n && 0 <= j < p ==> r[i][j] == Dot(a[i], Column(b, k, p, j))
  {
    seq(n, i requires 0 <= i < n => seq(p, j requires 0 <= j < p => Dot(a[i], Column(b, k, p, j))))
  }

  function MatVec(m: Matrix, v: Vector, n: nat, k: nat): (r: Vector)
    requires IsMatrix(m, n, k) && |v| == k
    ensures |r| == n && forall i :: 0 <= i < n ==> r[i] == Dot(m[i], v)
  {
    seq(n, i requires 0 <= i < n => Dot(m[i], v))
  }

  function Transpose(m: Matrix, rows: nat, cols: nat): (t: Matrix)
    requires IsMatrix(m, rows, cols)
    ensures IsMatrix(t, cols, rows)
    ensures forall i, j :: 0 <= i < cols && 0 <= j < rows ==> t[i][j] == m[j][i]
  {
    seq(cols, i requires 0 <= i < cols => seq(rows, j requires 0 <= j < rows => m[j][i]))
  }

  function MatAdd(a: Matrix, b: Matrix, n: nat, p: nat): (r: Matrix)
    requires IsMatrix(a, n, p) && IsMatrix(b, n, p)
    ensures IsMatrix(r, n, p)
    ensures forall i, j :: 0 <= i < n && 0 <= j < p ==> r[i][j] == a[i][j] + b[i][j]
  {
    seq(n, i requires 0 <= i < n => seq(p, j requires 0 <= j < p => a[i][j] + b[i][j]))
  }

  function MatSub(a: Matrix, b: Matrix, n: nat, p: nat): (r: Matrix)
    requires IsMatrix(a, n, p) && IsMatrix(b, n, p)
    ensures IsMatrix(r, n, p)
    ensures forall i, j :: 0 <= i < n && 0 <= j < p ==> r[i][j] == a[i][j] - b[i][j]
  {
    seq(n, i requires 0 <= i < n => seq(p, j requires 0 <= j < p => a[i][j] - b[i][j]))
  }

  function VecAdd(u: Vector, v: Vector): (r: Vector)
    requires |u| == |v|
    ensures |r| == |u| && forall i :: 0 <= i < |u| ==> r[i] == u[i] + v[i]
  {
    seq(|u|, i requires 0 <= i < |u| => u[i] + v[i])
  }

  function VecSub(u: Vector, v: Vector): (r: Vector)
    requires |u| == |v|
    ensures |r| == |u| && forall i :: 0 <= i < |u| ==> r[i] == u[i] - v[i]
  {
    seq(|u|, i requires 0 <= i < |u| => u[i] - v[i])
  }

  /** `np.eye(n) * c`. */
  function ScaledIdentity(n: nat, c: real): (m: Matrix)
    ensures IsMatrix(m, n, n) && Diagonal(m, n)
    ensures forall i :: 0 <= i < n ==> m[i][i] == c
  {
    seq(n, i requires 0 <= i < n => seq(n, j requires 0 <= j < n => if i == j then c else 0.0))
  }

  function Zero(rows: nat, cols: nat): (m: Matrix)
    ensures IsMatrix(m, rows, cols)
    ensures forall i, j :: 0 <= i < rows && 0 <= j < cols ==> m[i][j] == 0.0
  {
    seq(rows, i requires 0 <= i < rows => seq(cols, j requires 0 <= j < cols => 0.0))
  }

  /**
   * A product with a vector that is zero outside two positions `i` and `k`
   * reads only those two positions of the other factor.
   */
  lemma {:induction false} DotPair(u: Vector, v: Vector, i: nat, k: nat)
    requires |u| == |v| && i < |u| && k < |u| && i != k
    requires forall m :: 0 <= m < |u| && m != i && m != k ==> u[m] == 0.0
    ensures Dot(u, v) == u[i] * v[i] + u[k] * v[k]
  {
    DotPairPrefix(u, v, i, k, |u|);
    assert u[..|u|] == u && v[..|v|] == v;
  }

  lemma {:induction false} DotPairPrefix(u: Vector, v: Vector, i: nat, k: nat, n: nat)
    requires |u| == |v| && i < |u| && k < |u| && i != k && n <= |u|
    requires forall m :: 0 <= m < |u| && m != i && m != k ==> u[m] == 0.0
    ensures Dot(u[..n], v[..n]) == (if i < n then u[i] * v[i] else 0.0) + (if k < n then u[k] * v[k] else 0.0)
  {
    if n > 0 {
      DotPairPrefix(u, v, i, k, n - 1);
      assert u[..n][..n - 1] == u[..n - 1] && v[..n][..n - 1] == v[..n - 1];
    }
  }

  /** The inner product is symmetric. */
  lemma {:induction false} DotCommutes(u: Vector, v: Vector)
    requires |u| == |v|
    ensures Dot(u, v) == Dot(v, u)
  {
    if |u| > 0 {
      DotCommutes(u[..|u| - 1], v[..|v| - 1]);
    }
  }

  /** A product with the zero vector vanishes. */
  lemma {:induction false} DotZero(u: Vector, v: Vector)
    requires |u| == |v| && forall m :: 0 <= m < |u| ==> u[m] == 0.0
    ensures Dot(u, v) == 0.0
  {
    if |u| > 0 {
      DotZero(u[..|u| - 1], v[..|v| - 1]);
    }
  }

  /** Multiplying by the identity on the left leaves a matrix unchanged. */
  lemma IdentityMul(m: Matrix, n: nat, p: nat)
    requires n >= 2 && IsMatrix(m, n, p)
    ensures MatMul(ScaledIdentity(n, 1.0), m, n, n, p) == m
  {
    var id := ScaledIdentity(n, 1.0);
    var r := MatMul(id, m, n, n, p);
    forall i | 0 <= i < n
      ensures r[i] == m[i]
    {
      forall j | 0 <= j < p
        ensures r[i][j] == m[i][j]
      {
        DotPair(id[i], Column(m, n, p, j), i, (i + 1) % n);
      }
    }
  }
}
