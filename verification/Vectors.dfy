/** Real vectors and matrices: inner products, linear combinations, and the adjoint
    law of symmetric matrices. */
module Vectors {

  type Vec = seq<real>
  type Matrix = seq<Vec>

  /** The inner product of the first `k` components. */
  ghost function PDot(u: Vec, v: Vec, k: nat): real
    requires k <= |u| && k <= |v|
  {
    if k == 0 then 0.0 else PDot(u, v, k - 1) + u[k - 1] * v[k - 1]
  }

  ghost function Dot(u: Vec, v: Vec): real
    requires |u| == |v|
  {
    PDot(u, v, |u|)
  }

  /** u + s v */
  ghost function Add(u: Vec, s: real, v: Vec): (w: Vec)
    requires |u| == |v|
    ensures |w| == |u|
  {
    seq(|u|, i requires 0 <= i < |u| => u[i] + s * v[i])
  }

  lemma Expand(a: real, s: real, b: real, c: real)
    ensures (a + s * b) * c == a * c + s * (b * c)
  {
    Assoc(s, b, c);
  }

  lemma Assoc(a: real, b: real, c: real)
    ensures a * b * c == a * (b * c)
  {
  }

  lemma Distribute(s: real, a: real, b: real)
    ensures s * (a + b) == s * a + s * b
  {
  }

  lemma {:induction false} PDotSym(u: Vec, v: Vec, k: nat)
    requires k <= |u| && k <= |v|
    ensures PDot(u, v, k) == PDot(v, u, k)
  {
    if k > 0 {
      PDotSym(u, v, k - 1);
      assert u[k - 1] * v[k - 1] == v[k - 1] * u[k - 1];
    }
  }

  lemma DotSym(u: Vec, v: Vec)
    requires |u| == |v|
    ensures Dot(u, v) == Dot(v, u)
  {
    PDotSym(u, v, |u|);
  }

  lemma {:induction false} PDotAdd(u: Vec, s: real, v: Vec, w: Vec, k: nat)
    requires |u| == |v| && k <= |u| && k <= |w|
    ensures PDot(Add(u, s, v), w, k) == PDot(u, w, k) + s * PDot(v, w, k)
  {
    if k == 0 {
      assert s * 0.0 == 0.0;
    } else {
      PDotAdd(u, s, v, w, k - 1);
      Expand(u[k - 1], s, v[k - 1], w[k - 1]);
      Distribute(s, PDot(v, w, k - 1), v[k - 1] * w[k - 1]);
    }
  }

  /** The inner product is linear, on either side. */
  lemma DotAdd(u: Vec, s: real, v: Vec, w: Vec)
    requires |u| == |v| == |w|
    ensures Dot(Add(u, s, v), w) == Dot(u, w) + s * Dot(v, w)
    ensures Dot(w, Add(u, s, v)) == Dot(w, u) + s * Dot(w, v)
  {
    hide PDot;
    PDotAdd(u, s, v, w, |u|);
    DotSym(Add(u, s, v), w);
    DotSym(u, w);
    DotSym(v, w);
  }

  lemma {:induction false} PDotPositive(u: Vec, k: nat)
    requires k <= |u|
    ensures PDot(u, u, k) >= 0.0
    ensures PDot(u, u, k) == 0.0 ==> forall i :: 0 <= i < k ==> u[i] == 0.0
  {
    hide Product, PDot;
    PDotStep(u, k);
    if k > 0 {
      PDotPositive(u, k - 1);
      SquarePositive(u[k - 1]);
    }
  }

  lemma PDotStep(u: Vec, k: nat)
    requires k <= |u|
    ensures PDot(u, u, k) == if k == 0 then 0.0 else PDot(u, u, k - 1) + Product(u[k - 1], u[k - 1])
  {
  }

  ghost function Product(a: real, b: real): real {
    a * b
  }

  lemma SquarePositive(x: real)
    ensures Product(x, x) >= 0.0 && (x != 0.0 ==> Product(x, x) > 0.0)
  {
    hide Product;
    if x > 0.0 {
      ProductPositive(x, x);
    } else if x < 0.0 {
      ProductPositive(-x, -x);
    } else {
      ProductZero(x);
    }
  }

  lemma ProductPositive(a: real, b: real)
    requires a > 0.0 && b > 0.0
    ensures Product(a, b) > 0.0 && Product(-a, -b) > 0.0
  {
  }

  lemma ProductZero(a: real)
    requires a == 0.0
    ensures Product(a, a) == 0.0
  {
  }

  /** A vector of length zero is the zero vector. */
  lemma DotPositive(u: Vec)
    ensures Dot(u, u) >= 0.0
    ensures Dot(u, u) == 0.0 ==> u == Zero(|u|)
  {
    PDotPositive(u, |u|);
  }

  ghost function Zero(n: nat): Vec {
    seq(n, i => 0.0)
  }

  lemma {:induction false} PDotZero(n: nat, v: Vec, k: nat)
    requires k <= n && k <= |v|
    ensures PDot(Zero(n), v, k) == 0.0
  {
    if k > 0 {
      PDotZero(n, v, k - 1);
      assert 0.0 * v[k - 1] == 0.0;
    }
  }

  lemma DotZero(v: Vec)
    ensures Dot(Zero(|v|), v) == 0.0 && Dot(v, Zero(|v|)) == 0.0
  {
    PDotZero(|v|, v, |v|);
    DotSym(Zero(|v|), v);
  }

  // ----- matrices -----

  ghost predicate IsSquare(m: Matrix, n: nat) {
    |m| == n && forall j :: 0 <= j < n ==> |m[j]| == n
  }

  ghost predicate IsSymmetric(m: Matrix, n: nat)
    requires IsSquare(m, n)
  {
    forall j, k :: 0 <= j < n && 0 <= k < n ==> m[j][k] == m[k][j]
  }

  ghost function MatVec(m: Matrix, v: Vec): (w: Vec)
    requires IsSquare(m, |v|)
    ensures |w| == |v|
  {
    seq(|m|, j requires 0 <= j < |m| => Dot(m[j], v))
  }

  lemma MatVecAdd(m: Matrix, u: Vec, s: real, v: Vec)
    requires |u| == |v| && IsSquare(m, |u|)
    ensures MatVec(m, Add(u, s, v)) == Add(MatVec(m, u), s, MatVec(m, v))
  {
    hide Dot;
    forall j | 0 <= j < |m| ensures MatVec(m, Add(u, s, v))[j] == Add(MatVec(m, u), s, MatVec(m, v))[j] {
      DotAdd(u, s, v, m[j]);
    }
  }

  lemma MatVecZero(m: Matrix, n: nat)
    requires IsSquare(m, n)
    ensures MatVec(m, Zero(n)) == Zero(n)
  {
    forall j | 0 <= j < n ensures MatVec(m, Zero(n))[j] == 0.0 {
      DotZero(m[j]);
    }
  }

  /** The bilinear form of the first `i` rows and `j` columns. */
  ghost function Form(m: Matrix, u: Vec, v: Vec, i: nat, j: nat): real
    requires |u| == |v| && IsSquare(m, |u|) && i <= |u| && j <= |u|
  {
    if i == 0 then 0.0 else Form(m, u, v, i - 1, j) + u[i - 1] * PDot(m[i - 1], v, j)
  }

  lemma {:induction false} FormIsDot(m: Matrix, u: Vec, v: Vec, i: nat)
    requires |u| == |v| && IsSquare(m, |u|) && i <= |u|
    ensures PDot(u, MatVec(m, v), i) == Form(m, u, v, i, |u|)
  {
    if i > 0 {
      FormIsDot(m, u, v, i - 1);
    }
  }

  /** Column `b` of the first `i` rows, weighted by `u`. */
  ghost function Column(m: Matrix, u: Vec, b: nat, i: nat): real
    requires IsSquare(m, |u|) && b < |u| && i <= |u|
  {
    if i == 0 then 0.0 else Column(m, u, b, i - 1) + u[i - 1] * m[i - 1][b]
  }

  lemma {:induction false} FormColumn(m: Matrix, u: Vec, v: Vec, i: nat, j: nat)
    requires |u| == |v| && IsSquare(m, |u|) && i <= |u| && 0 < j <= |u|
    ensures Form(m, u, v, i, j) == Form(m, u, v, i, j - 1) + Column(m, u, j - 1, i) * v[j - 1]
  {
    if i == 0 {
      assert 0.0 * v[j - 1] == 0.0;
    } else {
      FormColumn(m, u, v, i - 1, j);
      var p, e, x := PDot(m[i - 1], v, j - 1), m[i - 1][j - 1], v[j - 1];
      Distribute(u[i - 1], p, e * x);
      Expand(Column(m, u, j - 1, i - 1), u[i - 1], e, x);
    }
  }

  lemma {:induction false} ColumnIsRow(m: Matrix, u: Vec, b: nat, i: nat)
    requires IsSquare(m, |u|) && IsSymmetric(m, |u|) && b < |u| && i <= |u|
    ensures Column(m, u, b, i) == PDot(m[b], u, i)
  {
    if i > 0 {
      ColumnIsRow(m, u, b, i - 1);
      assert u[i - 1] * m[i - 1][b] == m[b][i - 1] * u[i - 1];
    }
  }

  lemma {:induction false} FormEmpty(m: Matrix, u: Vec, v: Vec, i: nat)
    requires |u| == |v| && IsSquare(m, |u|) && i <= |u|
    ensures Form(m, u, v, i, 0) == 0.0
  {
    if i > 0 {
      FormEmpty(m, u, v, i - 1);
      assert u[i - 1] * 0.0 == 0.0;
    }
  }

  lemma {:induction false} FormSwap(m: Matrix, u: Vec, v: Vec, i: nat, j: nat)
    requires |u| == |v| && IsSquare(m, |u|) && IsSymmetric(m, |u|) && i <= |u| && j <= |u|
    ensures Form(m, u, v, i, j) == Form(m, v, u, j, i)
  {
    if j == 0 {
      FormEmpty(m, u, v, i);
    } else {
      FormSwap(m, u, v, i, j - 1);
      FormColumn(m, u, v, i, j);
      ColumnIsRow(m, u, j - 1, i);
    }
  }

  /** A symmetric matrix can be moved from one side of an inner product to the other. */
  lemma Adjoint(m: Matrix, u: Vec, v: Vec)
    requires |u| == |v| && IsSquare(m, |u|) && IsSymmetric(m, |u|)
    ensures Dot(u, MatVec(m, v)) == Dot(MatVec(m, u), v)
  {
    hide PDot, Form;
    FormIsDot(m, u, v, |u|);
    FormIsDot(m, v, u, |u|);
    FormSwap(m, u, v, |u|, |u|);
    DotSym(MatVec(m, u), v);
  }
}
