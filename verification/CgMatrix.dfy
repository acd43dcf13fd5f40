/** The matrix that the generator assembles, seen by the solver: its quadratic form, when it is
    positive definite, and what the solver then comes to on it. */
module CgMatrix {
  import opened SparseRows
  import opened SparseModel
  import opened SparseAssembly
  import opened SparseVectors
  import Vectors
  import opened CgRun
  import opened CgResults
  import opened ConjGrad

  type Vec = Vectors.Vec

  /** A sparse vector in full. */
  ghost function Full(v: SparseVec, n: nat): (w: Vec)
    requires |v.cols| == |v.vals|
    ensures |w| == n
  {
    seq(n, k => Component(v, k))
  }

  ghost predicate AllPaired(vs: seq<SparseVec>) {
    forall l :: 0 <= l < |vs| ==> |vs[l].cols| == |vs[l].vals|
  }

  /** Row `j` of the matrix, of the first `i` vectors. */
  ghost function MatrixRow(vs: seq<SparseVec>, ratio: real, diag: real, i: nat, j: nat, n: nat): (w: Vec)
    requires i <= |vs| && AllPaired(vs)
    ensures |w| == n
  {
    seq(n, k => OuterSum(vs, ratio, i, j, k) + if j == k then diag else 0.0)
  }

  /** The quadratic form that the first `i` vectors and the diagonal term define. */
  ghost function Quadratic(vs: seq<SparseVec>, ratio: real, diag: real, i: nat, x: Vec): real
    requires i <= |vs| && AllPaired(vs)
  {
    if i == 0 then diag * Vectors.Dot(x, x)
    else Quadratic(vs, ratio, diag, i - 1, x) + Square(vs, ratio, i - 1, x)
  }

  /** What the product with the matrix takes of vector `l`. */
  ghost function Coefficient(vs: seq<SparseVec>, ratio: real, l: nat, x: Vec): real
    requires l < |vs| && AllPaired(vs)
  {
    Power(ratio, l) * Vectors.Dot(Full(vs[l], |x|), x)
  }

  /** The product with the matrix, vector by vector. */
  ghost function Spread(vs: seq<SparseVec>, ratio: real, diag: real, i: nat, x: Vec): (w: Vec)
    requires i <= |vs| && AllPaired(vs)
    ensures |w| == |x|
  {
    if i == 0 then Vectors.Add(Vectors.Zero(|x|), diag, x)
    else Vectors.Add(Spread(vs, ratio, diag, i - 1, x), Coefficient(vs, ratio, i - 1, x), Full(vs[i - 1], |x|))
  }

  /** What vector `l` adds to a component of row `j`, per component of the vector. */
  ghost function Scaled(vs: seq<SparseVec>, ratio: real, l: nat, j: nat): real
    requires l < |vs| && AllPaired(vs)
  {
    Power(ratio, l) * Component(vs[l], j)
  }

  lemma RowGrows(vs: seq<SparseVec>, ratio: real, diag: real, i: nat, j: nat, n: nat)
    requires 0 < i <= |vs| && AllPaired(vs) && j < n
    ensures MatrixRow(vs, ratio, diag, i, j, n)
         == Vectors.Add(MatrixRow(vs, ratio, diag, i - 1, j, n), Scaled(vs, ratio, i - 1, j), Full(vs[i - 1], n))
  {
    hide Component;
    var v := Full(vs[i - 1], n);
    var row, rest := MatrixRow(vs, ratio, diag, i, j, n), MatrixRow(vs, ratio, diag, i - 1, j, n);
    var next := Vectors.Add(rest, Scaled(vs, ratio, i - 1, j), v);
    forall k | 0 <= k < n ensures row[k] == next[k] {
      OuterStep(vs, ratio, i, j, k);
    }
    assert row == next;
  }

  lemma OuterStep(vs: seq<SparseVec>, ratio: real, i: nat, j: nat, k: nat)
    requires 0 < i <= |vs| && AllPaired(vs)
    ensures OuterSum(vs, ratio, i, j, k)
         == OuterSum(vs, ratio, i - 1, j, k) + Scaled(vs, ratio, i - 1, j) * Component(vs[i - 1], k)
  {
    hide Component;
  }

  lemma FirstRow(vs: seq<SparseVec>, ratio: real, diag: real, j: nat, n: nat)
    requires AllPaired(vs) && j < n
    ensures MatrixRow(vs, ratio, diag, 0, j, n) == Vectors.Add(Vectors.Zero(n), diag, Unit(n, j))
  {
  }

  lemma Reorder(p: real, c: real, d: real)
    ensures p * c * d == (p * d) * c
  {
    assert p * c * d == p * (c * d) == p * (d * c) == (p * d) * c;
  }

  /** A row against a vector is the component of the product. */
  lemma {:induction false} RowDot(vs: seq<SparseVec>, ratio: real, diag: real, i: nat, j: nat, x: Vec)
    requires i <= |vs| && AllPaired(vs) && j < |x|
    ensures Vectors.Dot(MatrixRow(vs, ratio, diag, i, j, |x|), x) == Spread(vs, ratio, diag, i, x)[j]
  {
    hide Component, MatrixRow, Vectors.Dot, Full, Scaled, Coefficient;
    var n := |x|;
    if i == 0 {
      FirstRow(vs, ratio, diag, j, n);
      Vectors.DotAdd(Vectors.Zero(n), diag, Unit(n, j), x);
      Vectors.DotZero(x);
      UnitAgainst(n, j, x);
    } else {
      RowDot(vs, ratio, diag, i - 1, j, x);
      RowGrows(vs, ratio, diag, i, j, n);
      var v := Full(vs[i - 1], n);
      Vectors.DotAdd(MatrixRow(vs, ratio, diag, i - 1, j, n), Scaled(vs, ratio, i - 1, j), v, x);
      SameShare(vs, ratio, i - 1, j, x);
    }
  }

  /** What a vector adds to a component of the product, reckoned either way. */
  lemma SameShare(vs: seq<SparseVec>, ratio: real, l: nat, j: nat, x: Vec)
    requires l < |vs| && AllPaired(vs) && j < |x|
    ensures var v := Full(vs[l], |x|);
            Scaled(vs, ratio, l, j) * Vectors.Dot(v, x) == Coefficient(vs, ratio, l, x) * v[j]
  {
    var v := Full(vs[l], |x|);
    Reorder(Power(ratio, l), v[j], Vectors.Dot(v, x));
  }

  lemma UnitAgainst(n: nat, j: nat, x: Vec)
    requires j < n == |x|
    ensures Vectors.Dot(Unit(n, j), x) == x[j]
  {
    UnitDot(n, j, x, n);
  }

  lemma {:induction false} SpreadDot(vs: seq<SparseVec>, ratio: real, diag: real, i: nat, x: Vec)
    requires i <= |vs| && AllPaired(vs)
    ensures Vectors.Dot(x, Spread(vs, ratio, diag, i, x)) == Quadratic(vs, ratio, diag, i, x)
  {
    hide Component, Vectors.Dot, Full, Vectors.Add, Coefficient, Square;
    var n := |x|;
    if i == 0 {
      Vectors.DotAdd(Vectors.Zero(n), diag, x, x);
      Vectors.DotZero(x);
    } else {
      SpreadDot(vs, ratio, diag, i - 1, x);
      var v := Full(vs[i - 1], n);
      Vectors.DotAdd(Spread(vs, ratio, diag, i - 1, x), Coefficient(vs, ratio, i - 1, x), v, x);
      SquareShare(vs, ratio, i - 1, x);
      var rest, c := Spread(vs, ratio, diag, i - 1, x), Coefficient(vs, ratio, i - 1, x);
      assert Spread(vs, ratio, diag, i, x) == Vectors.Add(rest, c, v);
      assert Vectors.Dot(x, Vectors.Add(rest, c, v)) == Vectors.Dot(x, rest) + c * Vectors.Dot(x, v);
      assert c * Vectors.Dot(x, v) == Square(vs, ratio, i - 1, x);
    }
  }

  ghost function Square(vs: seq<SparseVec>, ratio: real, l: nat, x: Vec): real
    requires l < |vs| && AllPaired(vs)
  {
    var d := Vectors.Dot(Full(vs[l], |x|), x);
    Power(ratio, l) * (d * d)
  }

  lemma SquareShare(vs: seq<SparseVec>, ratio: real, l: nat, x: Vec)
    requires l < |vs| && AllPaired(vs)
    ensures Coefficient(vs, ratio, l, x) * Vectors.Dot(x, Full(vs[l], |x|)) == Square(vs, ratio, l, x)
  {
    Vectors.DotSym(x, Full(vs[l], |x|));
    var d := Vectors.Dot(Full(vs[l], |x|), x);
    Vectors.Assoc(Power(ratio, l), d, d);
  }

  /** The assembled matrix has the quadratic form of the vectors: for every `x`, the sum of the
      squares of its inner products with them, scaled, and the diagonal term times its own
      square. */
  lemma QuadraticForm(a: seq<real>, c: seq<int>, rowstr: seq<int>, vs: seq<SparseVec>, ratio: real, diag: real, x: Vec)
    requires VecsOk(vs, |vs|) && HoldsMatrix(a, c, rowstr, vs, ratio, diag) && |x| == |vs|
    ensures AllPaired(vs) && Curvature(Dense(a, c, rowstr, |vs|), x) == Quadratic(vs, ratio, diag, |vs|, x)
  {
    var n := |vs|;
    Paired(vs);
    hide Component, Vectors.Dot, OuterSum, VecOk, IsCsr, CsrEntry;
    var m := Dense(a, c, rowstr, n);
    var w := Spread(vs, ratio, diag, n, x);
    forall j | 0 <= j < n ensures Vectors.MatVec(m, x)[j] == w[j] {
      DenseRowIs(a, c, rowstr, vs, ratio, diag, j);
      RowDot(vs, ratio, diag, n, j, x);
    }
    assert Vectors.MatVec(m, x) == w;
    SpreadDot(vs, ratio, diag, n, x);
  }

  lemma Paired(vs: seq<SparseVec>)
    requires VecsOk(vs, |vs|)
    ensures AllPaired(vs)
  {
  }

  lemma DenseRowIs(a: seq<real>, c: seq<int>, rowstr: seq<int>, vs: seq<SparseVec>, ratio: real, diag: real, j: nat)
    requires VecsOk(vs, |vs|) && HoldsMatrix(a, c, rowstr, vs, ratio, diag) && j < |vs| && AllPaired(vs)
    ensures Dense(a, c, rowstr, |vs|)[j] == MatrixRow(vs, ratio, diag, |vs|, j, |vs|)
  {
    hide Component, OuterSum, VecOk, IsCsr, CsrEntry, Dense;
    forall k | 0 <= k < |vs|
      ensures Dense(a, c, rowstr, |vs|)[j][k] == MatrixRow(vs, ratio, diag, |vs|, j, |vs|)[k]
    {
      EntryOf(a, c, rowstr, |vs|, j, k);
      assert CsrEntry(a, c, rowstr, |vs|, j, k) == Matrix(vs, ratio, diag, j, k);
    }
  }

  // ----- positive definite -----

  lemma {:induction false} PowerPositive(x: real, i: nat)
    requires x >= 0.0
    ensures Power(x, i) >= 0.0
  {
    if i > 0 {
      PowerPositive(x, i - 1);
      NotNegative(Power(x, i - 1), x);
    }
  }

  lemma NotNegative(a: real, b: real)
    requires a >= 0.0 && b >= 0.0
    ensures a * b >= 0.0
  {
  }

  lemma SquareNotNegative(vs: seq<SparseVec>, ratio: real, l: nat, x: Vec)
    requires l < |vs| && AllPaired(vs) && ratio >= 0.0
    ensures Square(vs, ratio, l, x) >= 0.0
  {
    hide Vectors.Dot, Full;
    var d := Vectors.Dot(Full(vs[l], |x|), x);
    PowerPositive(ratio, l);
    Vectors.SquarePositive(d);
    NotNegative(Power(ratio, l), d * d);
  }

  lemma {:induction false} QuadraticAbove(vs: seq<SparseVec>, ratio: real, diag: real, i: nat, x: Vec)
    requires i <= |vs| && AllPaired(vs) && ratio >= 0.0
    ensures Quadratic(vs, ratio, diag, i, x) >= diag * Vectors.Dot(x, x)
  {
    hide Square;
    if i > 0 {
      QuadraticAbove(vs, ratio, diag, i - 1, x);
      SquareNotNegative(vs, ratio, i - 1, x);
    }
  }

  /** With a positive diagonal term and a ratio that is not negative the assembled matrix is
      positive definite. */
  lemma MatrixDefinite(a: seq<real>, c: seq<int>, rowstr: seq<int>, vs: seq<SparseVec>, ratio: real, diag: real)
    requires VecsOk(vs, |vs|) && HoldsMatrix(a, c, rowstr, vs, ratio, diag) && ratio >= 0.0 && diag > 0.0
    ensures Definite(Dense(a, c, rowstr, |vs|), |vs|)
  {
    var m := Dense(a, c, rowstr, |vs|);
    hide HoldsMatrix, VecsOk, Quadratic, Curvature, Vectors.Dot, Dense;
    forall x: Vec | |x| == |vs| && x != Vectors.Zero(|vs|) ensures Curvature(m, x) > 0.0 {
      QuadraticForm(a, c, rowstr, vs, ratio, diag, x);
      QuadraticAbove(vs, ratio, diag, |vs|, x);
      Vectors.DotPositive(x);
      Positive(diag, Vectors.Dot(x, x));
    }
  }

  lemma Positive(a: real, b: real)
    requires a > 0.0 && b > 0.0
    ensures a * b > 0.0
  {
  }

  /** Generate the matrix and solve for the vector of ones, as the program does.  If the
      diagonal term is positive, the solver breaks off only with the solution. */
  method GenerateAndSolve(n: nat, nonzer: nat, draws: seq<Draw>, ratio: real, rcond: real, shift: real)
    returns (done: bool, ok: bool, a: array<real>, colidx: array<int>, rowstr: array<int>, z: array<real>,
             ghost vs: seq<SparseVec>)
    requires InUnit(draws)
    ensures done ==> |vs| == n && VecsOk(vs, n) && HoldsMatrix(a[..], colidx[..], rowstr[..], vs, ratio, rcond - shift)
    ensures done ==> IsCsr(a[..], colidx[..], rowstr[..], n) && z.Length == n + 1
    ensures done && ok ==> n >= 25
    ensures done && !ok && ratio >= 0.0 && rcond > shift ==>
              Vectors.MatVec(Dense(a[..], colidx[..], rowstr[..], n), z[..n]) == seq(n, _ => 1.0)
  {
    hide HoldsMatrix, VecsOk, Dense, IsCsr, Symmetric, IsRun, CanStep, InTurn, Generates, Kept, IsPowerAbove, Definite,
         Vectors.MatVec;
    var slots := n * ((nonzer + 1) * (nonzer + 1));
    a, colidx, rowstr := new real[slots], new int[slots], new int[n + 1];
    var iv := new int[n];
    var x, p, q, r := new real[n + 1](_ => 1.0), new real[n + 1], new real[n + 1], new real[n + 1];
    z := new real[n + 1];
    ghost var nn1, cuts;
    done, ok, vs, nn1, cuts := MakeA(n, nonzer, a, colidx, rowstr, iv, draws, ratio, rcond, shift);
    if done {
      assert x[..n] == seq(n, _ => 1.0);
      var sum;
      ghost var run;
      ok, sum, run := Solve(colidx, rowstr, x, z, a, p, q, r, n);
      if !ok && ratio >= 0.0 && rcond > shift {
        MatrixDefinite(a[..], colidx[..], rowstr[..], vs, ratio, rcond - shift);
        DenseSymmetric(a[..], colidx[..], rowstr[..], n);
        HaltIsSolved(Dense(a[..], colidx[..], rowstr[..], n), x[..n], run);
      }
    }
  }
}
