/** What the orthogonality along a run is good for: the iteration ends after at most
    as many steps as there are unknowns, every approximation is the best one in the
    space searched so far, and on a positive definite matrix it can only come to a
    halt at the solution. */
module CgResults {
  import opened Vectors
  import opened CgRun

  // ----- no more steps than unknowns -----

  ghost function Unit(n: nat, j: nat): Vec {
    seq(n, i => if i == j then 1.0 else 0.0)
  }

  lemma {:induction false} UnitDot(n: nat, j: nat, v: Vec, k: nat)
    requires j < n == |v| && k <= n
    ensures PDot(Unit(n, j), v, k) == if j < k then v[j] else 0.0
  {
    if k > 0 {
      UnitDot(n, j, v, k - 1);
      assert Unit(n, j)[k - 1] * v[k - 1] == if k - 1 == j then v[j] else 0.0;
    }
  }

  ghost predicate Nonzero(run: seq<Point>, n: nat, k: nat) {
    k <= |run| && forall i :: 0 <= i < k ==> Sized(run[i], n) && Dot(run[i].r, run[i].r) != 0.0
  }

  ghost predicate Orthogonal(run: seq<Point>, n: nat, k: nat)
    requires Nonzero(run, n, k)
  {
    forall i, j :: 0 <= i < j < k ==> Dot(run[i].r, run[j].r) == 0.0
  }

  /** The share of unit vector `j` along residual `i`. */
  ghost function Part(run: seq<Point>, n: nat, k: nat, j: nat, i: nat): real
    requires Nonzero(run, n, k) && i < k && j < n
  {
    run[i].r[j] / Dot(run[i].r, run[i].r)
  }

  /** Unit vector `j` without its shares along the first `i` residuals. */
  ghost function Rest(run: seq<Point>, n: nat, k: nat, j: nat, i: nat): (w: Vec)
    requires Nonzero(run, n, k) && i <= k && j < n
    ensures |w| == n
  {
    if i == 0 then Unit(n, j) else Add(Rest(run, n, k, j, i - 1), -Part(run, n, k, j, i - 1), run[i - 1].r)
  }

  lemma {:induction false} RestAgainst(run: seq<Point>, n: nat, k: nat, j: nat, i: nat, l: nat)
    requires Nonzero(run, n, k) && Orthogonal(run, n, k) && i <= l < k && j < n
    ensures Dot(Rest(run, n, k, j, i), run[l].r) == run[l].r[j]
  {
    hide Part, Add;
    if i == 0 {
      UnitDot(n, j, run[l].r, n);
    } else {
      hide Dot;
      RestAgainst(run, n, k, j, i - 1, l);
      DotAdd(Rest(run, n, k, j, i - 1), -Part(run, n, k, j, i - 1), run[i - 1].r, run[l].r);
      TimesZero(-Part(run, n, k, j, i - 1));
    }
  }

  /** What the first `i` residuals take away from the length of unit vector `j`. */
  ghost function Taken(run: seq<Point>, n: nat, k: nat, j: nat, i: nat): real
    requires Nonzero(run, n, k) && i <= k && j < n
  {
    if i == 0 then 0.0 else Taken(run, n, k, j, i - 1) + Part(run, n, k, j, i - 1) * run[i - 1].r[j]
  }

  lemma {:induction false} RestLength(run: seq<Point>, n: nat, k: nat, j: nat, i: nat)
    requires Nonzero(run, n, k) && Orthogonal(run, n, k) && i <= k && j < n
    ensures Dot(Rest(run, n, k, j, i), Rest(run, n, k, j, i)) == 1.0 - Taken(run, n, k, j, i)
  {
    hide Add, Orthogonal, Dot;
    if i == 0 {
      UnitLength(n, j);
    } else {
      RestLength(run, n, k, j, i - 1);
      RestAgainst(run, n, k, j, i - 1, i - 1);
      var w, r, c := Rest(run, n, k, j, i - 1), run[i - 1].r, Part(run, n, k, j, i - 1);
      Cancel(r[j], Dot(r, r));
      LengthAfter(w, c, r, r[j]);
    }
  }

  lemma UnitLength(n: nat, j: nat)
    requires j < n
    ensures Dot(Unit(n, j), Unit(n, j)) == 1.0
  {
    UnitDot(n, j, Unit(n, j), n);
  }

  /** Taking away a projection shortens a vector by the product of both lengths. */
  lemma LengthAfter(w: Vec, c: real, r: Vec, e: real)
    requires |w| == |r| && Dot(w, r) == e && c * Dot(r, r) == e
    ensures Dot(Add(w, -c, r), Add(w, -c, r)) == Dot(w, w) - c * e
  {
    hide Dot, Add;
    var v := Add(w, -c, r);
    DotAdd(w, -c, r, v);
    DotAdd(w, -c, r, w);
    DotAdd(w, -c, r, r);
    DotSym(w, r);
    Negate(c, e);
    Negate(c, Dot(r, r));
    Negate(c, Dot(r, v));
    assert Dot(r, v) == 0.0;
    TimesZero(c);
  }

  /** No unit vector gives away more than its length. */
  lemma TakenBound(run: seq<Point>, n: nat, k: nat, j: nat, i: nat)
    requires Nonzero(run, n, k) && Orthogonal(run, n, k) && i <= k && j < n
    ensures Taken(run, n, k, j, i) <= 1.0
  {
    hide Dot, Taken, Orthogonal;
    RestLength(run, n, k, j, i);
    DotPositive(Rest(run, n, k, j, i));
  }

  /** What the first `i` residuals take away from the first `j` unit vectors. */
  ghost function AllTaken(run: seq<Point>, n: nat, k: nat, j: nat, i: nat): real
    requires Nonzero(run, n, k) && i <= k && j <= n
  {
    if j == 0 then 0.0 else AllTaken(run, n, k, j - 1, i) + Taken(run, n, k, j - 1, i)
  }

  lemma {:induction false} AllTakenBound(run: seq<Point>, n: nat, k: nat, j: nat, i: nat)
    requires Nonzero(run, n, k) && Orthogonal(run, n, k) && i <= k && j <= n
    ensures AllTaken(run, n, k, j, i) <= j as real
  {
    hide Taken, Orthogonal;
    if j > 0 {
      AllTakenBound(run, n, k, j - 1, i);
      TakenBound(run, n, k, j - 1, i);
    }
  }

  /** The part of a residual's length in its first `j` components. */
  ghost function Fraction(r: Vec, j: nat): real
    requires j <= |r| && Dot(r, r) != 0.0
  {
    PDot(r, r, j) / Dot(r, r)
  }

  lemma {:induction false} AllTakenStep(run: seq<Point>, n: nat, k: nat, j: nat, i: nat)
    requires Nonzero(run, n, k) && 0 < i <= k && j <= n
    ensures AllTaken(run, n, k, j, i) == AllTaken(run, n, k, j, i - 1) + Fraction(run[i - 1].r, j)
  {
    hide Dot;
    var r := run[i - 1].r;
    if j > 0 {
      AllTakenStep(run, n, k, j - 1, i);
      FractionStep(r, j);
    } else {
      assert 0.0 / Dot(r, r) == 0.0;
    }
  }

  lemma FractionStep(r: Vec, j: nat)
    requires 0 < j <= |r| && Dot(r, r) != 0.0
    ensures Fraction(r, j) == Fraction(r, j - 1) + r[j - 1] / Dot(r, r) * r[j - 1]
  {
    hide Dot;
    var rho, e := Dot(r, r), r[j - 1];
    DivideSum(PDot(r, r, j - 1), e * e, rho);
    DivideProduct(e, e, rho);
  }

  lemma DivideSum(a: real, b: real, c: real)
    requires c != 0.0
    ensures (a + b) / c == a / c + b / c
  {
  }

  lemma DivideProduct(a: real, b: real, c: real)
    requires c != 0.0
    ensures a * b / c == a / c * b
  {
    var q := a / c;
    assert a == q * c;
    assert q * c * b == q * b * c;
    assert q * b * c / c == q * b;
  }

  /** Each residual takes away a length of one in all. */
  lemma {:induction false} AllTakenIsCount(run: seq<Point>, n: nat, k: nat, i: nat)
    requires Nonzero(run, n, k) && i <= k
    ensures AllTaken(run, n, k, n, i) == i as real
  {
    hide Dot;
    if i == 0 {
      NothingTaken(run, n, k, n);
    } else {
      AllTakenIsCount(run, n, k, i - 1);
      AllTakenStep(run, n, k, n, i);
      WholeFraction(run[i - 1].r);
    }
  }

  lemma {:induction false} NothingTaken(run: seq<Point>, n: nat, k: nat, j: nat)
    requires Nonzero(run, n, k) && j <= n
    ensures AllTaken(run, n, k, j, 0) == 0.0
  {
    if j > 0 {
      NothingTaken(run, n, k, j - 1);
    }
  }

  lemma WholeFraction(r: Vec)
    requires Dot(r, r) != 0.0
    ensures Fraction(r, |r|) == 1.0
  {
  }

  /** The iteration cannot make more steps than there are unknowns. */
  lemma AtMostDimension(m: Matrix, x: Vec, run: seq<Point>)
    requires IsSquare(m, |x|) && IsSymmetric(m, |x|) && IsRun(m, x, run)
    ensures |run| - 1 <= |x|
  {
    hide Dot, MatVec, Alpha, Curvature, Add, AllTaken;
    var n, k := |x|, |run| - 1;
    forall i | 0 <= i < k ensures Sized(run[i], n) && Dot(run[i].r, run[i].r) != 0.0 {
      assert IsStep(m, run[i], run[i + 1], n);
    }
    Orthogonality(m, x, run, k);
    forall i, j | 0 <= i < j < k ensures Dot(run[i].r, run[j].r) == 0.0 {
      assert Conjugate(m, run[i], run[j], n);
      DotSym(run[i].r, run[j].r);
    }
    AllTakenIsCount(run, n, k, k);
    AllTakenBound(run, n, k, n, k);
  }

  // ----- the best approximation so far -----

  /** Twice the energy of an approximation: its minimum is the solution. */
  ghost function Energy(m: Matrix, x: Vec, z: Vec): real
    requires |x| == |z| && IsSquare(m, |x|)
  {
    Dot(z, MatVec(m, z)) - 2.0 * Dot(x, z)
  }

  ghost predicate Semidefinite(m: Matrix, n: nat)
    requires IsSquare(m, n)
  {
    forall v: Vec :: |v| == n ==> Curvature(m, v) >= 0.0
  }

  /** The combination of the first `k` directions with the coefficients `c`. */
  ghost function Combination(run: seq<Point>, n: nat, c: seq<real>, k: nat): (w: Vec)
    requires k <= |run| && k <= |c| && forall i :: 0 <= i < |run| ==> Sized(run[i], n)
    ensures |w| == n
  {
    if k == 0 then Zero(n) else Add(Combination(run, n, c, k - 1), c[k - 1], run[k - 1].p)
  }

  lemma {:induction false} ResidualAgainstCombination(m: Matrix, x: Vec, run: seq<Point>, c: seq<real>, i: nat, k: nat)
    requires IsSquare(m, |x|) && IsSymmetric(m, |x|) && IsRun(m, x, run) && i <= k < |run| && k <= |c|
    requires forall l :: 0 <= l < |run| ==> Sized(run[l], |x|)
    ensures Dot(run[k].r, Combination(run, |x|, c, i)) == 0.0
  {
    hide Dot, MatVec, IsRun, Add;
    if i == 0 {
      DotZero(run[k].r);
    } else {
      ResidualAgainstCombination(m, x, run, c, i - 1, k);
      Orthogonality(m, x, run, k);
      assert Conjugate(m, run[i - 1], run[k], |x|);
      DotAdd(Combination(run, |x|, c, i - 1), c[i - 1], run[i - 1].p, run[k].r);
      TimesZero(c[i - 1]);
    }
  }

  /** Moving from `z` by `w`, which is orthogonal to the residual, adds the curvature. */
  lemma EnergyMoved(m: Matrix, x: Vec, z: Vec, w: Vec)
    requires |x| == |z| == |w| && IsSquare(m, |x|) && IsSymmetric(m, |x|)
    requires Dot(Residual(m, x, z), w) == 0.0
    ensures Energy(m, x, Add(z, 1.0, w)) == Energy(m, x, z) + Curvature(m, w)
  {
    hide Dot, MatVec, Add;
    var mz, mw := MatVec(m, z), MatVec(m, w);
    MatVecAdd(m, z, 1.0, w);
    DotAdd(z, 1.0, w, Add(mz, 1.0, mw));
    DotAdd(mz, 1.0, mw, z);
    DotAdd(mz, 1.0, mw, w);
    DotAdd(z, 1.0, w, x);
    DotAdd(x, -1.0, mz, w);
    Adjoint(m, z, w);
    DotSym(mz, w);
    DotSym(x, w);
  }

  /** The combination that differs from approximation `k` by another combination. */
  lemma {:induction false} Difference(m: Matrix, x: Vec, run: seq<Point>, c: seq<real>, k: nat) returns (d: seq<real>)
    requires IsSquare(m, |x|) && IsRun(m, x, run) && k < |run| && k <= |c|
    requires forall l :: 0 <= l < |run| ==> Sized(run[l], |x|)
    ensures |d| == k && Combination(run, |x|, c, k) == Add(run[k].z, 1.0, Combination(run, |x|, d, k))
  {
    hide Dot, MatVec, Alpha, Curvature, Add;
    if k == 0 {
      d := [];
      NothingAdded(|x|);
    } else {
      var e := Difference(m, x, run, c, k - 1);
      var s := run[k - 1];
      assert IsStep(m, s, run[k - 1 + 1], |x|);
      hide IsRun;
      d := e + [c[k - 1] - Alpha(m, s, |x|)];
      SamePrefix(run, |x|, d, e, k - 1);
      Regroup(s.z, Combination(run, |x|, e, k - 1), c[k - 1], Alpha(m, s, |x|), s.p);
    }
  }

  lemma NothingAdded(n: nat)
    ensures Add(Zero(n), 1.0, Zero(n)) == Zero(n)
  {
  }

  lemma {:induction false} SamePrefix(run: seq<Point>, n: nat, c: seq<real>, d: seq<real>, k: nat)
    requires k <= |run| && k <= |c| && k <= |d| && forall i :: 0 <= i < |run| ==> Sized(run[i], n)
    requires forall i :: 0 <= i < k ==> c[i] == d[i]
    ensures Combination(run, n, c, k) == Combination(run, n, d, k)
  {
    if k > 0 {
      SamePrefix(run, n, c, d, k - 1);
    }
  }

  lemma Regroup(z: Vec, w: Vec, c: real, alpha: real, p: Vec)
    requires |z| == |w| == |p|
    ensures Add(Add(z, 1.0, w), c, p) == Add(Add(z, alpha, p), 1.0, Add(w, c - alpha, p))
  {
    forall i | 0 <= i < |z|
      ensures Add(Add(z, 1.0, w), c, p)[i] == Add(Add(z, alpha, p), 1.0, Add(w, c - alpha, p))[i]
    {
      Split(c, alpha, p[i]);
    }
  }

  lemma Split(c: real, a: real, p: real)
    ensures (c - a) * p == c * p - a * p
  {
  }

  /** No combination of the directions searched so far has less energy than the
      approximation. */
  lemma BestSoFar(m: Matrix, x: Vec, run: seq<Point>, c: seq<real>, k: nat)
    requires IsSquare(m, |x|) && IsSymmetric(m, |x|) && Semidefinite(m, |x|) && IsRun(m, x, run) && k < |run| &&
             k <= |c|
    requires forall l :: 0 <= l < |run| ==> Sized(run[l], |x|)
    ensures Sized(run[k], |x|) && Energy(m, x, run[k].z) <= Energy(m, x, Combination(run, |x|, c, k))
  {
    hide Dot, MatVec, IsRun, Curvature, Energy, Combination, Residual;
    var d := Difference(m, x, run, c, k);
    var w := Combination(run, |x|, d, k);
    ResidualAgainstCombination(m, x, run, d, k, k);
    ResidualIsTrue(m, x, run, k);
    EnergyMoved(m, x, run[k].z, w);
  }

  // ----- a halt is the solution -----

  ghost predicate Definite(m: Matrix, n: nat)
    requires IsSquare(m, n)
  {
    forall v: Vec :: |v| == n && v != Zero(n) ==> Curvature(m, v) > 0.0
  }

  lemma NoResidual(m: Matrix, x: Vec, z: Vec)
    requires |x| == |z| && IsSquare(m, |x|) && Residual(m, x, z) == Zero(|x|)
    ensures MatVec(m, z) == x
  {
    hide Dot;
    forall i | 0 <= i < |x| ensures MatVec(m, z)[i] == x[i] {
      assert Residual(m, x, z)[i] == 0.0;
    }
  }

  /** On a positive definite matrix a zero divisor comes up only when the system has
      been solved. */
  lemma HaltIsSolved(m: Matrix, x: Vec, run: seq<Point>)
    requires IsSquare(m, |x|) && IsSymmetric(m, |x|) && Definite(m, |x|) && |run| > 0 && IsRun(m, x, run)
    requires !CanStep(m, run[|run| - 1], |x|)
    ensures Sized(run[|run| - 1], |x|) && MatVec(m, run[|run| - 1].z) == x
  {
    hide Dot, MatVec, IsRun, Curvature, Residual;
    var k := |run| - 1;
    var s := run[k];
    RunSized(m, x, run, k);
    ResidualIsTrue(m, x, run, k);
    DirectionMeetsResidual(m, x, run, k);
    DotPositive(s.r);
    if s.p == Zero(|x|) {
      DotZero(s.r);
    }
    NoResidual(m, x, s.z);
  }
}
