/** The conjugate gradient recurrence in exact arithmetic, and what holds along every
    run of it on a symmetric matrix. */
module CgRun {
  import opened Vectors

  /** Approximation, residual and search direction. */
  datatype Point = Point(z: Vec, r: Vec, p: Vec)

  ghost predicate Sized(s: Point, n: nat) {
    |s.z| == |s.r| == |s.p| == n
  }

  /** The curvature of the matrix along a direction. */
  ghost function Curvature(m: Matrix, p: Vec): real
    requires IsSquare(m, |p|)
  {
    Dot(p, MatVec(m, p))
  }

  /** Neither division of the next iteration has a zero divisor. */
  ghost predicate CanStep(m: Matrix, s: Point, n: nat)
    requires IsSquare(m, n)
  {
    Sized(s, n) && Dot(s.r, s.r) != 0.0 && Curvature(m, s.p) != 0.0
  }

  ghost function Alpha(m: Matrix, s: Point, n: nat): real
    requires IsSquare(m, n) && CanStep(m, s, n)
  {
    Dot(s.r, s.r) / Curvature(m, s.p)
  }

  ghost predicate IsStep(m: Matrix, s: Point, t: Point, n: nat)
    requires IsSquare(m, n)
  {
    && CanStep(m, s, n) && Sized(t, n)
    && t.z == Add(s.z, Alpha(m, s, n), s.p)
    && t.r == Add(s.r, -Alpha(m, s, n), MatVec(m, s.p))
    && t.p == Add(t.r, Dot(t.r, t.r) / Dot(s.r, s.r), s.p)
  }

  /** The points that the iteration goes through for the right-hand side `x`. */
  ghost predicate IsRun(m: Matrix, x: Vec, run: seq<Point>)
    requires IsSquare(m, |x|)
  {
    && |run| > 0 && run[0] == Point(Zero(|x|), x, x)
    && forall i :: 0 <= i < |run| - 1 ==> IsStep(m, run[i], run[i + 1], |x|)
  }

  lemma RunSized(m: Matrix, x: Vec, run: seq<Point>, i: nat)
    requires IsSquare(m, |x|) && IsRun(m, x, run) && i < |run|
    ensures Sized(run[i], |x|)
  {
    hide Alpha, Curvature, Dot;
    if i > 0 {
      assert IsStep(m, run[i - 1], run[i - 1 + 1], |x|);
    }
  }

  // ----- one step -----

  /** The new residual against any vector. */
  lemma ResidualAgainst(m: Matrix, s: Point, t: Point, n: nat, w: Vec)
    requires IsSquare(m, n) && IsStep(m, s, t, n) && |w| == n
    ensures Dot(t.r, w) == Dot(s.r, w) - Alpha(m, s, n) * Dot(MatVec(m, s.p), w)
    ensures Dot(w, t.r) == Dot(w, s.r) - Alpha(m, s, n) * Dot(w, MatVec(m, s.p))
  {
    hide Alpha, Dot, MatVec, Add;
    DotAdd(s.r, -Alpha(m, s, n), MatVec(m, s.p), w);
  }

  /** The new direction against any vector. */
  lemma DirectionAgainst(m: Matrix, s: Point, t: Point, n: nat, w: Vec)
    requires IsSquare(m, n) && IsStep(m, s, t, n) && |w| == n
    ensures Dot(s.r, s.r) != 0.0
    ensures Dot(t.p, w) == Dot(t.r, w) + Dot(t.r, t.r) / Dot(s.r, s.r) * Dot(s.p, w)
    ensures Dot(w, t.p) == Dot(w, t.r) + Dot(t.r, t.r) / Dot(s.r, s.r) * Dot(w, s.p)
  {
    hide Alpha, Dot, MatVec, Add;
    DotAdd(t.r, Dot(t.r, t.r) / Dot(s.r, s.r), s.p, w);
  }

  lemma Cancel(a: real, b: real)
    requires b != 0.0
    ensures a / b * b == a
  {
  }

  lemma NonZero(a: real, b: real)
    requires a != 0.0 && b != 0.0
    ensures a / b != 0.0
  {
    Cancel(a, b);
  }

  lemma ZeroFactor(a: real, b: real)
    requires a != 0.0 && a * b == 0.0
    ensures b == 0.0
  {
  }

  lemma AlphaFacts(m: Matrix, s: Point, n: nat)
    requires IsSquare(m, n) && CanStep(m, s, n)
    ensures Alpha(m, s, n) != 0.0 && Alpha(m, s, n) * Curvature(m, s.p) == Dot(s.r, s.r)
  {
    hide Dot, MatVec;
    Cancel(Dot(s.r, s.r), Curvature(m, s.p));
    NonZero(Dot(s.r, s.r), Curvature(m, s.p));
  }

  // ----- the residual is the residual -----

  /** The residual of an approximation. */
  ghost function Residual(m: Matrix, x: Vec, z: Vec): (r: Vec)
    requires |x| == |z| && IsSquare(m, |x|)
    ensures |r| == |x|
  {
    Add(x, -1.0, MatVec(m, z))
  }

  /** The residual that is carried along is that of the approximation, at every point. */
  lemma {:induction false} ResidualIsTrue(m: Matrix, x: Vec, run: seq<Point>, i: nat)
    requires IsSquare(m, |x|) && IsRun(m, x, run) && i < |run|
    ensures Sized(run[i], |x|) && run[i].r == Residual(m, x, run[i].z)
  {
    hide Alpha, Dot, Curvature, MatVec;
    RunSized(m, x, run, i);
    if i == 0 {
      MatVecZero(m, |x|);
      MinusZero(x);
    } else {
      ResidualIsTrue(m, x, run, i - 1);
      var s, t := run[i - 1], run[i - 1 + 1];
      assert IsStep(m, s, t, |x|);
      MatVecAdd(m, s.z, Alpha(m, s, |x|), s.p);
      ResidualMoves(x, MatVec(m, s.z), Alpha(m, s, |x|), MatVec(m, s.p));
    }
  }

  lemma MinusZero(x: Vec)
    ensures Add(x, -1.0, Zero(|x|)) == x
  {
    assert -1.0 * 0.0 == 0.0;
  }

  lemma ResidualMoves(x: Vec, mz: Vec, alpha: real, mp: Vec)
    requires |x| == |mz| == |mp|
    ensures Add(Add(x, -1.0, mz), -alpha, mp) == Add(x, -1.0, Add(mz, alpha, mp))
  {
    forall i | 0 <= i < |x| ensures Add(Add(x, -1.0, mz), -alpha, mp)[i] == Add(x, -1.0, Add(mz, alpha, mp))[i] {
      Negate(alpha, mp[i]);
    }
  }

  lemma Negate(a: real, b: real)
    ensures (-a) * b == -(a * b)
  {
  }

  // ----- orthogonality and conjugacy -----

  /** An earlier and a later point: orthogonal residuals, conjugate directions, and the
      later residual orthogonal to the earlier direction. */
  ghost predicate Conjugate(m: Matrix, s: Point, t: Point, n: nat)
    requires IsSquare(m, n)
  {
    && Sized(s, n) && Sized(t, n)
    && Dot(t.r, s.r) == 0.0 && Dot(t.p, MatVec(m, s.p)) == 0.0 && Dot(t.r, s.p) == 0.0
  }

  ghost predicate AllConjugate(m: Matrix, run: seq<Point>, n: nat, k: nat)
    requires IsSquare(m, n) && k < |run|
  {
    forall i, j :: 0 <= i < j <= k ==> Conjugate(m, run[i], run[j], n)
  }

  /** Along a run, the matrix applied to the last direction meets the residuals only in
      the last one. */
  lemma FormAgainstResiduals(m: Matrix, x: Vec, run: seq<Point>, k: nat, i: nat)
    requires IsSquare(m, |x|) && IsSymmetric(m, |x|) && IsRun(m, x, run) && i <= k < |run|
    requires AllConjugate(m, run, |x|, k)
    ensures Sized(run[i], |x|) && Sized(run[k], |x|)
    ensures Dot(MatVec(m, run[k].p), run[i].r) == if i == k then Curvature(m, run[k].p) else 0.0
  {
    hide Dot, MatVec, Alpha, Add;
    RunSized(m, x, run, i);
    RunSized(m, x, run, k);
    var mp := MatVec(m, run[k].p);
    FormAgainstDirection(m, x, run, k, i);
    if i > 0 {
      var s, t := run[i - 1], run[i - 1 + 1];
      assert IsStep(m, s, t, |x|);
      RunSized(m, x, run, i - 1);
      DirectionAgainst(m, s, t, |x|, mp);
      FormAgainstDirection(m, x, run, k, i - 1);
      TimesZero(Dot(t.r, t.r) / Dot(s.r, s.r));
    }
  }

  lemma TimesZero(a: real)
    ensures a * 0.0 == 0.0
  {
  }

  lemma FormAgainstDirection(m: Matrix, x: Vec, run: seq<Point>, k: nat, i: nat)
    requires IsSquare(m, |x|) && IsSymmetric(m, |x|) && i <= k < |run|
    requires AllConjugate(m, run, |x|, k) && Sized(run[k], |x|) && Sized(run[i], |x|)
    ensures Dot(MatVec(m, run[k].p), run[i].p) == if i == k then Curvature(m, run[k].p) else 0.0
  {
    hide Dot, MatVec;
    Adjoint(m, run[k].p, run[i].p);
    if i == k {
      DotSym(run[k].p, MatVec(m, run[k].p));
    } else {
      assert Conjugate(m, run[i], run[k], |x|);
    }
  }

  /** The next residual is orthogonal to all residuals so far. */
  lemma NextResidual(m: Matrix, x: Vec, run: seq<Point>, k: nat, i: nat)
    requires IsSquare(m, |x|) && IsSymmetric(m, |x|) && IsRun(m, x, run) && i <= k < |run| - 1
    requires AllConjugate(m, run, |x|, k)
    ensures Sized(run[k + 1], |x|) && Sized(run[i], |x|) && Dot(run[k + 1].r, run[i].r) == 0.0
  {
    hide Dot, MatVec, Alpha, Add, Curvature;
    var s, t := run[k], run[k + 1];
    assert IsStep(m, s, t, |x|);
    FormAgainstResiduals(m, x, run, k, i);
    ResidualAgainst(m, s, t, |x|, run[i].r);
    AlphaFacts(m, s, |x|);
    TimesZero(Alpha(m, s, |x|));
    if i < k {
      assert Conjugate(m, run[i], run[k], |x|);
    }
  }

  /** The next residual is orthogonal to all directions so far. */
  lemma {:induction false} NextAgainstDirection(m: Matrix, x: Vec, run: seq<Point>, k: nat, i: nat)
    requires IsSquare(m, |x|) && IsSymmetric(m, |x|) && IsRun(m, x, run) && i <= k < |run| - 1
    requires AllConjugate(m, run, |x|, k)
    ensures Sized(run[k + 1], |x|) && Sized(run[i], |x|) && Dot(run[k + 1].r, run[i].p) == 0.0
  {
    hide Dot, MatVec, Alpha, Add, Curvature, AllConjugate;
    NextResidual(m, x, run, k, i);
    if i > 0 {
      var s, t := run[i - 1], run[i - 1 + 1];
      assert IsStep(m, s, t, |x|);
      NextAgainstDirection(m, x, run, k, i - 1);
      DirectionAgainst(m, s, t, |x|, run[k + 1].r);
      TimesZero(Dot(t.r, t.r) / Dot(s.r, s.r));
    }
  }

  /** The next residual against the matrix applied to a direction so far. */
  lemma NextAgainstForm(m: Matrix, x: Vec, run: seq<Point>, k: nat, i: nat)
    requires IsSquare(m, |x|) && IsSymmetric(m, |x|) && IsRun(m, x, run) && i <= k < |run| - 1
    requires AllConjugate(m, run, |x|, k)
    ensures Sized(run[k + 1], |x|) && Sized(run[i], |x|) && CanStep(m, run[i], |x|)
    ensures Alpha(m, run[i], |x|) * Dot(run[k + 1].r, MatVec(m, run[i].p))
         == if i == k then -Dot(run[k + 1].r, run[k + 1].r) else 0.0
  {
    hide Dot, MatVec, Alpha, Add, Curvature, AllConjugate;
    var s, t := run[i], run[i + 1];
    assert IsStep(m, s, t, |x|);
    NextResidual(m, x, run, k, i);
    ResidualAgainst(m, s, t, |x|, run[k + 1].r);
    if i < k {
      NextResidual(m, x, run, k, i + 1);
    }
  }

  /** The scalar identity behind the choice of the two step lengths. */
  lemma Balance(alpha: real, rho: real, rho': real, d: real, f: real)
    requires rho != 0.0 && alpha != 0.0 && alpha * d == rho && alpha * f == -rho'
    ensures f + rho' / rho * d == 0.0
  {
    var b := rho' / rho;
    Cancel(rho', rho);
    Reorder(alpha, b, d);
    Distribute(alpha, f, b * d);
    ZeroFactor(alpha, f + b * d);
  }

  lemma Reorder(a: real, b: real, c: real)
    ensures a * (b * c) == b * (a * c)
  {
  }

  /** The next direction is conjugate to all directions so far. */
  lemma NextDirection(m: Matrix, x: Vec, run: seq<Point>, k: nat, i: nat)
    requires IsSquare(m, |x|) && IsSymmetric(m, |x|) && IsRun(m, x, run) && i <= k < |run| - 1
    requires AllConjugate(m, run, |x|, k)
    ensures Sized(run[k + 1], |x|) && Sized(run[i], |x|) && Dot(run[k + 1].p, MatVec(m, run[i].p)) == 0.0
  {
    hide Dot, MatVec, Alpha, Add;
    var s, t := run[k], run[k + 1];
    assert IsStep(m, s, t, |x|);
    NextAgainstForm(m, x, run, k, i);
    AlphaFacts(m, run[i], |x|);
    var mp := MatVec(m, run[i].p);
    DirectionAgainst(m, s, t, |x|, mp);
    if i == k {
      Balance(Alpha(m, s, |x|), Dot(s.r, s.r), Dot(t.r, t.r), Curvature(m, s.p), Dot(t.r, mp));
    } else {
      assert Conjugate(m, run[i], run[k], |x|);
      ZeroFactor(Alpha(m, run[i], |x|), Dot(t.r, mp));
      TimesZero(Dot(t.r, t.r) / Dot(s.r, s.r));
    }
  }

  /** Along every run all residuals are orthogonal and all directions conjugate. */
  lemma {:induction false} Orthogonality(m: Matrix, x: Vec, run: seq<Point>, k: nat)
    requires IsSquare(m, |x|) && IsSymmetric(m, |x|) && IsRun(m, x, run) && k < |run|
    ensures AllConjugate(m, run, |x|, k)
  {
    hide Dot, MatVec, IsRun;
    if k > 0 {
      Orthogonality(m, x, run, k - 1);
      forall i, j | 0 <= i < j <= k ensures Conjugate(m, run[i], run[j], |x|) {
        if j == k {
          NextResidual(m, x, run, k - 1, i);
          NextAgainstDirection(m, x, run, k - 1, i);
          NextDirection(m, x, run, k - 1, i);
        }
      }
    }
  }

  /** The direction and the residual have the residual's length in common. */
  lemma DirectionMeetsResidual(m: Matrix, x: Vec, run: seq<Point>, k: nat)
    requires IsSquare(m, |x|) && IsSymmetric(m, |x|) && IsRun(m, x, run) && k < |run|
    ensures Sized(run[k], |x|) && Dot(run[k].r, run[k].p) == Dot(run[k].r, run[k].r)
  {
    hide Dot, MatVec, Alpha, Add, Curvature;
    RunSized(m, x, run, k);
    if k > 0 {
      var s, t := run[k - 1], run[k - 1 + 1];
      assert IsStep(m, s, t, |x|);
      Orthogonality(m, x, run, k);
      assert Conjugate(m, s, t, |x|);
      DirectionAgainst(m, s, t, |x|, t.r);
      TimesZero(Dot(t.r, t.r) / Dot(s.r, s.r));
    }
  }
}
