/** The conjugate gradient solver on a matrix in compressed rows, in place. */
module ConjGrad {
  import opened SparseRows
  import opened SparseAssembly
  import opened SparseVectors
  import opened Vectors
  import opened CgRun
  import opened CgResults

  // ----- the matrix that the compressed rows stand for -----

  ghost function DenseRow(cs: seq<int>, xs: seq<real>, n: nat): (v: Vec)
    requires |cs| == |xs|
    ensures |v| == n
  {
    seq(n, k => RowSum(cs, xs, k))
  }

  ghost function Dense(a: seq<real>, c: seq<int>, rowstr: seq<int>, n: nat): (m: Matrix)
    requires IsCsr(a, c, rowstr, n)
    ensures IsSquare(m, n)
  {
    seq(n, j requires 0 <= j < n => Row(a, c, rowstr, n, j))
  }

  ghost function Row(a: seq<real>, c: seq<int>, rowstr: seq<int>, n: nat, j: nat): (v: Vec)
    requires IsCsr(a, c, rowstr, n) && j < n
    ensures |v| == n
  {
    assert RowShape(c, rowstr[j], rowstr[j + 1], n);
    DenseRow(c[rowstr[j]..rowstr[j + 1]], a[rowstr[j]..rowstr[j + 1]], n)
  }

  lemma DenseSymmetric(a: seq<real>, c: seq<int>, rowstr: seq<int>, n: nat)
    requires IsCsr(a, c, rowstr, n) && Symmetric(a, c, rowstr, n)
    ensures IsSymmetric(Dense(a, c, rowstr, n), n)
  {
    hide RowSum, IsCsr;
    var m := Dense(a, c, rowstr, n);
    forall j, k | 0 <= j < n && 0 <= k < n ensures m[j][k] == m[k][j] {
      EntryOf(a, c, rowstr, n, j, k);
      EntryOf(a, c, rowstr, n, k, j);
    }
  }

  lemma EntryOf(a: seq<real>, c: seq<int>, rowstr: seq<int>, n: nat, j: nat, k: nat)
    requires IsCsr(a, c, rowstr, n) && j < n && k < n
    ensures Dense(a, c, rowstr, n)[j][k] == CsrEntry(a, c, rowstr, n, j, k)
  {
    assert RowShape(c, rowstr[j], rowstr[j + 1], n);
  }

  // ----- products -----

  ghost predicate InRange(cs: seq<int>, n: nat) {
    forall t :: 0 <= t < |cs| ==> 0 <= cs[t] < n
  }

  /** What the slots of a row add up to. */
  ghost function SlotSum(cs: seq<int>, xs: seq<real>, v: Vec): real
    requires |cs| == |xs| && InRange(cs, |v|)
  {
    if cs == [] then 0.0
    else
      var t := |cs| - 1;
      SlotSum(cs[..t], xs[..t], v) + xs[t] * v[cs[t]]
  }

  /** Summing over the slots of a row is the inner product with the row. */
  lemma {:induction false} SlotSumIsDot(cs: seq<int>, xs: seq<real>, v: Vec)
    requires |cs| == |xs| && InRange(cs, |v|)
    ensures SlotSum(cs, xs, v) == Dot(DenseRow(cs, xs, |v|), v)
  {
    var n := |v|;
    if cs == [] {
      assert DenseRow(cs, xs, n) == Zero(n);
      DotZero(v);
    } else {
      hide Dot;
      var t := |cs| - 1;
      SlotSumIsDot(cs[..t], xs[..t], v);
      DenseRowStep(cs, xs, n);
      DotAdd(DenseRow(cs[..t], xs[..t], n), xs[t], Unit(n, cs[t]), v);
      UnitAgainst(n, cs[t], v);
    }
  }

  lemma UnitAgainst(n: nat, j: nat, v: Vec)
    requires j < n == |v|
    ensures Dot(Unit(n, j), v) == v[j]
  {
    UnitDot(n, j, v, n);
  }

  lemma DenseRowStep(cs: seq<int>, xs: seq<real>, n: nat)
    requires |cs| == |xs| > 0 && InRange(cs, n)
    ensures var t := |cs| - 1;
            DenseRow(cs, xs, n) == Add(DenseRow(cs[..t], xs[..t], n), xs[t], Unit(n, cs[t]))
  {
    var t := |cs| - 1;
    forall k | 0 <= k < n
      ensures DenseRow(cs, xs, n)[k] == Add(DenseRow(cs[..t], xs[..t], n), xs[t], Unit(n, cs[t]))[k]
    {
      assert xs[t] * Unit(n, cs[t])[k] == if k == cs[t] then xs[t] else 0.0;
    }
  }

  lemma RowSlots(a: seq<real>, c: seq<int>, rowstr: seq<int>, n: nat, j: nat)
    requires IsCsr(a, c, rowstr, n) && j < n
    ensures |rowstr| == n + 1 && |a| == |c|
    ensures 0 <= rowstr[j] <= rowstr[j + 1] <= |a| && InRange(c[rowstr[j]..rowstr[j + 1]], n)
  {
    assert RowShape(c, rowstr[j], rowstr[j + 1], n);
  }

  lemma {:induction false} SlotSumStep(cs: seq<int>, xs: seq<real>, lo: nat, k: nat, v: Vec, x: real, y: real)
    requires lo <= k < |cs| == |xs| && InRange(cs[lo..k + 1], |v|) && x == xs[k]
    requires 0 <= cs[k] < |v| ==> y == v[cs[k]]
    ensures InRange(cs[lo..k], |v|) && 0 <= cs[k] < |v|
    ensures SlotSum(cs[lo..k + 1], xs[lo..k + 1], v) == SlotSum(cs[lo..k], xs[lo..k], v) + x * y
  {
    Fewer(cs, lo, k, k + 1, |v|);
    var cs', xs', t := cs[lo..k + 1], xs[lo..k + 1], k - lo;
    assert cs'[..t] == cs[lo..k] && xs'[..t] == xs[lo..k] && cs'[t] == cs[k] && xs'[t] == xs[k];
    SlotSumLast(cs', xs', v, x, y);
  }

  lemma {:induction false} SlotSumLast(cs: seq<int>, xs: seq<real>, v: Vec, x: real, y: real)
    requires |cs| == |xs| > 0 && InRange(cs, |v|) && x == xs[|xs| - 1] && y == v[cs[|cs| - 1]]
    ensures InRange(cs[..|cs| - 1], |v|)
    ensures SlotSum(cs, xs, v) == SlotSum(cs[..|cs| - 1], xs[..|cs| - 1], v) + x * y
  {
  }

  /** One row times a vector. */
  method RowTimes(a: array<real>, colidx: array<int>, rowstr: array<int>, v: array<real>, n: nat, j: nat)
    returns (sum: real)
    requires IsCsr(a[..], colidx[..], rowstr[..], n) && j < n <= v.Length
    ensures sum == Dot(Dense(a[..], colidx[..], rowstr[..], n)[j], v[..n])
  {
    hide IsCsr, Dot, SlotSum;
    ghost var cs, xs, w := colidx[..], a[..], v[..n];
    RowSlots(xs, cs, rowstr[..], n, j);
    var lo, hi := rowstr[j], rowstr[j + 1];
    sum := 0.0;
    var k := lo;
    NoSlots(w);
    assert cs[lo..lo] == [] && xs[lo..lo] == [];
    while k < hi
      invariant lo <= k <= hi && InRange(cs[lo..k], n) && sum == SlotSum(cs[lo..k], xs[lo..k], w)
    {
      Fewer(cs, lo, k + 1, hi, n);
      InRangeAt(cs, lo, k, n);
      var x, y := a[k], v[colidx[k]];
      SlotSumStep(cs, xs, lo, k, w, x, y);
      sum := sum + x * y;
      k := k + 1;
    }
    SlotSumIsDot(cs[lo..hi], xs[lo..hi], w);
  }

  lemma InRangeAt(cs: seq<int>, lo: nat, k: nat, n: nat)
    requires lo <= k < |cs| && InRange(cs[lo..k + 1], n)
    ensures 0 <= cs[k] < n
  {
    assert cs[k] == cs[lo..k + 1][k - lo];
  }

  lemma Fewer(cs: seq<int>, lo: nat, k: nat, hi: nat, n: nat)
    requires lo <= k <= hi <= |cs| && InRange(cs[lo..hi], n)
    ensures InRange(cs[lo..k], n)
  {
    var part := cs[lo..k];
    forall t | 0 <= t < |part| ensures 0 <= part[t] < n {
      assert part[t] == cs[lo..hi][t];
    }
  }

  lemma NoSlots(v: Vec)
    ensures SlotSum([], [], v) == 0.0
  {
  }

  /** w = A v */
  method Multiply(a: array<real>, colidx: array<int>, rowstr: array<int>, v: array<real>, w: array<real>, n: nat)
    requires IsCsr(a[..], colidx[..], rowstr[..], n) && n <= v.Length && n <= w.Length && w != a && w != v
    modifies w
    ensures w[..n] == MatVec(Dense(a[..], colidx[..], rowstr[..], n), v[..n])
  {
    hide IsCsr, Dot;
    ghost var m := Dense(a[..], colidx[..], rowstr[..], n);
    var j := 0;
    while j < n
      invariant 0 <= j <= n
      invariant forall k :: 0 <= k < j ==> w[k] == Dot(m[k], v[..n])
    {
      w[j] := RowTimes(a, colidx, rowstr, v, n, j);
      j := j + 1;
    }
  }

  method InnerProduct(u: array<real>, v: array<real>, n: nat) returns (d: real)
    requires n <= u.Length && n <= v.Length
    ensures d == Dot(u[..n], v[..n])
  {
    d := 0.0;
    var j := 0;
    while j < n
      invariant 0 <= j <= n && d == PDot(u[..n], v[..n], j)
    {
      d := d + u[j] * v[j];
      j := j + 1;
    }
  }

  // ----- the solver -----

  ghost function Current(z: array<real>, r: array<real>, p: array<real>, n: nat): Point
    requires n <= z.Length && n <= r.Length && n <= p.Length
    reads z, r, p
  {
    Point(z[..n], r[..n], p[..n])
  }

  /** z = z + alpha p and r = r - alpha q, in one pass. */
  method Advance(z: array<real>, r: array<real>, p: array<real>, q: array<real>, alpha: real, n: nat)
    requires n <= z.Length && n <= r.Length && n <= p.Length && n <= q.Length
    requires z != r && z != p && z != q && r != p && r != q
    modifies z, r
    ensures z[..n] == Add(old(z[..n]), alpha, p[..n]) && r[..n] == Add(old(r[..n]), -alpha, q[..n])
  {
    ghost var z0, r0, ps, qs := z[..n], r[..n], p[..n], q[..n];
    var j := 0;
    while j < n
      invariant 0 <= j <= n
      invariant forall k :: 0 <= k < j ==> z[k] == Add(z0, alpha, ps)[k] && r[k] == Add(r0, -alpha, qs)[k]
      invariant forall k :: j <= k < n ==> z[k] == z0[k] && r[k] == r0[k]
    {
      z[j] := z[j] + alpha * p[j];
      r[j] := r[j] - alpha * q[j];
      Negate(alpha, qs[j]);
      j := j + 1;
    }
  }

  /** p = r + beta p */
  method Redirect(p: array<real>, r: array<real>, beta: real, n: nat)
    requires n <= p.Length && n <= r.Length && p != r
    modifies p
    ensures p[..n] == Add(r[..n], beta, old(p[..n]))
  {
    ghost var p0, rs := p[..n], r[..n];
    var j := 0;
    while j < n
      invariant 0 <= j <= n
      invariant forall k :: 0 <= k < j ==> p[k] == Add(rs, beta, p0)[k]
      invariant forall k :: j <= k < n ==> p[k] == p0[k]
    {
      p[j] := r[j] + beta * p[j];
      j := j + 1;
    }
  }

  /** One iteration, unless one of its two divisors is zero. */
  method Iterate(colidx: array<int>, rowstr: array<int>, z: array<real>, a: array<real>, p: array<real>, q: array<real>,
                 r: array<real>, rho: real, n: nat)
    returns (ok: bool, rho': real)
    requires IsCsr(a[..], colidx[..], rowstr[..], n)
    requires n <= z.Length && n <= p.Length && n <= q.Length && n <= r.Length
    requires z != r && z != p && z != q && r != p && r != q && p != q && a != z && a != r && a != p && a != q
    requires rho == Dot(r[..n], r[..n])
    modifies z, p, q, r
    ensures ok <==> CanStep(Dense(a[..], colidx[..], rowstr[..], n), old(Current(z, r, p, n)), n)
    ensures ok ==> IsStep(Dense(a[..], colidx[..], rowstr[..], n), old(Current(z, r, p, n)), Current(z, r, p, n), n)
    ensures ok ==> rho' == Dot(r[..n], r[..n])
    ensures !ok ==> Current(z, r, p, n) == old(Current(z, r, p, n))
  {
    hide IsCsr, Dot, Dense, MatVec, Add;
    ghost var m, s := Dense(a[..], colidx[..], rowstr[..], n), Current(z, r, p, n);
    rho' := rho;
    Multiply(a, colidx, rowstr, p, q, n);
    var d := InnerProduct(p, q, n);
    ok := d != 0.0 && rho != 0.0;
    if ok {
      var alpha := rho / d;
      var rho0 := rho;
      Advance(z, r, p, q, alpha, n);
      rho' := InnerProduct(r, r, n);
      var beta := rho' / rho0;
      Redirect(p, r, beta, n);
    }
  }

  method Initialize(x: array<real>, z: array<real>, p: array<real>, q: array<real>, r: array<real>, n: nat)
    requires n < x.Length && n < z.Length && n < p.Length && n < q.Length && n < r.Length
    requires z != r && z != p && z != q && r != p && r != q && p != q && x != z && x != r && x != p && x != q
    modifies z, p, q, r
    ensures Current(z, r, p, n) == Point(Zero(n), x[..n], x[..n])
  {
    var j := 0;
    while j < n + 1
      invariant 0 <= j <= n + 1
      invariant forall k :: 0 <= k < j ==> z[k] == 0.0 && r[k] == x[k] && p[k] == x[k]
    {
      q[j] := 0.0;
      z[j] := 0.0;
      r[j] := x[j];
      p[j] := r[j];
      j := j + 1;
    }
    assert z[..n] == Zero(n);
  }

  const CGITMAX := 25

  /** Solve A z = x by a fixed number of iterations and return the square of the
      residual's norm, computed afresh from the approximation.  The arrays go through
      a run of the recurrence; it breaks off only where the next iteration would divide
      by zero.  If it does not, there are at least as many unknowns as iterations. */
  method Solve(colidx: array<int>, rowstr: array<int>, x: array<real>, z: array<real>, a: array<real>, p: array<real>,
               q: array<real>, r: array<real>, n: nat)
    returns (ok: bool, sum: real, ghost run: seq<Point>)
    requires IsCsr(a[..], colidx[..], rowstr[..], n) && Symmetric(a[..], colidx[..], rowstr[..], n)
    requires n < x.Length && n < z.Length && n < p.Length && n < q.Length && n < r.Length
    requires z != r && z != p && z != q && r != p && r != q && p != q && a != z && a != r && a != p && a != q
    requires x != z && x != r && x != p && x != q
    modifies z, p, q, r
    ensures 0 < |run| <= 26 && IsRun(Dense(a[..], colidx[..], rowstr[..], n), x[..n], run)
    ensures Sized(run[|run| - 1], n) && z[..n] == run[|run| - 1].z
    ensures ok ==> |run| == 26 && 25 <= n
    ensures !ok ==> |run| <= 25 && !CanStep(Dense(a[..], colidx[..], rowstr[..], n), run[|run| - 1], n)
    ensures ok ==> sum == Dot(run[25].r, run[25].r)
  {
    hide IsCsr, Dot, Dense, MatVec, Add, CanStep, IsStep;
    ghost var m := Dense(a[..], colidx[..], rowstr[..], n);
    sum := 0.0;
    Initialize(x, z, p, q, r, n);
    var rho := InnerProduct(r, r, n);
    run := [Current(z, r, p, n)];
    var cgit := 1;
    while cgit <= CGITMAX
      invariant 1 <= cgit <= CGITMAX + 1 && |run| == cgit && IsRun(m, x[..n], run)
      invariant run[cgit - 1] == Current(z, r, p, n) && rho == Dot(r[..n], r[..n])
    {
      ok, rho := Iterate(colidx, rowstr, z, a, p, q, r, rho, n);
      if !ok {
        return;
      }
      RunGrows(m, x[..n], run, Current(z, r, p, n));
      run := run + [Current(z, r, p, n)];
      cgit := cgit + 1;
    }
    DenseSymmetric(a[..], colidx[..], rowstr[..], n);
    AtMostDimension(m, x[..n], run);
    ResidualIsTrue(m, x[..n], run, CGITMAX);
    sum := ResidualNorm(colidx, rowstr, x, z, a, r, n);
    ok := true;
  }

  lemma RunGrows(m: Matrix, x: Vec, run: seq<Point>, t: Point)
    requires IsSquare(m, |x|) && IsRun(m, x, run) && |run| > 0 && IsStep(m, run[|run| - 1], t, |x|)
    ensures IsRun(m, x, run + [t])
  {
    hide IsStep;
    forall i | 0 <= i < |run| ensures IsStep(m, (run + [t])[i], (run + [t])[i + 1], |x|) {
      if i < |run| - 1 {
        assert IsStep(m, run[i], run[i + 1], |x|);
      }
    }
  }

  /** Form A z in `r` and sum the squares of x - A z. */
  method ResidualNorm(colidx: array<int>, rowstr: array<int>, x: array<real>, z: array<real>, a: array<real>,
                      r: array<real>, n: nat)
    returns (sum: real)
    requires IsCsr(a[..], colidx[..], rowstr[..], n) && n <= x.Length && n <= z.Length && n <= r.Length
    requires r != a && r != z && r != x
    modifies r
    ensures var e := Residual(Dense(a[..], colidx[..], rowstr[..], n), x[..n], z[..n]); sum == Dot(e, e)
  {
    hide IsCsr, Dense, MatVec;
    Multiply(a, colidx, rowstr, z, r, n);
    ghost var e := Add(x[..n], -1.0, r[..n]);
    sum := 0.0;
    var j := 0;
    while j < n
      invariant 0 <= j <= n && sum == PDot(e, e, j)
    {
      var d := x[j] - r[j];
      assert e[j] == d by {
        Negate(1.0, r[j]);
      }
      sum := sum + d * d;
      j := j + 1;
    }
  }
}
