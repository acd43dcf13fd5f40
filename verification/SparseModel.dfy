/** What the sparse assembly has to produce: the sum of scaled outer products of
    sparse vectors plus a multiple of the identity, and how much room it needs. */
module SparseModel {
  import opened SparseRows

  /** A sparse vector: distinct columns and their values. */
  datatype SparseVec = SparseVec(cols: seq<int>, vals: seq<real>)

  ghost predicate VecOk(v: SparseVec, n: nat) {
    && |v.cols| == |v.vals|
    && (forall t :: 0 <= t < |v.cols| ==> 0 <= v.cols[t] < n)
    && (forall t, u :: 0 <= t < u < |v.cols| ==> v.cols[t] != v.cols[u])
  }

  /** The generated vectors: one per row, each with its own row among its columns. */
  ghost predicate VecsOk(vs: seq<SparseVec>, n: nat) {
    |vs| == n && forall i :: 0 <= i < n ==> VecOk(vs[i], n) && i in vs[i].cols
  }

  /** The component of a sparse vector at a column. */
  ghost function Component(v: SparseVec, c: int): real
    requires |v.cols| == |v.vals|
  {
    RowSum(v.cols, v.vals, c)
  }

  ghost function Power(x: real, i: nat): real {
    if i == 0 then 1.0 else Power(x, i - 1) * x
  }

  /** The laws of powers: the first is the number itself, and exponents add up. */
  lemma {:induction false} PowerAdds(x: real, i: nat, j: nat)
    ensures Power(x, 1) == x && Power(x, i + j) == Power(x, i) * Power(x, j)
  {
    assert Power(x, 1) == Power(x, 0) * x == x;
    if j > 0 {
      PowerAdds(x, i, j - 1);
      assert Power(x, i) * Power(x, j - 1) * x == Power(x, i) * (Power(x, j - 1) * x);
    }
  }

  // ----- the matrix -----

  /** Entry (j, c) of the sum of the outer products of the first `i` vectors with
      themselves, the product of vector `l` scaled by `ratio^l`. */
  ghost function OuterSum(vs: seq<SparseVec>, ratio: real, i: nat, j: int, c: int): real
    requires i <= |vs| && forall l :: 0 <= l < |vs| ==> |vs[l].cols| == |vs[l].vals|
  {
    if i == 0 then 0.0
    else OuterSum(vs, ratio, i - 1, j, c) + Power(ratio, i - 1) * Component(vs[i - 1], j) * Component(vs[i - 1], c)
  }

  /** Entry (j, c) of the matrix: the sum of all outer products plus `diag` times the
      identity. */
  ghost function Matrix(vs: seq<SparseVec>, ratio: real, diag: real, j: int, c: int): real
    requires forall l :: 0 <= l < |vs| ==> |vs[l].cols| == |vs[l].vals|
  {
    OuterSum(vs, ratio, |vs|, j, c) + if j == c then diag else 0.0
  }

  /** The matrix is symmetric. */
  lemma {:induction false} OuterSymmetric(vs: seq<SparseVec>, ratio: real, i: nat, j: int, c: int)
    requires i <= |vs| && forall l :: 0 <= l < |vs| ==> |vs[l].cols| == |vs[l].vals|
    ensures OuterSum(vs, ratio, i, j, c) == OuterSum(vs, ratio, i, c, j)
  {
    hide Component;
    if i > 0 {
      OuterSymmetric(vs, ratio, i - 1, j, c);
      SwapProduct(Power(ratio, i - 1), Component(vs[i - 1], j), Component(vs[i - 1], c));
    }
  }

  // ----- how the program adds it up -----

  /** What the program has added to entry (j, c) for the first `i` vectors: it adds the
      diagonal term while it goes through vector `j`. */
  ghost function Entry(vs: seq<SparseVec>, ratio: real, diag: real, i: nat, j: int, c: int): real
    requires i <= |vs| && forall l :: 0 <= l < |vs| ==> |vs[l].cols| == |vs[l].vals|
  {
    if i == 0 then 0.0
    else Entry(vs, ratio, diag, i - 1, j, c) + Share(vs[i - 1], Power(ratio, i - 1), diag, i - 1, j, c)
  }

  ghost function Share(v: SparseVec, size: real, diag: real, i: nat, j: int, c: int): real
    requires |v.cols| == |v.vals|
  {
    size * Component(v, j) * Component(v, c) + if i == j && c == j && j in v.cols then diag else 0.0
  }

  /** As every vector has its own row among its columns, that is the matrix. */
  lemma EntryIsMatrix(vs: seq<SparseVec>, ratio: real, diag: real, j: int, c: int)
    requires VecsOk(vs, |vs|) && 0 <= j < |vs|
    ensures Entry(vs, ratio, diag, |vs|, j, c) == Matrix(vs, ratio, diag, j, c)
  {
    DiagonalOnce(vs, ratio, diag, |vs|, j, c);
  }

  lemma {:induction false} DiagonalOnce(vs: seq<SparseVec>, ratio: real, diag: real, i: nat, j: int, c: int)
    requires VecsOk(vs, |vs|) && i <= |vs| && 0 <= j < |vs|
    ensures Entry(vs, ratio, diag, i, j, c) == OuterSum(vs, ratio, i, j, c) + if j < i && j == c then diag else 0.0
  {
    hide Component;
    if i > 0 {
      DiagonalOnce(vs, ratio, diag, i - 1, j, c);
    }
  }

  lemma SwapProduct(a: real, b: real, c: real)
    ensures a * b * c == a * c * b
  {
  }

  lemma {:induction false} ComponentOutside(v: SparseVec, c: int)
    requires |v.cols| == |v.vals| && c !in v.cols
    ensures Component(v, c) == 0.0
    decreases |v.cols|
  {
    if v.cols != [] {
      var n := |v.cols| - 1;
      ComponentOutside(SparseVec(v.cols[..n], v.vals[..n]), c);
    }
  }

  lemma {:induction false} ComponentAt(v: SparseVec, t: nat)
    requires |v.cols| == |v.vals| && t < |v.cols| && forall t, u :: 0 <= t < u < |v.cols| ==> v.cols[t] != v.cols[u]
    ensures Component(v, v.cols[t]) == v.vals[t]
    decreases |v.cols|
  {
    var n := |v.cols| - 1;
    var w := SparseVec(v.cols[..n], v.vals[..n]);
    if t == n {
      assert v.cols[n] !in w.cols;
      ComponentOutside(w, v.cols[n]);
    } else {
      ComponentAt(w, t);
    }
  }

  // ----- room -----

  /** Slots reserved for row `j` by the first `i` vectors. */
  ghost function Reserved(vs: seq<SparseVec>, i: nat, j: int): nat
    requires i <= |vs|
  {
    if i == 0 then 0 else Reserved(vs, i - 1, j) + if j in vs[i - 1].cols then |vs[i - 1].cols| else 0
  }

  /** Where row `j` starts. */
  ghost function Start(vs: seq<SparseVec>, j: nat): nat {
    if j == 0 then 0 else Start(vs, j - 1) + Reserved(vs, |vs|, j - 1)
  }

  lemma {:induction false} StartMonotone(vs: seq<SparseVec>, j: nat, k: nat)
    requires j <= k
    ensures Start(vs, j) <= Start(vs, k)
  {
    if j < k {
      StartMonotone(vs, j, k - 1);
    }
  }

  lemma {:induction false} ReservedMonotone(vs: seq<SparseVec>, i: nat, k: nat, j: int)
    requires i <= k <= |vs|
    ensures Reserved(vs, i, j) <= Reserved(vs, k, j)
  {
    if i < k {
      ReservedMonotone(vs, i, k - 1, j);
    }
  }

  /** Slots reserved for the first `n` rows by the first `i` vectors. */
  ghost function Room(vs: seq<SparseVec>, i: nat, n: nat): nat
    requires i <= |vs|
  {
    if n == 0 then 0 else Room(vs, i, n - 1) + Reserved(vs, i, n - 1)
  }

  /** How many of the numbers below `n` are among `cols`. */
  ghost function Hits(cols: seq<int>, n: nat): nat {
    if n == 0 then 0 else Hits(cols, n - 1) + if n - 1 in cols then 1 else 0
  }

  lemma {:induction false} HitsNone(n: nat)
    ensures Hits([], n) == 0
  {
    if n > 0 {
      HitsNone(n - 1);
    }
  }

  lemma {:induction false} HitsSnoc(cols: seq<int>, c: int, n: nat)
    ensures Hits(cols + [c], n) <= Hits(cols, n) + if 0 <= c < n then 1 else 0
  {
    if n > 0 {
      HitsSnoc(cols, c, n - 1);
    }
  }

  lemma {:induction false} HitsAtMost(cols: seq<int>, n: nat)
    ensures Hits(cols, n) <= |cols|
  {
    if cols == [] {
      HitsNone(n);
    } else {
      var m := |cols| - 1;
      HitsAtMost(cols[..m], n);
      assert cols == cols[..m] + [cols[m]];
      HitsSnoc(cols[..m], cols[m], n);
    }
  }

  lemma {:induction false} RoomStep(vs: seq<SparseVec>, i: nat, n: nat)
    requires i < |vs|
    ensures Room(vs, i + 1, n) == Room(vs, i, n) + Hits(vs[i].cols, n) * |vs[i].cols|
  {
    if n > 0 {
      RoomStep(vs, i, n - 1);
      Distribute(Hits(vs[i].cols, n - 1), |vs[i].cols|);
    }
  }

  lemma Distribute(h: nat, w: nat)
    ensures (h + 1) * w == h * w + w && (h + 0) * w == h * w
  {
  }

  lemma {:induction false} RoomStart(vs: seq<SparseVec>, n: nat)
    ensures Room(vs, |vs|, n) == Start(vs, n)
  {
    if n > 0 {
      RoomStart(vs, n - 1);
    }
  }

  /** With at most `w` columns per vector, `i * w * w` slots are enough. */
  lemma {:induction false} RoomBound(vs: seq<SparseVec>, i: nat, n: nat, w: nat)
    requires i <= |vs| && forall l :: 0 <= l < |vs| ==> |vs[l].cols| <= w
    ensures Room(vs, i, n) <= i * (w * w)
  {
    if i == 0 {
      RoomZero(vs, n);
    } else {
      RoomBound(vs, i - 1, n, w);
      RoomStep(vs, i - 1, n);
      HitsAtMost(vs[i - 1].cols, n);
      ProductBound(Hits(vs[i - 1].cols, n), |vs[i - 1].cols|, w);
      Distribute(i - 1, w * w);
    }
  }

  lemma {:induction false} RoomZero(vs: seq<SparseVec>, n: nat)
    ensures Room(vs, 0, n) == 0
  {
    if n > 0 {
      RoomZero(vs, n - 1);
    }
  }

  lemma ProductBound(h: nat, c: nat, w: nat)
    requires h <= c <= w
    ensures h * c <= w * w
  {
    Scale(h, w, c);
    Scale(c, w, w);
  }

  lemma {:induction false} Scale(a: nat, b: nat, k: nat)
    requires a <= b
    ensures a * k <= b * k
  {
    if k > 0 {
      Scale(a, b, k - 1);
      assert a * k == a * (k - 1) + a && b * k == b * (k - 1) + b;
    }
  }
}
