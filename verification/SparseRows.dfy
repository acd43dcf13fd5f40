/** One row of the compressed matrix while it is being assembled: a stretch of
    slots, the first of them filled in increasing column order, the rest empty. */
module SparseRows {

  /** The column mark of an empty slot. */
  const EMPTY := -1

  /** What the slots contribute to column `c`. */
  ghost function RowSum(cs: seq<int>, xs: seq<real>, c: int): real
    requires |cs| == |xs|
  {
    if cs == [] then 0.0
    else
      var n := |cs| - 1;
      RowSum(cs[..n], xs[..n], c) + if cs[n] == c then xs[n] else 0.0
  }

  ghost predicate Increasing(cs: seq<int>, len: nat, n: int)
    requires len <= |cs|
  {
    && (forall i :: 0 <= i < len ==> 0 <= cs[i] < n)
    && (forall i, j :: 0 <= i < j < len ==> cs[i] < cs[j])
  }

  /** The first `len` slots hold columns below `n` in increasing order. */
  ghost predicate RowOk(cs: seq<int>, xs: seq<real>, len: nat, n: int) {
    && len <= |cs| == |xs| && Increasing(cs, len, n)
    && (forall i :: len <= i < |cs| ==> cs[i] == EMPTY && xs[i] == 0.0)
  }

  lemma {:induction false} RowSumSplit(cs: seq<int>, xs: seq<real>, cs': seq<int>, xs': seq<real>, c: int)
    requires |cs| == |xs| && |cs'| == |xs'|
    ensures RowSum(cs + cs', xs + xs', c) == RowSum(cs, xs, c) + RowSum(cs', xs', c)
  {
    if cs' == [] {
      assert cs + cs' == cs && xs + xs' == xs;
    } else {
      var n := |cs'| - 1;
      assert (cs + cs')[..|cs + cs'| - 1] == cs + cs'[..n] && (xs + xs')[..|cs + cs'| - 1] == xs + xs'[..n];
      RowSumSplit(cs, xs, cs'[..n], xs'[..n], c);
    }
  }

  lemma RowSumOne(col: int, x: real, c: int)
    ensures RowSum([col], [x], c) == if col == c then x else 0.0
  {
    assert [col][..0] == [] && [x][..0] == [];
  }

  lemma {:induction false} RowSumEmpty(cs: seq<int>, xs: seq<real>, c: int)
    requires |cs| == |xs| && forall i :: 0 <= i < |xs| ==> xs[i] == 0.0
    ensures RowSum(cs, xs, c) == 0.0
  {
    if cs != [] {
      RowSumEmpty(cs[..|cs| - 1], xs[..|cs| - 1], c);
    }
  }

  /** Raising one slot raises one column. */
  lemma RowSumRaise(cs: seq<int>, xs: seq<real>, k: nat, v: real, c: int)
    requires k < |cs| == |xs|
    ensures RowSum(cs, xs[k := xs[k] + v], c) == RowSum(cs, xs, c) + if cs[k] == c then v else 0.0
  {
    var xs' := xs[k := xs[k] + v];
    var a, b := cs[..k], cs[k + 1..];
    assert cs == a + ([cs[k]] + b) && xs == xs[..k] + ([xs[k]] + xs[k + 1..]) &&
           xs' == xs[..k] + ([xs'[k]] + xs[k + 1..]);
    RowSumSplit(a, xs[..k], [cs[k]] + b, [xs[k]] + xs[k + 1..], c);
    RowSumSplit(a, xs[..k], [cs[k]] + b, [xs'[k]] + xs[k + 1..], c);
    RowSumSplit([cs[k]], [xs[k]], b, xs[k + 1..], c);
    RowSumSplit([cs[k]], [xs'[k]], b, xs[k + 1..], c);
    RowSumOne(cs[k], xs[k], c);
    RowSumOne(cs[k], xs'[k], c);
  }

  /** Opening a slot with nothing in it changes no column. */
  ghost function Opened<T>(s: seq<T>, k: nat, x: T): seq<T>
    requires k < |s|
  {
    s[..k] + [x] + s[k..|s| - 1]
  }

  lemma RowSumOpened(cs: seq<int>, xs: seq<real>, len: nat, k: nat, col: int, c: int, n: int)
    requires RowOk(cs, xs, len, n) && k <= len < |cs|
    ensures RowSum(Opened(cs, k, col), Opened(xs, k, 0.0), c) == RowSum(cs, xs, c)
  {
    var m := |cs| - 1;
    RowSumLast(cs, xs, c);
    assert xs[m] == 0.0;
    hide RowSum, RowOk;
    RowSumSplit(cs[..k], xs[..k], [col], [0.0], c);
    RowSumSplit(cs[..k] + [col], xs[..k] + [0.0], cs[k..m], xs[k..m], c);
    RowSumOne(col, 0.0, c);
    RowSumSplit(cs[..k], xs[..k], cs[k..m], xs[k..m], c);
    assert cs[..k] + cs[k..m] == cs[..m] && xs[..k] + xs[k..m] == xs[..m];
  }

  lemma RowSumLast(cs: seq<int>, xs: seq<real>, c: int)
    requires |cs| == |xs| > 0
    ensures var m := |cs| - 1; RowSum(cs, xs, c) == RowSum(cs[..m], xs[..m], c) + if cs[m] == c then xs[m] else 0.0
  {
  }

  lemma RowOkOpened(cs: seq<int>, xs: seq<real>, len: nat, k: nat, col: int, n: int)
    requires RowOk(cs, xs, len, n) && k <= len < |cs| && 0 <= col < n
    requires (forall i :: 0 <= i < k ==> cs[i] < col) && (k < len ==> col < cs[k])
    ensures RowOk(Opened(cs, k, col), Opened(xs, k, 0.0), len + 1, n)
  {
    var cs', xs' := Opened(cs, k, col), Opened(xs, k, 0.0);
    forall i | 0 <= i < |cs| ensures cs'[i] == if i < k then cs[i] else if i == k then col else cs[i - 1] {
    }
    forall i, j | 0 <= i < j < len + 1 ensures cs'[i] < cs'[j] {
      if k < j {
        assert cs[k] <= cs[j - 1];
      }
    }
  }

  /** Find the slot for a column: the first one that is empty, or holds this column
      or a larger one.  There is always one, because the row is not full. */
  method FindSlot(colidx: array<int>, lo: nat, hi: nat, col: int, ghost xs: seq<real>, ghost len: nat, ghost n: int)
    returns (k: nat)
    requires lo <= hi <= colidx.Length && 0 <= col < n
    requires RowOk(colidx[lo..hi], xs, len, n) && len < hi - lo
    ensures lo <= k <= lo + len
    ensures forall i :: lo <= i < k ==> colidx[i] < col
    ensures if k < lo + len then colidx[k] >= col else colidx[k] == EMPTY
  {
    ghost var cs := colidx[lo..hi];
    k := lo;
    while !(colidx[k] > col || colidx[k] == EMPTY || colidx[k] == col)
      invariant lo <= k <= lo + len < hi
      invariant forall i :: lo <= i < k ==> colidx[i] < col
      decreases hi - k
    {
      assert colidx[k] == cs[k - lo];
      k := k + 1;
    }
    assert colidx[k] == cs[k - lo];
  }

  /** Slots hold what they held before, or what their left neighbours did. */
  ghost predicate Shifted(a: seq<real>, c: seq<int>, a': seq<real>, c': seq<int>, k: int, hi: int)
    requires |a| == |c| == |a'| == |c'|
  {
    && (forall i :: 0 <= i < |a| && !(k < i < hi) ==> a'[i] == a[i] && c'[i] == c[i])
    && (forall i :: 0 < i < |a| && k < i < hi ==> a'[i] == a[i - 1] && c'[i] == c[i - 1])
  }

  lemma ShiftedOne(a: seq<real>, c: seq<int>, a': seq<real>, c': seq<int>, k: nat, hi: nat, a'': seq<real>,
                   c'': seq<int>)
    requires |a| == |c| == |a'| == |c'| && k + 1 < hi <= |a| && Shifted(a, c, a', c', k + 1, hi)
    requires a'' == a'[k + 1 := a[k]] && c'' == c'[k + 1 := c[k]]
    ensures Shifted(a, c, a'', c'', k, hi)
  {
  }

  /** A slot is moved only if it is filled; an empty one is followed by an empty one. */
  method ShiftRight(a: array<real>, colidx: array<int>, lo: nat, hi: nat, k: nat, ghost len: nat, ghost n: int)
    requires lo <= hi <= colidx.Length == a.Length && RowOk(colidx[lo..hi], a[lo..hi], len, n)
    requires lo <= k < lo + len < hi
    modifies a, colidx
    ensures Shifted(old(a[..]), old(colidx[..]), a[..], colidx[..], k, hi)
  {
    ghost var a0, c0 := a[..], colidx[..];
    SlotsOf(c0, a0, lo, hi, len, n);
    assert c0[lo..hi] == colidx[lo..hi] && a0[lo..hi] == a[lo..hi];
    var kk: int := hi - 2;
    while kk >= k
      invariant k - 1 <= kk <= hi - 2 && Shifted(a0, c0, a[..], colidx[..], kk + 1, hi)
    {
      hide RowOk;
      ghost var a1, c1 := a[..], colidx[..];
      assert a1[kk] == a0[kk] && c1[kk] == c0[kk] && a1[kk + 1] == a0[kk + 1] && c1[kk + 1] == c0[kk + 1];
      if colidx[kk] > -1 {
        a[kk + 1] := a[kk];
        colidx[kk + 1] := colidx[kk];
      }
      assert a[..] == a1[kk + 1 := a0[kk]] && colidx[..] == c1[kk + 1 := c0[kk]];
      hide Shifted;
      ShiftedOne(a0, c0, a1, c1, kk, hi, a[..], colidx[..]);
      kk := kk - 1;
    }
  }

  lemma SlotsOf(c: seq<int>, a: seq<real>, lo: nat, hi: nat, len: nat, n: int)
    requires lo <= hi <= |c| == |a| && RowOk(c[lo..hi], a[lo..hi], len, n)
    ensures forall i :: lo <= i < lo + len ==> c[i] > -1
    ensures forall i :: lo + len <= i < hi ==> c[i] == EMPTY && a[i] == 0.0
  {
    var cs, xs := c[lo..hi], a[lo..hi];
    forall i | lo <= i < hi ensures c[i] == cs[i - lo] && a[i] == xs[i - lo] {
    }
  }

  /** Move the filled slots from `k` on one place to the right and put `col` into
      the gap. */
  method OpenSlot(a: array<real>, colidx: array<int>, lo: nat, hi: nat, k: nat, col: int, ghost len: nat, ghost n: int)
    requires lo <= hi <= colidx.Length == a.Length && RowOk(colidx[lo..hi], a[lo..hi], len, n)
    requires lo <= k < lo + len < hi
    modifies a, colidx
    ensures colidx[lo..hi] == Opened(old(colidx[lo..hi]), k - lo, col)
    ensures a[lo..hi] == Opened(old(a[lo..hi]), k - lo, 0.0)
    ensures forall i :: 0 <= i < a.Length && !(lo <= i < hi) ==> a[i] == old(a[i]) && colidx[i] == old(colidx[i])
  {
    hide RowOk;
    ghost var a0, c0 := a[..], colidx[..];
    ShiftRight(a, colidx, lo, hi, k, len, n);
    ghost var a1, c1 := a[..], colidx[..];
    colidx[k] := col;
    a[k] := 0.0;
    ShiftedOpened(a0, c0, a1, c1, k, lo, hi, col);
    assert a[..] == a1[k := 0.0] && colidx[..] == c1[k := col];
    assert a[lo..hi] == a[..][lo..hi] && colidx[lo..hi] == colidx[..][lo..hi];
    assert a0[lo..hi] == old(a[lo..hi]) && c0[lo..hi] == old(colidx[lo..hi]);
    assert forall i :: 0 <= i < a.Length && !(lo <= i < hi) ==> a[i] == a1[i] && colidx[i] == c1[i];
  }

  lemma ShiftedOpened(a: seq<real>, c: seq<int>, a': seq<real>, c': seq<int>, k: nat, lo: nat, hi: nat, col: int)
    requires |a| == |c| == |a'| == |c'| && lo <= k < hi <= |a| && Shifted(a, c, a', c', k, hi)
    ensures c'[k := col][lo..hi] == Opened(c[lo..hi], k - lo, col) &&
            a'[k := 0.0][lo..hi] == Opened(a[lo..hi], k - lo, 0.0)
  {
    var a2, c2 := a'[k := 0.0][lo..hi], c'[k := col][lo..hi];
    forall i | 0 <= i < hi - lo
      ensures c2[i] == Opened(c[lo..hi], k - lo, col)[i] && a2[i] == Opened(a[lo..hi], k - lo, 0.0)[i]
    {
      OpenedAt(c[lo..hi], k - lo, col, i);
      OpenedAt(a[lo..hi], k - lo, 0.0, i);
    }
  }

  lemma OpenedAt<T>(s: seq<T>, k: nat, x: T, i: nat)
    requires k < |s| && i < |s|
    ensures |Opened(s, k, x)| == |s| && Opened(s, k, x)[i] == if i < k then s[i] else if i == k then x else s[i - 1]
  {
  }

  /** Make sure column `col` has a slot, opening one at its place in the order if it
      has none.  The contents of the row do not change. */
  method PlaceColumn(a: array<real>, colidx: array<int>, lo: nat, hi: nat, col: int, ghost len: nat, ghost n: int)
    returns (k: nat, dup: bool)
    requires lo <= hi <= colidx.Length == a.Length && 0 <= col < n
    requires RowOk(colidx[lo..hi], a[lo..hi], len, n) && len < hi - lo
    modifies a, colidx
    ensures lo <= k < hi && colidx[k] == col && k - lo < if dup then len else len + 1
    ensures RowOk(colidx[lo..hi], a[lo..hi], if dup then len else len + 1, n)
    ensures dup <==> col in old(colidx[lo..hi])
    ensures forall c :: RowSum(colidx[lo..hi], a[lo..hi], c) == RowSum(old(colidx[lo..hi]), old(a[lo..hi]), c)
    ensures forall i :: 0 <= i < a.Length && !(lo <= i < hi) ==> a[i] == old(a[i]) && colidx[i] == old(colidx[i])
  {
    hide RowSum;
    ghost var cs, xs := colidx[lo..hi], a[lo..hi];
    k := FindSlot(colidx, lo, hi, col, xs, len, n);
    assert colidx[k] == cs[k - lo];
    dup := colidx[k] == col;
    if !dup {
      RowOkOpened(cs, xs, len, k - lo, col, n);
      NotThere(cs, xs, len, k - lo, col, n);
      if colidx[k] > col {
        OpenSlot(a, colidx, lo, hi, k, col, len, n);
      } else {
        colidx[k] := col;
        OpenedAtEnd(cs, xs, len, k - lo, col, n);
        assert colidx[lo..hi] == cs[k - lo := col] && a[lo..hi] == xs;
      }
      assert colidx[lo..hi][k - lo] == col;
      forall c ensures RowSum(colidx[lo..hi], a[lo..hi], c) == RowSum(cs, xs, c) {
        RowSumOpened(cs, xs, len, k - lo, col, c, n);
      }
    }
  }

  /** Opening the first empty slot only marks it. */
  lemma OpenedAtEnd(cs: seq<int>, xs: seq<real>, len: nat, k: nat, col: int, n: int)
    requires RowOk(cs, xs, len, n) && k == len < |cs|
    ensures Opened(cs, k, col) == cs[k := col] && Opened(xs, k, 0.0) == xs
  {
    forall i | 0 <= i < |cs| ensures Opened(cs, k, col)[i] == cs[k := col][i] && Opened(xs, k, 0.0)[i] == xs[i] {
      if i > k {
        assert Opened(cs, k, col)[i] == cs[i - 1] && Opened(xs, k, 0.0)[i] == xs[i - 1];
      }
    }
  }

  /** Add `va` to column `col` of a row that is not full, keeping the columns in
      order; `dup` tells whether the column was there already. */
  method AddEntry(a: array<real>, colidx: array<int>, lo: nat, hi: nat, col: int, va: real, ghost len: nat,
                  ghost n: int)
    returns (dup: bool)
    requires lo <= hi <= colidx.Length == a.Length && 0 <= col < n
    requires RowOk(colidx[lo..hi], a[lo..hi], len, n) && len < hi - lo
    modifies a, colidx
    ensures RowOk(colidx[lo..hi], a[lo..hi], if dup then len else len + 1, n)
    ensures dup <==> col in old(colidx[lo..hi])
    ensures forall c :: RowSum(colidx[lo..hi], a[lo..hi], c)
                     == RowSum(old(colidx[lo..hi]), old(a[lo..hi]), c) + if c == col then va else 0.0
    ensures forall i :: 0 <= i < a.Length && !(lo <= i < hi) ==> a[i] == old(a[i]) && colidx[i] == old(colidx[i])
  {
    hide RowSum;
    var k;
    k, dup := PlaceColumn(a, colidx, lo, hi, col, len, n);
    ghost var cs, xs := colidx[lo..hi], a[lo..hi];
    a[k] := a[k] + va;
    assert colidx[lo..hi] == cs && a[lo..hi] == xs[k - lo := xs[k - lo] + va];
    forall c ensures RowSum(cs, a[lo..hi], c) == RowSum(cs, xs, c) + if c == col then va else 0.0 {
      RowSumRaise(cs, xs, k - lo, va, c);
      assert cs[k - lo] == col;
    }
  }

  lemma NotThere(cs: seq<int>, xs: seq<real>, len: nat, k: nat, col: int, n: int)
    requires RowOk(cs, xs, len, n) && k <= len < |cs| && 0 <= col < n
    requires (forall i :: 0 <= i < k ==> cs[i] < col) && (k < len ==> col < cs[k])
    ensures col !in cs
  {
    forall i | 0 <= i < |cs| ensures cs[i] != col {
      if k < i < len {
        assert cs[k] < cs[i];
      }
    }
  }
}
