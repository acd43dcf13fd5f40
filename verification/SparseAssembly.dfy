/** The assembly from start to end: room is reserved, the vectors are added row by
    row, and the rows are moved together over the slots that duplicates left empty. */
module SparseAssembly {
  import opened SparseRows
  import opened SparseModel
  import opened Sparse

  // ----- adding all vectors -----

  method Preload(a: array<real>, colidx: array<int>, rowstr: array<int>, nzloc: array<int>, vs: seq<SparseVec>)
    requires a.Length == colidx.Length && rowstr.Length == |vs| + 1 && nzloc.Length == |vs|
    requires rowstr != nzloc && rowstr != colidx && nzloc != colidx
    requires forall j :: 0 <= j <= |vs| ==> rowstr[j] == Start(vs, j)
    requires Start(vs, |vs|) <= a.Length
    modifies a, colidx, nzloc
    ensures forall k :: 0 <= k < Start(vs, |vs|) ==> a[k] == 0.0 && colidx[k] == EMPTY
    ensures forall j :: 0 <= j < |vs| ==> nzloc[j] == 0
  {
    hide Start;
    var j := 0;
    StartsAtZero(vs);
    StartMonotone(vs, 0, |vs|);
    while j < |vs|
      invariant 0 <= j <= |vs| && Start(vs, j) <= Start(vs, |vs|)
      invariant forall k :: 0 <= k < Start(vs, j) ==> a[k] == 0.0 && colidx[k] == EMPTY
      invariant forall k :: 0 <= k < j ==> nzloc[k] == 0
    {
      StartMonotone(vs, j, j + 1);
      StartMonotone(vs, j + 1, |vs|);
      var k := rowstr[j];
      while k < rowstr[j + 1]
        invariant rowstr[j] <= k <= rowstr[j + 1]
        invariant forall i :: 0 <= i < k ==> a[i] == 0.0 && colidx[i] == EMPTY
        invariant forall i :: 0 <= i < j ==> nzloc[i] == 0
      {
        a[k] := 0.0;
        colidx[k] := EMPTY;
        k := k + 1;
      }
      nzloc[j] := 0;
      j := j + 1;
    }
  }

  lemma StartsAtZero(vs: seq<SparseVec>)
    ensures Start(vs, 0) == 0
  {
  }

  /** Empty rows are what no vector at all adds up to. */
  lemma Preloaded(a: seq<real>, c: seq<int>, lens: seq<nat>, dups: seq<int>, vs: seq<SparseVec>, ratio: real,
                  diag: real)
    requires VecsOk(vs, |vs|) && |a| == |c| && |lens| == |dups| == |vs| && Start(vs, |vs|) <= |a|
    requires forall k :: 0 <= k < Start(vs, |vs|) ==> a[k] == 0.0 && c[k] == EMPTY
    requires forall j :: 0 <= j < |vs| ==> lens[j] == 0 && dups[j] == 0
    ensures RowsDone(a, c, lens, dups, vs, ratio, diag, 0, [])
  {
    hide Start, RowDone;
    forall j | 0 <= j < |vs|
      ensures RowDone(a, c, Start(vs, j), Start(vs, j + 1), lens[j], dups[j], vs, ratio, diag, 0, j)
    {
      StartMonotone(vs, j, j + 1);
      StartMonotone(vs, j + 1, |vs|);
      EmptyRowDone(a, c, Start(vs, j), Start(vs, j + 1), vs, ratio, diag, j);
    }
  }

  lemma EmptyRowDone(a: seq<real>, c: seq<int>, lo: nat, hi: nat, vs: seq<SparseVec>, ratio: real, diag: real, j: nat)
    requires VecsOk(vs, |vs|) && j < |vs| && lo <= hi <= |a| == |c|
    requires forall k :: lo <= k < hi ==> a[k] == 0.0 && c[k] == EMPTY
    ensures RowDone(a, c, lo, hi, 0, 0, vs, ratio, diag, 0, j)
  {
    hide RowSum;
    forall col ensures RowSum(c[lo..hi], a[lo..hi], col) == Entry(vs, ratio, diag, 0, j, col) {
      RowSumEmpty(c[lo..hi], a[lo..hi], col);
    }
  }

  /** Once a vector has been added to the rows of its columns it has been added to
      all rows: it has no share in the others. */
  lemma VectorAdded(a: seq<real>, c: seq<int>, lens: seq<nat>, dups: seq<int>, vs: seq<SparseVec>, ratio: real,
                    diag: real, i: nat)
    requires VecsOk(vs, |vs|) && i < |vs| && RowsDone(a, c, lens, dups, vs, ratio, diag, i, vs[i].cols)
    ensures RowsDone(a, c, lens, dups, vs, ratio, diag, i + 1, [])
  {
    hide Start, RowDone;
    forall j | 0 <= j < |vs|
      ensures RowDone(a, c, Start(vs, j), Start(vs, j + 1), lens[j], dups[j], vs, ratio, diag, i + 1, j)
    {
      assert RowDone(a, c, Start(vs, j), Start(vs, j + 1), lens[j], dups[j], vs, ratio, diag,
                     if j in vs[i].cols then i + 1 else i, j);
      if j !in vs[i].cols {
        RowWithoutShare(a, c, Start(vs, j), Start(vs, j + 1), lens[j], dups[j], vs, ratio, diag, i, j);
      }
    }
  }

  lemma RowWithoutShare(a: seq<real>, c: seq<int>, lo: nat, hi: nat, len: nat, dup: int,
                        vs: seq<SparseVec>, ratio: real, diag: real, i: nat, j: int)
    requires VecsOk(vs, |vs|) && i < |vs| && j !in vs[i].cols && RowDone(a, c, lo, hi, len, dup, vs, ratio, diag, i, j)
    ensures RowDone(a, c, lo, hi, len, dup, vs, ratio, diag, i + 1, j)
  {
    hide RowSum, RowOk, Share, Power;
    var cs, xs := c[lo..hi], a[lo..hi];
    forall col ensures RowSum(cs, xs, col) == Entry(vs, ratio, diag, i + 1, j, col) {
      NoShare(vs[i], Power(ratio, i), diag, i, j, col);
      EntryStep(vs, ratio, diag, i, j, col);
    }
  }

  method AddAll(a: array<real>, colidx: array<int>, rowstr: array<int>, nzloc: array<int>, vs: seq<SparseVec>,
                ratio: real, rcond: real, shift: real)
    returns (ghost lens: seq<nat>)
    requires VecsOk(vs, |vs|)
    requires a.Length == colidx.Length && rowstr.Length == |vs| + 1 && nzloc.Length == |vs|
    requires rowstr != nzloc && rowstr != colidx && nzloc != colidx
    requires forall j :: 0 <= j <= |vs| ==> rowstr[j] == Start(vs, j)
    requires Start(vs, |vs|) <= a.Length
    modifies a, colidx, nzloc
    ensures RowsDone(a[..], colidx[..], lens, nzloc[..], vs, ratio, rcond - shift, |vs|, [])
  {
    hide Start, RowDone, RowsDone;
    Preload(a, colidx, rowstr, nzloc, vs);
    lens := seq(|vs|, j => 0);
    Preloaded(a[..], colidx[..], lens, nzloc[..], vs, ratio, rcond - shift);
    var size := 1.0;
    var i := 0;
    while i < |vs|
      invariant 0 <= i <= |vs| && size == Power(ratio, i)
      invariant |lens| == |vs| && RowsDone(a[..], colidx[..], lens, nzloc[..], vs, ratio, rcond - shift, i, [])
    {
      lens := AddVector(a, colidx, rowstr, nzloc, vs, i, size, rcond, shift, ratio, lens);
      VectorAdded(a[..], colidx[..], lens, nzloc[..], vs, ratio, rcond - shift, i);
      size := size * ratio;
      i := i + 1;
    }
  }

  // ----- moving the rows together -----

  /** The sum of the first `j` elements. */
  ghost function Total(s: seq<int>, j: nat): int
    requires j <= |s|
  {
    if j == 0 then 0 else Total(s, j - 1) + s[j - 1]
  }

  lemma {:induction false} TotalMonotone(s: seq<int>, j: nat, k: nat)
    requires j <= k <= |s| && forall i :: 0 <= i < |s| ==> s[i] >= 0
    ensures Total(s, j) <= Total(s, k)
  {
    if j < k {
      TotalMonotone(s, j, k - 1);
    }
  }

  /** Every reserved slot is either filled or counted as a duplicate. */
  ghost predicate Shared(vs: seq<SparseVec>, lens: seq<int>, dups: seq<int>) {
    && |lens| == |dups| == |vs|
    && forall j :: 0 <= j < |vs| ==> lens[j] >= 0 && dups[j] >= 0 && lens[j] + dups[j] == Reserved(vs, |vs|, j)
  }

  lemma {:induction false} StartIsTotal(vs: seq<SparseVec>, lens: seq<int>, dups: seq<int>, j: nat)
    requires Shared(vs, lens, dups) && j <= |vs|
    ensures Start(vs, j) == Total(lens, j) + Total(dups, j) && Total(dups, j) >= 0 && Total(lens, j) >= 0
  {
    if j > 0 {
      StartIsTotal(vs, lens, dups, j - 1);
    }
  }

  method Accumulate(nzloc: array<int>)
    modifies nzloc
    ensures forall j :: 0 <= j < nzloc.Length ==> nzloc[j] == Total(old(nzloc[..]), j + 1)
  {
    ghost var s := nzloc[..];
    var j := 1;
    while j < nzloc.Length
      invariant 1 <= j && (nzloc.Length > 0 ==> j <= nzloc.Length)
      invariant forall k :: 0 <= k < j && k < nzloc.Length ==> nzloc[k] == Total(s, k + 1)
      invariant forall k :: j <= k < nzloc.Length ==> nzloc[k] == s[k]
    {
      nzloc[j] := nzloc[j] + nzloc[j - 1];
      j := j + 1;
    }
  }

  /** Move `j2 - j1` slots down from `nza` to `j1`, front to back: nothing is
      overwritten before it has been read. */
  method MoveRow(a: array<real>, colidx: array<int>, j1: nat, j2: nat, from: nat)
    requires j1 <= from && j1 <= j2 && from + (j2 - j1) <= a.Length == colidx.Length
    modifies a, colidx
    ensures a[j1..j2] == old(a[from..from + (j2 - j1)]) && colidx[j1..j2] == old(colidx[from..from + (j2 - j1)])
    ensures forall i :: 0 <= i < a.Length && !(j1 <= i < j2) ==> a[i] == old(a[i]) && colidx[i] == old(colidx[i])
  {
    hide Slid;
    ghost var a0, c0 := a[..], colidx[..];
    SlidNone(a0, j1, from);
    SlidNone(c0, j1, from);
    var nza := from;
    var k := j1;
    while k < j2
      invariant j1 <= k <= j2 && nza == from + (k - j1)
      invariant a[..] == Slid(a0, j1, from, k - j1) && colidx[..] == Slid(c0, j1, from, k - j1)
    {
      SlidOne(a0, j1, from, k - j1);
      SlidOne(c0, j1, from, k - j1);
      a[k] := a[nza];
      colidx[k] := colidx[nza];
      nza := nza + 1;
      k := k + 1;
    }
    SlidAll(a0, j1, from, j2 - j1);
    SlidAll(c0, j1, from, j2 - j1);
  }

  /** The first `n` elements from `from` on have been copied down to `to`. */
  ghost function Slid<T>(s: seq<T>, to: nat, from: nat, n: nat): (t: seq<T>)
    requires to <= from && from + n <= |s|
    ensures |t| == |s|
  {
    s[..to] + s[from..from + n] + s[to + n..]
  }

  lemma SlidNone<T>(s: seq<T>, to: nat, from: nat)
    requires to <= from <= |s|
    ensures Slid(s, to, from, 0) == s
  {
  }

  lemma SlidOne<T>(s: seq<T>, to: nat, from: nat, n: nat)
    requires to <= from && from + n < |s|
    ensures Slid(s, to, from, n)[from + n] == s[from + n]
    ensures Slid(s, to, from, n)[to + n := s[from + n]] == Slid(s, to, from, n + 1)
  {
  }

  lemma SlidAll<T>(s: seq<T>, to: nat, from: nat, n: nat)
    requires to <= from && from + n <= |s|
    ensures Slid(s, to, from, n)[to..to + n] == s[from..from + n]
    ensures forall i :: 0 <= i < |s| && !(to <= i < to + n) ==> Slid(s, to, from, n)[i] == s[i]
  {
  }

  /** The filled slots of row `j` have reached their final place. */
  ghost predicate Moved(a': seq<real>, c': seq<int>, a: seq<real>, c: seq<int>, from: int, to: int, len: int) {
    && |a| == |c| == |a'| == |c'| && 0 <= len && 0 <= to <= from && from + len <= |a|
    && a'[to..to + len] == a[from..from + len] && c'[to..to + len] == c[from..from + len]
  }

  ghost predicate Packed(a': seq<real>, c': seq<int>, a: seq<real>, c: seq<int>, vs: seq<SparseVec>, lens: seq<int>,
                         j: nat)
    requires j <= |vs| == |lens|
  {
    forall k :: 0 <= k < j ==> Moved(a', c', a, c, Start(vs, k), Total(lens, k), lens[k])
  }

  lemma MovedStays(a'': seq<real>, c'': seq<int>, a': seq<real>, c': seq<int>, a: seq<real>, c: seq<int>,
                   from: int, to: int, len: int, lo: int)
    requires Moved(a', c', a, c, from, to, len) && to + len <= lo && |a''| == |c''| == |a|
    requires forall i :: 0 <= i < lo && i < |a| ==> a''[i] == a'[i] && c''[i] == c'[i]
    ensures Moved(a'', c'', a, c, from, to, len)
  {
    assert a''[to..to + len] == a'[to..to + len] && c''[to..to + len] == c'[to..to + len];
  }

  method Compact(a: array<real>, colidx: array<int>, rowstr: array<int>, nzloc: array<int>, vs: seq<SparseVec>,
                 ghost lens: seq<int>, ghost dups: seq<int>)
    requires a.Length == colidx.Length && rowstr.Length == |vs| + 1 && nzloc.Length == |vs|
    requires rowstr != nzloc && rowstr != colidx && nzloc != colidx
    requires |lens| == |dups| == |vs| && Shared(vs, lens, dups) && Start(vs, |vs|) <= a.Length
    requires forall j :: 0 <= j <= |vs| ==> rowstr[j] == Start(vs, j)
    requires forall j :: 0 <= j < |vs| ==> nzloc[j] == Total(dups, j + 1)
    modifies a, colidx
    ensures Packed(a[..], colidx[..], old(a[..]), old(colidx[..]), vs, lens, |vs|)
  {
    hide Start, Total, Shared, Moved, Packed;
    ghost var a0, c0 := a[..], colidx[..];
    PackedNone(a0, c0, vs, lens);
    var j := 0;
    while j < |vs|
      invariant 0 <= j <= |vs| && Packed(a[..], colidx[..], a0, c0, vs, lens, j)
      invariant forall i :: Start(vs, j) <= i < a.Length ==> a[i] == a0[i] && colidx[i] == c0[i]
    {
      var j1 := if j > 0 then rowstr[j] - nzloc[j - 1] else 0;
      var j2 := rowstr[j + 1] - nzloc[j];
      RowPlace(vs, lens, dups, j);
      ghost var a1, c1 := a[..], colidx[..];
      MoveRow(a, colidx, j1, j2, rowstr[j]);
      PackedStep(a[..], colidx[..], a1, c1, a0, c0, vs, lens, dups, j);
      j := j + 1;
    }
  }

  lemma PackedNone(a: seq<real>, c: seq<int>, vs: seq<SparseVec>, lens: seq<int>)
    requires |a| == |c| && |lens| == |vs|
    ensures Packed(a, c, a, c, vs, lens, 0)
  {
  }

  lemma RowPlace(vs: seq<SparseVec>, lens: seq<int>, dups: seq<int>, j: nat)
    requires Shared(vs, lens, dups) && j < |vs|
    ensures Total(lens, 0) == 0 && Total(dups, 0) == 0
    ensures 0 <= Total(lens, j) == Start(vs, j) - Total(dups, j) <= Start(vs, j)
    ensures Total(lens, j) <= Total(lens, j + 1) == Start(vs, j + 1) - Total(dups, j + 1)
    ensures Total(lens, j + 1) == Total(lens, j) + lens[j]
    ensures Start(vs, j) + lens[j] <= Start(vs, j + 1) <= Start(vs, |vs|)
  {
    StartIsTotal(vs, lens, dups, j);
    StartIsTotal(vs, lens, dups, j + 1);
    StartMonotone(vs, j + 1, |vs|);
  }

  lemma PackedStep(a'': seq<real>, c'': seq<int>, a': seq<real>, c': seq<int>, a: seq<real>, c: seq<int>,
                   vs: seq<SparseVec>, lens: seq<int>, dups: seq<int>, j: nat)
    requires |lens| == |vs| && Shared(vs, lens, dups) && j < |vs| && Packed(a', c', a, c, vs, lens, j)
    requires |a| == |c| == |a'| == |c'| == |a''| == |c''| && Start(vs, |vs|) <= |a|
    requires forall i :: Start(vs, j) <= i < |a| ==> a'[i] == a[i] && c'[i] == c[i]
    requires var lo, hi, from := Total(lens, j), Total(lens, j + 1), Start(vs, j);
             && 0 <= lo <= hi <= |a| && 0 <= from && from + (hi - lo) <= |a|
             && a''[lo..hi] == a'[from..from + (hi - lo)] && c''[lo..hi] == c'[from..from + (hi - lo)]
             && forall i :: 0 <= i < |a| && !(lo <= i < hi) ==> a''[i] == a'[i] && c''[i] == c'[i]
    ensures Packed(a'', c'', a, c, vs, lens, j + 1)
    ensures forall i :: Start(vs, j + 1) <= i < |a| ==> a''[i] == a[i] && c''[i] == c[i]
  {
    hide Start, Total, Shared;
    RowPlace(vs, lens, dups, j);
    var lo, hi, from := Total(lens, j), Total(lens, j + 1), Start(vs, j);
    assert a'[from..from + (hi - lo)] == a[from..from + (hi - lo)] &&
           c'[from..from + (hi - lo)] == c[from..from + (hi - lo)];
    forall k | 0 <= k < j + 1 ensures Moved(a'', c'', a, c, Start(vs, k), Total(lens, k), lens[k]) {
      if k < j {
        LowerRow(vs, lens, dups, k, j);
        MovedStays(a'', c'', a', c', a, c, Start(vs, k), Total(lens, k), lens[k], lo);
      }
    }
  }

  lemma {:induction false} LowerRow(vs: seq<SparseVec>, lens: seq<int>, dups: seq<int>, k: nat, j: nat)
    requires Shared(vs, lens, dups) && k < j <= |vs|
    ensures Total(lens, k) + lens[k] <= Total(lens, j)
  {
    hide Reserved;
    TotalMonotone(lens, k + 1, j);
  }

  // ----- the result -----

  /** A matrix in compressed rows: row `j` is the stretch from `rowstr[j]` to
      `rowstr[j + 1]`, its columns in increasing order. */
  ghost predicate IsCsr(a: seq<real>, c: seq<int>, rowstr: seq<int>, n: nat) {
    && |rowstr| == n + 1 && |a| == |c| && rowstr[0] == 0
    && forall j :: 0 <= j < n ==> RowShape(c, rowstr[j], rowstr[j + 1], n)
  }

  ghost predicate RowShape(c: seq<int>, lo: int, hi: int, n: nat) {
    0 <= lo <= hi <= |c| && Increasing(c[lo..hi], hi - lo, n)
  }

  /** Entry (j, col) of the matrix. */
  ghost function CsrEntry(a: seq<real>, c: seq<int>, rowstr: seq<int>, n: nat, j: nat, col: int): real
    requires IsCsr(a, c, rowstr, n) && j < n
  {
    assert RowShape(c, rowstr[j], rowstr[j + 1], n);
    RowSum(c[rowstr[j]..rowstr[j + 1]], a[rowstr[j]..rowstr[j + 1]], col)
  }

  /** Dropping the empty slots of a row changes neither its order nor its contents. */
  lemma FilledPart(cs: seq<int>, xs: seq<real>, len: nat, n: int, col: int)
    requires RowOk(cs, xs, len, n)
    ensures Increasing(cs[..len], len, n) && RowSum(cs[..len], xs[..len], col) == RowSum(cs, xs, col)
  {
    assert cs == cs[..len] + cs[len..] && xs == xs[..len] + xs[len..];
    RowSumSplit(cs[..len], xs[..len], cs[len..], xs[len..], col);
    RowSumEmpty(cs[len..], xs[len..], col);
  }

  lemma RowFinal(a': seq<real>, c': seq<int>, a: seq<real>, c: seq<int>, lo: nat, hi: nat, to: int, len: nat, dup: int,
                 vs: seq<SparseVec>, ratio: real, diag: real, j: int)
    requires VecsOk(vs, |vs|) && RowDone(a, c, lo, hi, len, dup, vs, ratio, diag, |vs|, j)
    requires Moved(a', c', a, c, lo, to, len) && lo + len <= hi
    ensures RowShape(c', to, to + len, |vs|)
    ensures forall col :: RowSum(c'[to..to + len], a'[to..to + len], col) == Entry(vs, ratio, diag, |vs|, j, col)
  {
    hide RowSum, Entry, RowOk, Increasing;
    var cs, xs := c[lo..hi], a[lo..hi];
    assert cs[..len] == c[lo..lo + len] && xs[..len] == a[lo..lo + len];
    forall col ensures RowSum(c'[to..to + len], a'[to..to + len], col) == Entry(vs, ratio, diag, |vs|, j, col) {
      FilledPart(cs, xs, len, |vs|, col);
      assert RowSum(cs, xs, col) == Entry(vs, ratio, diag, |vs|, j, col);
    }
    FilledPart(cs, xs, len, |vs|, 0);
  }

  /** The matrix that the arrays hold is the one the vectors describe. */
  ghost predicate HoldsMatrix(a: seq<real>, c: seq<int>, rowstr: seq<int>, vs: seq<SparseVec>, ratio: real, diag: real)
    requires VecsOk(vs, |vs|)
  {
    && IsCsr(a, c, rowstr, |vs|)
    && forall j, col :: 0 <= j < |vs| ==> CsrEntry(a, c, rowstr, |vs|, j, col) == Matrix(vs, ratio, diag, j, col)
  }

  lemma RowsShared(a: seq<real>, c: seq<int>, lens: seq<nat>, dups: seq<int>, vs: seq<SparseVec>, ratio: real,
                   diag: real)
    requires VecsOk(vs, |vs|) && RowsDone(a, c, lens, dups, vs, ratio, diag, |vs|, [])
    ensures Shared(vs, lens, dups)
  {
    hide Start, RowOk, RowIs, Reserved;
    forall j | 0 <= j < |vs| ensures lens[j] >= 0 && dups[j] >= 0 && lens[j] + dups[j] == Reserved(vs, |vs|, j) {
      assert RowDone(a, c, Start(vs, j), Start(vs, j + 1), lens[j], dups[j], vs, ratio, diag, |vs|, j);
    }
  }

  lemma Final(a': seq<real>, c': seq<int>, a: seq<real>, c: seq<int>, rowstr: seq<int>, lens: seq<nat>, dups: seq<int>,
              vs: seq<SparseVec>, ratio: real, diag: real)
    requires VecsOk(vs, |vs|) && RowsDone(a, c, lens, dups, vs, ratio, diag, |vs|, [])
    requires Packed(a', c', a, c, vs, lens, |vs|) && |rowstr| == |vs| + 1 && |a'| == |c'|
    requires forall j :: 0 <= j <= |vs| ==> rowstr[j] == Total(lens, j)
    ensures HoldsMatrix(a', c', rowstr, vs, ratio, diag)
  {
    hide Start, Total, RowDone, RowSum, Entry, Moved, Increasing, Matrix;
    RowsShared(a, c, lens, dups, vs, ratio, diag);
    TotalOfNone(lens);
    forall j | 0 <= j < |vs|
      ensures RowShape(c', rowstr[j], rowstr[j + 1], |vs|)
      ensures rowstr[j + 1] == rowstr[j] + lens[j]
      ensures forall col :: RowSum(c'[rowstr[j]..rowstr[j] + lens[j]], a'[rowstr[j]..rowstr[j] + lens[j]], col)
                         == Matrix(vs, ratio, diag, j, col)
    {
      forall col ensures Entry(vs, ratio, diag, |vs|, j, col) == Matrix(vs, ratio, diag, j, col) {
        EntryIsMatrix(vs, ratio, diag, j, col);
      }
      assert RowDone(a, c, Start(vs, j), Start(vs, j + 1), lens[j], dups[j], vs, ratio, diag, |vs|, j);
      RowPlace(vs, lens, dups, j);
      RowFinal(a', c', a, c, Start(vs, j), Start(vs, j + 1), Total(lens, j), lens[j], dups[j], vs, ratio, diag, j);
    }
  }

  lemma TotalOfNone(s: seq<int>)
    ensures Total(s, 0) == 0
  {
  }

  method AdjustStarts(rowstr: array<int>, nzloc: array<int>, ghost vs: seq<SparseVec>, ghost lens: seq<int>,
                      ghost dups: seq<int>)
    requires rowstr.Length == |vs| + 1 && nzloc.Length == |vs| && rowstr != nzloc
    requires |lens| == |dups| == |vs| && Shared(vs, lens, dups)
    requires forall j :: 0 <= j <= |vs| ==> rowstr[j] == Start(vs, j)
    requires forall j :: 0 <= j < |vs| ==> nzloc[j] == Total(dups, j + 1)
    modifies rowstr
    ensures forall j :: 0 <= j <= |vs| ==> rowstr[j] == Total(lens, j)
  {
    hide Start, Total, Shared;
    TotalOfNone(lens);
    StartsAtZero(vs);
    var j := 1;
    while j < rowstr.Length
      invariant 1 <= j <= rowstr.Length
      invariant forall k :: 0 <= k < j ==> rowstr[k] == Total(lens, k)
      invariant forall k :: j <= k <= |vs| ==> rowstr[k] == Start(vs, k)
    {
      StartIsTotal(vs, lens, dups, j);
      rowstr[j] := rowstr[j] - nzloc[j - 1];
      j := j + 1;
    }
  }

  /** The room reserved for the triples fits an array of `n * w * w` slots if no
      vector has more than `w` columns. */
  lemma RoomEnough(vs: seq<SparseVec>, w: nat)
    requires forall l :: 0 <= l < |vs| ==> |vs[l].cols| <= w
    ensures Start(vs, |vs|) <= |vs| * (w * w)
  {
    RoomBound(vs, |vs|, |vs|, w);
    RoomStart(vs, |vs|);
  }

  /** How assembling ends: stopped by the space check, past it but with more room
      reserved than the arrays have, or done. */
  datatype Outcome = Stopped | Overrun | Assembled

  /** The space check lets one slot too many pass: two full vectors reserve eight slots,
      and arrays of seven are found large enough. */
  lemma CheckTooLate() returns (vs: seq<SparseVec>, nz: nat)
    ensures VecsOk(vs, |vs|) && Start(vs, |vs|) - 1 <= nz < Start(vs, |vs|)
  {
    var v := SparseVec([0, 1], [0.5, 0.5]);
    vs, nz := [v, v], 7;
    assert v.cols[0] == 0 && v.cols[1] == 1;
    TwoReserve(v, vs, 0);
    TwoReserve(v, vs, 1);
    assert Start(vs, 1) == 4;
  }

  lemma TwoReserve(v: SparseVec, vs: seq<SparseVec>, j: int)
    requires vs == [v, v] && j in v.cols && |v.cols| == 2
    ensures Reserved(vs, 2, j) == 4
  {
    assert vs[0] == v && vs[1] == v;
    assert Reserved(vs, 1, j) == 2;
  }

  /** Assemble the matrix.  If the reserved room fits, the arrays end up holding the
      matrix, and the search for a slot has never come to the end of a row.  If it does
      not fit, the space check stops the program, except when exactly one slot is
      missing. */
  method Assemble(a: array<real>, colidx: array<int>, rowstr: array<int>, nzloc: array<int>, vs: seq<SparseVec>,
                  ratio: real, rcond: real, shift: real)
    returns (r: Outcome)
    requires VecsOk(vs, |vs|)
    requires a.Length == colidx.Length && rowstr.Length == |vs| + 1 && nzloc.Length == |vs|
    requires rowstr != nzloc && rowstr != colidx && nzloc != colidx
    modifies a, colidx, rowstr, nzloc
    ensures r.Assembled? <==> Start(vs, |vs|) <= a.Length
    ensures r.Overrun? <==> Start(vs, |vs|) == a.Length + 1
    ensures r.Assembled? ==> HoldsMatrix(a[..], colidx[..], rowstr[..], vs, ratio, rcond - shift)
    ensures !r.Assembled? ==> a[..] == old(a[..]) && colidx[..] == old(colidx[..])
  {
    hide Start, RowsDone, Shared, Total, HoldsMatrix, Packed;
    var nz := a.Length;
    CountRows(vs, rowstr);
    var nza := rowstr[|vs|] - 1;
    if nza > nz {
      return Stopped;
    }
    if nza == nz {
      return Overrun;
    }
    ghost var lens := AddAll(a, colidx, rowstr, nzloc, vs, ratio, rcond, shift);
    ghost var a1, c1, dups := a[..], colidx[..], nzloc[..];
    RowsLength(a1, c1, lens, dups, vs, ratio, rcond - shift);
    RowsShared(a1, c1, lens, dups, vs, ratio, rcond - shift);
    Accumulate(nzloc);
    Compact(a, colidx, rowstr, nzloc, vs, lens, dups);
    AdjustStarts(rowstr, nzloc, vs, lens, dups);
    Final(a[..], colidx[..], a1, c1, rowstr[..], lens, dups, vs, ratio, rcond - shift);
    r := Assembled;
  }

  lemma RowsLength(a: seq<real>, c: seq<int>, lens: seq<nat>, dups: seq<int>, vs: seq<SparseVec>, ratio: real,
                   diag: real)
    requires VecsOk(vs, |vs|) && RowsDone(a, c, lens, dups, vs, ratio, diag, |vs|, [])
    ensures |lens| == |dups| == |vs|
  {
  }

  /** The assembled matrix is symmetric. */
  lemma MatrixSymmetric(a: seq<real>, c: seq<int>, rowstr: seq<int>, vs: seq<SparseVec>, ratio: real, diag: real,
                        j: nat, k: nat)
    requires VecsOk(vs, |vs|) && HoldsMatrix(a, c, rowstr, vs, ratio, diag) && j < |vs| && k < |vs|
    ensures CsrEntry(a, c, rowstr, |vs|, j, k) == CsrEntry(a, c, rowstr, |vs|, k, j)
  {
    hide IsCsr, CsrEntry;
    OuterSymmetric(vs, ratio, |vs|, j, k);
  }
}
