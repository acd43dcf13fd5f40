/** The sparse assembly: count, prefix-sum, ordered insertion with merging of
    duplicates, and compaction, all in place. */
module Sparse {
  import opened SparseRows
  import opened SparseModel

  // ----- reserving room -----

  /** `rowstr[j]` becomes the start of row `j`, with room for every element that the
      vectors will contribute to the row. */
  method CountRows(vs: seq<SparseVec>, rowstr: array<int>)
    requires VecsOk(vs, |vs|) && rowstr.Length == |vs| + 1
    modifies rowstr
    ensures forall j :: 0 <= j <= |vs| ==> rowstr[j] == Start(vs, j)
  {
    var n := |vs|;
    var j := 0;
    while j < n + 1
      invariant 0 <= j <= n + 1 && forall k :: 0 <= k < j ==> rowstr[k] == 0
    {
      rowstr[j] := 0;
      j := j + 1;
    }
    var i := 0;
    while i < n
      invariant 0 <= i <= n && Counted(vs, i, rowstr[..])
    {
      CountVector(vs, i, rowstr);
      i := i + 1;
    }
    rowstr[0] := 0;
    PrefixSums(vs, rowstr);
  }

  method PrefixSums(vs: seq<SparseVec>, rowstr: array<int>)
    requires rowstr.Length == |vs| + 1 && Counted(vs, |vs|, rowstr[..])
    modifies rowstr
    ensures forall j :: 0 <= j <= |vs| ==> rowstr[j] == Start(vs, j)
  {
    hide Reserved, Start;
    var n := |vs|;
    StartStep(vs, 0);
    var j := 1;
    while j < n + 1
      invariant 1 <= j <= n + 1
      invariant forall k :: 0 <= k < j ==> rowstr[k] == Start(vs, k)
      invariant forall k :: j <= k <= n ==> rowstr[k] == Reserved(vs, n, k - 1)
    {
      StartStep(vs, j);
      rowstr[j] := rowstr[j] + rowstr[j - 1];
      j := j + 1;
    }
  }

  lemma StartStep(vs: seq<SparseVec>, j: nat)
    ensures Start(vs, j) == if j == 0 then 0 else Start(vs, j - 1) + Reserved(vs, |vs|, j - 1)
  {
  }

  /** Every entry but the first holds the room reserved for the row before it. */
  ghost predicate Counted(vs: seq<SparseVec>, i: nat, rowstr: seq<int>)
    requires i <= |vs|
  {
    |rowstr| == |vs| + 1 && rowstr[0] == 0 && forall k :: 1 <= k <= |vs| ==> rowstr[k] == Reserved(vs, i, k - 1)
  }

  method CountVector(vs: seq<SparseVec>, i: nat, rowstr: array<int>)
    requires i < |vs| && VecsOk(vs, |vs|) && rowstr.Length == |vs| + 1
    requires Counted(vs, i, rowstr[..])
    modifies rowstr
    ensures Counted(vs, i + 1, rowstr[..])
  {
    var cols := vs[i].cols;
    var nza := 0;
    while nza < |cols|
      invariant 0 <= nza <= |cols| && rowstr[0] == 0
      invariant forall k :: 1 <= k <= |vs| ==>
                              rowstr[k] == Reserved(vs, i, k - 1) + if k - 1 in cols[..nza] then |cols| else 0
    {
      assert VecOk(vs[i], |vs|);
      var j := cols[nza] + 1;
      assert cols[..nza + 1] == cols[..nza] + [cols[nza]];
      assert cols[nza] !in cols[..nza];
      rowstr[j] := rowstr[j] + |cols|;
      nza := nza + 1;
    }
    assert cols[..nza] == cols;
  }

  // ----- adding the vectors -----

  ghost predicate OffRange(a: seq<real>, c: seq<int>, a': seq<real>, c': seq<int>, lo: nat, hi: nat)
    requires |a| == |c| == |a'| == |c'|
  {
    forall i :: 0 <= i < |a| && !(lo <= i < hi) ==> a'[i] == a[i] && c'[i] == c[i]
  }

  /** What `t` elements of a vector add to column `c` of a row. */
  ghost function Added(v: SparseVec, t: nat, scale: real, diagonal: bool, j: int, diag: real, c: int): real
    requires t <= |v.cols| == |v.vals|
  {
    scale * RowSum(v.cols[..t], v.vals[..t], c) + if diagonal && c == j && j in v.cols[..t] then diag else 0.0
  }

  lemma AddedStep(v: SparseVec, t: nat, scale: real, diagonal: bool, j: int, diag: real, c: int, n: nat)
    requires VecOk(v, n) && t < |v.cols|
    ensures Added(v, t + 1, scale, diagonal, j, diag, c)
         == Added(v, t, scale, diagonal, j, diag, c)
          + (if c == v.cols[t] then v.vals[t] * scale + (if diagonal && v.cols[t] == j then diag else 0.0) else 0.0)
  {
    var cs, xs := v.cols[..t + 1], v.vals[..t + 1];
    assert cs[..t] == v.cols[..t] && xs[..t] == v.vals[..t];
    assert cs == v.cols[..t] + [v.cols[t]];
    assert v.cols[t] !in v.cols[..t];
    var s := RowSum(v.cols[..t], v.vals[..t], c);
    assert scale * (s + v.vals[t]) == scale * s + v.vals[t] * scale;
    assert scale * (s + 0.0) == scale * s;
  }

  /** The row has gained what `t` elements of the vector add. */
  ghost predicate RowGains(cs: seq<int>, xs: seq<real>, cs': seq<int>, xs': seq<real>,
                           v: SparseVec, t: nat, scale: real, diagonal: bool, j: int, diag: real)
    requires |cs| == |xs| && |cs'| == |xs'| && t <= |v.cols| == |v.vals|
  {
    forall c :: RowSum(cs', xs', c) == RowSum(cs, xs, c) + Added(v, t, scale, diagonal, j, diag, c)
  }

  /** Add `scale` times vector `v` to row `j`, and `rcond - shift` on the diagonal if
      this is the row's own vector. */
  method AddToRow(a: array<real>, colidx: array<int>, lo: nat, hi: nat, v: SparseVec, scale: real,
                  i: nat, j: int, rcond: real, shift: real, ghost n: nat, ghost len: nat)
    returns (dups: nat)
    requires lo <= hi <= colidx.Length == a.Length && VecOk(v, n)
    requires RowOk(colidx[lo..hi], a[lo..hi], len, n) && len + |v.cols| <= hi - lo
    modifies a, colidx
    ensures dups <= len + |v.cols| && RowOk(colidx[lo..hi], a[lo..hi], len + |v.cols| - dups, n)
    ensures RowGains(old(colidx[lo..hi]), old(a[lo..hi]), colidx[lo..hi], a[lo..hi], v, |v.cols|, scale, i == j, j,
                     rcond - shift)
    ensures OffRange(old(a[..]), old(colidx[..]), a[..], colidx[..], lo, hi)
  {
    hide RowSum, Added, RowOk;
    ghost var cs, xs := colidx[lo..hi], a[lo..hi];
    dups := 0;
    var nzrow := 0;
    NothingAdded(v, scale, i == j, j, rcond - shift);
    while nzrow < |v.cols|
      invariant 0 <= nzrow <= |v.cols| && dups <= len + nzrow
      invariant RowOk(colidx[lo..hi], a[lo..hi], len + nzrow - dups, n)
      invariant RowGains(cs, xs, colidx[lo..hi], a[lo..hi], v, nzrow, scale, i == j, j, rcond - shift)
      invariant forall k :: 0 <= k < a.Length && !(lo <= k < hi) ==> a[k] == old(a[k]) && colidx[k] == old(colidx[k])
    {
      var jcol := v.cols[nzrow];
      var va := v.vals[nzrow] * scale;
      if jcol == j && j == i {
        va := va + rcond - shift;
      }
      ghost var size := len + nzrow - dups;
      var dup := AddEntry(a, colidx, lo, hi, jcol, va, size, n);
      if dup {
        dups := dups + 1;
        RowOkBound(old(colidx[lo..hi]), old(a[lo..hi]), len, n);
      }
      forall c ensures RowSum(colidx[lo..hi], a[lo..hi], c)
                    == RowSum(cs, xs, c) + Added(v, nzrow + 1, scale, i == j, j, rcond - shift, c)
      {
        AddedStep(v, nzrow, scale, i == j, j, rcond - shift, c, n);
      }
      nzrow := nzrow + 1;
    }
  }

  lemma RowOkBound(cs: seq<int>, xs: seq<real>, len: nat, n: int)
    requires RowOk(cs, xs, len, n)
    ensures len <= |cs|
  {
  }

  lemma NothingAdded(v: SparseVec, scale: real, diagonal: bool, j: int, diag: real)
    requires |v.cols| == |v.vals|
    ensures forall c :: Added(v, 0, scale, diagonal, j, diag, c) == 0.0
  {
    forall c ensures Added(v, 0, scale, diagonal, j, diag, c) == 0.0 {
      assert v.cols[..0] == [] && v.vals[..0] == [];
      assert scale * 0.0 == 0.0;
    }
  }

  /** Row `j`, in the slots from `lo` to `hi`, after the first `i` vectors: in order,
      with the right contents, and with every element either in a slot of its own
      or counted as a duplicate. */
  ghost predicate RowDone(a: seq<real>, c: seq<int>, lo: nat, hi: nat, len: nat, dup: int,
                          vs: seq<SparseVec>, ratio: real, diag: real, i: nat, j: int)
    requires i <= |vs| && forall l :: 0 <= l < |vs| ==> |vs[l].cols| == |vs[l].vals|
  {
    && lo <= hi <= |a| == |c| && RowOk(c[lo..hi], a[lo..hi], len, |vs|) && len + dup == Reserved(vs, i, j) && dup >= 0
    && RowIs(c[lo..hi], a[lo..hi], vs, ratio, diag, i, j)
  }

  ghost predicate RowIs(cs: seq<int>, xs: seq<real>, vs: seq<SparseVec>, ratio: real, diag: real, i: nat, j: int)
    requires |cs| == |xs| && i <= |vs| && forall l :: 0 <= l < |vs| ==> |vs[l].cols| == |vs[l].vals|
  {
    forall col :: RowSum(cs, xs, col) == Entry(vs, ratio, diag, i, j, col)
  }

  lemma RowUntouched(a: seq<real>, c: seq<int>, a': seq<real>, c': seq<int>, lo: nat, hi: nat, from: nat, to: nat)
    requires |a| == |c| == |a'| == |c'| && OffRange(a, c, a', c', from, to) && lo <= hi <= |a| &&
             (hi <= from || to <= lo)
    ensures a'[lo..hi] == a[lo..hi] && c'[lo..hi] == c[lo..hi]
  {
  }

  /** The whole vector has been added to the row. */
  lemma AddedAll(v: SparseVec, size: real, nza: nat, scale: real, i: nat, diag: real, n: nat, c: int)
    requires VecOk(v, n) && nza < |v.cols| && scale == size * v.vals[nza]
    ensures var j := v.cols[nza];
            Added(v, |v.cols|, scale, i == j, j, diag, c) == Share(v, size, diag, i, j, c)
  {
    assert v.cols[..|v.cols|] == v.cols && v.vals[..|v.cols|] == v.vals;
    ComponentAt(v, nza);
  }

  /** A vector without column `j` leaves row `j` alone. */
  lemma NoShare(v: SparseVec, size: real, diag: real, i: nat, j: int, c: int)
    requires |v.cols| == |v.vals| && j !in v.cols
    ensures Share(v, size, diag, i, j, c) == 0.0
  {
    ComponentOutside(v, j);
    assert size * 0.0 == 0.0;
    assert 0.0 * Component(v, c) == 0.0;
  }

  ghost predicate RowsDone(a: seq<real>, c: seq<int>, lens: seq<nat>, dups: seq<int>,
                           vs: seq<SparseVec>, ratio: real, diag: real, i: nat, part: seq<int>)
    requires i < |vs| || (i == |vs| && part == [])
    requires forall l :: 0 <= l < |vs| ==> |vs[l].cols| == |vs[l].vals|
  {
    && |lens| == |dups| == |vs|
    && forall j :: 0 <= j < |vs| ==>
         RowDone(a, c, Start(vs, j), Start(vs, j + 1), lens[j], dups[j], vs, ratio, diag, if j in part then i + 1
                   else i, j)
  }

  /** Add vector `i` to the rows of all its columns. */
  method AddVector(a: array<real>, colidx: array<int>, rowstr: array<int>, nzloc: array<int>, vs: seq<SparseVec>,
                   i: nat,
                   size: real, rcond: real, shift: real, ghost ratio: real, ghost lens0: seq<nat>)
    returns (ghost lens: seq<nat>)
    requires VecsOk(vs, |vs|) && i < |vs| && size == Power(ratio, i)
    requires a.Length == colidx.Length && rowstr.Length == |vs| + 1 && nzloc.Length == |vs|
    requires rowstr != nzloc && rowstr != colidx && nzloc != colidx
    requires forall j :: 0 <= j <= |vs| ==> rowstr[j] == Start(vs, j)
    requires |lens0| == |vs| && RowsDone(a[..], colidx[..], lens0, nzloc[..], vs, ratio, rcond - shift, i, [])
    modifies a, colidx, nzloc
    ensures |lens| == |vs| && RowsDone(a[..], colidx[..], lens, nzloc[..], vs, ratio, rcond - shift, i, vs[i].cols)
  {
    hide RowsDone, Start;
    var v := vs[i];
    lens := lens0;
    var nza := 0;
    assert v.cols[..0] == [];
    while nza < |v.cols|
      invariant 0 <= nza <= |v.cols|
      invariant |lens| == |vs| && RowsDone(a[..], colidx[..], lens, nzloc[..], vs, ratio, rcond - shift, i,
                                           v.cols[..nza])
    {
      lens := AddVectorToRow(a, colidx, rowstr, nzloc, vs, i, nza, size, rcond, shift, ratio, lens);
      nza := nza + 1;
    }
    assert v.cols[..nza] == v.cols;
  }

  method AddVectorToRow(a: array<real>, colidx: array<int>, rowstr: array<int>, nzloc: array<int>, vs: seq<SparseVec>,
                        i: nat,
                        nza: nat, size: real, rcond: real, shift: real, ghost ratio: real, ghost lens0: seq<nat>)
    returns (ghost lens: seq<nat>)
    requires VecsOk(vs, |vs|) && i < |vs| && size == Power(ratio, i) && nza < |vs[i].cols|
    requires a.Length == colidx.Length && rowstr.Length == |vs| + 1 && nzloc.Length == |vs|
    requires rowstr != nzloc && rowstr != colidx && nzloc != colidx
    requires forall j :: 0 <= j <= |vs| ==> rowstr[j] == Start(vs, j)
    requires |lens0| == |vs| && RowsDone(a[..], colidx[..], lens0, nzloc[..], vs, ratio, rcond - shift, i,
                                         vs[i].cols[..nza])
    modifies a, colidx, nzloc
    ensures |lens| == |vs| && RowsDone(a[..], colidx[..], lens, nzloc[..], vs, ratio, rcond - shift, i,
                                       vs[i].cols[..nza + 1])
  {
    hide Start, RowOk, Power, RowIs, RowGains, OffRange, RowsDone;
    var v := vs[i];
    assert VecOk(v, |vs|);
    var j := v.cols[nza];
    ghost var part, part' := v.cols[..nza], v.cols[..nza + 1];
    assert part' == part + [j] && j !in part;
    var lo, hi := rowstr[j], rowstr[j + 1];
    RoomLeft(a[..], colidx[..], lens0, nzloc[..], vs, ratio, rcond - shift, i, part, j);
    ghost var a0, c0, dups0 := a[..], colidx[..], nzloc[..];
    assert a0[lo..hi] == a[lo..hi] && c0[lo..hi] == colidx[lo..hi];
    var scale := size * v.vals[nza];
    var dups := AddToRow(a, colidx, lo, hi, v, scale, i, j, rcond, shift, |vs|, lens0[j]);
    nzloc[j] := nzloc[j] + dups;
    lens := lens0[j := lens0[j] + |v.cols| - dups];
    assert nzloc[..] == dups0[j := dups0[j] + dups];
    ghost var a1, c1 := a[..], colidx[..];
    assert a1[lo..hi] == a[lo..hi] && c1[lo..hi] == colidx[lo..hi];
    RowAdvanced(a0, c0, a1, c1, lens0, dups0, dups, vs, ratio, rcond - shift, i, nza, scale);
  }

  lemma RoomLeft(a: seq<real>, c: seq<int>, lens: seq<nat>, dups: seq<int>, vs: seq<SparseVec>, ratio: real, diag: real,
                 i: nat, part: seq<int>, j: int)
    requires VecsOk(vs, |vs|) && i < |vs| && RowsDone(a, c, lens, dups, vs, ratio, diag, i, part)
    requires 0 <= j < |vs| && j !in part && j in vs[i].cols
    ensures Start(vs, j) <= Start(vs, j + 1) <= |a| == |c|
    ensures RowOk(c[Start(vs, j)..Start(vs, j + 1)], a[Start(vs, j)..Start(vs, j + 1)], lens[j], |vs|)
    ensures lens[j] + |vs[i].cols| <= Start(vs, j + 1) - Start(vs, j)
  {
    hide Entry, RowSum, RowOk;
    ReservedMonotone(vs, i + 1, |vs|, j);
    assert RowDone(a, c, Start(vs, j), Start(vs, j + 1), lens[j], dups[j], vs, ratio, diag, i, j);
  }

  lemma RowAdvanced(a: seq<real>, c: seq<int>, a': seq<real>, c': seq<int>, lens: seq<nat>, dups: seq<int>, dup: nat,
                    vs: seq<SparseVec>, ratio: real, diag: real, i: nat, nza: nat, scale: real)
    requires VecsOk(vs, |vs|) && i < |vs| && nza < |vs[i].cols| && |a| == |c| == |a'| == |c'|
    requires nza < |vs[i].vals| && scale == Power(ratio, i) * vs[i].vals[nza]
    requires RowsDone(a, c, lens, dups, vs, ratio, diag, i, vs[i].cols[..nza])
    requires 0 <= vs[i].cols[nza] < |vs| && VecOk(vs[i], |vs|)
    requires var v, j := vs[i], vs[i].cols[nza];
             var lo, hi := Start(vs, j), Start(vs, j + 1);
             && lo <= hi <= |a| && OffRange(a, c, a', c', lo, hi) && dup <= lens[j] + |v.cols|
             && RowOk(c'[lo..hi], a'[lo..hi], lens[j] + |v.cols| - dup, |vs|)
             && RowGains(c[lo..hi], a[lo..hi], c'[lo..hi], a'[lo..hi], v, |v.cols|, scale, i == j, j, diag)
    ensures var v, j := vs[i], vs[i].cols[nza];
            RowsDone(a', c', lens[j := lens[j] + |v.cols| - dup], dups[j := dups[j] + dup], vs, ratio, diag, i,
                     v.cols[..nza + 1])
  {
    hide Start, RowOk, Power, OffRange, RowDone, Reserved, RowGains;
    var v, j := vs[i], vs[i].cols[nza];
    var lens', dups' := lens[j := lens[j] + |v.cols| - dup], dups[j := dups[j] + dup];
    assert v.cols[..nza + 1] == v.cols[..nza] + [j] && j !in v.cols[..nza];
    forall k | 0 <= k < |vs|
      ensures RowDone(a', c', Start(vs, k), Start(vs, k + 1), lens'[k], dups'[k], vs, ratio, diag,
                      if k in v.cols[..nza + 1] then i + 1 else i, k)
    {
      var done := if k in v.cols[..nza] then i + 1 else i;
      assert RowDone(a, c, Start(vs, k), Start(vs, k + 1), lens[k], dups[k], vs, ratio, diag, done, k);
      if k == j {
        OneRowAdvanced(a, c, a', c', Start(vs, j), Start(vs, j + 1), lens[j], dups[j], dup, vs, ratio, diag, i, nza,
                       scale);
      } else {
        Apart(vs, k, j);
        RowStays(a, c, a', c', Start(vs, k), Start(vs, k + 1), Start(vs, j), Start(vs, j + 1),
                 lens[k], dups[k], vs, ratio, diag, done, k);
      }
    }
  }

  lemma RowStays(a: seq<real>, c: seq<int>, a': seq<real>, c': seq<int>, lo: nat, hi: nat, from: nat, to: nat,
                 len: nat, dup: int, vs: seq<SparseVec>, ratio: real, diag: real, i: nat, j: int)
    requires i <= |vs| && forall l :: 0 <= l < |vs| ==> |vs[l].cols| == |vs[l].vals|
    requires |a| == |c| == |a'| == |c'| && OffRange(a, c, a', c', from, to) && (hi <= from || to <= lo)
    requires RowDone(a, c, lo, hi, len, dup, vs, ratio, diag, i, j)
    ensures RowDone(a', c', lo, hi, len, dup, vs, ratio, diag, i, j)
  {
    hide RowSum, RowOk, Entry, OffRange;
    RowUntouched(a, c, a', c', lo, hi, from, to);
  }

  lemma OneRowAdvanced(a: seq<real>, c: seq<int>, a': seq<real>, c': seq<int>, lo: nat, hi: nat, len: nat, dups: int,
                       dup: nat,
                       vs: seq<SparseVec>, ratio: real, diag: real, i: nat, nza: nat, scale: real)
    requires VecsOk(vs, |vs|) && i < |vs| && nza < |vs[i].cols| && VecOk(vs[i], |vs|)
    requires scale == Power(ratio, i) * vs[i].vals[nza]
    requires RowDone(a, c, lo, hi, len, dups, vs, ratio, diag, i, vs[i].cols[nza])
    requires |a| == |a'| == |c'| && dup <= len + |vs[i].cols| &&
             RowOk(c'[lo..hi], a'[lo..hi], len + |vs[i].cols| - dup, |vs|)
    requires var v, j := vs[i], vs[i].cols[nza];
             RowGains(c[lo..hi], a[lo..hi], c'[lo..hi], a'[lo..hi], v, |v.cols|, scale, i == j, j, diag)
    ensures RowDone(a', c', lo, hi, len + |vs[i].cols| - dup, dups + dup, vs, ratio, diag, i + 1, vs[i].cols[nza])
  {
    hide RowSum, RowOk, Power, Added, Share;
    var v, j := vs[i], vs[i].cols[nza];
    var cs, xs := c'[lo..hi], a'[lo..hi];
    forall col ensures RowSum(cs, xs, col) == Entry(vs, ratio, diag, i + 1, j, col) {
      AddedAll(v, Power(ratio, i), nza, scale, i, diag, |vs|, col);
      assert RowSum(c[lo..hi], a[lo..hi], col) == Entry(vs, ratio, diag, i, j, col);
      EntryStep(vs, ratio, diag, i, j, col);
    }
  }

  lemma EntryStep(vs: seq<SparseVec>, ratio: real, diag: real, i: nat, j: int, c: int)
    requires i < |vs| && forall l :: 0 <= l < |vs| ==> |vs[l].cols| == |vs[l].vals|
    ensures Entry(vs, ratio, diag, i + 1, j, c)
         == Entry(vs, ratio, diag, i, j, c) + Share(vs[i], Power(ratio, i), diag, i, j, c)
  {
  }

  lemma Apart(vs: seq<SparseVec>, j: nat, k: nat)
    requires j != k
    ensures Start(vs, j + 1) <= Start(vs, k) || Start(vs, k + 1) <= Start(vs, j)
  {
    if j < k {
      StartMonotone(vs, j + 1, k);
    } else {
      StartMonotone(vs, k + 1, j);
    }
  }
}
