/** Generating the test matrix: one random sparse vector per row, with its own row
    among its columns, and the matrix that the vectors span. */
module SparseVectors {
  import opened SparseRows
  import opened SparseModel
  import opened SparseAssembly

  /** Two successive random numbers: a value, and a place in the unit interval. */
  datatype Draw = Draw(elt: real, loc: real)

  /** The random stream stays inside the unit interval. */
  ghost predicate InUnit(draws: seq<Draw>) {
    forall t :: 0 <= t < |draws| ==> 0.0 <= draws[t].loc < 1.0
  }

  /** Cut into `nn1` equal parts, the unit interval has `loc` in its part number `i`. */
  predicate InPart(loc: real, nn1: nat, i: int) {
    (i - 1) as real <= nn1 as real * loc < i as real
  }

  /** The place scaled to the integers from 1 to `nn1`. */
  function Place(loc: real, nn1: nat): (i: int)
    ensures InPart(loc, nn1, i)
  {
    (nn1 as real * loc).Floor + 1
  }

  /** A number of the unit interval is in one part only, and its place is the number of that part. */
  lemma PlaceExact(loc: real, nn1: nat, i: int)
    requires 0.0 <= loc < 1.0 && nn1 > 0
    ensures InPart(loc, nn1, i) <==> i == Place(loc, nn1)
    ensures 1 <= Place(loc, nn1) <= nn1
  {
    if InPart(loc, nn1, i) {
      OnePart(loc, nn1, i, Place(loc, nn1));
    }
    assert nn1 as real * loc < nn1 as real * 1.0;
    assert (Place(loc, nn1) - 1) as real < nn1 as real;
  }

  lemma OnePart(loc: real, nn1: nat, i: int, j: int)
    requires InPart(loc, nn1, i) && InPart(loc, nn1, j)
    ensures i == j
  {
    var x := nn1 as real * loc;
    assert (i - 1) as real < j as real && (j - 1) as real < i as real;
  }

  /** Every part has a place that is drawn there. */
  lemma PlaceReached(nn1: nat, i: int) returns (loc: real)
    requires 1 <= i <= nn1
    ensures 0.0 <= loc < 1.0 && Place(loc, nn1) == i
  {
    loc := (i - 1) as real / nn1 as real;
    assert nn1 as real * loc == (i - 1) as real;
    assert loc < 1.0 by {
      assert nn1 as real * loc < nn1 as real * 1.0;
    }
  }

  lemma PlacePositive(loc: real, nn1: nat)
    requires 0.0 <= loc
    ensures Place(loc, nn1) >= 1
  {
  }

  ghost predicate Distinct(s: seq<int>) {
    forall i, j :: 0 <= i < j < |s| ==> s[i] != s[j]
  }

  /** The draws that survive: in range, and the first of their place. */
  ghost function Kept(draws: seq<Draw>, n: int, nn1: nat): (r: SparseVec)
    ensures |r.cols| == |r.vals|
  {
    if draws == [] then SparseVec([], []) else Keep(Kept(draws[..|draws| - 1], n, nn1), draws[|draws| - 1], n, nn1)
  }

  ghost function Keep(r: SparseVec, d: Draw, n: int, nn1: nat): SparseVec {
    var i := Place(d.loc, nn1);
    if i > n || i in r.cols then r else SparseVec(r.cols + [i], r.vals + [d.elt])
  }

  lemma {:induction false} KeptDistinct(draws: seq<Draw>, n: int, nn1: nat)
    requires InUnit(draws)
    ensures var r := Kept(draws, n, nn1); Distinct(r.cols) && forall k :: 0 <= k < |r.cols| ==> 1 <= r.cols[k] <= n
  {
    hide Place;
    if draws != [] {
      var m := |draws| - 1;
      KeptDistinct(draws[..m], n, nn1);
      PlacePositive(draws[m].loc, nn1);
    }
  }

  /** No place that was drawn in range is lost, and its value is that of the first draw. */
  lemma {:induction false} KeptFirst(draws: seq<Draw>, n: int, nn1: nat, t: nat) returns (k: nat)
    requires t < |draws| && Place(draws[t].loc, nn1) <= n
    requires forall s :: 0 <= s < t ==> Place(draws[s].loc, nn1) != Place(draws[t].loc, nn1)
    ensures var r := Kept(draws, n, nn1);
            k < |r.cols| && r.cols[k] == Place(draws[t].loc, nn1) && r.vals[k] == draws[t].elt
  {
    hide Place;
    var m := |draws| - 1;
    if t < m {
      k := KeptFirst(draws[..m], n, nn1, t);
    } else {
      KeptNew(draws[..m], n, nn1, Place(draws[t].loc, nn1));
      k := |Kept(draws[..m], n, nn1).cols|;
    }
  }

  lemma {:induction false} KeptNew(draws: seq<Draw>, n: int, nn1: nat, place: int)
    requires forall s :: 0 <= s < |draws| ==> Place(draws[s].loc, nn1) != place
    ensures place !in Kept(draws, n, nn1).cols
  {
    hide Place;
    if draws != [] {
      KeptNew(draws[..|draws| - 1], n, nn1, place);
    }
  }

  /** The value of draw `t` at the place that it is in, and no draw before it is there. */
  ghost predicate FirstAt(draws: seq<Draw>, n: int, nn1: nat, t: nat, col: int, val: real) {
    && t < |draws| && val == draws[t].elt && col <= n && InPart(draws[t].loc, nn1, col)
    && forall s :: 0 <= s < t ==> !InPart(draws[s].loc, nn1, col)
  }

  ghost predicate NoneMissing(cols: seq<int>, draws: seq<Draw>, n: int, nn1: nat) {
    forall t, i :: 0 <= t < |draws| && i <= n && InPart(draws[t].loc, nn1, i) ==> i in cols
  }

  /** The elements come from the draws numbered `from`, in their order: each is the first draw
      of its place, and no place in range that was drawn is missing. */
  ghost predicate Sourced(r: SparseVec, draws: seq<Draw>, n: int, nn1: nat, from: seq<nat>) {
    && |r.cols| == |r.vals| == |from|
    && (forall k :: 0 <= k < |from| ==> FirstAt(draws, n, nn1, from[k], r.cols[k], r.vals[k]))
    && (forall j, k :: 0 <= j < k < |from| ==> from[j] < from[k])
    && NoneMissing(r.cols, draws, n, nn1)
  }

  lemma {:induction false} KeptSourced(draws: seq<Draw>, n: int, nn1: nat) returns (from: seq<nat>)
    ensures Sourced(Kept(draws, n, nn1), draws, n, nn1, from)
  {
    hide Place;
    from := [];
    if draws != [] {
      hide Sourced, Keep;
      var m := |draws| - 1;
      from := KeptSourced(draws[..m], n, nn1);
      from := SourcedMore(Kept(draws[..m], n, nn1), draws, n, nn1, from);
    }
  }

  lemma SourcedMore(r: SparseVec, draws: seq<Draw>, n: int, nn1: nat, from: seq<nat>) returns (from': seq<nat>)
    requires draws != [] && Sourced(r, draws[..|draws| - 1], n, nn1, from)
    ensures Sourced(Keep(r, draws[|draws| - 1], n, nn1), draws, n, nn1, from')
  {
    hide InPart, Place, FirstAt, NoneMissing;
    var m := |draws| - 1;
    var d := draws[m];
    var i := Place(d.loc, nn1);
    forall k | 0 <= k < |from| ensures from[k] < m && FirstAt(draws, n, nn1, from[k], r.cols[k], r.vals[k]) {
      FirstStill(draws, n, nn1, from[k], r.cols[k], r.vals[k]);
    }
    MissingStill(r.cols, draws, n, nn1);
    from' := from;
    if i <= n && i !in r.cols {
      FirstNow(r.cols, draws, n, nn1);
      from' := from + [m];
    }
  }

  lemma FirstStill(draws: seq<Draw>, n: int, nn1: nat, t: nat, col: int, val: real)
    requires draws != [] && FirstAt(draws[..|draws| - 1], n, nn1, t, col, val)
    ensures t < |draws| - 1 && FirstAt(draws, n, nn1, t, col, val)
  {
    hide InPart;
    forall s | 0 <= s < t ensures !InPart(draws[s].loc, nn1, col) {
      assert draws[..|draws| - 1][s] == draws[s];
    }
  }

  lemma FirstNow(cols: seq<int>, draws: seq<Draw>, n: int, nn1: nat)
    requires draws != [] && NoneMissing(cols, draws[..|draws| - 1], n, nn1)
    requires var i := Place(draws[|draws| - 1].loc, nn1); i <= n && i !in cols
    ensures var d := draws[|draws| - 1]; FirstAt(draws, n, nn1, |draws| - 1, Place(d.loc, nn1), d.elt)
  {
    hide InPart, Place;
    var m := |draws| - 1;
    forall s | 0 <= s < m ensures !InPart(draws[s].loc, nn1, Place(draws[m].loc, nn1)) {
      assert draws[..m][s] == draws[s];
    }
  }

  lemma MissingStill(cols: seq<int>, draws: seq<Draw>, n: int, nn1: nat)
    requires draws != [] && NoneMissing(cols, draws[..|draws| - 1], n, nn1)
    ensures var i := Place(draws[|draws| - 1].loc, nn1);
            NoneMissing(if i > n || i in cols then cols else cols + [i], draws, n, nn1)
  {
    hide InPart, Place;
    var m := |draws| - 1;
    var i := Place(draws[m].loc, nn1);
    forall t, j | 0 <= t < |draws| && j <= n && InPart(draws[t].loc, nn1, j) ensures j in cols || j == i {
      if t < m {
        assert draws[..m][t] == draws[t];
      } else {
        OnePart(draws[m].loc, nn1, j, i);
      }
    }
  }

  /** Draw until there are `nz` elements at different places, or until the stream is at
      its end. */
  method SprNvc(n: int, nz: nat, nn1: nat, v: array<real>, iv: array<int>, draws: seq<Draw>, start: nat)
    returns (done: bool, next: nat, ghost from: seq<nat>)
    requires nz <= v.Length && nz <= iv.Length && start <= |draws|
    modifies v, iv
    ensures start <= next <= |draws|
    ensures done ==> Sourced(SparseVec(iv[..nz], v[..nz]), draws[start..next], n, nn1, from)
    ensures done ==> SparseVec(iv[..nz], v[..nz]) == Kept(draws[start..next], n, nn1)
    ensures done && start < next ==> |Kept(draws[start..next - 1], n, nn1).cols| < nz
    ensures !done ==> next == |draws| && |Kept(draws[start..], n, nn1).cols| < nz
  {
    hide Kept, Place, Sourced;
    from := [];
    var nzv := 0;
    next := start;
    KeptNothing(draws[start..start], n, nn1);
    while nzv < nz
      invariant 0 <= nzv <= nz && start <= next <= |draws|
      invariant SparseVec(iv[..nzv], v[..nzv]) == Kept(draws[start..next], n, nn1)
      invariant start < next ==> |Kept(draws[start..next - 1], n, nn1).cols| < nz
      decreases |draws| - next
    {
      if next == |draws| {
        assert draws[start..next] == draws[start..];
        return false, next, [];
      }
      var vecelt, vecloc := draws[next].elt, draws[next].loc;
      KeptStep(draws, start, next, n, nn1);
      next := next + 1;
      var i := Place(vecloc, nn1);
      if i > n {
        continue;
      }
      var wasGen := Generated(iv, nzv, i);
      if wasGen {
        continue;
      }
      v[nzv] := vecelt;
      iv[nzv] := i;
      nzv := nzv + 1;
    }
    done := true;
    from := KeptSourced(draws[start..next], n, nn1);
  }

  lemma KeptNothing(draws: seq<Draw>, n: int, nn1: nat)
    requires draws == []
    ensures Kept(draws, n, nn1) == SparseVec([], [])
  {
  }

  lemma KeptStep(draws: seq<Draw>, start: nat, next: nat, n: int, nn1: nat)
    requires start <= next < |draws|
    ensures Kept(draws[start..next + 1], n, nn1) == Keep(Kept(draws[start..next], n, nn1), draws[next], n, nn1)
  {
    hide Keep;
    assert draws[start..next + 1][..next - start] == draws[start..next];
  }

  /** Was this place generated already? */
  method Generated(iv: array<int>, nzv: nat, i: int) returns (was: bool)
    requires nzv <= iv.Length
    ensures was <==> i in iv[..nzv]
  {
    var ii := 0;
    was := false;
    while ii < nzv
      invariant 0 <= ii <= nzv && !was && i !in iv[..ii]
    {
      if iv[ii] == i {
        was := true;
        break;
      }
      ii := ii + 1;
    }
  }

  /** Set element `i` of the vector to `val`, in its slot or in a new one.  No other
      component changes. */
  method VecSet(v: array<real>, iv: array<int>, nzv: nat, i: int, val: real) returns (nzv': nat)
    requires nzv < v.Length && nzv < iv.Length && Distinct(iv[..nzv])
    modifies v, iv
    ensures nzv' == if i in old(iv[..nzv]) then nzv else nzv + 1
    ensures iv[..nzv'] == if i in old(iv[..nzv]) then old(iv[..nzv]) else old(iv[..nzv]) + [i]
    ensures Distinct(iv[..nzv'])
    ensures Component(SparseVec(iv[..nzv'], v[..nzv']), i) == val
    ensures forall c :: c != i ==>
                          Component(SparseVec(iv[..nzv'], v[..nzv']), c)
                            == Component(SparseVec(old(iv[..nzv]), old(v[..nzv])), c)
  {
    hide Component;
    ghost var was := SparseVec(iv[..nzv], v[..nzv]);
    var found := false;
    ghost var at := 0;
    var k := 0;
    while k < nzv
      invariant 0 <= k <= nzv && iv[..nzv] == was.cols && (found <==> i in was.cols[..k])
      invariant found ==> at < k && was.cols[at] == i && v[..nzv] == was.vals[at := val]
      invariant !found ==> v[..nzv] == was.vals
    {
      assert iv[k] == was.cols[k];
      if iv[k] == i {
        v[k] := val;
        found := true;
        at := k;
      }
      k := k + 1;
    }
    nzv' := nzv;
    if !found {
      v[nzv] := val;
      iv[nzv] := i;
      nzv' := nzv + 1;
      assert iv[..nzv'] == was.cols + [i] && v[..nzv'] == was.vals + [val];
      Appended(was, i, val);
    } else {
      Overwritten(was, at, val);
    }
  }

  lemma Appended(w: SparseVec, i: int, val: real)
    requires |w.cols| == |w.vals| && i !in w.cols
    ensures Component(SparseVec(w.cols + [i], w.vals + [val]), i) == val
    ensures forall c :: c != i ==> Component(SparseVec(w.cols + [i], w.vals + [val]), c) == Component(w, c)
  {
    ComponentOutside(w, i);
    assert (w.cols + [i])[..|w.cols|] == w.cols && (w.vals + [val])[..|w.cols|] == w.vals;
  }

  lemma Overwritten(w: SparseVec, at: nat, val: real)
    requires at < |w.cols| == |w.vals| && Distinct(w.cols)
    ensures Component(SparseVec(w.cols, w.vals[at := val]), w.cols[at]) == val
    ensures forall c :: c != w.cols[at] ==> Component(SparseVec(w.cols, w.vals[at := val]), c) == Component(w, c)
  {
    hide RowSum;
    ComponentAt(SparseVec(w.cols, w.vals[at := val]), at);
    forall c | c != w.cols[at] ensures Component(SparseVec(w.cols, w.vals[at := val]), c) == Component(w, c) {
      RowSumRaise(w.cols, w.vals, at, val - w.vals[at], c);
      assert w.vals[at] + (val - w.vals[at]) == val;
    }
  }

  /** The value that every vector has at its own row. */
  const OWN := 0.5

  /** What the generator promises of the vector of row `i`. */
  ghost predicate Generates(v: SparseVec, n: nat, i: nat, nonzer: nat) {
    && VecOk(v, n) && i in v.cols && |v.cols| <= nonzer + 1 && Component(v, i) == 0.5
  }

  /** The vector of row `i` holds what `drawn` left, one column lower, with its own row
      set. */
  ghost predicate Holds(v: SparseVec, drawn: SparseVec, i: nat)
    requires |drawn.cols| == |drawn.vals|
  {
    && |v.cols| == |v.vals|
    && (forall c :: c in v.cols <==> c == i || c + 1 in drawn.cols)
    && forall c :: c != i ==> Component(v, c) == Component(drawn, c + 1)
  }

  /** The vector of row `i` comes from the draws from `start` up to `next`, the last of
      them the one that completed it. */
  ghost predicate DrawnFrom(v: SparseVec, draws: seq<Draw>, start: nat, next: nat, n: nat, nn1: nat, i: nat,
                            nonzer: nat) {
    && start <= next <= |draws| && |Kept(draws[start..next], n, nn1).cols| == nonzer
    && (start < next ==> |Kept(draws[start..next - 1], n, nn1).cols| < nonzer)
    && Holds(v, Kept(draws[start..next], n, nn1), i)
  }

  method MakeVector(n: nat, nonzer: nat, nn1: nat, vc: array<real>, ivc: array<int>, draws: seq<Draw>, start: nat,
                    iouter: nat)
    returns (done: bool, next: nat, v: SparseVec)
    requires vc.Length == ivc.Length == nonzer + 1 && start <= |draws| && InUnit(draws) && iouter < n
    modifies vc, ivc
    ensures start <= next <= |draws| && (done ==> Generates(v, n, iouter, nonzer))
    ensures done ==> DrawnFrom(v, draws, start, next, n, nn1, iouter, nonzer)
    ensures !done ==> |Kept(draws[start..], n, nn1).cols| < nonzer
  {
    hide Kept, Component, Generates, Holds, Sourced;
    ghost var from;
    done, next, from := SprNvc(n, nonzer, nn1, vc, ivc, draws, start);
    v := SparseVec([], []);
    if done {
      KeptDistinct(draws[start..next], n, nn1);
      assert ivc[..nonzer] == Kept(draws[start..next], n, nn1).cols;
      var nzv := VecSet(vc, ivc, nonzer, iouter + 1, OWN);
      v := SparseVec(seq(nzv, k requires 0 <= k < nzv reads ivc => ivc[k] - 1), vc[..nzv]);
      VectorGenerated(ivc[..nzv], v, n, iouter, nonzer);
      VectorHolds(Kept(draws[start..next], n, nn1), SparseVec(ivc[..nzv], vc[..nzv]), v, iouter);
    }
  }

  lemma VectorHolds(drawn: SparseVec, own: SparseVec, v: SparseVec, i: nat)
    requires |drawn.cols| == |drawn.vals| && |own.cols| == |own.vals| == |v.cols| && v.vals == own.vals
    requires forall k :: 0 <= k < |v.cols| ==> v.cols[k] == own.cols[k] - 1
    requires own.cols == if i + 1 in drawn.cols then drawn.cols else drawn.cols + [i + 1]
    requires forall c :: c != i + 1 ==> Component(own, c) == Component(drawn, c)
    ensures Holds(v, drawn, i)
  {
    hide Component;
    forall c ensures c in v.cols <==> c == i || c + 1 in drawn.cols {
      if c + 1 in own.cols {
        var k :| 0 <= k < |own.cols| && own.cols[k] == c + 1;
        assert v.cols[k] == c;
      }
    }
    forall c | c != i ensures Component(v, c) == Component(drawn, c + 1) {
      Shifted(own.cols, own.vals, v.cols, c);
    }
  }

  lemma VectorGenerated(cols: seq<int>, v: SparseVec, n: nat, i: nat, nonzer: nat)
    requires |cols| == |v.cols| == |v.vals| <= nonzer + 1 && forall k :: 0 <= k < |cols| ==> v.cols[k] == cols[k] - 1
    requires Distinct(cols) && (forall k :: 0 <= k < |cols| ==> 1 <= cols[k] <= n)
    requires i + 1 in cols && Component(SparseVec(cols, v.vals), i + 1) == OWN
    ensures Generates(v, n, i, nonzer)
  {
    hide RowSum;
    var k :| 0 <= k < |cols| && cols[k] == i + 1;
    assert v.cols[k] == i;
    Shifted(cols, v.vals, v.cols, i);
  }

  lemma {:induction false} Shifted(cols: seq<int>, vals: seq<real>, cols': seq<int>, c: int)
    requires |cols| == |vals| == |cols'| && forall k :: 0 <= k < |cols| ==> cols'[k] == cols[k] - 1
    ensures Component(SparseVec(cols', vals), c) == Component(SparseVec(cols, vals), c + 1)
  {
    if cols != [] {
      var m := |cols| - 1;
      Shifted(cols[..m], vals[..m], cols'[..m], c);
    }
  }

  /** Row after row takes its vector from the next stretch of the stream. */
  ghost predicate InTurn(vs: seq<SparseVec>, cuts: seq<nat>, draws: seq<Draw>, n: nat, nn1: nat, nonzer: nat) {
    && |cuts| == |vs| + 1 && cuts[0] == 0
    && forall i :: 0 <= i < |vs| ==> DrawnFrom(vs[i], draws, cuts[i], cuts[i + 1], n, nn1, i, nonzer)
  }

  /** All vectors, one per row.  It fails only when the rest of the stream is too short
      for the next vector. */
  method MakeVectors(n: nat, nonzer: nat, nn1: nat, draws: seq<Draw>)
    returns (done: bool, vs: seq<SparseVec>, ghost cuts: seq<nat>)
    requires InUnit(draws)
    ensures done ==> |vs| == n && forall i :: 0 <= i < n ==> Generates(vs[i], n, i, nonzer)
    ensures InTurn(vs, cuts, draws, n, nn1, nonzer)
    ensures !done ==> |vs| < n && cuts[|vs|] <= |draws| && |Kept(draws[cuts[|vs|]..], n, nn1).cols| < nonzer
  {
    hide DrawnFrom, Kept, Generates;
    var vc, ivc := new real[nonzer + 1], new int[nonzer + 1];
    vs := [];
    cuts := [0];
    var next := 0;
    var iouter := 0;
    while iouter < n
      invariant 0 <= iouter <= n && next <= |draws| && |vs| == iouter
      invariant forall i :: 0 <= i < iouter ==> Generates(vs[i], n, i, nonzer)
      invariant InTurn(vs, cuts, draws, n, nn1, nonzer) && cuts[iouter] == next
    {
      var v;
      done, next, v := MakeVector(n, nonzer, nn1, vc, ivc, draws, next, iouter);
      if !done {
        return;
      }
      vs := vs + [v];
      cuts := cuts + [next];
      iouter := iouter + 1;
    }
    done := true;
  }

  /** The smallest power of two that is at least 2 and not less than `n`. */
  ghost predicate IsPowerAbove(nn1: nat, n: nat) {
    && nn1 >= 2 && nn1 >= n
    && (exists e: nat :: nn1 == Exp2(e))
    && forall e: nat :: 1 <= e && Exp2(e) >= n ==> nn1 <= Exp2(e)
  }

  method PowerAbove(n: nat) returns (nn1: nat)
    ensures IsPowerAbove(nn1, n)
  {
    ghost var e := 1;
    nn1 := 2;
    while nn1 < n
      invariant nn1 >= 2 && e >= 1 && nn1 == Exp2(e) && forall d: nat :: 1 <= d < e ==> Exp2(d) < n
    {
      forall d: nat | 1 <= d < e + 1 ensures Exp2(d) < n {
      }
      nn1 := 2 * nn1;
      e := e + 1;
    }
    forall d: nat | 1 <= d && Exp2(d) >= n ensures nn1 <= Exp2(d) {
      Exp2Monotone(e, d);
    }
  }

  ghost function Exp2(e: nat): nat {
    if e == 0 then 1 else 2 * Exp2(e - 1)
  }

  lemma {:induction false} Exp2Monotone(d: nat, e: nat)
    requires d <= e
    ensures Exp2(d) <= Exp2(e)
  {
    if d < e {
      Exp2Monotone(d, e - 1);
    }
  }

  ghost predicate Symmetric(a: seq<real>, c: seq<int>, rowstr: seq<int>, n: nat)
    requires IsCsr(a, c, rowstr, n)
  {
    forall j: nat, k: nat :: j < n && k < n ==> CsrEntry(a, c, rowstr, n, j, k) == CsrEntry(a, c, rowstr, n, k, j)
  }

  /** Generate the test matrix.  With arrays of `n * (nonzer + 1)^2` slots the space
      check cannot fail, and the result is symmetric. */
  method MakeA(n: nat, nonzer: nat, a: array<real>, colidx: array<int>, rowstr: array<int>, iv: array<int>,
               draws: seq<Draw>,
               ratio: real, rcond: real, shift: real)
    returns (done: bool, ok: bool, ghost vs: seq<SparseVec>, ghost nn1: nat, ghost cuts: seq<nat>)
    requires InUnit(draws)
    requires a.Length == colidx.Length == n * ((nonzer + 1) * (nonzer + 1)) && rowstr.Length == n + 1 && iv.Length == n
    requires rowstr != iv && rowstr != colidx && iv != colidx
    modifies a, colidx, rowstr, iv
    ensures done ==> ok && |vs| == n && (forall i :: 0 <= i < n ==> Generates(vs[i], n, i, nonzer))
    ensures IsPowerAbove(nn1, n) && InTurn(vs, cuts, draws, n, nn1, nonzer)
    ensures !done ==> |vs| < n && cuts[|vs|] <= |draws| && |Kept(draws[cuts[|vs|]..], n, nn1).cols| < nonzer
    ensures done ==> VecsOk(vs, n) && HoldsMatrix(a[..], colidx[..], rowstr[..], vs, ratio, rcond - shift)
    ensures done ==> IsCsr(a[..], colidx[..], rowstr[..], n)
    ensures done ==> Symmetric(a[..], colidx[..], rowstr[..], n)
  {
    hide Start, CsrEntry, Component, VecOk, DrawnFrom, IsPowerAbove, Kept;
    var power := PowerAbove(n);
    var vectors;
    done, vectors, cuts := MakeVectors(n, nonzer, power, draws);
    vs, nn1 := vectors, power;
    ok := false;
    if done {
      RoomEnough(vs, nonzer + 1);
      var r := Assemble(a, colidx, rowstr, iv, vectors, ratio, rcond, shift);
      ok := r.Assembled?;
      forall j: nat, k: nat | j < n && k < n
        ensures CsrEntry(a[..], colidx[..], rowstr[..], n, j, k) == CsrEntry(a[..], colidx[..], rowstr[..], n, k, j)
      {
        MatrixSymmetric(a[..], colidx[..], rowstr[..], vs, ratio, rcond - shift, j, k);
      }
    }
  }
}
