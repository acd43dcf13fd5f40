/** The sizes of the free records, and how the changes to the files change them. */
module DbSizes {
  import opened DbFormat
  import opened DbFile
  import opened DbState

  function Size(r: Rec): (nat, nat) {
    (|r.key|, r.datlen)
  }

  /** The sizes of the free records among the first `n`. */
  ghost function SizesBelow(recs: seq<Rec>, home: seq<int>, n: nat): multiset<(nat, nat)>
    requires n <= |recs| && n <= |home|
  {
    if n == 0 then multiset{}
    else SizesBelow(recs, home, n - 1) + if home[n - 1] == 0 then multiset{Size(recs[n - 1])} else multiset{}
  }

  ghost function FreeSizes(st: St): multiset<(nat, nat)> {
    if |st.home| == |st.recs| then SizesBelow(st.recs, st.home, |st.recs|) else multiset{}
  }

  /** The share of record `r`. */
  ghost function SizeAt(recs: seq<Rec>, home: seq<int>, n: nat, r: nat): multiset<(nat, nat)>
    requires n <= |recs| && n <= |home|
  {
    if r < n && home[r] == 0 then multiset{Size(recs[r])} else multiset{}
  }

  /** Only record `r` is filed differently. */
  lemma {:induction false} OneSize(recs: seq<Rec>, home: seq<int>, recs': seq<Rec>, home': seq<int>, n: nat, r: nat)
    requires n <= |recs| && n <= |home| && n <= |recs'| && n <= |home'|
    requires forall i :: 0 <= i < n && i != r ==>
               (home'[i] == 0 <==> home[i] == 0) && (home[i] == 0 ==> Size(recs'[i]) == Size(recs[i]))
    ensures SizesBelow(recs', home', n) + SizeAt(recs, home, n, r)
              == SizesBelow(recs, home, n) + SizeAt(recs', home', n, r)
  {
    hide SizesBelow, SizeAt, Size;
    if n == 0 {
      NoSizes(recs, home, recs', home', r);
    } else {
      OneSize(recs, home, recs', home', n - 1, r);
      SizesStep(recs, home, n, r);
      SizesStep(recs', home', n, r);
      var a, a' := SizesBelow(recs, home, n - 1), SizesBelow(recs', home', n - 1);
      if r == n - 1 {
        NoneLeft(a', a);
        Swap(a, SizeAt(recs', home', n, r), SizeAt(recs, home, n, r));
      } else {
        SameLast(recs, home, recs', home', n);
        StepAway(a, a', SizeAt(recs, home, n, r), SizeAt(recs', home', n, r), SizeAt(recs, home, n, n - 1));
      }
    }
  }

  lemma NoSizes(recs: seq<Rec>, home: seq<int>, recs': seq<Rec>, home': seq<int>, r: nat)
    ensures SizesBelow(recs', home', 0) + SizeAt(recs, home, 0, r)
              == SizesBelow(recs, home, 0) + SizeAt(recs', home', 0, r)
  {
  }

  lemma SameLast(recs: seq<Rec>, home: seq<int>, recs': seq<Rec>, home': seq<int>, n: nat)
    requires 0 < n <= |recs| && n <= |home| && n <= |recs'| && n <= |home'|
    requires (home'[n - 1] == 0 <==> home[n - 1] == 0) && (home[n - 1] == 0 ==> Size(recs'[n - 1]) == Size(recs[n - 1]))
    ensures SizeAt(recs', home', n, n - 1) == SizeAt(recs, home, n, n - 1)
  {
  }

  lemma StepAway(a: multiset<(nat, nat)>, a': multiset<(nat, nat)>, s: multiset<(nat, nat)>, s': multiset<(nat, nat)>,
                 x: multiset<(nat, nat)>)
    requires a' + s == a + s'
    ensures a' + x + s == a + x + s'
  {
    Swap(a', x, s);
    Swap(a, x, s');
  }

  lemma SizesStep(recs: seq<Rec>, home: seq<int>, n: nat, r: nat)
    requires 0 < n <= |recs| && n <= |home|
    ensures SizesBelow(recs, home, n) == SizesBelow(recs, home, n - 1) + SizeAt(recs, home, n, n - 1)
    ensures SizeAt(recs, home, n - 1, r) == if r == n - 1 then multiset{} else SizeAt(recs, home, n, r)
  {
    hide Size;
  }

  lemma Swap(a: multiset<(nat, nat)>, x: multiset<(nat, nat)>, y: multiset<(nat, nat)>)
    ensures a + x + y == a + y + x
  {
  }

  lemma Cancel(a: multiset<(nat, nat)>, b: multiset<(nat, nat)>, x: multiset<(nat, nat)>)
    requires a + x == b
    ensures a == b - x && x <= b
  {
    assert forall e :: b[e] == a[e] + x[e];
  }

  lemma {:induction false} SizeOfFree(recs: seq<Rec>, home: seq<int>, n: nat, size: (nat, nat))
    requires n <= |recs| && n <= |home|
    ensures size in SizesBelow(recs, home, n) <==> exists r :: 0 <= r < n && home[r] == 0 && Size(recs[r]) == size
  {
    hide Size;
    if n > 0 {
      SizeOfFree(recs, home, n - 1, size);
    }
  }

  /** Taken off the free list. */
  lemma UnlinkFree(st: St, pos: nat)
    requires Inv(st) && pos < |st.lists[0]| && st.lists[0][pos] < |st.recs|
    ensures var size := Size(st.recs[st.lists[0][pos]]);
            size in FreeSizes(st) && FreeSizes(Unlink(st, 0, pos)) == FreeSizes(st) - multiset{size}
  {
    ListFacts(st, 0);
    var st', r := Unlink(st, 0, pos), st.lists[0][pos];
    hide ListsOk, KeysOk, DataOk, AllWellFormed, SizesBelow;
    UnlinkSizes(st, 0, pos);
    OneSize(st.recs, st.home, st'.recs, st'.home, |st.recs|, r);
    var size := multiset{Size(st.recs[r])};
    assert SizeAt(st'.recs, st'.home, |st.recs|, r) == multiset{};
    assert FreeSizes(st) + multiset{} == FreeSizes(st);
    Cancel(FreeSizes(st'), FreeSizes(st), size);
    assert Size(st.recs[r]) in size;
  }

  /** Sizes do not change, and only one record leaves its list. */
  lemma UnlinkSizes(st: St, k: nat, pos: nat)
    requires Inv(st) && k < NHEADS && pos < |st.lists[k]| && st.lists[k][pos] < |st.recs|
    ensures var st', r := Unlink(st, k, pos), st.lists[k][pos];
            && |st'.recs| == |st.recs| == |st'.home| == |st.home| && st.home[r] == k &&
               st'.home == st.home[r := NOWHERE]
            && forall i :: 0 <= i < |st.recs| ==> Size(st'.recs[i]) == Size(st.recs[i])
  {
    ListFacts(st, k);
  }

  /** Taken off a chain. */
  lemma UnlinkUsed(st: St, k: nat, pos: nat)
    requires Inv(st) && 1 <= k < NHEADS && pos < |st.lists[k]| && st.lists[k][pos] < |st.recs|
    ensures FreeSizes(Unlink(st, k, pos)) == FreeSizes(st)
  {
    var st', r := Unlink(st, k, pos), st.lists[k][pos];
    hide ListsOk, KeysOk, DataOk, AllWellFormed, SizesBelow;
    UnlinkSizes(st, k, pos);
    OneSize(st.recs, st.home, st'.recs, st'.home, |st.recs|, r);
    NoneLeft(FreeSizes(st'), FreeSizes(st));
  }

  lemma NoneLeft(a: multiset<(nat, nat)>, b: multiset<(nat, nat)>)
    requires a + multiset{} == b + multiset{}
    ensures a == b
  {
    Cancel(a, b + multiset{}, multiset{});
  }

  /** Rewritten while on no list. */
  lemma RewriteSizes(st: St, r: nat, rec: Rec, data: string)
    requires r < |st.recs| == |st.home| && st.home[r] == NOWHERE && rec.datoff <= |st.dat|
    ensures FreeSizes(Rewrite(st, r, rec, data)) == FreeSizes(st)
  {
    OneSize(st.recs, st.home, st.recs[r := rec], st.home, |st.recs|, r);
    NoneLeft(FreeSizes(Rewrite(st, r, rec, data)), FreeSizes(st));
  }

  /** Put on a list. */
  lemma LinkSizes(st: St, r: nat, k: nat)
    requires r < |st.recs| == |st.home| && k < |st.heads| == |st.lists| && st.home[r] == NOWHERE
    ensures FreeSizes(Link(st, r, k)) == if k == 0 then FreeSizes(st) + multiset{Size(st.recs[r])} else FreeSizes(st)
  {
    OneSize(st.recs, st.home, st.recs, st.home[r := k], |st.recs|, r);
    if k != 0 {
      NoneLeft(FreeSizes(Link(st, r, k)), FreeSizes(st));
    }
  }

  lemma AppendSizes(st: St, rec: Rec, data: string)
    requires |st.recs| == |st.home|
    ensures FreeSizes(Append(st, rec, data)) == FreeSizes(st)
  {
    var n := |st.recs|;
    OneSize(st.recs, st.home, st.recs + [rec], st.home + [NOWHERE], n, n);
  }
}
