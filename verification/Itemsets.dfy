/** Weighted transactions and the support of an itemset: the reference
    definitions that the frequent-pattern miner is measured against. */
module Itemsets {
  import SetFacts

  /** A transaction whose items are listed from the root of the tree downwards,
      together with the number of times it was inserted. */
  datatype Weighted = Weighted(items: seq<int>, weight: int)

  function Items(t: seq<int>): set<int> {
    set x | x in t
  }

  /** Total weight of the transactions that contain every item of `s`. */
  ghost function Support(log: seq<Weighted>, s: set<int>): int {
    if log == [] then 0
    else
      var w := log[|log| - 1];
      Support(log[..|log| - 1], s) + (if s <= Items(w.items) then w.weight else 0)
  }

  /** Total weight of the transactions that start with `p`. */
  ghost function PathWeight(log: seq<Weighted>, p: seq<int>): int {
    if log == [] then 0
    else
      var w := log[|log| - 1];
      PathWeight(log[..|log| - 1], p) + (if p <= w.items then w.weight else 0)
  }

  ghost predicate Positive(log: seq<Weighted>) {
    forall k :: 0 <= k < |log| ==> log[k].weight >= 1
  }

  /** The order of items along every root-to-leaf path: more frequent items
      first, and the larger item first among equally frequent ones. */
  predicate Before(freq: map<int, int>, x: int, y: int) {
    var fx, fy := Frequency(freq, x), Frequency(freq, y);
    fx > fy || (fx == fy && x > y)
  }

  function Frequency(freq: map<int, int>, x: int): int {
    if x in freq then freq[x] else 0
  }

  ghost predicate Ordered(freq: map<int, int>, t: seq<int>) {
    forall i, j :: 0 <= i < j < |t| ==> Before(freq, t[i], t[j])
  }

  ghost predicate AllOrdered(freq: map<int, int>, log: seq<Weighted>) {
    forall k :: 0 <= k < |log| ==> Ordered(freq, log[k].items)
  }

  /** Every item that occurs at all has support at least `min`. */
  ghost predicate AllFrequent(log: seq<Weighted>, min: int) {
    forall k, x :: 0 <= k < |log| && x in log[k].items ==> Support(log, {x}) >= min
  }

  /** The itemsets a miner must report: non-empty, occurring, and frequent. */
  ghost predicate Frequent(log: seq<Weighted>, min: int, s: set<int>) {
    s != {} && Support(log, s) >= 1 && Support(log, s) >= min
  }

  /** `r` lists exactly the frequent itemsets, each with its exact support. */
  ghost predicate IsAnswer(log: seq<Weighted>, min: int, r: map<set<int>, int>) {
    && (forall s :: s in r <==> Frequent(log, min, s))
    && (forall s :: s in r ==> r[s] == Support(log, s))
  }

  function Reverse(s: seq<int>): seq<int> {
    seq(|s|, i requires 0 <= i < |s| => s[|s| - 1 - i])
  }

  function Keep(s: seq<int>, keep: set<int>): seq<int> {
    if s == [] then []
    else Keep(s[..|s| - 1], keep) + (if s[|s| - 1] in keep then [s[|s| - 1]] else [])
  }

  ghost function KeepAll(log: seq<Weighted>, keep: set<int>): seq<Weighted> {
    if log == [] then []
    else
      var w := log[|log| - 1];
      KeepAll(log[..|log| - 1], keep) + [Weighted(Keep(w.items, keep), w.weight)]
  }

  ghost function Height(log: seq<Weighted>): nat {
    if log == [] then 0
    else
      var h, n := Height(log[..|log| - 1]), |log[|log| - 1].items|;
      if n > h then n else h
  }

  // ----- unfolding at the end -----

  lemma SupportSnoc(log: seq<Weighted>, w: Weighted, s: set<int>)
    ensures Support(log + [w], s) == Support(log, s) + (if s <= Items(w.items) then w.weight else 0)
  {
    assert (log + [w])[..|log|] == log;
  }

  lemma PathWeightSnoc(log: seq<Weighted>, w: Weighted, p: seq<int>)
    ensures PathWeight(log + [w], p) == PathWeight(log, p) + (if p <= w.items then w.weight else 0)
  {
    assert (log + [w])[..|log|] == log;
  }

  // ----- support -----

  /** A superset occurs at most as often. */
  lemma {:induction false} SupportAntitone(log: seq<Weighted>, s: set<int>, t: set<int>)
    requires Positive(log) && s <= t
    ensures 0 <= Support(log, t) <= Support(log, s)
  {
    if log != [] {
      SupportAntitone(log[..|log| - 1], s, t);
    }
  }

  lemma {:induction false} SupportWitness(log: seq<Weighted>, s: set<int>) returns (k: nat)
    requires Support(log, s) >= 1
    ensures k < |log| && s <= Items(log[k].items)
  {
    var n := |log| - 1;
    if s <= Items(log[n].items) {
      k := n;
    } else {
      k := SupportWitness(log[..n], s);
    }
  }

  lemma {:induction false} SupportAtLeast(log: seq<Weighted>, s: set<int>, k: nat)
    requires Positive(log) && k < |log| && s <= Items(log[k].items)
    ensures Support(log, s) >= log[k].weight
  {
    var n := |log| - 1;
    if k < n {
      SupportAtLeast(log[..n], s, k);
    } else {
      SupportAntitone(log[..n], s, s);
    }
  }

  lemma {:induction false} PathWeightAtLeast(log: seq<Weighted>, p: seq<int>, k: nat)
    requires Positive(log) && k < |log| && p <= log[k].items
    ensures PathWeight(log, p) >= log[k].weight
  {
    var n := |log| - 1;
    if k < n {
      PathWeightAtLeast(log[..n], p, k);
    } else {
      PathWeightNonNegative(log[..n], p);
    }
  }

  lemma {:induction false} PathWeightNonNegative(log: seq<Weighted>, p: seq<int>)
    requires Positive(log)
    ensures PathWeight(log, p) >= 0
  {
    if log != [] {
      PathWeightNonNegative(log[..|log| - 1], p);
    }
  }

  lemma {:induction false} HeightBounds(log: seq<Weighted>, k: nat)
    requires k < |log|
    ensures |log[k].items| <= Height(log)
  {
    if k < |log| - 1 {
      HeightBounds(log[..|log| - 1], k);
    }
  }

  lemma {:induction false} HeightAtMost(log: seq<Weighted>, h: nat)
    requires forall k :: 0 <= k < |log| ==> |log[k].items| <= h
    ensures Height(log) <= h
  {
    if log != [] {
      HeightAtMost(log[..|log| - 1], h);
    }
  }

  // ----- keeping only some items -----

  lemma {:induction false} KeepItems(s: seq<int>, keep: set<int>)
    ensures Items(Keep(s, keep)) == Items(s) * keep
    ensures |Keep(s, keep)| <= |s|
  {
    if s != [] {
      KeepItems(s[..|s| - 1], keep);
      assert s == s[..|s| - 1] + [s[|s| - 1]];
      var k := Keep(s, keep);
      var k' := Keep(s[..|s| - 1], keep);
      forall x ensures x in Items(k) <==> x in Items(s) * keep {
        assert x in Items(k') <==> x in Items(s[..|s| - 1]) * keep;
      }
    }
  }

  lemma {:induction false} KeepOrdered(freq: map<int, int>, s: seq<int>, keep: set<int>)
    requires Ordered(freq, s)
    ensures Ordered(freq, Keep(s, keep))
  {
    if s != [] {
      var n := |s| - 1;
      KeepOrdered(freq, s[..n], keep);
      KeepItems(s[..n], keep);
      forall x | x in Keep(s[..n], keep) ensures Before(freq, x, s[n]) {
        assert x in Items(Keep(s[..n], keep));
      }
    }
  }

  lemma {:induction false} KeepReverse(s: seq<int>, keep: set<int>)
    ensures Reverse(Keep(Reverse(s), keep)) == Keep(s, keep)
  {
    if s != [] {
      var n := |s| - 1;
      var x := s[n];
      KeepReverse(s[..n], keep);
      assert Reverse(s) == [x] + Reverse(s[..n]);
      KeepCons(x, Reverse(s[..n]), keep);
    }
  }

  lemma {:induction false} KeepCons(x: int, s: seq<int>, keep: set<int>)
    ensures Keep([x] + s, keep) == (if x in keep then [x] else []) + Keep(s, keep)
  {
    if s == [] {
      assert [x] + s == [x];
      assert [x][..0] == [];
    } else {
      var n := |s| - 1;
      KeepCons(x, s[..n], keep);
      assert ([x] + s)[..n + 1] == [x] + s[..n];
    }
  }

  lemma {:induction false} KeepAllAt(log: seq<Weighted>, keep: set<int>)
    ensures |KeepAll(log, keep)| == |log|
    ensures forall k :: 0 <= k < |log| ==>
                          KeepAll(log, keep)[k] == Weighted(Keep(log[k].items, keep), log[k].weight)
  {
    if log != [] {
      KeepAllAt(log[..|log| - 1], keep);
    }
  }

  /** Dropping items leaves the support of the surviving itemsets unchanged
      and makes every other itemset disappear. */
  lemma {:induction false} KeepAllSupport(log: seq<Weighted>, keep: set<int>, s: set<int>)
    ensures s <= keep ==> Support(KeepAll(log, keep), s) == Support(log, s)
    ensures !(s <= keep) ==> Support(KeepAll(log, keep), s) == 0
  {
    if log != [] {
      var n := |log| - 1;
      KeepAllSupport(log[..n], keep, s);
      KeepItems(log[n].items, keep);
      SupportSnoc(KeepAll(log[..n], keep), Weighted(Keep(log[n].items, keep), log[n].weight), s);
    }
  }

  // ----- the last item of an itemset -----

  ghost predicate IsLast(freq: map<int, int>, s: set<int>, x: int) {
    x in s && forall y :: y in s && y != x ==> Before(freq, y, x)
  }

  lemma {:induction false} LastExists(freq: map<int, int>, s: set<int>) returns (x: int)
    requires s != {}
    ensures IsLast(freq, s, x)
    decreases s
  {
    var a := SetFacts.Member(s);
    var rest := s - {a};
    if rest == {} {
      assert s == {a};
      x := a;
    } else {
      var b := LastExists(freq, rest);
      x := if Before(freq, a, b) then b else a;
      forall y | y in s && y != x ensures Before(freq, y, x) {
        assert y == a || y in rest;
      }
    }
  }

  /** In an ordered transaction the companions that precede `x` are exactly
      the items listed above it. */
  lemma CompanionsAbove(freq: map<int, int>, t: seq<int>, k: nat, s: set<int>)
    requires Ordered(freq, t) && k < |t|
    requires forall y :: y in s ==> Before(freq, y, t[k])
    ensures s + {t[k]} <= Items(t) <==> s <= Items(t[..k])
  {
    if s + {t[k]} <= Items(t) {
      forall y | y in s ensures y in t[..k] {
        assert y in s + {t[k]};
        assert y in Items(t);
        var i :| 0 <= i < |t| && t[i] == y;
        assert i < k;
        assert t[..k][i] == y;
      }
    }
  }
}
