/** The frequent-pattern miner: counting, ordering, tree building and the
    recursive search through conditional trees. */
module FPGrowth {
  import opened Itemsets
  import opened FPTrees
  import SetFacts

  // ----- paths of a well-formed tree -----

  lemma {:induction false} PrefixInTree(root: FPNode, at: map<seq<int>, FPNode>, kids: map<seq<int>, seq<FPNode>>,
                                        p: seq<int>, j: nat)
    requires Shaped(root, at, kids) && p in at && j <= |p|
    ensures p[..j] in at
    decreases |p|
  {
    if j < |p| {
      assert Placed(at, kids, p);
      PrefixInTree(root, at, kids, p[..|p| - 1], j);
      assert p[..|p| - 1][..j] == p[..j];
    } else {
      assert p[..j] == p;
    }
  }

  /** A path that continues below `p` continues through one of its children. */
  lemma ChildOnPath(root: FPNode, at: map<seq<int>, FPNode>, kids: map<seq<int>, seq<FPNode>>, p: seq<int>, q: seq<int>)
    requires Shaped(root, at, kids) && p in at && q in at && p < q
    ensures q[..|p| + 1] in at && p in kids && at[q[..|p| + 1]] in kids[p]
  {
    var r := q[..|p| + 1];
    PrefixInTree(root, at, kids, q, |p| + 1);
    assert Placed(at, kids, r);
    assert r[..|r| - 1] == p;
  }

  /** Every path of the tree is a prefix of `leaf`. */
  ghost predicate SinglePath(at: map<seq<int>, FPNode>, leaf: seq<int>) {
    leaf in at && forall p :: p in at ==> p <= leaf
  }

  lemma TwoChildren(root: FPNode, at: map<seq<int>, FPNode>, kids: map<seq<int>, seq<FPNode>>, p: seq<int>,
                    leaf: seq<int>)
    requires Shaped(root, at, kids) && p in at && p in kids && |kids[p]| > 1
    ensures !SinglePath(at, leaf)
  {
    assert Placed(at, kids, p);
    var c, d := kids[p][0], kids[p][1];
    assert c in kids[p] && d in kids[p];
    var pc, pd := p + [c.item], p + [d.item];
    assert pc in at && pd in at && pc != pd;
    assert pc[|p|] == c.item && pd[|p|] == d.item;
  }

  // ----- a tree that is a single path -----

  lemma {:induction false} Deepest(leaf: seq<int>, s: set<int>) returns (k: nat)
    requires s != {} && s <= Items(leaf)
    ensures k < |leaf| && leaf[k] in s && s <= Items(leaf[..k + 1])
  {
    var x := SetFacts.Member(s);
    assert x in Items(leaf);
    var n := |leaf| - 1;
    if leaf[n] in s {
      assert leaf[..n + 1] == leaf;
      k := n;
    } else {
      assert leaf == leaf[..n] + [leaf[n]];
      k := Deepest(leaf[..n], s);
      assert leaf[..n][..k + 1] == leaf[..k + 1];
    }
  }

  /** Along a single path an itemset occurs as often as its deepest item. */
  lemma {:induction false} PathSupport(freq: map<int, int>, log: seq<Weighted>, leaf: seq<int>, s: set<int>, k: nat)
    requires Ordered(freq, leaf) && forall i :: 0 <= i < |log| ==> log[i].items <= leaf
    requires k < |leaf| && leaf[k] in s && s <= Items(leaf[..k + 1])
    ensures Support(log, s) == PathWeight(log, leaf[..k + 1])
  {
    if log != [] {
      var n := |log| - 1;
      PathSupport(freq, log[..n], leaf, s, k);
      var t := log[n].items;
      if leaf[..k + 1] <= t {
        assert forall x :: x in leaf[..k + 1] ==> x in t;
      } else {
        assert leaf[k] !in t;
        assert leaf[k] !in Items(t);
      }
    }
  }

  /** `r` holds every non-empty subset of `items` with its support. */
  ghost predicate ListsSubsets(log: seq<Weighted>, items: set<int>, r: map<set<int>, int>) {
    && (forall s :: s in r <==> s != {} && s <= items)
    && (forall s :: s in r ==> r[s] == Support(log, s))
  }

  lemma SubsetsGrow(freq: map<int, int>, log: seq<Weighted>, leaf: seq<int>, k: nat,
                    before: map<set<int>, int>, after: map<set<int>, int>)
    requires Ordered(freq, leaf) && k < |leaf| && forall i :: 0 <= i < |log| ==> log[i].items <= leaf
    requires ListsSubsets(log, Items(leaf[..k]), before)
    requires Swept(before, leaf[k], PathWeight(log, leaf[..k + 1]), before.Keys, after)
    ensures ListsSubsets(log, Items(leaf[..k + 1]), after)
  {
    hide Ordered, Items, Support, PathWeight;
    forall s ensures s in after <==> s != {} && s <= Items(leaf[..k + 1]) {
      SubsetStep(freq, leaf, k, s);
      assert s in after <==> ReachedBy(before.Keys, leaf[k], before.Keys, s);
    }
    forall s | s in after ensures after[s] == Support(log, s) {
      SubsetSupport(freq, log, leaf, k, before, after, s);
    }
  }

  lemma SubsetSupport(freq: map<int, int>, log: seq<Weighted>, leaf: seq<int>, k: nat,
                      before: map<set<int>, int>, after: map<set<int>, int>, s: set<int>)
    requires Ordered(freq, leaf) && k < |leaf| && forall i :: 0 <= i < |log| ==> log[i].items <= leaf
    requires ListsSubsets(log, Items(leaf[..k]), before) && s in after
    requires Swept(before, leaf[k], PathWeight(log, leaf[..k + 1]), before.Keys, after)
    ensures after[s] == Support(log, s)
  {
    hide Ordered, Items, Support, PathWeight;
    if s !in before {
      SubsetStep(freq, leaf, k, s);
      assert ReachedBy(before.Keys, leaf[k], before.Keys, s);
      hide Swept, ListsSubsets, ReachedBy;
      PathSupport(freq, log, leaf, s, k);
    }
  }

  /** The subsets that become available with the next item of the path. */
  lemma SubsetStep(freq: map<int, int>, leaf: seq<int>, k: nat, s: set<int>)
    requires Ordered(freq, leaf) && k < |leaf|
    ensures s <= Items(leaf[..k + 1]) <==> s <= Items(leaf[..k]) || (leaf[k] in s && s - {leaf[k]} <= Items(leaf[..k]))
    ensures s - {leaf[k]} == {} ==> s == {} || s == {leaf[k]}
    ensures leaf[k] !in Items(leaf[..k])
  {
    assert leaf[..k + 1] == leaf[..k] + [leaf[k]];
    assert leaf[k] !in leaf[..k];
    assert Items(leaf[..k + 1]) == Items(leaf[..k]) + {leaf[k]};
    if leaf[k] in s && s - {leaf[k]} == {} {
      assert s == {leaf[k]};
    }
  }

  /** On a single path of frequent items every non-empty subset is frequent. */
  lemma SubsetsAreAnswer(freq: map<int, int>, log: seq<Weighted>, min: int, leaf: seq<int>, r: map<set<int>, int>)
    requires Ordered(freq, leaf) && forall i :: 0 <= i < |log| ==> log[i].items <= leaf
    requires leaf == [] || exists i :: 0 <= i < |log| && log[i].items == leaf
    requires Positive(log) && AllFrequent(log, min) && ListsSubsets(log, Items(leaf), r)
    ensures IsAnswer(log, min, r)
  {
    forall s ensures s in r <==> Frequent(log, min, s) {
      if s in r {
        var k := Deepest(leaf, s);
        var i :| 0 <= i < |log| && log[i].items == leaf;
        PathSupport(freq, log, leaf, s, k);
        assert leaf[k] in leaf[..k + 1];
        PathSupport(freq, log, leaf, {leaf[k]}, k);
        PathWeightAtLeast(log, leaf[..k + 1], i);
      }
      if Frequent(log, min, s) {
        var i := SupportWitness(log, s);
        assert s <= Items(leaf);
      }
    }
  }

  /** std::map::insert: an existing key keeps its value. */
  function Insert(m: map<set<int>, int>, s: set<int>, n: int): map<set<int>, int> {
    if s in m then m else m[s := n]
  }

  lemma {:induction false} SmallestKey(keys: set<set<int>>) returns (s: set<int>)
    requires keys != {}
    ensures s in keys && forall t :: t in keys ==> |s| <= |t|
  {
    var pick := SetFacts.Member(keys);
    var rest := keys - {pick};
    s := pick;
    if rest != {} {
      var r := SmallestKey(rest);
      s := if |r| < |pick| then r else pick;
    }
    forall t | t in keys ensures |s| <= |t| {
      assert t == pick || t in rest;
    }
  }

  ghost predicate ReachedBy(patterns: set<set<int>>, item: int, visited: set<set<int>>, s: set<int>) {
    s in patterns || s == {item} || (item in s && s - {item} in patterns && s - {item} in visited)
  }

  /** The state of the sweep that extends `patterns` by `item` after `visited`. */
  ghost predicate Swept(patterns: map<set<int>, int>, item: int, n: int, visited: set<set<int>>, r: map<set<int>,
                        int>) {
    && (forall s :: s in r <==> ReachedBy(patterns.Keys, item, visited, s))
    && (forall s :: s in r ==> r[s] == if s in patterns then patterns[s] else n)
  }

  /** Visiting `s` inserts at most one itemset, and a strictly larger one. */
  lemma SweepStep(patterns: map<set<int>, int>, item: int, n: int, visited: set<set<int>>,
                  r: map<set<int>, int>, s: set<int>, r': map<set<int>, int>)
    requires forall t :: t in patterns ==> t != {} && item !in t
    requires Swept(patterns, item, n, visited, r) && s in r && s !in visited
    requires r' == if s == {item} then r else Insert(r, s + {item}, n)
    ensures Swept(patterns, item, n, visited + {s}, r')
    ensures r.Keys <= r'.Keys && forall t :: t in r'.Keys - r.Keys ==> |t| > |s|
    ensures s !in patterns ==> r' == r
  {
    assert ReachedBy(patterns.Keys, item, visited, s);
    if item in s {
      assert s + {item} == s;
    } else {
      assert s + {item} - {item} == s;
    }
    forall t ensures ReachedBy(patterns.Keys, item, visited + {s}, t) <==>
                     ReachedBy(patterns.Keys, item, visited, t) || (s in patterns && t == s + {item})
    {
      if item in t && t - {item} == s {
        assert t == s + {item};
      }
    }
  }

  /** The iterator's next stop: a smallest of the keys still ahead. */
  method NextKey(ahead: set<set<int>>) returns (s: set<int>)
    requires ahead != {}
    ensures s in ahead && forall t :: t in ahead ==> |s| <= |t|
  {
    ghost var least := SmallestKey(ahead);
    s :| s in ahead && forall t :: t in ahead ==> |s| <= |t|;
  }

  /** Extend a collection of itemsets by `item`: afterwards it also holds `{item}`
      and every old itemset with `item` added, all with frequency `n`.

      The source inserts into the map it is iterating over, in order of set size;
      every insertion lands ahead of the iterator, so it is visited as well. */
  method AddToAll(patterns: map<set<int>, int>, item: int, n: int) returns (r: map<set<int>, int>)
    requires forall s :: s in patterns ==> s != {} && item !in s
    ensures Swept(patterns, item, n, patterns.Keys, r)
  {
    hide ReachedBy, Swept;
    r := Insert(patterns, {item}, n);
    var visited: set<set<int>> := {};
    SweepStart(patterns, item, n);
    while r.Keys - visited != {}
      invariant patterns.Keys <= r.Keys && visited <= r.Keys
      invariant forall s, t :: s in visited && t in r.Keys - visited ==> |s| <= |t|
      invariant Swept(patterns, item, n, visited, r)
      decreases patterns.Keys - visited, r.Keys - visited
    {
      var s := NextKey(r.Keys - visited);
      ghost var before := r;
      if s != {item} {
        r := Insert(r, s + {item}, n);
      }
      SweepStep(patterns, item, n, visited, before, s, r);
      visited := visited + {s};
    }
    SweepEnd(patterns, item, n, visited, r);
  }

  lemma SweepStart(patterns: map<set<int>, int>, item: int, n: int)
    requires forall s :: s in patterns ==> s != {} && item !in s
    ensures Swept(patterns, item, n, {}, Insert(patterns, {item}, n))
  {
  }

  lemma SweepEnd(patterns: map<set<int>, int>, item: int, n: int, visited: set<set<int>>, r: map<set<int>, int>)
    requires Swept(patterns, item, n, visited, r) && patterns.Keys <= r.Keys && r.Keys - visited == {}
    ensures Swept(patterns, item, n, patterns.Keys, r)
  {
    forall s | s in patterns ensures s in visited {
      assert s !in r.Keys - visited;
    }
    forall s ensures ReachedBy(patterns.Keys, item, visited, s) <==> ReachedBy(patterns.Keys, item, patterns.Keys, s) {
    }
  }

  // ----- conditional transactions -----

  ghost predicate Mineable(freq: map<int, int>, log: seq<Weighted>) {
    && AllOrdered(freq, log) && Positive(log)
    && forall k :: 0 <= k < |log| ==> ROOT_ITEM !in log[k].items
  }

  /** What a transaction taken from above a node of `x` looks like. */
  ghost predicate Conditional(freq: map<int, int>, log: seq<Weighted>, x: int, w: Weighted) {
    && Ordered(freq, w.items) && w.weight >= 1 && ROOT_ITEM !in w.items
    && |w.items| < Height(log)
    && forall y :: y in w.items ==> Before(freq, y, x)
  }

  ghost predicate AllConditional(freq: map<int, int>, log: seq<Weighted>, x: int, cond: seq<Weighted>) {
    forall k :: 0 <= k < |cond| ==> Conditional(freq, log, x, cond[k])
  }

  lemma BranchIsConditional(freq: map<int, int>, log: seq<Weighted>, p: seq<int>)
    requires Mineable(freq, log) && p != [] && exists k :: 0 <= k < |log| && p <= log[k].items
    ensures Ordered(freq, p)
    ensures Conditional(freq, log, p[|p| - 1], Weighted(p[..|p| - 1], PathWeight(log, p)))
  {
    var k :| 0 <= k < |log| && p <= log[k].items;
    var t := log[k].items;
    assert forall i :: 0 <= i < |p| ==> p[i] == t[i];
    HeightBounds(log, k);
    PathWeightAtLeast(log, p, k);
    var above := p[..|p| - 1];
    forall y | y in above ensures Before(freq, y, p[|p| - 1]) {
      var i :| 0 <= i < |above| && above[i] == y;
      assert t[i] == y && t[|p| - 1] == p[|p| - 1];
    }
  }

  /** `counts` gives the support of every single item of `cond`. */
  ghost predicate Counts(counts: map<int, int>, cond: seq<Weighted>) {
    && (forall y :: y in counts <==> exists k :: 0 <= k < |cond| && y in cond[k].items)
    && (forall y :: Frequency(counts, y) == Support(cond, {y}))
  }

  lemma CountsSnoc(counts: map<int, int>, cond: seq<Weighted>, w: Weighted, counts': map<int, int>)
    requires Counts(counts, cond) && Tallied(counts, w.items, w.weight, counts')
    ensures Counts(counts', cond + [w])
  {
    var cond' := cond + [w];
    forall y ensures Frequency(counts', y) == Support(cond', {y}) {
      SupportSnoc(cond, w, {y});
      assert {y} <= Items(w.items) <==> y in w.items;
    }
    forall y ensures y in counts' <==> exists k :: 0 <= k < |cond'| && y in cond'[k].items {
      if y in counts {
        var k :| 0 <= k < |cond| && y in cond[k].items;
        assert y in cond'[k].items;
      }
      if y in w.items {
        assert y in cond'[|cond|].items;
      }
    }
  }

  function AtLeast(counts: map<int, int>, min: int): set<int> {
    set y | y in counts && counts[y] >= min
  }

  // ----- ordering a transaction -----

  /** Sorted by the comparator: less frequent first, then smaller first. */
  ghost predicate Rising(freq: map<int, int>, s: seq<int>) {
    forall i, j :: 0 <= i < j < |s| ==> s[i] == s[j] || Before(freq, s[j], s[i])
  }

  function SortedInsert(freq: map<int, int>, x: int, s: seq<int>): seq<int> {
    if s == [] || !Before(freq, x, s[0]) then [x] + s
    else [s[0]] + SortedInsert(freq, x, s[1..])
  }

  function Sort(freq: map<int, int>, s: seq<int>): seq<int> {
    if s == [] then [] else SortedInsert(freq, s[0], Sort(freq, s[1..]))
  }

  lemma {:induction false} SortedInsertIsSorted(freq: map<int, int>, x: int, s: seq<int>)
    requires Rising(freq, s)
    ensures Rising(freq, SortedInsert(freq, x, s)) && multiset(SortedInsert(freq, x, s)) == multiset(s) + multiset{x}
  {
    if s != [] {
      assert s == [s[0]] + s[1..];
      if Before(freq, x, s[0]) {
        var rest := SortedInsert(freq, x, s[1..]);
        SortedInsertIsSorted(freq, x, s[1..]);
        forall y | y in rest ensures y == s[0] || Before(freq, y, s[0]) {
          assert y in multiset(rest);
        }
        RisingCons(freq, s[0], rest);
      } else {
        NotBefore(freq, x, s);
        hide Before;
        RisingCons(freq, x, s);
      }
    }
  }

  lemma NotBefore(freq: map<int, int>, x: int, s: seq<int>)
    requires Rising(freq, s) && s != [] && !Before(freq, x, s[0])
    ensures forall y :: y in s ==> y == x || Before(freq, y, x)
  {
    forall y | y in s ensures y == x || Before(freq, y, x) {
      assert y == s[0] || Before(freq, y, s[0]);
    }
  }

  /** In numbers: frequencies rise, and items rise among those of the same frequency. */
  lemma RisingMeans(freq: map<int, int>, s: seq<int>)
    requires Rising(freq, s)
    ensures forall i, j :: 0 <= i < j < |s| ==>
              var fi, fj := Frequency(freq, s[i]), Frequency(freq, s[j]);
              fi < fj || (fi == fj && s[i] <= s[j])
  {
    hide Frequency;
  }

  lemma RisingCons(freq: map<int, int>, x: int, s: seq<int>)
    requires Rising(freq, s) && forall y :: y in s ==> y == x || Before(freq, y, x)
    ensures Rising(freq, [x] + s)
  {
  }

  lemma {:induction false} SortIsSorted(freq: map<int, int>, s: seq<int>)
    ensures Rising(freq, Sort(freq, s)) && multiset(Sort(freq, s)) == multiset(s)
  {
    if s != [] {
      SortIsSorted(freq, s[1..]);
      SortedInsertIsSorted(freq, s[0], Sort(freq, s[1..]));
      assert s == [s[0]] + s[1..];
    }
  }

  /** Frequencies rise along a sorted transaction, so one cut separates them. */
  lemma TrimIsExact(freq: map<int, int>, min: int, s: seq<int>, pos: nat)
    requires Rising(freq, s) && pos <= |s|
    requires forall i :: 0 <= i < pos ==> Frequency(freq, s[i]) < min
    requires pos < |s| ==> Frequency(freq, s[pos]) >= min
    ensures Rising(freq, s[pos..])
    ensures forall x :: multiset(s[pos..])[x] == if Frequency(freq, x) >= min then multiset(s)[x] else 0
  {
    assert s == s[..pos] + s[pos..];
    forall i | pos <= i < |s| ensures Frequency(freq, s[i]) >= min {
      assert i == pos || s[pos] == s[i] || Before(freq, s[i], s[pos]);
    }
    forall x ensures multiset(s[pos..])[x] == if Frequency(freq, x) >= min then multiset(s)[x] else 0 {
      if Frequency(freq, x) >= min {
        assert x !in s[..pos];
        assert x !in multiset(s[..pos]);
      } else {
        assert x !in s[pos..];
        assert x !in multiset(s[pos..]);
      }
    }
  }

  // ----- walking up from a node -----

  /** `counts'` is `counts` with `n` added for every item of `t`. */
  ghost predicate Tallied(counts: map<int, int>, t: seq<int>, n: int, counts': map<int, int>) {
    && counts'.Keys == counts.Keys + Items(t)
    && forall y :: Frequency(counts', y) == Frequency(counts, y) + if y in t then n else 0
  }

  lemma TallyNone(counts: map<int, int>, above: seq<int>, n: int)
    ensures above[|above|..] == [] && Tallied(counts, above[|above|..], n, counts) && Reverse(above[|above|..]) == []
  {
  }

  /** One more item of the path; it has not been met before. */
  lemma TallyOne(freq: map<int, int>, counts: map<int, int>, path: seq<int>, k: nat, n: int, counts': map<int, int>)
    requires 0 < k < |path| && Ordered(freq, path)
    requires Tallied(counts, path[..|path| - 1][k..], n, counts')
    ensures var x, above := path[k - 1], path[..|path| - 1];
            && Tallied(counts, above[k - 1..], n, counts'[x := Frequency(counts', x) + n])
            && Reverse(above[k..]) + [x] == Reverse(above[k - 1..])
  {
    var x, above := path[k - 1], path[..|path| - 1];
    var rest := above[k..];
    assert above[k - 1..] == [x] + rest;
    assert x !in rest by {
      forall i | 0 <= i < |rest| ensures rest[i] != x {
        assert rest[i] == path[k + i] && Before(freq, path[k - 1], path[k + i]);
      }
    }
  }

  lemma UpOne(root: FPNode, at: map<seq<int>, FPNode>, kids: map<seq<int>, seq<FPNode>>, p: seq<int>)
    requires Shaped(root, at, kids) && p in at && p != []
    ensures p[..|p| - 1] in at && at[p].parent == at[p[..|p| - 1]] && at[p].item == p[|p| - 1]
  {
    assert Placed(at, kids, p);
  }

  lemma AtRoot(root: FPNode, at: map<seq<int>, FPNode>, kids: map<seq<int>, seq<FPNode>>, p: seq<int>)
    requires Shaped(root, at, kids) && p in at
    ensures at[p].item == ROOT_ITEM <==> p == []
  {
    assert Placed(at, kids, p);
  }

  class FPgrowth {
    var itemFrequency: map<int, int>
    var minSupportCount: int
    var totalTransactions: int

    constructor (min: int)
      ensures itemFrequency == map[] && minSupportCount == min && totalTransactions == 0
    {
      itemFrequency := map[];
      minSupportCount := min;
      totalTransactions := 0;
    }

    /** First scan: add every occurrence of an item to its frequency. */
    method CountItemFrequency(trans: seq<int>)
      modifies this`itemFrequency, this`totalTransactions
      ensures totalTransactions == old(totalTransactions) + 1
      ensures itemFrequency.Keys == old(itemFrequency.Keys) + Items(trans)
      ensures forall x :: Frequency(itemFrequency, x) == Frequency(old(itemFrequency), x) + multiset(trans)[x]
    {
      var i := 0;
      while i < |trans|
        invariant 0 <= i <= |trans| && totalTransactions == old(totalTransactions)
        invariant itemFrequency.Keys == old(itemFrequency.Keys) + Items(trans[..i])
        invariant forall x :: Frequency(itemFrequency, x) == Frequency(old(itemFrequency), x) + multiset(trans[..i])[x]
      {
        var x := trans[i];
        assert trans[..i + 1] == trans[..i] + [x];
        if x in itemFrequency {
          itemFrequency := itemFrequency[x := itemFrequency[x] + 1];
        } else {
          itemFrequency := itemFrequency[x := 1];
        }
        i := i + 1;
      }
      assert trans[..i] == trans;
      totalTransactions := totalTransactions + 1;
    }

    /** Second scan: order a transaction by rising frequency and cut off the
        infrequent items at its front. */
    method SortAndTrimTransaction(trans: seq<int>) returns (r: seq<int>)
      requires Items(trans) <= itemFrequency.Keys
      ensures Rising(itemFrequency, r)
      ensures forall i, j :: 0 <= i < j < |r| ==>
                var fi, fj := Frequency(itemFrequency, r[i]), Frequency(itemFrequency, r[j]);
                fi < fj || (fi == fj && r[i] <= r[j])
      ensures forall x :: multiset(r)[x] == if Frequency(itemFrequency, x) >= minSupportCount
                then multiset(trans)[x] else 0
    {
      hide Rising, Frequency, Sort;
      var sorted := Sort(itemFrequency, trans);
      SortIsSorted(itemFrequency, trans);
      var pos := 0;
      while pos < |sorted| && Frequency(itemFrequency, sorted[pos]) < minSupportCount
        invariant 0 <= pos <= |sorted|
        invariant forall i :: 0 <= i < pos ==> Frequency(itemFrequency, sorted[i]) < minSupportCount
      {
        pos := pos + 1;
      }
      r := sorted[pos..];
      TrimIsExact(itemFrequency, minSupportCount, sorted, pos);
      RisingMeans(itemFrequency, r);
    }

    method IsSinglePath(tree: FPTree) returns (single: bool, ghost leaf: seq<int>)
      requires tree.Valid()
      ensures single ==> SinglePath(tree.at, leaf)
      ensures !single ==> forall q :: !SinglePath(tree.at, q)
    {
      hide Placed, Chained, Covers;
      ghost var kids := tree.Kids();
      leaf := [];
      var cur := tree.root;
      while |cur.children| > 0
        invariant leaf in tree.at && tree.at[leaf] == cur
        invariant forall q :: q in tree.at ==> q <= leaf || leaf <= q
        decreases set q | q in tree.at && |q| > |leaf|
      {
        assert kids[leaf] == cur.children;
        if |cur.children| > 1 {
          forall q ensures !SinglePath(tree.at, q) {
            TwoChildren(tree.root, tree.at, kids, leaf, q);
          }
          return false, leaf;
        }
        ghost var longer := leaf + [cur.children[0].item];
        OnlyChild(tree.root, tree.at, kids, leaf);
        ghost var before := set q | q in tree.at && |q| > |leaf|;
        assert longer in before;
        cur := cur.children[0];
        leaf := longer;
      }
      single := true;
      forall q | q in tree.at ensures q <= leaf {
        if leaf < q {
          ChildOnPath(tree.root, tree.at, kids, leaf, q);
        }
      }
    }

    /** Walk from a node up to the root, listing the items above it and adding the
        node's frequency to the count of each of them. */
    method Climb(tree: FPTree, node: FPNode, counts: map<int, int>) returns (up: seq<int>, counts': map<int, int>)
      requires tree.Valid() && node.path in tree.at && tree.at[node.path] == node && node.path != []
      requires Ordered(itemFrequency, node.path)
      ensures up == Reverse(node.path[..|node.path| - 1])
      ensures Tallied(counts, node.path[..|node.path| - 1], node.frequency, counts')
    {
      hide Chained, Covers, Tallied, Ordered, Placed, Reverse;
      ghost var above := node.path[..|node.path| - 1];
      ghost var kids, q := tree.Kids(), above;
      UpOne(tree.root, tree.at, kids, node.path);
      AtRoot(tree.root, tree.at, kids, q);
      up, counts' := [], counts;
      var cur := node.parent;
      TallyNone(counts, above, node.frequency);
      while cur.item != ROOT_ITEM
        invariant q <= above && q in tree.at && tree.at[q] == cur && (cur.item == ROOT_ITEM <==> q == [])
        invariant up == Reverse(above[|q|..])
        invariant Tallied(counts, above[|q|..], node.frequency, counts')
        decreases |q|
      {
        UpOne(tree.root, tree.at, kids, q);
        AtRoot(tree.root, tree.at, kids, q[..|q| - 1]);
        var item := cur.item;
        TallyOne(itemFrequency, counts, node.path, |q|, node.frequency, counts');
        up := up + [item];
        counts' := counts'[item := Frequency(counts', item) + node.frequency];
        cur := cur.parent;
        q := q[..|q| - 1];
      }
      assert above[0..] == above;
    }

    /** Follow the header chain of `x`: the weighted transactions found above its
        nodes, the count of each item in them, and the frequency of `x` itself. */
    method Collect(tree: FPTree, x: int)
      returns (one: int, counts: map<int, int>, trans: seq<(seq<int>, int)>, ghost cond: seq<Weighted>)
      requires tree.Valid() && Mineable(itemFrequency, tree.log) && x in tree.header
      ensures one == Support(tree.log, {x})
      ensures Counts(counts, cond) && AllConditional(itemFrequency, tree.log, x, cond)
      ensures SameTransactions(trans, cond)
      ensures forall s :: s != {} && (forall y :: y in s ==> Before(itemFrequency, y, x)) ==>
                            Support(cond, s) == Support(tree.log, s + {x})
    {
      hide Shaped, Placed, Chained, IsChain, Counts, Mineable, Conditional, Support, PathsTo, Tallied, PathWeight;
      tree.ChainIsComplete(x);
      StartChain(tree, x);
      ghost var paths, chain := tree.ChainPaths(x), tree.chains[x];
      ghost var branches := Branches(tree.log, paths);
      one, counts, trans, cond := 0, map[], [], [];
      var cur: FPNode? := tree.header[x];
      ghost var j := 0;
      CountsEmpty();
      while cur != null
        invariant 0 <= j <= |chain| && cur == if j < |chain| then chain[j] else null
        invariant one == Support(branches[..j], {})
        invariant Counts(counts, cond) && AllConditional(itemFrequency, tree.log, x, cond)
        invariant SameTransactions(trans, cond)
        invariant forall s :: s != {} ==> Support(cond, s) == Support(branches[..j], s)
        decreases |chain| - j
      {
        ChainNode(tree, x, j);
        BranchIsConditional(itemFrequency, tree.log, cur.path);
        ghost var w := branches[j];
        BranchSnoc(branches, j, cond);
        one := one + cur.frequency;
        ghost var counts0 := counts;
        var up;
        up, counts := Climb(tree, cur, counts);
        CountsSnoc(counts0, cond, w, counts);
        if up != [] {
          trans := trans + [(up, cur.frequency)];
          cond := cond + [w];
        } else {
          CountsSkip(counts0, counts, cond, w);
        }
        cur := cur.next;
        j := j + 1;
      }
      assert branches[..j] == branches;
      CollectDone(itemFrequency, tree.log, paths, x, cond, one);
    }

    /** The tree of the conditional transactions, without their infrequent items. */
    method ConditionalTree(counts: map<int, int>, trans: seq<(seq<int>, int)>, ghost cond: seq<Weighted>)
      returns (tree: FPTree)
      requires SameTransactions(trans, cond)
      requires forall k :: 0 <= k < |cond| ==> ROOT_ITEM !in cond[k].items
      ensures fresh(tree) && tree.Valid() && tree.log == KeepAll(cond, AtLeast(counts, minSupportCount))
    {
      hide FPTree.Valid;
      var keep := AtLeast(counts, minSupportCount);
      tree := new FPTree();
      var i := 0;
      assert cond[..0] == [];
      while i < |trans|
        invariant 0 <= i <= |trans| && tree.Valid()
        invariant fresh(tree) && fresh(tree.at.Values)
        invariant tree.log == KeepAll(cond[..i], keep)
      {
        var kept := Keep(trans[i].0, keep);
        KeepItems(trans[i].0, keep);
        KeepReverse(cond[i].items, keep);
        assert ROOT_ITEM !in kept by {
          assert ROOT_ITEM in kept ==> ROOT_ITEM in Items(kept);
        }
        tree.InsertNodes(kept, trans[i].1);
        assert cond[..i + 1] == cond[..i] + [cond[i]];
        assert cond[..i + 1][..i] == cond[..i];
        i := i + 1;
      }
      assert cond[..i] == cond;
    }

    /** The patterns that end in `x`: those of the conditional tree with `x` added,
        and `x` alone. */
    method PatternsEndingIn(tree: FPTree, x: int) returns (pattern: map<set<int>, int>, one: int)
      requires tree.Valid() && Mineable(itemFrequency, tree.log) && x in tree.header
      ensures one == Support(tree.log, {x})
      ensures EndsIn(itemFrequency, tree.log, minSupportCount, x, pattern)
      decreases Height(tree.log), 0
    {
      hide FPTree.Valid, Counts, Conditional, EndsIn, SameTransactions, Mineable, AllFrequent, IsAnswer, Support,
           Height;
      InHeader(tree, x);
      var counts, trans;
      ghost var cond;
      one, counts, trans, cond := Collect(tree, x);
      NoRootItem(itemFrequency, tree.log, x, cond);
      var conditional := ConditionalTree(counts, trans, cond);
      ConditionalIsMineable(itemFrequency, tree.log, minSupportCount, x, cond, counts);
      pattern := FindPattern(conditional);
      ConditionalAnswer(itemFrequency, tree.log, minSupportCount, x, cond, counts, pattern);
    }

    /** Every frequent itemset of the transactions in the tree, with its support. */
    method FindPattern(tree: FPTree) returns (r: map<set<int>, int>)
      requires tree.Valid() && Mineable(itemFrequency, tree.log) && AllFrequent(tree.log, minSupportCount)
      ensures IsAnswer(tree.log, minSupportCount, r)
      decreases Height(tree.log), 1
    {
      hide Support, EndsIn, Found, IsAnswer, AllFrequent, Height, ListsSubsets, FPTree.Valid;
      var single;
      ghost var leaf;
      single, leaf := IsSinglePath(tree);
      if single {
        LeafIsOrdered(itemFrequency, tree, leaf);
        r := PathPatterns(tree, leaf);
        SubsetsAreAnswer(itemFrequency, tree.log, minSupportCount, leaf, r);
      } else {
        r := map[];
        var todo := tree.header.Keys;
        FoundNone(itemFrequency, tree.log, minSupportCount);
        assert tree.header.Keys - todo == {};
        while todo != {}
          invariant todo <= tree.header.Keys && tree.Valid()
          invariant Found(itemFrequency, tree.log, minSupportCount, tree.header.Keys - todo, r)
        {
          ghost var someItem := SetFacts.Member(todo);
          var x :| x in todo;
          var pattern, one := PatternsEndingIn(tree, x);
          EndsInKeys(itemFrequency, tree.log, minSupportCount, x, pattern);
          ghost var before := r;
          r := Merge(r, x, pattern, one);
          ghost var done := tree.header.Keys - todo;
          todo := todo - {x};
          assert tree.header.Keys - todo == done + {x};
          ItemIsFrequent(tree, minSupportCount, x);
          FoundStep(itemFrequency, tree.log, minSupportCount, done, x, before, pattern, one, r);
        }
        assert tree.header.Keys - todo == tree.header.Keys;
        FoundAll(itemFrequency, tree, minSupportCount, r);
      }
    }

    /** All non-empty subsets of the items of a single-path tree. */
    method PathPatterns(tree: FPTree, ghost leaf: seq<int>) returns (r: map<set<int>, int>)
      requires tree.Valid() && SinglePath(tree.at, leaf) && Ordered(itemFrequency, leaf)
      ensures ListsSubsets(tree.log, Items(leaf), r)
    {
      hide Placed, Chained, IsChain, ListsSubsets, Swept, Support;
      ghost var kids := tree.Kids();
      LogOnPath(tree, leaf);
      r := map[];
      var cur := tree.root;
      ghost var k := 0;
      EmptyList(tree.log, leaf);
      while |cur.children| > 0
        invariant 0 <= k <= |leaf| && leaf[..k] in tree.at && tree.at[leaf[..k]] == cur
        invariant ListsSubsets(tree.log, Items(leaf[..k]), r)
        decreases |leaf| - k
      {
        NextOnPath(tree.root, tree.at, kids, leaf, k);
        assert kids[leaf[..k]] == cur.children;
        cur := cur.children[0];
        ghost var before := r;
        ListedSets(tree.log, leaf, k, r, itemFrequency);
        assert leaf[..k + 1] != [];
        r := AddToAll(r, cur.item, cur.frequency);
        SubsetsGrow(itemFrequency, tree.log, leaf, k, before, r);
        k := k + 1;
      }
      assert kids[leaf[..k]] == cur.children;
      if k < |leaf| {
        ChildOnPath(tree.root, tree.at, kids, leaf[..k], leaf);
      }
      assert leaf[..k] == leaf;
    }
  }

  lemma OnlyChild(root: FPNode, at: map<seq<int>, FPNode>, kids: map<seq<int>, seq<FPNode>>, p: seq<int>)
    requires Shaped(root, at, kids) && p in at && p in kids && |kids[p]| == 1
    requires forall q :: q in at ==> q <= p || p <= q
    ensures var r := p + [kids[p][0].item];
            r in at && at[r] == kids[p][0] && forall q :: q in at ==> q <= r || r <= q
  {
    assert Placed(at, kids, p);
    var c := kids[p][0];
    assert c in kids[p];
    var r := p + [c.item];
    forall q | q in at ensures q <= r || r <= q {
      if p < q {
        ChildOnPath(root, at, kids, p, q);
        assert at[q[..|p| + 1]] == c == at[r];
        assert Placed(at, kids, r) && Placed(at, kids, q[..|p| + 1]);
      }
    }
  }

  lemma EmptyList(log: seq<Weighted>, leaf: seq<int>)
    ensures leaf[..0] == [] && ListsSubsets(log, Items(leaf[..0]), map[])
  {
  }

  lemma ListedSets(log: seq<Weighted>, leaf: seq<int>, k: nat, r: map<set<int>, int>, freq: map<int, int>)
    requires Ordered(freq, leaf) && k < |leaf| && ListsSubsets(log, Items(leaf[..k]), r)
    ensures forall s :: s in r ==> s != {} && leaf[k] !in s
  {
    assert leaf[k] !in leaf[..k];
    assert leaf[k] !in Items(leaf[..k]);
  }

  lemma LogOnPath(tree: FPTree, leaf: seq<int>)
    requires tree.Valid() && SinglePath(tree.at, leaf)
    ensures forall i :: 0 <= i < |tree.log| ==> tree.log[i].items <= leaf
    ensures leaf == [] || exists i :: 0 <= i < |tree.log| && tree.log[i].items == leaf
  {
    forall i | 0 <= i < |tree.log| ensures tree.log[i].items <= leaf {
      var t := tree.log[i].items;
      assert t[..|t|] == t;
    }
    if leaf != [] {
      var i :| 0 <= i < |tree.log| && leaf <= tree.log[i].items;
      assert tree.log[i].items == leaf;
    }
  }

  lemma NextOnPath(root: FPNode, at: map<seq<int>, FPNode>, kids: map<seq<int>, seq<FPNode>>, leaf: seq<int>, k: nat)
    requires Shaped(root, at, kids) && SinglePath(at, leaf) && k <= |leaf| && leaf[..k] in at
    requires leaf[..k] in kids && |kids[leaf[..k]]| > 0
    ensures k < |leaf| && leaf[..k + 1] in at && at[leaf[..k + 1]] == kids[leaf[..k]][0]
    ensures kids[leaf[..k]][0].item == leaf[k]
  {
    var p := leaf[..k];
    assert Placed(at, kids, p);
    var c := kids[p][0];
    assert c in kids[p];
    assert p + [c.item] <= leaf;
    assert leaf[..k + 1] == p + [c.item];
  }

  // ----- following a header chain -----

  /** `trans` lists the transactions of `cond` with their items in walking order. */
  ghost predicate SameTransactions(trans: seq<(seq<int>, int)>, cond: seq<Weighted>) {
    |trans| == |cond| &&
    forall i :: 0 <= i < |cond| ==> trans[i] == (Reverse(cond[i].items), cond[i].weight)
  }

  lemma CountsEmpty()
    ensures Counts(map[], [])
    ensures Support([], {}) == 0
  {
  }

  lemma CountsSkip(counts: map<int, int>, counts': map<int, int>, cond: seq<Weighted>, w: Weighted)
    requires Counts(counts, cond) && w.items == [] && Tallied(counts, w.items, w.weight, counts')
    ensures Counts(counts', cond)
  {
    assert counts' == counts by {
      forall y | y in counts ensures counts'[y] == counts[y] {
        assert Frequency(counts', y) == Frequency(counts, y);
      }
    }
  }

  lemma StartChain(tree: FPTree, x: int)
    requires tree.Valid() && x in tree.chains
    ensures tree.chains[x] != [] && x in tree.header && tree.header[x] == tree.chains[x][0]
    ensures EndIn(tree.ChainPaths(x), x)
  {
    ChainEnds(tree.at, tree.Links(), x, tree.chains[x]);
  }

  /** What the walk meets at position `j` of a chain. */
  lemma ChainNode(tree: FPTree, x: int, j: nat)
    requires tree.Valid() && x in tree.chains && j < |tree.chains[x]|
    ensures var n := tree.chains[x][j];
            && n.path in tree.at && tree.at[n.path] == n && n.path != [] && n.path[|n.path| - 1] == x
            && n.frequency == PathWeight(tree.log, n.path)
            && n.next == (if j < |tree.chains[x]| - 1 then tree.chains[x][j + 1] else null)
            && exists k :: 0 <= k < |tree.log| && n.path <= tree.log[k].items
  {
    hide Shaped;
    assert IsChain(tree.at, tree.Links(), x, tree.chains[x]);
    tree.LinksFollow(x);
    assert tree.chains[x][j].next == if j < |tree.chains[x]| - 1 then tree.chains[x][j + 1] else null;
  }

  lemma BranchSnoc(branches: seq<Weighted>, j: nat, cond: seq<Weighted>)
    requires j < |branches| && forall s :: s != {} ==> Support(cond, s) == Support(branches[..j], s)
    ensures Support(branches[..j + 1], {}) == Support(branches[..j], {}) + branches[j].weight
    ensures forall s :: s != {} ==> Support(cond + [branches[j]], s) == Support(branches[..j + 1], s)
    ensures branches[j].items == [] ==> forall s :: s != {} ==> Support(cond, s) == Support(branches[..j + 1], s)
  {
    var w := branches[j];
    assert branches[..j + 1] == branches[..j] + [w];
    SupportSnoc(branches[..j], w, {});
    forall s | s != {} ensures Support(cond + [w], s) == Support(branches[..j + 1], s) {
      SupportSnoc(branches[..j], w, s);
      SupportSnoc(cond, w, s);
    }
    if w.items == [] {
      forall s | s != {} ensures Support(cond, s) == Support(branches[..j + 1], s) {
        SupportSnoc(branches[..j], w, s);
        var y := SetFacts.Member(s);
        assert y !in Items(w.items);
      }
    }
  }

  lemma CollectDone(freq: map<int, int>, log: seq<Weighted>, paths: seq<seq<int>>, x: int, cond: seq<Weighted>,
                    one: int)
    requires PathsTo(log, paths, x) && Mineable(freq, log)
    requires one == Support(Branches(log, paths), {})
    requires forall s :: s != {} ==> Support(cond, s) == Support(Branches(log, paths), s)
    ensures one == Support(log, {x})
    ensures forall s :: s != {} && (forall y :: y in s ==> Before(freq, y, x)) ==>
                          Support(cond, s) == Support(log, s + {x})
  {
    BranchSupport(freq, log, paths, x, {});
    assert {} + {x} == {x};
    forall s | s != {} && forall y :: y in s ==> Before(freq, y, x)
      ensures Support(cond, s) == Support(log, s + {x})
    {
      BranchSupport(freq, log, paths, x, s);
    }
  }

  // ----- from the conditional tree back to the whole -----

  /** `pattern` lists what can be put above `x` in a frequent itemset. */
  ghost predicate EndsIn(freq: map<int, int>, log: seq<Weighted>, min: int, x: int, pattern: map<set<int>, int>) {
    && (forall s :: s in pattern <==> s != {} && IsLast(freq, s + {x}, x) && x !in s && Frequent(log, min, s + {x}))
    && (forall s :: s in pattern ==> pattern[s] == Support(log, s + {x}))
  }

  lemma EndsInKeys(freq: map<int, int>, log: seq<Weighted>, min: int, x: int, pattern: map<set<int>, int>)
    requires EndsIn(freq, log, min, x, pattern)
    ensures forall s :: s in pattern ==> s != {} && x !in s
  {
  }

  lemma InHeader(tree: FPTree, x: int)
    requires tree.Valid() && x in tree.header
    ensures Height(tree.log) >= 1 && exists k :: 0 <= k < |tree.log| && x in tree.log[k].items
  {
    StartChain(tree, x);
    ChainNode(tree, x, 0);
    var p := tree.chains[x][0].path;
    var k :| 0 <= k < |tree.log| && p <= tree.log[k].items;
    assert tree.log[k].items[|p| - 1] == x;
    HeightBounds(tree.log, k);
  }

  lemma NoRootItem(freq: map<int, int>, log: seq<Weighted>, x: int, cond: seq<Weighted>)
    requires AllConditional(freq, log, x, cond)
    ensures forall k :: 0 <= k < |cond| ==> ROOT_ITEM !in cond[k].items
  {
    forall k | 0 <= k < |cond| ensures ROOT_ITEM !in cond[k].items {
      assert Conditional(freq, log, x, cond[k]);
    }
  }

  /** The conditional tree meets the miner's own precondition and is lower. */
  lemma ConditionalIsMineable(freq: map<int, int>, log: seq<Weighted>, min: int, x: int,
                              cond: seq<Weighted>, counts: map<int, int>)
    requires AllConditional(freq, log, x, cond) && Counts(counts, cond) && Height(log) >= 1
    ensures var sub := KeepAll(cond, AtLeast(counts, min));
            Mineable(freq, sub) && AllFrequent(sub, min) && Height(sub) < Height(log)
    ensures var sub := KeepAll(cond, AtLeast(counts, min));
            forall k, y :: 0 <= k < |sub| && y in sub[k].items ==> Before(freq, y, x)
  {
    var keep := AtLeast(counts, min);
    var sub := KeepAll(cond, keep);
    hide Ordered, Before, Support, Keep, KeepAll, Height, Conditional, Counts, Items, AtLeast;
    KeepAllAt(cond, keep);
    forall k | 0 <= k < |sub|
      ensures Ordered(freq, sub[k].items) && sub[k].weight >= 1 && ROOT_ITEM !in sub[k].items
      ensures |sub[k].items| <= Height(log) - 1
    {
      assert Conditional(freq, log, x, cond[k]);
      KeptConditional(freq, log, x, cond[k], keep);
    }
    forall k, y | 0 <= k < |sub| && y in sub[k].items ensures Support(sub, {y}) >= min {
      KeptFrequent(cond, counts, min, k, y);
    }
    HeightAtMost(sub, Height(log) - 1);
    ConditionalAbove(freq, log, x, cond, keep);
  }

  lemma KeptConditional(freq: map<int, int>, log: seq<Weighted>, x: int, w: Weighted, keep: set<int>)
    requires Conditional(freq, log, x, w) && Height(log) >= 1
    ensures var items := Keep(w.items, keep);
            Ordered(freq, items) && w.weight >= 1 && ROOT_ITEM !in items && |items| <= Height(log) - 1
  {
    hide Before;
    KeepOrdered(freq, w.items, keep);
    KeepItems(w.items, keep);
    assert ROOT_ITEM !in Items(Keep(w.items, keep));
  }

  lemma KeptFrequent(cond: seq<Weighted>, counts: map<int, int>, min: int, k: nat, y: int)
    requires Counts(counts, cond) && k < |KeepAll(cond, AtLeast(counts, min))|
    requires y in KeepAll(cond, AtLeast(counts, min))[k].items
    ensures Support(KeepAll(cond, AtLeast(counts, min)), {y}) >= min
  {
    var keep := AtLeast(counts, min);
    KeepAllAt(cond, keep);
    KeepItems(cond[k].items, keep);
    hide Keep, KeepAll, Support;
    assert y in Items(KeepAll(cond, keep)[k].items);
    KeepAllSupport(cond, keep, {y});
    assert Frequency(counts, y) == Support(cond, {y});
  }

  lemma ConditionalAbove(freq: map<int, int>, log: seq<Weighted>, x: int, cond: seq<Weighted>, keep: set<int>)
    requires AllConditional(freq, log, x, cond)
    ensures var sub := KeepAll(cond, keep); forall k, y :: 0 <= k < |sub| && y in sub[k].items ==> Before(freq, y, x)
  {
    hide Before, Ordered;
    var sub := KeepAll(cond, keep);
    KeepAllAt(cond, keep);
    forall k, y | 0 <= k < |sub| && y in sub[k].items ensures Before(freq, y, x) {
      assert Conditional(freq, log, x, cond[k]);
      KeepItems(cond[k].items, keep);
      assert y in Items(sub[k].items);
    }
  }

  /** Mining the conditional tree yields what can be put above `x`. */
  lemma ConditionalAnswer(freq: map<int, int>, log: seq<Weighted>, min: int, x: int,
                          cond: seq<Weighted>, counts: map<int, int>, pattern: map<set<int>, int>)
    requires AllConditional(freq, log, x, cond) && Counts(counts, cond)
    requires forall s :: s != {} && (forall y :: y in s ==> Before(freq, y, x)) ==>
                           Support(cond, s) == Support(log, s + {x})
    requires IsAnswer(KeepAll(cond, AtLeast(counts, min)), min, pattern)
    ensures EndsIn(freq, log, min, x, pattern)
  {
    var sub := KeepAll(cond, AtLeast(counts, min));
    forall s ensures s in pattern <==> s != {} && IsLast(freq, s + {x}, x) && x !in s && Frequent(log, min, s + {x}) {
      if s in pattern {
        assert Frequent(sub, min, s);
        SurvivorSupport(freq, log, min, x, cond, counts, s);
      }
      if s != {} && IsLast(freq, s + {x}, x) && x !in s && Frequent(log, min, s + {x}) {
        FrequentSurvives(freq, log, min, x, cond, counts, s);
        assert Frequent(sub, min, s);
      }
    }
    forall s | s in pattern ensures pattern[s] == Support(log, s + {x}) {
      assert Frequent(sub, min, s);
      SurvivorSupport(freq, log, min, x, cond, counts, s);
    }
  }

  lemma SurvivorSupport(freq: map<int, int>, log: seq<Weighted>, min: int, x: int,
                        cond: seq<Weighted>, counts: map<int, int>, s: set<int>)
    requires AllConditional(freq, log, x, cond) && Counts(counts, cond) && s != {}
    requires forall s :: s != {} && (forall y :: y in s ==> Before(freq, y, x)) ==>
                           Support(cond, s) == Support(log, s + {x})
    requires Support(KeepAll(cond, AtLeast(counts, min)), s) >= 1
    ensures Support(KeepAll(cond, AtLeast(counts, min)), s) == Support(log, s + {x})
    ensures x !in s && IsLast(freq, s + {x}, x)
  {
    KeepAllSupport(cond, AtLeast(counts, min), s);
    var k := SupportWitness(cond, s);
    assert Conditional(freq, log, x, cond[k]);
    forall y | y in s ensures Before(freq, y, x) {
      assert y in Items(cond[k].items);
    }
  }

  lemma FrequentSurvives(freq: map<int, int>, log: seq<Weighted>, min: int, x: int,
                         cond: seq<Weighted>, counts: map<int, int>, s: set<int>)
    requires AllConditional(freq, log, x, cond) && Counts(counts, cond) && s != {}
    requires forall s :: s != {} && (forall y :: y in s ==> Before(freq, y, x)) ==>
                           Support(cond, s) == Support(log, s + {x})
    requires IsLast(freq, s + {x}, x) && x !in s && Frequent(log, min, s + {x})
    ensures Support(KeepAll(cond, AtLeast(counts, min)), s) == Support(log, s + {x})
  {
    var keep := AtLeast(counts, min);
    assert forall y :: y in s ==> y in s + {x};
    assert Positive(cond) by {
      forall k | 0 <= k < |cond| ensures cond[k].weight >= 1 {
        assert Conditional(freq, log, x, cond[k]);
      }
    }
    forall y | y in s ensures y in keep {
      SupportAntitone(cond, {y}, s);
      assert Frequency(counts, y) == Support(cond, {y});
    }
    KeepAllSupport(cond, keep, s);
  }

  // ----- collecting the patterns of all items -----

  /** `r` holds exactly the frequent itemsets whose last item is in `done`. */
  ghost predicate Found(freq: map<int, int>, log: seq<Weighted>, min: int, done: set<int>, r: map<set<int>, int>) {
    && (forall s :: s in r <==> Frequent(log, min, s) && exists x :: x in done && IsLast(freq, s, x))
    && (forall s :: s in r ==> r[s] == Support(log, s))
  }

  ghost predicate Merged(r: map<set<int>, int>, x: int, pattern: set<set<int>>, value: map<set<int>, int>, one: int,
                         r': map<set<int>, int>) {
    && (forall s :: s in r' <==> s in r || s == {x} || (x in s && s - {x} in pattern))
    && (forall s :: s in r' && s !in r ==>
          (s == {x} && r'[s] == one) || (s != {x} && s - {x} in value && r'[s] == value[s - {x}]))
    && (forall s :: s in r ==> r'[s] == r[s])
  }

  method Merge(r0: map<set<int>, int>, x: int, pattern: map<set<int>, int>, one: int) returns (r: map<set<int>, int>)
    requires forall s :: s in pattern ==> s != {} && x !in s
    ensures Merged(r0, x, pattern.Keys, pattern, one, r)
  {
    r := r0;
    var todo := pattern.Keys;
    while todo != {}
      invariant todo <= pattern.Keys
      invariant forall s :: s in r <==> s in r0 || (s != {x} && x in s && s - {x} in pattern.Keys - todo)
      invariant forall s :: s in r && s !in r0 ==> s - {x} in pattern && r[s] == pattern[s - {x}]
      invariant forall s :: s in r0 ==> r[s] == r0[s]
    {
      var s :| s in todo;
      assert s + {x} - {x} == s;
      assert forall t :: x in t && t - {x} == s ==> t == s + {x};
      r := Insert(r, s + {x}, pattern[s]);
      todo := todo - {s};
    }
    r := Insert(r, {x}, one);
  }

  lemma FoundNone(freq: map<int, int>, log: seq<Weighted>, min: int)
    ensures Found(freq, log, min, {}, map[])
  {
  }

  lemma ItemIsFrequent(tree: FPTree, min: int, x: int)
    requires tree.Valid() && x in tree.header && Positive(tree.log) && AllFrequent(tree.log, min)
    ensures Frequent(tree.log, min, {x})
  {
    InHeader(tree, x);
    var k :| 0 <= k < |tree.log| && x in tree.log[k].items;
    SupportAtLeast(tree.log, {x}, k);
  }

  lemma FoundStep(freq: map<int, int>, log: seq<Weighted>, min: int, done: set<int>, x: int,
                  before: map<set<int>, int>, pattern: map<set<int>, int>, one: int, after: map<set<int>, int>)
    requires Found(freq, log, min, done, before) && EndsIn(freq, log, min, x, pattern)
    requires one == Support(log, {x}) && Frequent(log, min, {x})
    requires Merged(before, x, pattern.Keys, pattern, one, after)
    ensures Found(freq, log, min, done + {x}, after)
  {
    forall s ensures s in after <==> Frequent(log, min, s) && exists y :: y in done + {x} && IsLast(freq, s, y) {
      EndsInLast(freq, log, min, x, pattern, s);
      if s in after && s !in before {
        assert x in done + {x};
      }
    }
    forall s | s in after ensures after[s] == Support(log, s) {
      if s !in before && s != {x} {
        assert s - {x} + {x} == s;
      }
    }
  }

  /** The itemsets that end in `x` are `{x}` and the extensions of `pattern`. */
  lemma EndsInLast(freq: map<int, int>, log: seq<Weighted>, min: int, x: int, pattern: map<set<int>, int>, s: set<int>)
    requires EndsIn(freq, log, min, x, pattern) && Frequent(log, min, {x})
    ensures s == {x} || (x in s && s - {x} in pattern) <==> Frequent(log, min, s) && IsLast(freq, s, x)
  {
    if x in s {
      assert s - {x} + {x} == s;
      if s - {x} == {} {
        assert s == {x};
      }
    }
  }

  lemma FoundAll(freq: map<int, int>, tree: FPTree, min: int, r: map<set<int>, int>)
    requires tree.Valid() && Found(freq, tree.log, min, tree.header.Keys, r)
    ensures IsAnswer(tree.log, min, r)
  {
    forall s | Frequent(tree.log, min, s) ensures s in r {
      var x := LastExists(freq, s);
      var k := SupportWitness(tree.log, s);
      assert x in Items(tree.log[k].items);
      tree.ChainIsComplete(x);
    }
  }

  lemma LeafIsOrdered(freq: map<int, int>, tree: FPTree, leaf: seq<int>)
    requires tree.Valid() && SinglePath(tree.at, leaf) && AllOrdered(freq, tree.log)
    ensures Ordered(freq, leaf)
    ensures forall i :: 0 <= i < |tree.log| ==> tree.log[i].items <= leaf
    ensures leaf == [] || exists i :: 0 <= i < |tree.log| && tree.log[i].items == leaf
  {
    LogOnPath(tree, leaf);
  }

  // ----- the whole program -----

  /** The transactions as read from the file, each counted once. */
  ghost function AsRead(ts: seq<seq<int>>): seq<Weighted> {
    seq(|ts|, i requires 0 <= i < |ts| => Weighted(ts[i], 1))
  }

  ghost predicate NoRepeats(t: seq<int>) {
    forall i, j :: 0 <= i < j < |t| ==> t[i] != t[j]
  }

  /** Both scans and the search: every frequent itemset of the input, with its
      exact support, and nothing else. */
  method Mine(ts: seq<seq<int>>, min: int) returns (r: map<set<int>, int>)
    requires forall i :: 0 <= i < |ts| ==> NoRepeats(ts[i]) && ROOT_ITEM !in ts[i]
    ensures IsAnswer(AsRead(ts), min, r)
  {
    hide IsAnswer, AllFrequent, Mineable, Support, FPTree.Valid, Frequency, KeepAll, NoRepeats;
    ghost var raw := AsRead(ts);
    var fp := new FPgrowth(min);
    var i := 0;
    CountStart(raw);
    while i < |ts|
      invariant 0 <= i <= |ts| && fp.minSupportCount == min
      invariant forall k :: 0 <= k < i ==> Items(ts[k]) <= fp.itemFrequency.Keys
      invariant Tally(fp.itemFrequency, raw[..i])
    {
      ghost var before := fp.itemFrequency;
      fp.CountItemFrequency(ts[i]);
      TallyStep(before, fp.itemFrequency, raw, i);
      i := i + 1;
    }
    assert raw[..i] == raw;
    ghost var keep := AtLeast(fp.itemFrequency, min);
    var tree := new FPTree();
    i := 0;
    ScanStart(fp.itemFrequency, keep, raw);
    while i < |ts|
      invariant 0 <= i <= |ts| && tree.Valid() && fresh(tree) && fresh(tree.at.Values)
      invariant fp.minSupportCount == min && Tally(fp.itemFrequency, raw) && keep == AtLeast(fp.itemFrequency, min)
      invariant forall k :: 0 <= k < |ts| ==> Items(ts[k]) <= fp.itemFrequency.Keys
      invariant Scanned(fp.itemFrequency, keep, raw[..i], tree.log)
    {
      var t := fp.SortAndTrimTransaction(ts[i]);
      ScanStep(fp.itemFrequency, min, keep, raw, i, t, tree.log);
      tree.InsertNodes(t, 1);
      i := i + 1;
    }
    assert raw[..i] == raw;
    ScanIsMineable(fp.itemFrequency, min, raw, tree.log);
    r := fp.FindPattern(tree);
    ScanAnswer(fp.itemFrequency, min, raw, tree.log, r);
  }

  /** After the first scan the frequency of an item is its support. */
  ghost predicate Tally(freq: map<int, int>, raw: seq<Weighted>) {
    && (forall x :: Frequency(freq, x) == Support(raw, {x}))
    && (forall x :: x in freq ==> freq[x] >= 1)
  }

  lemma CountStart(raw: seq<Weighted>)
    ensures raw[..0] == [] && Tally(map[], raw[..0])
  {
  }

  lemma NoRepeatsCount(t: seq<int>, x: int)
    requires NoRepeats(t)
    ensures multiset(t)[x] == if x in t then 1 else 0
  {
    if x in t {
      var i :| 0 <= i < |t| && t[i] == x;
      assert t == t[..i] + [x] + t[i + 1..];
      assert x !in t[..i] && x !in t[i + 1..];
      assert x !in multiset(t[..i]) && x !in multiset(t[i + 1..]);
    }
  }

  lemma CountTwice(t: seq<int>, i: nat, j: nat)
    requires i < j < |t|
    ensures t[i] == t[j] ==> multiset(t)[t[i]] >= 2
  {
    assert t == t[..j] + [t[j]] + t[j + 1..];
    assert t[i] in t[..j];
    assert multiset(t[..j])[t[i]] >= 1;
  }

  lemma TallyStep(before: map<int, int>, after: map<int, int>, raw: seq<Weighted>, i: nat)
    requires i < |raw| && Tally(before, raw[..i]) && raw[i].weight == 1 && NoRepeats(raw[i].items)
    requires after.Keys == before.Keys + Items(raw[i].items)
    requires forall x :: Frequency(after, x) == Frequency(before, x) + multiset(raw[i].items)[x]
    ensures Tally(after, raw[..i + 1])
  {
    var t := raw[i].items;
    assert raw[..i + 1] == raw[..i] + [raw[i]];
    forall x ensures Frequency(after, x) == Support(raw[..i + 1], {x}) && (x in after ==> after[x] >= 1) {
      SupportSnoc(raw[..i], raw[i], {x});
      NoRepeatsCount(t, x);
      assert {x} <= Items(t) <==> x in t;
    }
  }

  /** After the second scan the tree holds the trimmed transactions, reordered. */
  ghost predicate Scanned(freq: map<int, int>, keep: set<int>, raw: seq<Weighted>, log: seq<Weighted>) {
    && Mineable(freq, log)
    && (forall k :: 0 <= k < |log| ==> Items(log[k].items) <= keep)
    && (forall s :: Support(log, s) == Support(KeepAll(raw, keep), s))
  }

  lemma ScanStart(freq: map<int, int>, keep: set<int>, raw: seq<Weighted>)
    ensures raw[..0] == [] && Scanned(freq, keep, raw[..0], [])
  {
  }

  lemma TrimmedItems(freq: map<int, int>, min: int, t: seq<int>, r: seq<int>)
    requires NoRepeats(t) && Rising(freq, r) && Items(t) <= freq.Keys
    requires forall x :: multiset(r)[x] == if Frequency(freq, x) >= min then multiset(t)[x] else 0
    ensures Items(Reverse(r)) == Items(t) * AtLeast(freq, min)
    ensures Ordered(freq, Reverse(r))
    ensures forall x :: x in Reverse(r) <==> x in r
  {
    var v := Reverse(r);
    forall x ensures x in v <==> x in r {
      if x in r {
        var i :| 0 <= i < |r| && r[i] == x;
        assert v[|r| - 1 - i] == x;
      }
    }
    forall x ensures x in r <==> x in t && x in AtLeast(freq, min) {
      assert x in r <==> multiset(r)[x] > 0;
      assert x in t <==> multiset(t)[x] > 0;
      if x in t {
        assert x in Items(t);
      }
    }
    assert NoRepeats(r) by {
      forall i, j | 0 <= i < j < |r| ensures r[i] != r[j] {
        NoRepeatsCount(t, r[i]);
        CountTwice(r, i, j);
      }
    }
  }

  lemma ScanStep(freq: map<int, int>, min: int, keep: set<int>, raw: seq<Weighted>, i: nat, t: seq<int>,
                 log: seq<Weighted>)
    requires i < |raw| && raw[i].weight == 1 && NoRepeats(raw[i].items) && ROOT_ITEM !in raw[i].items
    requires Items(raw[i].items) <= freq.Keys && keep == AtLeast(freq, min)
    requires Scanned(freq, keep, raw[..i], log) && Rising(freq, t)
    requires forall x :: multiset(t)[x] == if Frequency(freq, x) >= min then multiset(raw[i].items)[x] else 0
    ensures ROOT_ITEM !in t
    ensures Scanned(freq, keep, raw[..i + 1], log + [Weighted(Reverse(t), 1)])
  {
    TrimmedItems(freq, min, raw[i].items, t);
    var w := Weighted(Reverse(t), 1);
    assert ROOT_ITEM !in Items(w.items);
    KeepItems(raw[i].items, keep);
    hide Support, KeepAll;
    forall s ensures Support(log + [w], s) == Support(KeepAll(raw[..i + 1], keep), s) {
      ScanSupport(keep, raw, i, log, w, s);
    }
  }

  lemma ScanSupport(keep: set<int>, raw: seq<Weighted>, i: nat, log: seq<Weighted>, w: Weighted, s: set<int>)
    requires i < |raw| && raw[i].weight == w.weight == 1 && Items(w.items) == Items(Keep(raw[i].items, keep))
    requires Support(log, s) == Support(KeepAll(raw[..i], keep), s)
    ensures Support(log + [w], s) == Support(KeepAll(raw[..i + 1], keep), s)
  {
    var kept := Weighted(Keep(raw[i].items, keep), 1);
    assert raw[..i + 1][..i] == raw[..i];
    assert KeepAll(raw[..i + 1], keep) == KeepAll(raw[..i], keep) + [kept];
    hide KeepAll, Support;
    SupportSnoc(log, w, s);
    SupportSnoc(KeepAll(raw[..i], keep), kept, s);
  }

  lemma ScanIsMineable(freq: map<int, int>, min: int, raw: seq<Weighted>, log: seq<Weighted>)
    requires Tally(freq, raw) && Scanned(freq, AtLeast(freq, min), raw, log)
    ensures Mineable(freq, log) && AllFrequent(log, min)
  {
    forall k, x | 0 <= k < |log| && x in log[k].items ensures Support(log, {x}) >= min {
      assert x in Items(log[k].items);
      KeepAllSupport(raw, AtLeast(freq, min), {x});
      assert Frequency(freq, x) == Support(raw, {x});
    }
  }

  lemma ScanAnswer(freq: map<int, int>, min: int, raw: seq<Weighted>, log: seq<Weighted>, r: map<set<int>, int>)
    requires Tally(freq, raw) && Scanned(freq, AtLeast(freq, min), raw, log) && Positive(raw)
    requires IsAnswer(log, min, r)
    ensures IsAnswer(raw, min, r)
  {
    var keep := AtLeast(freq, min);
    forall s
      ensures s <= keep ==> Support(log, s) == Support(raw, s)
      ensures !(s <= keep) ==> !Frequent(log, min, s) && !Frequent(raw, min, s)
    {
      KeepAllSupport(raw, keep, s);
      if !(s <= keep) {
        var x := SetFacts.Outside(s, keep);
        SupportAntitone(raw, {x}, s);
        assert Frequency(freq, x) == Support(raw, {x});
      }
    }
  }

  /** The result is the set of itemsets that reach the threshold exactly when the
      threshold is at least one; below that, itemsets that never occur are missing. */
  lemma ThresholdIsMet(log: seq<Weighted>, min: int, r: map<set<int>, int>)
    requires Positive(log) && IsAnswer(log, min, r)
    ensures (forall s :: s in r <==> s != {} && Support(log, s) >= min) <==> min >= 1
  {
    forall s | s in r ensures Frequent(log, min, s) {
    }
    if min < 1 {
      var x := UnusedItem(log);
      var s := {x};
      if Support(log, s) >= 1 {
        var k := SupportWitness(log, s);
      }
      SupportAntitone(log, s, s);
      assert s !in r && s != {} && Support(log, s) >= min;
    }
  }

  lemma {:induction false} UnusedItem(log: seq<Weighted>) returns (x: int)
    ensures forall k, y :: 0 <= k < |log| && y in log[k].items ==> y < x
  {
    if log == [] {
      x := 0;
    } else {
      x := UnusedItem(log[..|log| - 1]);
      var m := Above(log[|log| - 1].items);
      x := if x < m then m else x;
    }
  }

  lemma {:induction false} Above(t: seq<int>) returns (x: int)
    ensures forall y :: y in t ==> y < x
  {
    if t == [] {
      x := 0;
    } else {
      assert t == [t[0]] + t[1..];
      x := Above(t[1..]);
      x := if x <= t[0] then t[0] + 1 else x;
    }
  }
}
