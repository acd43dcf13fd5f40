/** The prefix tree of the frequent-pattern miner, with its header chains.

    Nodes are shared objects whose frequency, children and chain link change in
    place.  Ghost state names every node by its path from the root (`at`), lists
    every header chain (`chains`) and records what was inserted (`log`). */
module FPTrees {
  import opened Itemsets
  import MapFacts

  /** The item stored in the root, which the upward walk uses as its stop sign. */
  const ROOT_ITEM := -1

  class FPNode {
    const item: int
    const parent: FPNode?
    ghost const path: seq<int>
    var frequency: int
    var children: seq<FPNode>
    var next: FPNode?

    constructor (item: int, parent: FPNode?, frequency: int)
      ensures this.item == item && this.parent == parent && this.frequency == frequency
      ensures children == [] && next == null
      ensures path == if parent == null then [] else parent.path + [item]
    {
      this.item := item;
      this.parent := parent;
      this.frequency := frequency;
      children := [];
      next := null;
      path := if parent == null then [] else parent.path + [item];
    }
  }

  /** The paths in `keys` are exactly the prefixes of the inserted transactions
      (and the root's empty path). */
  ghost predicate Covers(log: seq<Weighted>, keys: set<seq<int>>) {
    && [] in keys
    && (forall k, j :: 0 <= k < |log| && 0 <= j <= |log[k].items| ==> log[k].items[..j] in keys)
    && (forall p :: p in keys && p != [] ==> exists k :: 0 <= k < |log| && p <= log[k].items)
  }

  /** The node `at[p]` hangs below the node of the path one shorter, and its
      children `kids[p]` are the nodes of the paths one longer. */
  ghost predicate Placed(at: map<seq<int>, FPNode>, kids: map<seq<int>, seq<FPNode>>, p: seq<int>) {
    && p in at && p in kids && at[p].path == p
    && (p != [] ==>
          var q, x := p[..|p| - 1], p[|p| - 1];
          at[p].item == x && x != ROOT_ITEM && q in at && at[p].parent == at[q] && q in kids && at[p] in kids[q])
    && (forall c :: c in kids[p] ==> p + [c.item] in at && at[p + [c.item]] == c)
    && (forall i, j :: 0 <= i < j < |kids[p]| ==> kids[p][i] != kids[p][j])
  }

  ghost predicate Shaped(root: FPNode, at: map<seq<int>, FPNode>, kids: map<seq<int>, seq<FPNode>>) {
    && [] in at && at[[]] == root && root.parent == null && root.item == ROOT_ITEM
    && (forall p {:trigger Placed(at, kids, p)} :: p in at ==> Placed(at, kids, p))
  }

  /** `chain` is a null-terminated list without repeats of nodes of item `x`. */
  ghost predicate IsChain(at: map<seq<int>, FPNode>, next: map<FPNode, FPNode?>, x: int, chain: seq<FPNode>) {
    && (forall i :: 0 <= i < |chain| ==>
         var p := chain[i].path; p != [] && p[|p| - 1] == x && p in at && at[p] == chain[i] && chain[i] in next)
    && (forall i {:trigger next[chain[i]]} :: 0 <= i < |chain| ==>
          next[chain[i]] == if i < |chain| - 1 then chain[i + 1] else null)
    && (forall i, j :: 0 <= i < j < |chain| ==> chain[i] != chain[j])
  }

  /** Every header entry starts the chain of its item, and the chains together
      visit every node except the root. */
  ghost predicate Chained(at: map<seq<int>, FPNode>, next: map<FPNode, FPNode?>, header: map<int, FPNode>,
                          chains: map<int, seq<FPNode>>) {
    && header.Keys == chains.Keys
    && (forall x :: x in chains ==>
         chains[x] != [] && x in header && header[x] == chains[x][0] && IsChain(at, next, x, chains[x]))
    && (forall p :: p in at && p != [] ==> p[|p| - 1] in chains && at[p] in chains[p[|p| - 1]])
  }

  ghost function PathsOf(chain: seq<FPNode>): seq<seq<int>> {
    seq(|chain|, i requires 0 <= i < |chain| => chain[i].path)
  }

  lemma ChainEnds(at: map<seq<int>, FPNode>, next: map<FPNode, FPNode?>, x: int, chain: seq<FPNode>)
    requires IsChain(at, next, x, chain)
    ensures EndIn(PathsOf(chain), x)
  {
    var paths := PathsOf(chain);
    forall i, j | 0 <= i < j < |paths| ensures paths[i] != paths[j] {
      assert chain[i] != chain[j] && at[paths[i]] == chain[i] && at[paths[j]] == chain[j];
    }
  }

  class FPTree {
    const root: FPNode
    var header: map<int, FPNode>
    ghost var at: map<seq<int>, FPNode>
    ghost var chains: map<int, seq<FPNode>>
    ghost var log: seq<Weighted>

    ghost function Kids(): map<seq<int>, seq<FPNode>>
      reads this`at, at.Values`children
    {
      map p | p in at :: at[p].children
    }

    ghost function Links(): map<FPNode, FPNode?>
      reads this`at, at.Values`next
    {
      map n | n in at.Values :: n.next
    }

    /** Every node below the root counts the transactions that run through it. */
    ghost predicate Counted()
      reads this`at, this`log, at.Values`frequency
    {
      forall p :: p in at && p != [] ==> at[p].frequency == PathWeight(log, p)
    }

    ghost predicate Valid()
      reads this, at.Values
    {
      && Shaped(root, at, Kids())
      && Counted()
      && Chained(at, Links(), header, chains)
      && Covers(log, at.Keys)
    }

    constructor ()
      ensures Valid() && log == [] && fresh(root) && at == map[[] := root]
    {
      root := new FPNode(ROOT_ITEM, null, 1);
      header := map[];
      chains := map[];
      log := [];
      new;
      at := map[[] := root];
      assert Placed(at, Kids(), []);
    }

    /** The child of `node` that carries `item`, if there is one. */
    method FindChild(node: FPNode, item: int, ghost p: seq<int>) returns (child: FPNode?)
      requires Shaped(root, at, Kids()) && p in at && at[p] == node
      ensures child == null <==> p + [item] !in at
      ensures child != null ==> at[p + [item]] == child
    {
      assert Placed(at, Kids(), p);
      assert p + [item] in at ==> at[p + [item]] in node.children && at[p + [item]].item == item by {
        assert p + [item] !in at || Placed(at, Kids(), p + [item]);
        assert (p + [item])[..|p|] == p;
      }
      var i := 0;
      while i < |node.children|
        invariant 0 <= i <= |node.children|
        invariant forall j :: 0 <= j < i ==> node.children[j].item != item
      {
        if node.children[i].item == item {
          return node.children[i];
        }
        i := i + 1;
      }
      child := null;
    }

    /** The last node of the header chain of `item`. */
    method ChainEnd(item: int) returns (tail: FPNode)
      requires Chained(at, Links(), header, chains) && item in header
      ensures item in chains && chains[item] != [] && tail == chains[item][|chains[item]| - 1]
      ensures tail in at.Values
    {
      hide Chained, IsChain;
      HeaderStarts(item);
      LinksFollow(item);
      ghost var chain := chains[item];
      tail := header[item];
      ghost var i := 0;
      while tail.next != null
        invariant 0 <= i < |chain| && tail == chain[i]
        decreases |chain| - i
      {
        tail := tail.next;
        i := i + 1;
      }
    }

    lemma HeaderStarts(item: int)
      requires Chained(at, Links(), header, chains) && item in header
      ensures item in chains && chains[item] != [] && header[item] == chains[item][0]
    {
    }

    lemma LinksFollow(item: int)
      requires Chained(at, Links(), header, chains) && item in chains
      ensures var chain := chains[item];
              forall i {:trigger chain[i].next} :: 0 <= i < |chain| ==>
                            chain[i] in at.Values && chain[i].next == if i < |chain| - 1 then chain[i + 1] else null
    {
      var chain := chains[item];
      assert IsChain(at, Links(), item, chain);
      forall i | 0 <= i < |chain|
        ensures chain[i] in at.Values && chain[i].next == if i < |chain| - 1 then chain[i + 1] else null
      {
        assert Links()[chain[i]] == chain[i].next;
      }
    }

    /** The paths of the nodes on the header chain of `x`. */
    ghost function ChainPaths(x: int): seq<seq<int>>
      requires x in chains
      reads this`chains
    {
      PathsOf(chains[x])
    }

    /** The header chain of an item visits every node of that item exactly once,
        and every item that was inserted has a chain. */
    lemma ChainIsComplete(x: int)
      requires Valid()
      ensures x in header <==> x in chains
      ensures x in chains ==> PathsTo(log, ChainPaths(x), x)
      ensures forall k :: 0 <= k < |log| && x in log[k].items ==> x in chains
    {
      hide Shaped, IsChain;
      forall k, m | 0 <= k < |log| && 0 <= m < |log[k].items| && log[k].items[m] == x
        ensures x in chains && log[k].items[..m + 1] in ChainPaths(x)
      {
        OnChain(log[k].items[..m + 1]);
      }
      if x in chains {
        ChainEnds(at, Links(), x, chains[x]);
      }
    }

    lemma OnChain(p: seq<int>)
      requires Valid() && p in at && p != []
      ensures p[|p| - 1] in chains && p in ChainPaths(p[|p| - 1])
    {
      var x := p[|p| - 1];
      SamePath(root, at, Kids(), p);
      assert at[p] in chains[x];
      var i :| 0 <= i < |chains[x]| && chains[x][i] == at[p];
      assert ChainPaths(x)[i] == p;
    }

    /** Insert a transaction, last item first, adding `repeat` along its path. */
    method InsertNodes(trans: seq<int>, repeat: int)
      requires Valid() && ROOT_ITEM !in trans
      modifies this, at.Values
      ensures Valid() && log == old(log) + [Weighted(Reverse(trans), repeat)]
      ensures fresh(at.Values - old(at.Values))
    {
      hide Valid, PathWeight;
      Begin(repeat);
      ghost var rev := Reverse(trans);
      var node, i := root, |trans|;
      while i > 0
        invariant 0 <= i <= |trans| && Valid()
        invariant log == old(log) + [Weighted(rev[..|trans| - i], repeat)]
        invariant rev[..|trans| - i] in at && at[rev[..|trans| - i]] == node
        invariant fresh(at.Values - old(at.Values))
      {
        i := i - 1;
        ghost var p := rev[..|trans| - i - 1];
        assert rev[..|trans| - i] == p + [trans[i]];
        node := Descend(node, trans[i], repeat, p);
      }
      assert rev[..|trans|] == rev;
    }

    ghost method Begin(repeat: int)
      requires Valid()
      modifies this`log
      ensures Valid() && log == old(log) + [Weighted([], repeat)]
      ensures [] in at && at[[]] == root
    {
      hide Chained;
      log := log + [Weighted([], repeat)];
      forall q | q in at && q != [] ensures at[q].frequency == PathWeight(log, q) {
        PathWeightSnoc(old(log), Weighted([], repeat), q);
      }
      forall q | q in at && q != [] ensures exists k :: 0 <= k < |log| && q <= log[k].items {
        var k :| 0 <= k < |old(log)| && q <= old(log)[k].items;
        assert q <= log[k].items;
      }
    }

    /** One step of an insertion: move from the node of `p` to the node of
        `p + [item]`, creating and linking it if it is missing. */
    method Descend(node: FPNode, item: int, repeat: int, ghost p: seq<int>) returns (child: FPNode)
      requires Valid() && item != ROOT_ITEM
      requires log != [] && log[|log| - 1] == Weighted(p, repeat) && p in at && at[p] == node
      modifies this, at.Values
      ensures Valid() && log == old(log[..|log| - 1]) + [Weighted(p + [item], repeat)]
      ensures p + [item] in at && at[p + [item]] == child
      ensures old(at.Keys) <= at.Keys && forall q :: q in old(at) ==> at[q] == old(at[q])
      ensures fresh(at.Values - old(at.Values))
    {
      var found := FindChild(node, item, p);
      if found != null {
        child := found;
        Raise(child, item, repeat, p);
      } else {
        child := Grow(node, item, repeat, p);
      }
    }

    method Raise(child: FPNode, item: int, repeat: int, ghost p: seq<int>)
      requires Valid()
      requires log != [] && log[|log| - 1] == Weighted(p, repeat) && p in at
      requires p + [item] in at && at[p + [item]] == child
      modifies this`log, child`frequency
      ensures Valid() && log == old(log[..|log| - 1]) + [Weighted(p + [item], repeat)]
    {
      hide Chained;
      child.frequency := child.frequency + repeat;
      log := log[..|log| - 1] + [Weighted(p + [item], repeat)];
      forall q | q in at && q != [] ensures at[q].frequency == PathWeight(log, q) {
        SamePath(root, at, Kids(), p + [item]);
        PathWeightStep(old(log), log, p, item, repeat, q);
      }
      CoversStep(old(log), log, p, item, repeat, at.Keys);
      assert at.Keys + {p + [item]} == at.Keys;
    }

    method Grow(node: FPNode, item: int, repeat: int, ghost p: seq<int>) returns (child: FPNode)
      requires Valid() && item != ROOT_ITEM
      requires log != [] && log[|log| - 1] == Weighted(p, repeat) && p in at && at[p] == node
      requires p + [item] !in at
      modifies this, at.Values
      ensures Valid() && log == old(log[..|log| - 1]) + [Weighted(p + [item], repeat)]
      ensures at == old(at)[p + [item] := child] && fresh(child)
    {
      hide Shaped, Chained, Covers, PathWeight;
      ghost var path := p + [item];
      SamePath(root, at, Kids(), p);
      child := new FPNode(item, node, repeat);
      Attach(node, child, p);
      log := log[..|log| - 1] + [Weighted(path, repeat)];
      LogGrows(old(log), log, p, item, repeat, old(at.Keys));
      assert at.Keys == old(at.Keys) + {path};
    }

    /** Hang a new node below its parent and enter it into its header chain. */
    method Attach(node: FPNode, child: FPNode, ghost p: seq<int>)
      requires Shaped(root, at, Kids()) && Chained(at, Links(), header, chains) && p in at && at[p] == node
      requires child.path == p + [child.item] && child.path !in at && child !in at.Values
      requires child.parent == node && child.item != ROOT_ITEM && child.children == [] && child.next == null
      modifies this`at, this`header, this`chains, node`children, at.Values`next
      ensures Shaped(root, at, Kids()) && Chained(at, Links(), header, chains)
      ensures at == old(at)[child.path := child]
    {
      hide Shaped, Chained;
      ghost var kids := Kids();
      SamePath(root, at, kids, p);
      ShapedGrows(root, at, kids, child, p);
      Enlist(child);
      ghost var next := Links();
      MapFacts.ValuesOfInsert(at, child.path, child);
      node.children := node.children + [child];
      at := at[child.path := child];
      assert Kids() == kids[p := kids[p] + [child]][child.path := []];
      assert Links() == next[child := null];
    }

    /** Append a new node to the header chain of its item. */
    method Enlist(child: FPNode)
      requires Chained(at, Links(), header, chains) && child.path !in at && child !in at.Values
      requires child.path != [] && child.path[|child.path| - 1] == child.item
      modifies this`header, this`chains, at.Values`next
      ensures Chained(at[child.path := child], Links()[child := null], header, chains)
    {
      hide Chained;
      ghost var next := Links();
      var item := child.item;
      if item in header {
        ChainExtends(at, next, header, chains, child);
        var tail := ChainEnd(item);
        tail.next := child;
        chains := chains[item := chains[item] + [child]];
        assert Links() == next[tail := child];
      } else {
        ChainStarts(at, next, header, chains, child);
        header := header[item := child];
        chains := chains[item := [child]];
      }
    }
  }

  lemma ShapedGrows(root: FPNode, at: map<seq<int>, FPNode>, kids: map<seq<int>, seq<FPNode>>, child: FPNode,
                    p: seq<int>)
    requires Shaped(root, at, kids) && p in at && p in kids && child.path == p + [child.item] && child.path !in at
    requires child.parent == at[p] && child.item != ROOT_ITEM
    ensures Shaped(root, at[child.path := child], kids[p := kids[p] + [child]][child.path := []])
  {
    var path := child.path;
    var at', kids' := at[path := child], kids[p := kids[p] + [child]][path := []];
    assert path[..|path| - 1] == p;
    assert Placed(at, kids, p);
    forall q | q in at' ensures Placed(at', kids', q) {
      assert q == path || Placed(at, kids, q);
    }
  }

  lemma ChainKept(at: map<seq<int>, FPNode>, next: map<FPNode, FPNode?>,
                  at': map<seq<int>, FPNode>, next': map<FPNode, FPNode?>, x: int, chain: seq<FPNode>)
    requires IsChain(at, next, x, chain)
    requires forall p :: p in at ==> p in at' && at'[p] == at[p]
    requires forall n :: n in chain ==> n in next && n in next' && next'[n] == next[n]
    ensures IsChain(at', next', x, chain)
  {
  }

  lemma ChainSnoc(at: map<seq<int>, FPNode>, next: map<FPNode, FPNode?>, chain: seq<FPNode>, child: FPNode)
    requires chain != [] && IsChain(at, next, child.item, chain) && child.path !in at && child !in next
    requires child.path != [] && child.path[|child.path| - 1] == child.item
    ensures IsChain(at[child.path := child], next[chain[|chain| - 1] := child][child := null],
                    child.item, chain + [child])
  {
    var next' := next[chain[|chain| - 1] := child][child := null];
    forall i | 0 <= i < |chain| ensures next'[chain[i]] == (chain + [child])[i + 1] {
      assert next[chain[i]] == if i < |chain| - 1 then chain[i + 1] else null;
    }
  }

  lemma ChainStarts(at: map<seq<int>, FPNode>, next: map<FPNode, FPNode?>, header: map<int, FPNode>,
                    chains: map<int, seq<FPNode>>, child: FPNode)
    requires Chained(at, next, header, chains) && child.path !in at && child !in next
    requires child.path != [] && child.path[|child.path| - 1] == child.item && child.item !in header
    ensures Chained(at[child.path := child], next[child := null],
                    header[child.item := child], chains[child.item := [child]])
  {
    hide IsChain;
    var at', next' := at[child.path := child], next[child := null];
    forall x | x in chains ensures IsChain(at', next', x, chains[x]) {
      ChainMembers(at, next, x, chains[x]);
      ChainKept(at, next, at', next', x, chains[x]);
    }
    ChainOfOne(at', next', child);
  }

  lemma ChainOfOne(at: map<seq<int>, FPNode>, next: map<FPNode, FPNode?>, child: FPNode)
    requires child.path in at && at[child.path] == child && child in next && next[child] == null
    requires child.path != [] && child.path[|child.path| - 1] == child.item
    ensures IsChain(at, next, child.item, [child])
  {
  }

  lemma ChainMembers(at: map<seq<int>, FPNode>, next: map<FPNode, FPNode?>, x: int, chain: seq<FPNode>)
    requires IsChain(at, next, x, chain)
    ensures forall n :: n in chain ==> n in next && n.path != [] && n.path[|n.path| - 1] == x
  {
  }

  lemma ChainExtends(at: map<seq<int>, FPNode>, next: map<FPNode, FPNode?>, header: map<int, FPNode>,
                     chains: map<int, seq<FPNode>>, child: FPNode)
    requires Chained(at, next, header, chains) && child.path !in at && child !in next
    requires child.path != [] && child.path[|child.path| - 1] == child.item && child.item in header
    ensures var chain := chains[child.item];
            chain != [] &&
            Chained(at[child.path := child], next[chain[|chain| - 1] := child][child := null],
                    header, chains[child.item := chain + [child]])
  {
    hide IsChain;
    var chain := chains[child.item];
    var tail := chain[|chain| - 1];
    var at', next' := at[child.path := child], next[tail := child][child := null];
    ChainMembers(at, next, child.item, chain);
    ChainSnoc(at, next, chain, child);
    forall x | x in chains && x != child.item ensures IsChain(at', next', x, chains[x]) {
      ChainMembers(at, next, x, chains[x]);
      ChainKept(at, next, at', next', x, chains[x]);
    }
  }

  // ----- what the header chains say about the transactions -----

  /** The path above each node of a chain, weighted by the node's frequency. */
  ghost function Branches(log: seq<Weighted>, paths: seq<seq<int>>): seq<Weighted>
    requires forall i :: 0 <= i < |paths| ==> paths[i] != []
  {
    seq(|paths|, i requires 0 <= i < |paths| => Weighted(paths[i][..|paths[i]| - 1], PathWeight(log, paths[i])))
  }

  ghost predicate EndIn(paths: seq<seq<int>>, x: int) {
    && (forall i :: 0 <= i < |paths| ==> paths[i] != [] && paths[i][|paths[i]| - 1] == x)
    && (forall i, j :: 0 <= i < j < |paths| ==> paths[i] != paths[j])
  }

  /** `paths` lists, without repeats, every prefix of a transaction that ends in `x`. */
  ghost predicate PathsTo(log: seq<Weighted>, paths: seq<seq<int>>, x: int) {
    && EndIn(paths, x)
    && (forall k, m :: 0 <= k < |log| && 0 <= m < |log[k].items| && log[k].items[m] == x ==>
          log[k].items[..m + 1] in paths)
  }

  /** Companions of `x` that the item order puts above it are found above the nodes
      of the chain of `x` exactly as often as in transactions containing `x`. */
  lemma {:induction false} BranchSupport(freq: map<int, int>, log: seq<Weighted>, paths: seq<seq<int>>, x: int,
                                         s: set<int>)
    requires PathsTo(log, paths, x) && AllOrdered(freq, log)
    requires forall y :: y in s ==> Before(freq, y, x)
    ensures Support(Branches(log, paths), s) == Support(log, s + {x})
  {
    if log == [] {
      ZeroSupport(Branches(log, paths), s);
    } else {
      var base, t := log[..|log| - 1], log[|log| - 1];
      BranchSupport(freq, base, paths, x, s);
      assert log == base + [t];
      SupportSnoc(base, t, s + {x});
      BranchStep(freq, base, t, paths, x, s);
    }
  }

  lemma BranchStep(freq: map<int, int>, base: seq<Weighted>, t: Weighted, paths: seq<seq<int>>, x: int, s: set<int>)
    requires EndIn(paths, x) && Ordered(freq, t.items)
    requires forall m :: 0 <= m < |t.items| && t.items[m] == x ==> t.items[..m + 1] in paths
    requires forall y :: y in s ==> Before(freq, y, x)
    ensures Support(Branches(base + [t], paths), s)
         == Support(Branches(base, paths), s) + if s + {x} <= Items(t.items) then t.weight else 0
  {
    hide Ordered, Before, PathWeight, Support;
    if x in t.items {
      var m :| 0 <= m < |t.items| && t.items[m] == x;
      assert t.items[..m + 1] in paths;
      var k :| 0 <= k < |paths| && paths[k] == t.items[..m + 1];
      BranchesBump(freq, base, t, paths, x, m, k);
      SupportBump(Branches(base, paths), k, t.weight, s);
      assert Branches(base, paths)[k].items == t.items[..m];
      CompanionsAbove(freq, t.items, m, s);
    } else {
      assert x in s + {x};
      BranchesSame(base, t, paths, x);
    }
  }

  lemma BranchesSame(base: seq<Weighted>, t: Weighted, paths: seq<seq<int>>, x: int)
    requires EndIn(paths, x) && x !in t.items
    ensures Branches(base + [t], paths) == Branches(base, paths)
  {
    forall i | 0 <= i < |paths| ensures PathWeight(base + [t], paths[i]) == PathWeight(base, paths[i]) {
      PathWeightSnoc(base, t, paths[i]);
      assert paths[i][|paths[i]| - 1] == x;
    }
  }

  /** In an ordered transaction only one prefix ends in a given item. */
  lemma OnePrefix(freq: map<int, int>, t: seq<int>, m: nat, p: seq<int>)
    requires Ordered(freq, t) && m < |t| && p != [] && p <= t && p[|p| - 1] == t[m]
    ensures p == t[..m + 1]
  {
    assert t[|p| - 1] == t[m];
  }

  /** A transaction through `x` adds its weight to exactly one branch of `x`. */
  lemma BranchesBump(freq: map<int, int>, base: seq<Weighted>, t: Weighted, paths: seq<seq<int>>, x: int, m: nat,
                     k: nat)
    requires EndIn(paths, x) && Ordered(freq, t.items)
    requires m < |t.items| && t.items[m] == x && k < |paths| && paths[k] == t.items[..m + 1]
    ensures var b := Branches(base, paths);
            Branches(base + [t], paths) == b[k := b[k].(weight := b[k].weight + t.weight)]
  {
    forall i | 0 <= i < |paths|
      ensures PathWeight(base + [t], paths[i]) == PathWeight(base, paths[i]) + if i == k then t.weight else 0
    {
      hide Ordered;
      PathWeightSnoc(base, t, paths[i]);
      if paths[i] <= t.items {
        OnePrefix(freq, t.items, m, paths[i]);
      }
    }
  }

  lemma {:induction false} ZeroSupport(b: seq<Weighted>, s: set<int>)
    requires forall i :: 0 <= i < |b| ==> b[i].weight == 0
    ensures Support(b, s) == 0
  {
    if b != [] {
      ZeroSupport(b[..|b| - 1], s);
    }
  }

  lemma {:induction false} SupportBump(b: seq<Weighted>, k: nat, w: int, s: set<int>)
    requires k < |b|
    ensures Support(b[k := b[k].(weight := b[k].weight + w)], s)
         == Support(b, s) + if s <= Items(b[k].items) then w else 0
  {
    var n := |b| - 1;
    var b' := b[k := b[k].(weight := b[k].weight + w)];
    if k < n {
      SupportBump(b[..n], k, w, s);
      assert b'[..n] == b[..n][k := b[k].(weight := b[k].weight + w)];
    } else {
      assert b'[..n] == b[..n];
    }
  }

  /** Nodes have one path each. */
  lemma SamePath(root: FPNode, at: map<seq<int>, FPNode>, kids: map<seq<int>, seq<FPNode>>, p: seq<int>)
    requires Shaped(root, at, kids) && p in at
    ensures at[p].path == p && forall q :: q in at && at[q] == at[p] ==> q == p
  {
    assert Placed(at, kids, p);
    forall q | q in at && at[q] == at[p] ensures q == p {
      assert Placed(at, kids, q);
    }
  }

  /** A path that is not in the tree has not been inserted. */
  lemma NewPathWeight(log: seq<Weighted>, p: seq<int>, keys: set<seq<int>>)
    requires Covers(log, keys) && p !in keys
    ensures PathWeight(log, p) == 0
  {
    PathWeightZero(log, p, keys);
  }

  lemma {:induction false} PathWeightZero(log: seq<Weighted>, p: seq<int>, keys: set<seq<int>>)
    requires forall k, j :: 0 <= k < |log| && 0 <= j <= |log[k].items| ==> log[k].items[..j] in keys
    requires p !in keys
    ensures PathWeight(log, p) == 0
  {
    if log != [] {
      var n := |log| - 1;
      PathWeightZero(log[..n], p, keys);
      if |p| <= |log[n].items| {
        assert log[n].items[..|p|] in keys;
        assert p != log[n].items[..|p|];
      }
    }
  }

  /** Lengthening the last transaction by one item adds its weight to exactly one path. */
  lemma PathWeightStep(log: seq<Weighted>, log': seq<Weighted>, p: seq<int>, item: int, repeat: int, q: seq<int>)
    requires log != [] && log[|log| - 1] == Weighted(p, repeat)
    requires log' == log[..|log| - 1] + [Weighted(p + [item], repeat)]
    ensures PathWeight(log', q) == PathWeight(log, q) + (if q == p + [item] then repeat else 0)
  {
    var base := log[..|log| - 1];
    assert log == base + [Weighted(p, repeat)];
    PathWeightSnoc(base, Weighted(p, repeat), q);
    PathWeightSnoc(base, Weighted(p + [item], repeat), q);
  }

  /** A new path has the weight of the last transaction, and the others keep theirs. */
  lemma LogGrows(log: seq<Weighted>, log': seq<Weighted>, p: seq<int>, item: int, repeat: int, keys: set<seq<int>>)
    requires log != [] && log[|log| - 1] == Weighted(p, repeat)
    requires log' == log[..|log| - 1] + [Weighted(p + [item], repeat)]
    requires Covers(log, keys) && p + [item] !in keys
    ensures Covers(log', keys + {p + [item]}) && PathWeight(log', p + [item]) == repeat
    ensures forall q :: q in keys ==> PathWeight(log', q) == PathWeight(log, q)
  {
    hide PathWeight, Covers;
    CoversStep(log, log', p, item, repeat, keys);
    NewPathWeight(log, p + [item], keys);
    PathWeightStep(log, log', p, item, repeat, p + [item]);
    forall q | q in keys ensures PathWeight(log', q) == PathWeight(log, q) {
      PathWeightStep(log, log', p, item, repeat, q);
    }
  }

  lemma CoversStep(log: seq<Weighted>, log': seq<Weighted>, p: seq<int>, item: int, repeat: int, keys: set<seq<int>>)
    requires log != [] && log[|log| - 1] == Weighted(p, repeat)
    requires log' == log[..|log| - 1] + [Weighted(p + [item], repeat)]
    requires Covers(log, keys)
    ensures Covers(log', keys + {p + [item]})
  {
    forall k, j | 0 <= k < |log'| && 0 <= j <= |log'[k].items|
      ensures log'[k].items[..j] in keys + {p + [item]}
    {
      if k < |log| - 1 {
        assert log[k].items[..j] in keys;
      } else if j <= |p| {
        assert log[k].items[..j] in keys;
        assert (p + [item])[..j] == p[..j];
      } else {
        assert (p + [item])[..j] == p + [item];
      }
    }
    forall q | q in keys + {p + [item]} && q != [] ensures exists k :: 0 <= k < |log'| && q <= log'[k].items {
      if q == p + [item] {
        assert q <= log'[|log| - 1].items;
      } else {
        var k :| 0 <= k < |log| && q <= log[k].items;
        assert q <= log'[k].items;
      }
    }
  }
}
