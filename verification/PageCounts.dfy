/** Accounting for physical pages: the free list threaded through the page records, and
    reference counts as numbers of uses. */
module PageCounts {
  import opened PageTables

  // ----- the free list -----

  const NULL := -1

  ghost predicate Distinct(s: seq<nat>) {
    forall i, j :: 0 <= i < j < |s| ==> s[i] != s[j]
  }

  ghost function At(s: seq<nat>, i: nat): int {
    if i < |s| then s[i] else NULL
  }

  /** The list that starts at `head` and follows the links is `free`; records that are
      not on it have no link. */
  ghost predicate FreeList(link: seq<int>, head: int, free: seq<nat>, numFree: int) {
    && head == At(free, 0) && numFree == |free| && Distinct(free)
    && (forall i :: 0 <= i < |free| ==> free[i] < |link| && link[free[i]] == At(free, i + 1))
    && (forall p: nat :: p < |link| && p !in free ==> link[p] == NULL)
  }

  lemma Popped(link: seq<int>, head: int, free: seq<nat>, numFree: int)
    requires FreeList(link, head, free, numFree) && free != []
    ensures 0 <= head < |link| && head == free[0] && head !in free[1..]
    ensures FreeList(link[head := NULL], link[head], free[1..], numFree - 1)
  {
    var rest, link' := free[1..], link[head := NULL];
    forall i | 0 <= i < |rest| ensures rest[i] < |link'| && link'[rest[i]] == At(rest, i + 1) {
      assert rest[i] == free[i + 1];
    }
    forall p: nat | p < |link'| && p !in rest ensures link'[p] == NULL {
      if p != head {
        assert p !in free;
      }
    }
  }

  lemma Pushed(link: seq<int>, head: int, free: seq<nat>, numFree: int, p: nat)
    requires FreeList(link, head, free, numFree) && p < |link| && p !in free
    ensures FreeList(link[p := head], p, [p] + free, numFree + 1)
  {
    var free', link' := [p] + free, link[p := head];
    forall i | 0 <= i < |free'| ensures free'[i] < |link'| && link'[free'[i]] == At(free', i + 1) {
      if i > 0 {
        assert free'[i] == free[i - 1];
      }
    }
  }

  // ----- counts -----

  /** A page of an address space. */
  datatype Place = Place(d: nat, v: nat)

  /** The keys under which a map has `p`. */
  ghost function Keys<K>(m: map<K, nat>, p: nat): set<K> {
    set k | k in m && m[k] == p
  }

  lemma KeysPut<K>(m: map<K, nat>, k: K, q: nat, p: nat)
    requires k !in m
    ensures |Keys(m[k := q], p)| == |Keys(m, p)| + if p == q then 1 else 0
  {
    if p == q {
      assert Keys(m[k := q], p) == Keys(m, p) + {k};
    } else {
      assert Keys(m[k := q], p) == Keys(m, p);
    }
  }

  lemma KeysDrop<K>(m: map<K, nat>, k: K, p: nat)
    requires k in m
    ensures |Keys(m - {k}, p)| == |Keys(m, p)| - if p == m[k] then 1 else 0
  {
    if p == m[k] {
      assert Keys(m - {k}, p) == Keys(m, p) - {k};
    } else {
      assert Keys(m - {k}, p) == Keys(m, p);
    }
  }

  ghost function One(b: bool): int {
    if b then 1 else 0
  }

  /** How often page `p` is in use: by directory slots for which it is the table, by
      places that it has been inserted at, for good if it is reserved, and by the
      operation under way if that has already counted it. */
  ghost function UseCount(tabs: map<Slot, nat>, maps: map<Place, nat>, reserved: set<nat>, hold: int, p: nat): int {
    |Keys(tabs, p)| + |Keys(maps, p)| + One(p in reserved) + One(p == hold)
  }

  ghost predicate Counted(refs: seq<nat>, tabs: map<Slot, nat>, maps: map<Place, nat>, reserved: set<nat>, hold: int) {
    forall p :: 0 <= p < |refs| ==> refs[p] == UseCount(tabs, maps, reserved, hold, p)
  }

  lemma CountHeld(refs: seq<nat>, tabs: map<Slot, nat>, maps: map<Place, nat>, reserved: set<nat>, p: nat)
    requires Counted(refs, tabs, maps, reserved, NULL) && p < |refs|
    ensures Counted(refs[p := refs[p] + 1], tabs, maps, reserved, p)
  {
  }

  lemma CountTable(refs: seq<nat>, tabs: map<Slot, nat>, maps: map<Place, nat>, reserved: set<nat>, k: Slot, p: nat)
    requires Counted(refs, tabs, maps, reserved, p) && k !in tabs
    ensures Counted(refs, tabs[k := p], maps, reserved, NULL)
  {
    hide Keys;
    forall q | 0 <= q < |refs| ensures refs[q] == UseCount(tabs[k := p], maps, reserved, NULL, q) {
      KeysPut(tabs, k, p, q);
    }
  }

  lemma CountMap(refs: seq<nat>, tabs: map<Slot, nat>, maps: map<Place, nat>, reserved: set<nat>, k: Place, p: nat)
    requires Counted(refs, tabs, maps, reserved, p) && k !in maps
    ensures Counted(refs, tabs, maps[k := p], reserved, NULL)
  {
    hide Keys;
    forall q | 0 <= q < |refs| ensures refs[q] == UseCount(tabs, maps[k := p], reserved, NULL, q) {
      KeysPut(maps, k, p, q);
    }
  }

  lemma CountUnmap(refs: seq<nat>, tabs: map<Slot, nat>, maps: map<Place, nat>, reserved: set<nat>, hold: int, k: Place)
    requires Counted(refs, tabs, maps, reserved, hold) && k in maps && maps[k] < |refs|
    ensures refs[maps[k]] > 0 && Counted(refs[maps[k] := refs[maps[k]] - 1], tabs, maps - {k}, reserved, hold)
    ensures maps[k] == hold ==> refs[maps[k]] > 1
  {
    KeyOf(maps, k);
    hide Keys;
    var p := maps[k];
    KeysDrop(maps, k, p);
    forall q | 0 <= q < |refs|
      ensures refs[p := refs[p] - 1][q] == UseCount(tabs, maps - {k}, reserved, hold, q)
    {
      KeysDrop(maps, k, q);
    }
  }

  lemma CountUntable(refs: seq<nat>, tabs: map<Slot, nat>, maps: map<Place, nat>, reserved: set<nat>, hold: int,
                     k: Slot)
    requires Counted(refs, tabs, maps, reserved, hold) && k in tabs && tabs[k] < |refs|
    ensures refs[tabs[k]] > 0 && Counted(refs[tabs[k] := refs[tabs[k]] - 1], tabs - {k}, maps, reserved, hold)
  {
    KeyOf(tabs, k);
    hide Keys;
    var p := tabs[k];
    forall q | 0 <= q < |refs|
      ensures refs[p := refs[p] - 1][q] == UseCount(tabs - {k}, maps, reserved, hold, q)
    {
      KeysDrop(tabs, k, q);
    }
  }

  lemma KeyOf<K>(m: map<K, nat>, k: K)
    requires k in m
    ensures |Keys(m, m[k])| > 0
  {
    assert k in Keys(m, m[k]);
  }

  /** A page with count zero is not in use. */
  lemma Unused(refs: seq<nat>, tabs: map<Slot, nat>, maps: map<Place, nat>, reserved: set<nat>, hold: int, p: nat)
    requires Counted(refs, tabs, maps, reserved, hold) && p < |refs| && refs[p] == 0
    ensures (forall k :: k in tabs ==> tabs[k] != p) && (forall k :: k in maps ==> maps[k] != p) && p !in reserved
  {
    forall k | k in tabs ensures tabs[k] != p {
      KeyOf(tabs, k);
    }
    forall k | k in maps ensures maps[k] != p {
      KeyOf(maps, k);
    }
  }
}
