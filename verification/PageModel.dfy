/** The state of physical memory as values, what makes it sound, and that every change
    the operations make to it keeps it so. */
module PageModel {
  import opened PageTables
  import opened PageCounts

  /** Reference counts, links, head and length of the free list, and the memory itself. */
  datatype Pages = Pages(refs: seq<nat>, link: seq<int>, head: int, numFree: int, words: Words)

  /** What the pages are used for: the free list, the directories, the tables by the slot
      that holds them, and the inserted pages by the place they are inserted at. */
  datatype Books = Books(free: seq<nat>, dirs: set<nat>, tabs: map<Slot, nat>, maps: map<Place, nat>)

  /** Every inserted page is mapped where it was inserted. */
  ghost predicate MapsOk(words: Words, dirs: set<nat>, maps: map<Place, nat>)
    requires Shape(words)
  {
    forall k :: k in maps ==> MapOk(words, dirs, k, maps[k])
  }

  ghost predicate MapOk(words: Words, dirs: set<nat>, k: Place, p: nat)
    requires Shape(words)
  {
    && k.d in dirs && k.d < |words| && k.v < VPAGES && p < |words| && p !in dirs
    && Translate(words, k.d, k.v).Mapped? && Translate(words, k.d, k.v).page == p
  }

  /** A page on the free list is not in use and is no directory. */
  ghost predicate FreeApart(free: seq<nat>, refs: seq<nat>, dirs: set<nat>, tabs: map<Slot, nat>) {
    forall p :: p in free ==> p < |refs| && refs[p] == 0 && p !in dirs && NoDirectory(tabs, p)
  }

  ghost predicate NoDirectory(tabs: map<Slot, nat>, p: nat) {
    forall k :: k in tabs ==> k.d != p
  }

  /** No directory has been inserted anywhere. */
  ghost predicate MapsApart(maps: map<Place, nat>, tabs: map<Slot, nat>) {
    forall k :: k in maps ==> NoDirectory(tabs, maps[k])
  }

  ghost predicate Sound(m: Pages, b: Books, reserved: set<nat>, hold: int) {
    && |m.refs| == |m.link| == |m.words| && Shape(m.words)
    && FreeList(m.link, m.head, b.free, m.numFree)
    && TabsOk(m.words, b.dirs, b.tabs) && MapsOk(m.words, b.dirs, b.maps)
    && Counted(m.refs, b.tabs, b.maps, reserved, hold)
    && FreeApart(b.free, m.refs, b.dirs, b.tabs) && MapsApart(b.maps, b.tabs)
  }

  /** One page of one address space may have a new mapping, `m`; all others translate as
      before. */
  ghost predicate Remapped(words: Words, words': Words, dirs: set<nat>, d: nat, v: nat, m: Mapping) {
    && Shape(words) && Shape(words') && |words| == |words'|
    && forall e, u: nat :: e in dirs && e < |words| && u < VPAGES ==>
         Translate(words', e, u) == if e == d && u == v then m else Translate(words, e, u)
  }

  ghost predicate SameTranslation(words: Words, words': Words, dirs: set<nat>) {
    && Shape(words) && Shape(words') && |words| == |words'|
    && forall e, u: nat :: e in dirs && e < |words| && u < VPAGES ==> Translate(words', e, u) == Translate(words, e, u)
  }

  /** The page is mapped to `p`, present, and with the permissions asked for. */
  ghost predicate Permitted(words: Words, d: nat, v: nat, p: nat, perm: nat) {
    && Shape(words) && d < |words| && v < VPAGES
    && var m := Translate(words, d, v); m.Mapped? && m.page == p && m.flags % 2 == 1 && m.flags / 2 == perm / 2
  }

  lemma RemappedPermitted(words: Words, words': Words, dirs: set<nat>, d: nat, v: nat, p: nat, perm: nat)
    requires Remapped(words, words', dirs, d, v, Mapped(p, WithPresent(perm))) && d in dirs && d < |words| && v < VPAGES
    ensures Permitted(words', d, v, p, perm)
  {
    hide Translate;
  }

  lemma MapsKept(words: Words, words': Words, dirs: set<nat>, maps: map<Place, nat>)
    requires Shape(words) && MapsOk(words, dirs, maps) && SameTranslation(words, words', dirs)
    ensures MapsOk(words', dirs, maps)
  {
    hide Translate;
    forall k | k in maps ensures MapOk(words', dirs, k, maps[k]) {
      assert MapOk(words, dirs, k, maps[k]);
    }
  }

  // ----- taking a page and giving it back -----

  function Zeros(): (page: seq<nat>)
    ensures |page| == ENTRIES && Blank(page)
  {
    seq(ENTRIES, i => 0)
  }

  function Allocated(m: Pages, zero: bool): Pages
    requires 0 <= m.head < |m.link| == |m.words|
  {
    var words := if zero then m.words[m.head := Zeros()] else m.words;
    Pages(m.refs, m.link[m.head := NULL], m.link[m.head], m.numFree - 1, words)
  }

  lemma AllocSound(m: Pages, b: Books, reserved: set<nat>, hold: int, zero: bool)
    requires Sound(m, b, reserved, hold) && b.free != []
    ensures 0 <= m.head < |m.refs| == |m.link| == |m.words| && m.head == b.free[0]
    ensures Sound(Allocated(m, zero), b.(free := b.free[1..]), reserved, hold)
    ensures m.head !in b.free[1..] && m.refs[m.head] == 0 && m.head !in b.dirs && NoDirectory(b.tabs, m.head)
    ensures forall k :: k in b.tabs ==> b.tabs[k] != m.head
    ensures SameTranslation(m.words, Allocated(m, zero).words, b.dirs)
  {
    Popped(m.link, m.head, b.free, m.numFree);
    var p := m.head;
    assert p in b.free;
    Unused(m.refs, b.tabs, b.maps, reserved, hold, p);
    hide FreeList, Counted;
    WriteElsewhere(m.words, b.dirs, b.tabs, p, Zeros());
    hide Translate, TabsOk;
    MapsKept(m.words, Allocated(m, zero).words, b.dirs, b.maps);
    RestApart(b.free, m.refs, b.dirs, b.tabs);
  }

  lemma RestApart(free: seq<nat>, refs: seq<nat>, dirs: set<nat>, tabs: map<Slot, nat>)
    requires FreeApart(free, refs, dirs, tabs) && free != []
    ensures FreeApart(free[1..], refs, dirs, tabs)
  {
  }

  /** A page that nobody uses has been put in front of the free list. */
  lemma FreeSound(m: Pages, m': Pages, b: Books, reserved: set<nat>, hold: int, p: nat)
    requires Sound(m, b, reserved, hold) && p < |m.refs| && m.refs[p] == 0 && p !in b.dirs && NoDirectory(b.tabs, p)
    requires m'.refs == m.refs && m'.words == m.words && |m'.link| == |m.link|
    requires FreeList(m'.link, m'.head, [p] + b.free, m'.numFree)
    ensures Sound(m', b.(free := [p] + b.free), reserved, hold)
  {
    hide FreeList, Counted, TabsOk, MapsOk, NoDirectory;
  }

  /** One reference more, not yet accounted for. */
  function Held(m: Pages, p: nat): Pages
    requires p < |m.refs|
  {
    m.(refs := m.refs[p := m.refs[p] + 1])
  }

  lemma HoldSound(m: Pages, b: Books, reserved: set<nat>, p: nat)
    requires Sound(m, b, reserved, NULL) && p < |m.refs| && p !in b.free
    ensures Sound(Held(m, p), b, reserved, p)
  {
    CountHeld(m.refs, b.tabs, b.maps, reserved, p);
    hide FreeList, Counted, TabsOk, MapsOk, NoDirectory;
  }

  function FreeAfter(m: Pages, free: seq<nat>, p: nat): seq<nat>
    requires p < |m.refs|
  {
    if m.refs[p] == 1 then [p] + free else free
  }

  /** The page has one reference less and is given back if it was the last; the memory
      itself may have changed. */
  ghost predicate Dropped(m: Pages, m': Pages, free: seq<nat>, p: nat) {
    && p < |m.refs| && m.refs[p] > 0 && m'.refs == m.refs[p := m.refs[p] - 1]
    && |m'.link| == |m.link| && FreeList(m'.link, m'.head, FreeAfter(m, free, p), m'.numFree)
  }

  // ----- tables -----

  /** The permissions of a directory slot: user, writable. */
  const TABLE_PERM := 6

  function Hung(m: Pages, d: nat, i: nat, t: nat): Pages
    requires d < |m.words| && i < |m.words[d]|
  {
    m.(words := Put(m.words, d, i, Entry(t, TABLE_PERM)))
  }

  lemma HangSound(m: Pages, b: Books, reserved: set<nat>, d: nat, i: nat, t: nat)
    requires t < |m.words| && Sound(m, b, reserved, t) && d in b.dirs && d < |m.words| && i < ENTRIES &&
             !Present(m.words[d][i])
    requires t !in b.free && t !in b.dirs && NoDirectory(b.tabs, t) && Blank(m.words[t])
    requires forall k :: k in b.tabs ==> b.tabs[k] != t
    ensures Slot(d, i) !in b.tabs
    ensures Sound(Hung(m, d, i, t), b.(tabs := b.tabs[Slot(d, i) := t]), reserved, NULL)
    ensures SameTranslation(m.words, Hung(m, d, i, t).words, b.dirs)
  {
    assert Slot(d, i) !in b.tabs;
    NewTable(m.words, b.dirs, b.tabs, d, i, t, TABLE_PERM);
    CountTable(m.refs, b.tabs, b.maps, reserved, Slot(d, i), t);
    hide FreeList, Counted, TabsOk, Translate, Blank;
    MapsKept(m.words, Hung(m, d, i, t).words, b.dirs, b.maps);
    MapsApartWithTable(m.words, b.dirs, b.maps, b.tabs, Slot(d, i), t);
    hide MapsOk, SameTranslation;
    ApartWithTable(b.free, m.refs, b.dirs, b.tabs, Slot(d, i), t);
  }

  lemma ApartWithTable(free: seq<nat>, refs: seq<nat>, dirs: set<nat>, tabs: map<Slot, nat>, k: Slot, t: nat)
    requires FreeApart(free, refs, dirs, tabs) && k.d in dirs
    ensures FreeApart(free, refs, dirs, tabs[k := t])
  {
  }

  lemma MapsApartWithTable(words: Words, dirs: set<nat>, maps: map<Place, nat>, tabs: map<Slot, nat>, k: Slot, t: nat)
    requires Shape(words) && MapsOk(words, dirs, maps) && MapsApart(maps, tabs) && k.d in dirs
    ensures MapsApart(maps, tabs[k := t])
  {
    forall l | l in maps ensures NoDirectory(tabs[k := t], maps[l]) {
      assert MapOk(words, dirs, l, maps[l]);
    }
  }

  // ----- entries -----

  /** The entry of page `v` in its table has been written. */
  function Written(m: Pages, t: nat, v: nat, w: nat): Pages
    requires t < |m.words| && Shape(m.words)
  {
    m.(words := Put(m.words, t, v % ENTRIES, w))
  }

  lemma WriteRemaps(m: Pages, b: Books, d: nat, v: nat, w: nat)
    requires TabsOk(m.words, b.dirs, b.tabs) && d in b.dirs && v < VPAGES && Slot(d, v / ENTRIES) in b.tabs
    ensures b.tabs[Slot(d, v / ENTRIES)] < |m.words|
    ensures var words := Written(m, b.tabs[Slot(d, v / ENTRIES)], v, w).words;
            && TabsOk(words, b.dirs, b.tabs) && Remapped(m.words, words, b.dirs, d, v, Decode(w))
            && |words| == |m.words| && Shape(words)
  {
    WriteEntry(m.words, b.dirs, b.tabs, d, v, w);
  }

  lemma MapsElsewhere(words: Words, words': Words, dirs: set<nat>, maps: map<Place, nat>, d: nat, v: nat, e: Mapping)
    requires Shape(words) && MapsOk(words, dirs, maps) && Remapped(words, words', dirs, d, v, e) && Place(d, v) !in maps
    ensures MapsOk(words', dirs, maps)
  {
    hide Translate;
    forall k | k in maps ensures MapOk(words', dirs, k, maps[k]) {
      assert MapOk(words, dirs, k, maps[k]);
      assert k != Place(d, v);
    }
  }

  /** An entry that does not count. */
  lemma MapStaticSound(m: Pages, b: Books, reserved: set<nat>, d: nat, v: nat, page: nat, perm: nat)
    requires Sound(m, b, reserved, NULL) && d in b.dirs && v < VPAGES && Slot(d, v / ENTRIES) in b.tabs && perm < FRAME
    requires Place(d, v) !in b.maps
    ensures b.tabs[Slot(d, v / ENTRIES)] < |m.words|
    ensures var m' := Written(m, b.tabs[Slot(d, v / ENTRIES)], v, Entry(page, perm));
            Sound(m', b, reserved, NULL) && Remapped(m.words, m'.words, b.dirs, d, v, Mapped(page, WithPresent(perm)))
  {
    hide FreeList, Counted, TabsOk, FreeApart, Translate, Decode, Entry;
    var w := Entry(page, perm);
    WriteRemaps(m, b, d, v, w);
    DecodeEntry(page, perm);
    var m' := Written(m, b.tabs[Slot(d, v / ENTRIES)], v, w);
    MapsElsewhere(m.words, m'.words, b.dirs, b.maps, d, v, Decode(w));
  }

  /** An entry for the page that is held. */
  lemma MapSound(m: Pages, b: Books, reserved: set<nat>, d: nat, v: nat, p: nat, perm: nat)
    requires Sound(m, b, reserved, p) && p < |m.words| && d in b.dirs && v < VPAGES &&
             Slot(d, v / ENTRIES) in b.tabs && perm < FRAME
    requires Place(d, v) !in b.maps && p !in b.dirs && NoDirectory(b.tabs, p)
    ensures b.tabs[Slot(d, v / ENTRIES)] < |m.words|
    ensures var m' := Written(m, b.tabs[Slot(d, v / ENTRIES)], v, Entry(p, perm));
            && Sound(m', b.(maps := b.maps[Place(d, v) := p]), reserved, NULL)
            && Remapped(m.words, m'.words, b.dirs, d, v, Mapped(p, WithPresent(perm)))
  {
    DirectoryBound(m.words, b.dirs, b.tabs, d);
    hide FreeList, Counted, TabsOk, FreeApart, Translate, Decode, Entry;
    var w := Entry(p, perm);
    WriteRemaps(m, b, d, v, w);
    DecodeEntry(p, perm);
    var m' := Written(m, b.tabs[Slot(d, v / ENTRIES)], v, w);
    MapsElsewhere(m.words, m'.words, b.dirs, b.maps, d, v, Decode(w));
    CountMap(m.refs, b.tabs, b.maps, reserved, Place(d, v), p);
    var maps' := b.maps[Place(d, v) := p];
    forall k | k in maps' ensures MapOk(m'.words, b.dirs, k, maps'[k]) {
      if k != Place(d, v) {
        assert MapOk(m'.words, b.dirs, k, b.maps[k]);
      }
    }
  }

  lemma DirectoryBound(words: Words, dirs: set<nat>, tabs: map<Slot, nat>, d: nat)
    requires TabsOk(words, dirs, tabs) && d in dirs
    ensures d < |words|
  {
  }

  lemma MapsFewer(words: Words, dirs: set<nat>, maps: map<Place, nat>, tabs: map<Slot, nat>, k: Place)
    requires Shape(words) && MapsOk(words, dirs, maps) && MapsApart(maps, tabs)
    ensures MapsOk(words, dirs, maps - {k}) && MapsApart(maps - {k}, tabs)
  {
    hide Translate, NoDirectory;
    forall l | l in maps - {k} ensures MapOk(words, dirs, l, (maps - {k})[l]) {
      assert MapOk(words, dirs, l, maps[l]);
    }
  }

  lemma ApartAfter(m: Pages, free: seq<nat>, dirs: set<nat>, tabs: map<Slot, nat>, p: nat)
    requires FreeApart(free, m.refs, dirs, tabs) && p < |m.refs| && m.refs[p] > 0 && p !in dirs && NoDirectory(tabs, p)
    ensures FreeApart(FreeAfter(m, free, p), m.refs[p := m.refs[p] - 1], dirs, tabs)
  {
  }

  /** An inserted page is in use, and there is a table with its entry. */
  lemma PlaceUsed(m: Pages, b: Books, reserved: set<nat>, hold: int, d: nat, v: nat)
    requires Sound(m, b, reserved, hold) && Place(d, v) in b.maps
    ensures v < VPAGES && d in b.dirs && Slot(d, v / ENTRIES) in b.tabs && b.tabs[Slot(d, v / ENTRIES)] < |m.words|
    ensures var p := b.maps[Place(d, v)]; p < |m.refs| && p !in b.free && m.refs[p] > 0 && (p == hold ==> m.refs[p] > 1)
  {
    var k := Place(d, v);
    assert MapOk(m.words, b.dirs, k, b.maps[k]);
    assert TabOk(m.words, b.dirs, Slot(d, v / ENTRIES), b.tabs[Slot(d, v / ENTRIES)]);
    CountUnmap(m.refs, b.tabs, b.maps, reserved, hold, k);
  }

  /** The entry of an inserted page has been taken out and its reference dropped. */
  lemma UnmapSound(m: Pages, m': Pages, b: Books, reserved: set<nat>, hold: int, d: nat, v: nat)
    requires Sound(m, b, reserved, hold) && Place(d, v) in b.maps && Slot(d, v / ENTRIES) in b.tabs
    requires Dropped(m, m', b.free, b.maps[Place(d, v)])
    requires var t := b.tabs[Slot(d, v / ENTRIES)]; t < |m.words| && m'.words == Put(m.words, t, v % ENTRIES, 0)
    ensures Sound(m', b.(free := FreeAfter(m, b.free, b.maps[Place(d, v)]), maps := b.maps - {Place(d, v)}), reserved,
                  hold)
    ensures Remapped(m.words, m'.words, b.dirs, d, v, Unmapped)
  {
    var k := Place(d, v);
    var p := b.maps[k];
    assert MapOk(m.words, b.dirs, k, p);
    CountUnmap(m.refs, b.tabs, b.maps, reserved, hold, k);
    ApartAfter(m, b.free, b.dirs, b.tabs, p);
    hide FreeList, Counted, TabsOk, FreeApart, Translate, NoDirectory;
    WriteRemaps(m, b, d, v, 0);
    MapsFewer(m.words, b.dirs, b.maps, b.tabs, k);
    hide MapsOk, MapsApart;
    MapsElsewhere(m.words, m'.words, b.dirs, b.maps - {k}, d, v, Unmapped);
  }

  // ----- directories -----

  lemma TabsOtherDirs(words: Words, dirs: set<nat>, dirs': set<nat>, tabs: map<Slot, nat>)
    requires TabsOk(words, dirs, tabs) && forall d :: d in dirs' && d !in dirs ==> d < |words| && Blank(words[d])
    requires forall d, k :: d in dirs' && d !in dirs && k in tabs ==> tabs[k] != d
    ensures TabsOk(words, dirs', tabs)
  {
    forall k | k in tabs ensures TabOk(words, dirs', k, tabs[k]) {
      assert TabOk(words, dirs, k, tabs[k]);
    }
  }

  lemma MapsOtherDirs(words: Words, dirs: set<nat>, dirs': set<nat>, maps: map<Place, nat>)
    requires Shape(words) && MapsOk(words, dirs, maps)
    requires forall k :: k in maps ==> (k.d in dirs ==> k.d in dirs') && (maps[k] in dirs' ==> maps[k] in dirs)
    ensures MapsOk(words, dirs', maps)
  {
    hide Translate;
    forall k | k in maps ensures MapOk(words, dirs', k, maps[k]) {
      assert MapOk(words, dirs, k, maps[k]);
    }
  }

  /** An empty page that nobody uses becomes a directory. */
  lemma DirectorySound(m: Pages, b: Books, reserved: set<nat>, p: nat)
    requires Sound(m, b, reserved, NULL) && p < |m.refs| == |m.words| && m.refs[p] == 0 && Blank(m.words[p])
    requires p !in b.free && p !in b.dirs && NoDirectory(b.tabs, p)
    ensures Sound(m, b.(dirs := b.dirs + {p}), reserved, NULL)
  {
    Unused(m.refs, b.tabs, b.maps, reserved, NULL, p);
    hide FreeList, Counted, TabsOk, MapsOk, NoDirectory, Blank, MapsApart;
    var dirs' := b.dirs + {p};
    TabsOtherDirs(m.words, b.dirs, dirs', b.tabs);
    MapsOtherDirs(m.words, b.dirs, dirs', b.maps);
  }

  /** A directory with no inserted pages is given up; its tables are still in use. */
  lemma GiveUpSound(m: Pages, b: Books, reserved: set<nat>, d: nat)
    requires Sound(m, b, reserved, NULL) && forall k :: k in b.maps ==> k.d != d
    ensures Sound(m, b.(dirs := b.dirs - {d}), reserved, NULL)
  {
    hide FreeList, Counted, TabsOk, MapsOk, NoDirectory, MapsApart;
    var dirs' := b.dirs - {d};
    TabsOtherDirs(m.words, b.dirs, dirs', b.tabs);
    MapsOtherDirs(m.words, b.dirs, dirs', b.maps);
  }

  /** A table is in use. */
  lemma TableUsed(m: Pages, b: Books, reserved: set<nat>, k: Slot)
    requires Sound(m, b, reserved, NULL) && k in b.tabs
    ensures b.tabs[k] < |m.refs| && b.tabs[k] !in b.free && m.refs[b.tabs[k]] > 0 && b.tabs[k] != k.d
  {
    assert TabOk(m.words, b.dirs, k, b.tabs[k]);
    CountUntable(m.refs, b.tabs, b.maps, reserved, NULL, k);
  }

  /** A table of a directory that has been given up has lost that reference. */
  lemma UntableSound(m: Pages, m': Pages, b: Books, reserved: set<nat>, k: Slot)
    requires Sound(m, b, reserved, NULL) && k in b.tabs && k.d !in b.dirs
    requires Dropped(m, m', b.free, b.tabs[k]) && m'.words == m.words
    ensures Sound(m', b.(free := FreeAfter(m, b.free, b.tabs[k]), tabs := b.tabs - {k}), reserved, NULL)
  {
    var t, tabs' := b.tabs[k], b.tabs - {k};
    assert TabOk(m.words, b.dirs, k, t);
    CountUntable(m.refs, b.tabs, b.maps, reserved, NULL, k);
    assert NoDirectory(b.tabs, t);
    ApartAfter(m, b.free, b.dirs, b.tabs, t);
    hide FreeList, Counted, Translate;
    TabsFewer(m.words, b.dirs, b.tabs, k);
    hide TabsOk;
  }

  lemma TabsFewer(words: Words, dirs: set<nat>, tabs: map<Slot, nat>, k: Slot)
    requires TabsOk(words, dirs, tabs) && k.d !in dirs
    ensures TabsOk(words, dirs, tabs - {k})
  {
    forall l | l in tabs - {k} ensures TabOk(words, dirs, l, (tabs - {k})[l]) {
      assert TabOk(words, dirs, l, tabs[l]);
    }
  }
}
