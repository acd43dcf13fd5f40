/** Creating and freeing a task: every page that the address space takes comes back. */
module TaskLife {
  import opened PageTables
  import opened PageCounts
  import opened PageModel
  import opened PageMemory
  import opened TaskMemory

  /** The user stack of a task. */
  const STACK_PAGES := 10

  /** Present comes with the insertion; the stack is writable and for the user. */
  const STACK_PERM := 6

  // ----- what creating an address space takes -----

  /** The address space `d` has been made out of pages that were free in `b0`. */
  ghost predicate Created(m: Pages, b: Books, b0: Books, d: nat) {
    && Private(m, b, d) && d !in b.free && b.dirs == b0.dirs + {d} && d !in b0.dirs
    && forall p: nat :: p in b.free || Owned(b, d, p) <==> p in b0.free
  }

  lemma DirectoryCreated(m: Pages, b: Books, b0: Books, reserved: set<nat>, d: nat)
    requires Sound(m, b, reserved, NULL) && Unclaimed(m, b, d) && b0.free != [] && d == b0.free[0]
    requires b == b0.(free := b0.free[1..])
    ensures Created(m, b.(dirs := b.dirs + {d}), b0, d)
  {
    var b' := b.(dirs := b.dirs + {d});
    forall k | k in b.maps ensures k.d != d {
      assert MapOk(m.words, b.dirs, k, b.maps[k]);
    }
    forall p: nat ensures p in b'.free || Owned(b', d, p) <==> p in b0.free {
      assert b0.free == [d] + b.free;
    }
  }

  lemma GrownCreated(m: Pages, b: Books, reserved: set<nat>, m': Pages, b': Books, b0: Books, d: nat)
    requires Sound(m, b, reserved, NULL) && Created(m, b, b0, d) && Grown(m, b, m', b', d)
    ensures Created(m', b', b0, d)
  {
    GrownConserves(m, b, m', b', d);
    GrownPrivate(m, b, reserved, m', b', d);
    hide Sound, Private, Owned;
  }

  /** A page taken from the front of the free list and inserted belongs to the address
      space, and so does the table that may have been needed for it. */
  lemma StackPageCreated(m: Pages, b: Books, reserved: set<nat>, m1: Pages, b1: Books, m2: Pages, b2: Books, b0: Books,
                         d: nat, v: nat, pp: nat)
    requires Sound(m, b, reserved, NULL) && Created(m, b, b0, d) && b.free != [] && pp == b.free[0] && pp < |m.refs|
    requires m1.refs == m.refs && b1 == b.(free := b.free[1..]) && Place(d, v) !in b.maps
    requires Inserted(m1, b1, m2, b2, d, v, pp)
    ensures Created(m2, b2, b0, d)
  {
    StackConserved(b, b1, m1, m2, b2, d, v, pp);
    StackPrivate(m, b, reserved, m1, b1, m2, b2, d, v, pp);
    hide Sound, Private, Owned, Inserted;
    assert b.free == [pp] + b1.free;
  }

  lemma StackConserved(b: Books, b1: Books, m1: Pages, m2: Pages, b2: Books, d: nat, v: nat, pp: nat)
    requires b.free != [] && pp == b.free[0] && b1 == b.(free := b.free[1..]) && Place(d, v) !in b.maps
    requires Inserted(m1, b1, m2, b2, d, v, pp)
    ensures Conserved(b, b2, d) && b2.dirs == b.dirs && (forall p: nat :: p in b2.free ==> p in b.free)
  {
    assert b.free == [pp] + b1.free;
    assert IsMapped(b2, d, pp) by {
      assert Place(d, v) in b2.maps && b2.maps[Place(d, v)] == pp;
    }
    var slot := Slot(d, v / ENTRIES);
    if slot !in b.tabs {
      var t := b1.free[0];
      assert b1.free == [t] + b2.free;
      assert slot in b2.tabs && b2.tabs[slot] == t;
      assert IsTable(b2, d, t);
    }
    forall p: nat ensures p in b2.free || Owned(b2, d, p) <==> p in b.free || Owned(b, d, p) {
      StackOwned(b, b1, m1, m2, b2, d, v, pp, p);
    }
  }

  lemma StackOwned(b: Books, b1: Books, m1: Pages, m2: Pages, b2: Books, d: nat, v: nat, pp: nat, p: nat)
    requires b.free != [] && pp == b.free[0] && b1 == b.(free := b.free[1..]) && Place(d, v) !in b.maps
    requires Inserted(m1, b1, m2, b2, d, v, pp)
    ensures IsTable(b2, d, p) <==> IsTable(b, d, p) || (Slot(d, v / ENTRIES) !in b.tabs && p == b1.free[0])
    ensures IsMapped(b2, d, p) <==> IsMapped(b, d, p) || p == pp
  {
    var slot, place := Slot(d, v / ENTRIES), Place(d, v);
    assert place in b2.maps && b2.maps[place] == pp;
    if IsTable(b, d, p) {
      var k :| k in b.tabs && k.d == d && b.tabs[k] == p;
      assert k in b2.tabs && b2.tabs[k] == p;
    }
    if slot !in b.tabs {
      assert slot in b2.tabs && b2.tabs[slot] == b1.free[0];
    }
    if IsMapped(b, d, p) {
      var k :| k in b.maps && k.d == d && b.maps[k] == p;
      assert k in b2.maps && b2.maps[k] == p;
    }
    if IsMapped(b2, d, p) && p != pp {
      var k :| k in b2.maps && k.d == d && b2.maps[k] == p;
      assert k in b.maps && b.maps[k] == p;
    }
    if IsTable(b2, d, p) {
      var k :| k in b2.tabs && k.d == d && b2.tabs[k] == p;
      assert k != slot ==> k in b.tabs && b.tabs[k] == p;
    }
  }

  lemma StackPrivate(m: Pages, b: Books, reserved: set<nat>, m1: Pages, b1: Books, m2: Pages, b2: Books, d: nat,
                     v: nat, pp: nat)
    requires Sound(m, b, reserved, NULL) && Private(m, b, d) && d !in b.free && b.free != [] && pp == b.free[0] &&
             pp < |m.refs|
    requires m1.refs == m.refs && b1 == b.(free := b.free[1..]) && Place(d, v) !in b.maps
    requires Inserted(m1, b1, m2, b2, d, v, pp)
    ensures Private(m2, b2, d)
  {
    hide Sound;
    FreeUnused(m, b, reserved, 0);
    var slot := Slot(d, v / ENTRIES);
    if slot !in b.tabs {
      assert b1.free[0] == b.free[1];
      FreeUnused(m, b, reserved, 1);
      FirstTwo(m, b, reserved);
    }
    forall k | k in b2.tabs && k.d == d ensures b2.tabs[k] < |m2.refs| && m2.refs[b2.tabs[k]] == 1 {
      assert k in b.tabs ==> m.refs[b.tabs[k]] == 1;
    }
    forall k | k in b2.maps && k.d == d ensures b2.maps[k] < |m2.refs| && m2.refs[b2.maps[k]] == 1 {
      assert k in b.maps ==> m.refs[b.maps[k]] == 1;
    }
  }

  lemma FreeUnused(m: Pages, b: Books, reserved: set<nat>, i: nat)
    requires Sound(m, b, reserved, NULL) && i < |b.free|
    ensures b.free[i] < |m.refs| && m.refs[b.free[i]] == 0
  {
  }

  lemma FirstTwo(m: Pages, b: Books, reserved: set<nat>)
    requires Sound(m, b, reserved, NULL)
    ensures |b.free| >= 2 ==> b.free[0] != b.free[1]
  {
  }

  // ----- what freeing it gives back -----

  /** Removing an inserted page that has no other use gives it back. */
  lemma UnmapConserved(m: Pages, b: Books, m': Pages, b': Books, reserved: set<nat>, d: nat, v: nat)
    requires Private(m, b, d) && Place(d, v) in b.maps && Sound(m', b', reserved, NULL)
    requires var p := b.maps[Place(d, v)];
             && p < |m.refs| && m'.refs == m.refs[p := m.refs[p] - 1]
             && b' == b.(free := [p] + b.free, maps := b.maps - {Place(d, v)})
    ensures Conserved(b, b', d) && Private(m', b', d)
  {
    var place := Place(d, v);
    var p := b.maps[place];
    Unused(m'.refs, b'.tabs, b'.maps, reserved, NULL, p);
    hide Sound;
    forall q: nat ensures q in b'.free || Owned(b', d, q) <==> q in b.free || Owned(b, d, q) {
      assert place in b.maps && b.maps[place] == p;
      assert IsMapped(b, d, p);
      if IsMapped(b, d, q) && q != p {
        var k :| k in b.maps && k.d == d && b.maps[k] == q;
        assert k in b'.maps && b'.maps[k] == q;
      }
      if IsMapped(b', d, q) {
        var k :| k in b'.maps && k.d == d && b'.maps[k] == q;
        assert k in b.maps && b.maps[k] == q;
      }
    }
  }

  /** Dropping a table that has no other use gives it back. */
  lemma UntableConserved(m: Pages, b: Books, m': Pages, b': Books, reserved: set<nat>, k: Slot)
    requires Private(m, b, k.d) && k in b.tabs && Sound(m', b', reserved, NULL)
    requires var t := b.tabs[k];
             && t < |m.refs| && m'.refs == m.refs[t := m.refs[t] - 1]
             && b' == b.(free := [t] + b.free, tabs := b.tabs - {k})
    ensures Conserved(b, b', k.d) && Private(m', b', k.d)
  {
    var t, d := b.tabs[k], k.d;
    Unused(m'.refs, b'.tabs, b'.maps, reserved, NULL, t);
    hide Sound;
    forall q: nat ensures q in b'.free || Owned(b', d, q) <==> q in b.free || Owned(b, d, q) {
      assert IsTable(b, d, t);
      if IsTable(b, d, q) && q != t {
        var l :| l in b.tabs && l.d == d && b.tabs[l] == q;
        assert l in b'.tabs && b'.tabs[l] == q;
      }
      if IsTable(b', d, q) {
        var l :| l in b'.tabs && l.d == d && b'.tabs[l] == q;
        assert l in b.tabs && b.tabs[l] == q;
      }
    }
  }

  lemma ConservedTwice(b: Books, b': Books, b'': Books, d: nat)
    requires Conserved(b, b', d) && Conserved(b', b'', d)
    ensures Conserved(b, b'', d)
  {
    hide Owned;
  }

  // ----- creating -----

  /** A stretch of static mappings. */
  datatype Region = Region(v: nat, count: nat, page: nat, perm: nat)

  predicate RegionOk(r: Region) {
    r.v + r.count <= VPAGES && r.perm < FRAME
  }

  /** What the regions, mapped one after the other, map page `u` to. */
  ghost function Layout(regions: seq<Region>, u: nat): Mapping {
    if regions == [] then Unmapped
    else
      var r := regions[|regions| - 1];
      if r.v <= u < r.v + r.count then Mapped(r.page + (u - r.v), WithPresent(r.perm))
        else Layout(regions[..|regions| - 1], u)
  }

  ghost predicate LaidOut(words: Words, d: nat, regions: seq<Region>) {
    Shape(words) && d < |words| && forall u: nat :: u < VPAGES ==> Translate(words, d, u) == Layout(regions, u)
  }

  lemma BlankLaidOut(words: Words, d: nat)
    requires Shape(words) && d < |words| && Blank(words[d])
    ensures LaidOut(words, d, [])
  {
  }

  lemma RegionLaidOut(words: Words, words': Words, dirs: set<nat>, d: nat, regions: seq<Region>, i: nat)
    requires i < |regions| && LaidOut(words, d, regions[..i]) && d in dirs
    requires var r := regions[i]; RegionMapped(words, words', dirs, d, r.v, r.count, r.page, r.perm)
    ensures LaidOut(words', d, regions[..i + 1])
  {
    hide Translate;
    assert regions[..i + 1][..i] == regions[..i];
  }

  lemma RegionElsewhere(words: Words, words': Words, words'': Words, dirs: set<nat>, dirs0: set<nat>, d: nat, r: Region)
    requires SameTranslation(words, words', dirs0) && dirs == dirs0 + {d} && d !in dirs0
    requires RegionMapped(words', words'', dirs, d, r.v, r.count, r.page, r.perm)
    ensures SameTranslation(words, words'', dirs0)
  {
    hide Translate;
  }

  ghost function LastOf(free: seq<nat>): nat {
    if free == [] then 0 else free[|free| - 1]
  }

  // ----- how much memory -----

  /** The directory slots that the regions belong to. */
  ghost function Touched(regions: seq<Region>): set<nat> {
    if regions == [] then {}
    else Touched(regions[..|regions| - 1]) + Span(regions[|regions| - 1].v, regions[|regions| - 1].count)
  }

  lemma TouchedMore(regions: seq<Region>, i: nat)
    requires i < |regions|
    ensures Touched(regions[..i + 1]) == Touched(regions[..i]) + Span(regions[i].v, regions[i].count)
  {
    assert regions[..i + 1][..i] == regions[..i];
  }

  lemma {:induction false} TouchedPrefix(regions: seq<Region>, i: nat)
    requires i <= |regions|
    ensures Touched(regions[..i]) <= Touched(regions)
    decreases |regions| - i
  {
    if i == |regions| {
      assert regions[..i] == regions;
    } else {
      TouchedPrefix(regions, i + 1);
      TouchedMore(regions, i);
    }
  }

  /** The pages that the directory, the tables and `n` stack pages take. */
  ghost function NeedFor(regions: seq<Region>, first: nat, n: nat): nat {
    1 + |Touched(regions) + Span(first, n)| + n
  }

  /** What creating a task needs. */
  ghost function Need(regions: seq<Region>, first: nat): nat {
    NeedFor(regions, first, STACK_PAGES)
  }

  lemma NeedMore(regions: seq<Region>, first: nat, n: nat, n': nat)
    requires n <= n'
    ensures NeedFor(regions, first, n) + (n' - n) <= NeedFor(regions, first, n')
    ensures 1 + |Touched(regions)| <= NeedFor(regions, first, n)
  {
    SpanWithin(first, n, n');
    Smaller(Touched(regions) + Span(first, n), Touched(regions) + Span(first, n'));
    Smaller(Touched(regions), Touched(regions) + Span(first, n));
  }

  /** The last stack page is the first page that its table would be needed for. */
  ghost predicate LastAlone(regions: seq<Region>, first: nat) {
    (first + STACK_PAGES - 1) / ENTRIES !in Touched(regions) + Span(first, STACK_PAGES - 1)
  }

  lemma NeedLast(regions: seq<Region>, first: nat)
    ensures Need(regions, first)
         == NeedFor(regions, first, STACK_PAGES - 1) + 1 + if LastAlone(regions, first) then 1 else 0
  {
    var i := (first + STACK_PAGES - 1) / ENTRIES;
    SpanMore(first, STACK_PAGES - 1);
    hide Span, Touched;
    var some := Touched(regions) + Span(first, STACK_PAGES - 1);
    assert Touched(regions) + Span(first, STACK_PAGES) == some + {i};
    if i in some {
      assert some + {i} == some;
    }
  }

  /** Memory ran out before the last page was taken. */
  lemma RanOutBefore(regions: seq<Region>, first: nat, n: nat, have: nat)
    requires n < STACK_PAGES && have <= NeedFor(regions, first, n)
    ensures have < Need(regions, first)
    ensures LastAlone(regions, first) ==> have < Need(regions, first) - 1
  {
    hide NeedFor, LastAlone;
    NeedMore(regions, first, n, STACK_PAGES - 1);
    NeedLast(regions, first);
  }

  /** `pages` pages, the directory and its tables have been taken from the front of the free
      list. */
  ghost predicate Paid(b: Books, b0: Books, d: nat, pages: nat) {
    Supply(b, d) + pages + 1 == |b0.free| && IsTail(b.free, b0.free)
  }

  // ----- creating -----

  /** A new address space with the kernel's static mappings, or no address space if there
      is no page for its directory.  If memory runs out later the program stops.  `ok` tells
      whether it sufficed: for the directory and a table for every slot of the regions. */
  method SetupKvm(mem: Memory, regions: seq<Region>) returns (d: int, ok: bool)
    requires mem.Valid(NULL) && forall i :: 0 <= i < |regions| ==> RegionOk(regions[i])
    modifies mem
    ensures mem.Valid(NULL) && (d == NULL <==> old(mem.book.free) == [])
    ensures d == NULL ==> mem.Now() == old(mem.Now()) && mem.book == old(mem.book)
    ensures d != NULL ==>
              0 <= d && Created(mem.Now(), mem.book, old(mem.book), d) &&
              mem.book.maps == old(mem.book.maps)
    ensures d != NULL && ok ==> SameTranslation(old(mem.words), mem.words, old(mem.book.dirs))
    ensures d != NULL ==> forall k :: k in mem.book.maps ==> k.d != d
    ensures d != NULL && ok ==> LaidOut(mem.words, d, regions)
    ensures d != NULL ==> Paid(mem.book, old(mem.book), d, 0)
    ensures d != NULL && ok ==> Tables(mem.book, d) == Touched(regions)
    ensures ok <==> 1 + |Touched(regions)| <= |old(mem.book.free)|
    ensures ok ==> d != NULL
    ensures !ok ==> mem.book.free == []
  {
    hide Sound, Created, LaidOut, RegionMapped, SameTranslation, Grown, RefsOk, Tables, Touched;
    ghost var w0, b0 := mem.words, mem.book;
    d := mem.PageAlloc(true);
    if d == NULL {
      return d, false;
    }
    ok := true;
    DirectoryMade(mem.Now(), mem.book, b0, mem.reserved, d);
    mem.book := mem.book.(dirs := mem.book.dirs + {d});
    TouchedNone(regions[..0]);
    var i := 0;
    while i < |regions|
      invariant 0 <= i <= |regions| && ok && mem.Valid(NULL) && Created(mem.Now(), mem.book, b0, d) &&
                mem.book.maps == b0.maps
      invariant SameTranslation(w0, mem.words, b0.dirs) && LaidOut(mem.words, d, regions[..i])
      invariant forall k :: k in b0.maps ==> k.d != d
      invariant Paid(mem.book, b0, d, 0) && Tables(mem.book, d) == Touched(regions[..i])
    {
      ok := MapRegion(mem, d, regions, i, w0, b0);
      if !ok {
        return;
      }
      i := i + 1;
    }
    assert regions[..i] == regions;
  }

  lemma TouchedNone(regions: seq<Region>)
    requires regions == []
    ensures Touched(regions) == {}
  {
  }

  lemma DirectoryMade(m: Pages, b: Books, b0: Books, reserved: set<nat>, d: nat)
    requires Sound(m, b, reserved, NULL) && Unclaimed(m, b, d) && Blank(m.words[d]) && b0.free != [] && d == b0.free[0]
    requires b == b0.(free := b0.free[1..])
    ensures Sound(m, b.(dirs := b.dirs + {d}), reserved, NULL) && Created(m, b.(dirs := b.dirs + {d}), b0, d)
    ensures LaidOut(m.words, d, []) && forall k :: k in b.maps ==> k.d != d
    ensures Tables(b.(dirs := b.dirs + {d}), d) == {} && Paid(b.(dirs := b.dirs + {d}), b0, d, 0)
  {
    assert Tables(b.(dirs := b.dirs + {d}), d) == {};
    DirectoryCreated(m, b, b0, reserved, d);
    DirectorySound(m, b, reserved, d);
    BlankLaidOut(m.words, d);
    forall k | k in b.maps ensures k.d != d {
      assert MapOk(m.words, b.dirs, k, b.maps[k]);
    }
  }

  method MapRegion(mem: Memory, d: nat, regions: seq<Region>, i: nat, ghost w0: Words, ghost b0: Books)
    returns (ok: bool)
    requires mem.Valid(NULL) && i < |regions| && RegionOk(regions[i]) && Created(mem.Now(), mem.book, b0, d)
    requires mem.book.maps == b0.maps && SameTranslation(w0, mem.words, b0.dirs) && LaidOut(mem.words, d, regions[..i])
    requires forall k :: k in b0.maps ==> k.d != d
    requires Paid(mem.book, b0, d, 0) && Tables(mem.book, d) == Touched(regions[..i])
    modifies mem
    ensures mem.Valid(NULL) && Created(mem.Now(), mem.book, b0, d) && mem.book.maps == b0.maps
    ensures ok ==> SameTranslation(w0, mem.words, b0.dirs) && LaidOut(mem.words, d, regions[..i + 1])
    ensures Paid(mem.book, b0, d, 0) && (ok ==> Tables(mem.book, d) == Touched(regions[..i + 1]))
    ensures !ok ==> mem.book.free == [] && |b0.free| < 1 + |Touched(regions)|
  {
    CreatedDirs(mem.Now(), mem.book, b0, d);
    TouchedMore(regions, i);
    TouchedPrefix(regions, i + 1);
    Smaller(Touched(regions[..i + 1]), Touched(regions));
    hide Sound, Created, LaidOut, RegionMapped, SameTranslation, RefsOk, Tables, Touched, Grown, Span;
    ghost var m1, b1 := mem.Now(), mem.book;
    var r := regions[i];
    ok := BootMapRegion(mem, d, r.v, r.count, r.page, r.perm);
    GrownCreated(m1, b1, mem.reserved, mem.Now(), mem.book, b0, d);
    TailTwice(mem.book.free, b1.free, b0.free);
    if ok {
      RegionLaidOut(m1.words, mem.words, b1.dirs, d, regions, i);
      RegionElsewhere(w0, m1.words, mem.words, b1.dirs, b0.dirs, d, r);
    }
  }

  lemma CreatedDirs(m: Pages, b: Books, b0: Books, d: nat)
    requires Created(m, b, b0, d)
    ensures d in b.dirs && b.dirs == b0.dirs + {d} && d !in b0.dirs && d !in b.free
  {
  }

  /** The stack pages from `v` on are still unmapped. */
  ghost predicate Vacant(words: Words, d: nat, v: nat, end: nat) {
    Shape(words) && d < |words| && end <= VPAGES && forall u: nat :: v <= u < end ==> Translate(words, d, u) == Unmapped
  }

  /** Exactly the stack pages below `v` have been inserted into the address space. */
  ghost predicate StackUpTo(b: Books, d: nat, first: nat, v: nat) {
    forall u: nat :: Place(d, u) in b.maps <==> first <= u < v
  }

  lemma LaidOutVacant(words: Words, d: nat, regions: seq<Region>, v: nat, end: nat)
    requires LaidOut(words, d, regions) && end <= VPAGES && forall u: nat :: v <= u < end ==>
               Layout(regions, u) == Unmapped
    ensures Vacant(words, d, v, end)
  {
    hide Translate;
  }

  lemma VacantSame(words: Words, words': Words, dirs: set<nat>, d: nat, v: nat, end: nat)
    requires Vacant(words, d, v, end) && SameTranslation(words, words', dirs) && d in dirs
    ensures Vacant(words', d, v, end)
  {
    hide Translate;
  }

  lemma VacantRest(words: Words, words': Words, dirs: set<nat>, d: nat, v: nat, end: nat, m: Mapping)
    requires Vacant(words, d, v, end) && Remapped(words, words', dirs, d, v, m) && d in dirs && v < end
    ensures Vacant(words', d, v + 1, end)
  {
    hide Translate;
  }

  /** The address space maps the stack pages below `v` to the inserted pages, for the
      user and writable, and every other page as the regions say. */
  ghost predicate TaskMapped(words: Words, b: Books, d: nat, regions: seq<Region>, first: nat, v: nat) {
    && Shape(words) && d < |words|
    && (forall u: nat :: first <= u < v ==> Place(d, u) in b.maps)
    && forall u: nat :: u < VPAGES ==>
         Translate(words, d, u) == if first <= u < v then Mapped(b.maps[Place(d, u)], 7)
             else Layout(regions, u)
  }

  lemma TaskMappedStart(words: Words, b: Books, d: nat, regions: seq<Region>, first: nat)
    requires LaidOut(words, d, regions)
    ensures TaskMapped(words, b, d, regions, first, first)
  {
    hide Translate, Layout;
  }

  lemma TaskMappedMore(words: Words, words': Words, words'': Words, b: Books, b': Books, d: nat, regions: seq<Region>,
                       first: nat, v: nat, p: nat)
    requires TaskMapped(words, b, d, regions, first, v) && SameTranslation(words, words', b.dirs) && d in b.dirs &&
             first <= v
    requires Remapped(words', words'', b.dirs, d, v, Mapped(p, WithPresent(STACK_PERM))) &&
             b'.maps == b.maps[Place(d, v) := p]
    ensures TaskMapped(words'', b', d, regions, first, v + 1)
  {
    hide Translate, Layout;
    assert WithPresent(STACK_PERM) == 7;
  }

  lemma RemappedElsewhere(words: Words, words': Words, words'': Words, words3: Words, dirs: set<nat>, dirs0: set<nat>,
                          d: nat, v: nat, m: Mapping)
    requires SameTranslation(words, words', dirs0) && SameTranslation(words', words'', dirs) &&
             Remapped(words'', words3, dirs, d, v, m)
    requires dirs == dirs0 + {d} && d !in dirs0
    ensures SameTranslation(words, words3, dirs0)
  {
    hide Translate;
  }

  /** The address space has been made out of free pages, its stack reaches up to `v`,
      the rest of the stack is vacant and no other address space has changed. */
  ghost predicate Stacked(m: Pages, b: Books, w0: Words, b0: Books, d: nat, regions: seq<Region>, first: nat, v: nat,
                          end: nat) {
    && Created(m, b, b0, d) && SameTranslation(w0, m.words, b0.dirs)
    && Vacant(m.words, d, v, end) && StackUpTo(b, d, first, v) && TaskMapped(m.words, b, d, regions, first, v)
  }

  /** Before the page at `v` is inserted. */
  lemma StackedHere(m: Pages, b: Books, m1: Pages, w0: Words, b0: Books, d: nat, regions: seq<Region>, first: nat,
                    v: nat, end: nat)
    requires Stacked(m, b, w0, b0, d, regions, first, v, end) && v < end && SameTranslation(m.words, m1.words, b.dirs)
    ensures d in b.dirs && d !in b.free && Place(d, v) !in b.maps && v < VPAGES
    ensures Shape(m1.words) && d < |m1.words| && Translate(m1.words, d, v) == Unmapped
  {
    CreatedDirs(m, b, b0, d);
    StackNext(b, d, first, v);
    VacantSame(m.words, m1.words, b.dirs, d, v, end);
    VacantHere(m1.words, d, v, end);
  }

  /** After it has been inserted. */
  lemma StackedMore(m: Pages, b: Books, reserved: set<nat>, m1: Pages, b1: Books, m2: Pages, b2: Books, w0: Words,
                    b0: Books,
                    d: nat, regions: seq<Region>, first: nat, v: nat, end: nat, pp: nat)
    requires Stacked(m, b, w0, b0, d, regions, first, v, end) && first <= v < end
    requires Sound(m, b, reserved, NULL) && b.free != [] && pp == b.free[0] && pp < |m.refs|
    requires m1.refs == m.refs && b1 == b.(free := b.free[1..]) && SameTranslation(m.words, m1.words, b.dirs)
    requires Inserted(m1, b1, m2, b2, d, v, pp) && b2.maps == b.maps[Place(d, v) := pp]
    requires Remapped(m1.words, m2.words, b.dirs, d, v, Mapped(pp, WithPresent(STACK_PERM)))
    ensures Stacked(m2, b2, w0, b0, d, regions, first, v + 1, end)
  {
    hide Sound, Created, SameTranslation, Vacant, Remapped, Inserted, StackUpTo, WithPresent, TaskMapped;
    CreatedDirs(m, b, b0, d);
    StackNext(b, d, first, v);
    VacantSame(m.words, m1.words, b.dirs, d, v, end);
    StackOneMore(b, b2, d, first, v, pp);
    StackPageCreated(m, b, reserved, m1, b1, m2, b2, b0, d, v, pp);
    TaskMappedMore(m.words, m1.words, m2.words, b, b2, d, regions, first, v, pp);
    VacantRest(m1.words, m2.words, b.dirs, d, v, end, Mapped(pp, WithPresent(STACK_PERM)));
    RemappedElsewhere(w0, m.words, m1.words, m2.words, b.dirs, b0.dirs, d, v, Mapped(pp, WithPresent(STACK_PERM)));
  }

  /** Directory, tables and the stack pages below `v` have been taken. */
  ghost predicate StackPaid(b: Books, b0: Books, d: nat, regions: seq<Region>, first: nat, v: nat) {
    first <= v && Paid(b, b0, d, v - first) && Tables(b, d) == Touched(regions) + Span(first, v - first)
  }

  lemma StackPaidMore(m: Pages, b: Books, b1: Books, m2: Pages, b2: Books, b0: Books, d: nat, regions: seq<Region>,
                      first: nat, v: nat, pp: nat)
    requires StackPaid(b, b0, d, regions, first, v) && b.free != [] && b1 == b.(free := b.free[1..])
    requires Inserted(m, b1, m2, b2, d, v, pp)
    ensures StackPaid(b2, b0, d, regions, first, v + 1)
  {
    hide Span, Touched, Inserted, Tables, IsTail, Supply;
    SupplyLess(b, b1, d);
    SpanMore(first, v - first);
    SameTables(b, b1, d);
    InsertedTables(m, b1, m2, b2, d, v, pp);
    InsertedTail(m, b1, m2, b2, d, v, pp);
    TailTwice(b1.free, b.free, b0.free);
    TailTwice(b2.free, b1.free, b0.free);
  }

  lemma SupplyLess(b: Books, b': Books, d: nat)
    requires b.free != [] && b' == b.(free := b.free[1..])
    ensures Supply(b', d) == Supply(b, d) - 1 && IsTail(b'.free, b.free)
  {
    SameTables(b, b', d);
    hide Tables;
    assert b.free == [b.free[0]] + b'.free;
  }

  lemma InsertedTail(m: Pages, b: Books, m': Pages, b': Books, d: nat, v: nat, p: nat)
    requires Inserted(m, b, m', b', d, v, p)
    ensures IsTail(b'.free, b.free)
  {
  }

  lemma SameTables(b: Books, b': Books, d: nat)
    requires b'.tabs == b.tabs
    ensures Tables(b', d) == Tables(b, d)
  {
  }

  lemma InsertedTables(m: Pages, b: Books, m': Pages, b': Books, d: nat, v: nat, p: nat)
    requires Inserted(m, b, m', b', d, v, p)
    ensures Tables(b', d) == Tables(b, d) + {v / ENTRIES} && Supply(b', d) == Supply(b, d)
  {
    var i := v / ENTRIES;
    TableThere(b, d, i);
    if Slot(d, i) in b.tabs {
      SameTables(b, b', d);
    } else {
      SupplyKept(b, b', d, i, b.free[0]);
      TableMore(b, b', d, i, b.free[0]);
    }
  }

  /** The address space has been made out of pages that were free; one more that was free is
      now neither free nor part of it. */
  ghost predicate CreatedBut(m: Pages, b: Books, b0: Books, d: nat, lost: nat) {
    && Private(m, b, d) && d !in b.free && b.dirs == b0.dirs + {d} && d !in b0.dirs
    && lost in b0.free && lost !in b.free && !Owned(b, d, lost)
    && forall p: nat :: p in b.free || Owned(b, d, p) || p == lost <==> p in b0.free
  }

  /** The page taken last. */
  lemma TakenLast(m: Pages, b: Books, reserved: set<nat>, m1: Pages, b1: Books, b0: Books, d: nat)
    requires Sound(m, b, reserved, NULL) && Created(m, b, b0, d) && |b.free| == 1 && IsTail(b.free, b0.free)
    requires m1.refs == m.refs && b1 == b.(free := b.free[1..])
    ensures b0.free != [] && CreatedBut(m1, b1, b0, d, LastOf(b0.free))
  {
    FreeNotOwned(m, b, reserved, d);
    hide Sound, FreeList;
    var lost := b.free[0];
    assert b.free == [lost] && b1.free == [] && lost == LastOf(b0.free) && lost in b.free;
    forall p: nat ensures Owned(b1, d, p) <==> Owned(b, d, p) {
      assert IsTable(b1, d, p) <==> IsTable(b, d, p);
      assert IsMapped(b1, d, p) <==> IsMapped(b, d, p);
    }
    hide Owned;
  }

  lemma FreeNotOwned(m: Pages, b: Books, reserved: set<nat>, d: nat)
    requires Sound(m, b, reserved, NULL) && d !in b.free
    ensures forall p: nat :: p in b.free ==> !Owned(b, d, p)
  {
    forall p: nat | p in b.free ensures !Owned(b, d, p) {
      Unused(m.refs, b.tabs, b.maps, reserved, NULL, p);
    }
  }

  /** A page for the stack was taken, but not the table that it needs. */
  ghost predicate PageLost(m: Pages, b: Books, w0: Words, b0: Books, d: nat, regions: seq<Region>, first: nat, v: nat) {
    && b0.free != [] && CreatedBut(m, b, b0, d, LastOf(b0.free))
    && b.free == [] && first <= v && |b0.free| == NeedFor(regions, first, v - first) + 1
    && v / ENTRIES !in Touched(regions) + Span(first, v - first)
    && SameTranslation(w0, m.words, b0.dirs) && StackUpTo(b, d, first, v) &&
       TaskMapped(m.words, b, d, regions, first, v)
  }

  lemma LosePage(m: Pages, b: Books, reserved: set<nat>, m1: Pages, b1: Books, w0: Words, b0: Books, d: nat,
                 regions: seq<Region>, first: nat,
                 v: nat, end: nat)
    requires Stacked(m, b, w0, b0, d, regions, first, v, end) && StackPaid(b, b0, d, regions, first, v)
    requires b.free != [] && b1 == b.(free := b.free[1..]) && b1.free == [] &&
             SameTranslation(m.words, m1.words, b.dirs)
    requires Sound(m, b, reserved, NULL) && m1.refs == m.refs
    requires Slot(d, v / ENTRIES) !in b.tabs
    ensures PageLost(m1, b1, w0, b0, d, regions, first, v)
  {
    hide Span, Touched, Tables, Translate, Layout, WithPresent, Created, Vacant, CreatedBut, Sound, IsTail;
    TableThere(b, d, v / ENTRIES);
    CreatedDirs(m, b, b0, d);
    assert |b.free| == 1;
    TakenLast(m, b, reserved, m1, b1, b0, d);
  }

  /** Take a page and insert it at `v` of the new address space.  Without a free page
      nothing changes. */
  method StackPage(mem: Memory, d: nat, v: nat, ghost end: nat, ghost first: nat, ghost regions: seq<Region>,
                   ghost w0: Words,
                   ghost b0: Books)
    returns (ok: bool, r: int)
    requires mem.Valid(NULL) && first <= v < end
    requires mem.book.free != [] ==>
               Stacked(mem.Now(), mem.book, w0, b0, d, regions, first, v, end) &&
               StackPaid(mem.book, b0, d, regions, first, v)
    modifies mem
    ensures mem.Valid(NULL) && (ok <==> old(mem.book.free) != [])
    ensures !ok ==> r == 0 && mem.Now() == old(mem.Now()) && mem.book == old(mem.book)
    ensures ok && r == 0 ==>
              Stacked(mem.Now(), mem.book, w0, b0, d, regions, first, v + 1, end) &&
                  StackPaid(mem.book, b0, d, regions, first, v + 1)
    ensures ok && r != 0 ==> r == -E_NO_MEM && PageLost(mem.Now(), mem.book, w0, b0, d, regions, first, v)
  {
    hide Sound, Stacked, StackPaid, SameTranslation, Remapped, Translate, NoDirectory, Inserted, WithPresent,
         PageLost, RefsOk, Spoilt, Counted, Replaceable;
    ghost var m, b := mem.Now(), mem.book;
    r := 0;
    var pp := mem.PageAlloc(true);
    ok := pp != NULL;
    if ok {
      ghost var m1, b1 := mem.Now(), mem.book;
      StackedHere(m, b, m1, w0, b0, d, regions, first, v, end);
      VacantReplaceable(m1, b1, d, v, pp);
      r := mem.PageInsert(d, pp, v, STACK_PERM);
      if r == 0 {
        StackPaidMore(m1, b, b1, mem.Now(), mem.book, b0, d, regions, first, v, pp);
        StackedMore(m, b, mem.reserved, m1, b1, mem.Now(), mem.book, w0, b0, d, regions, first, v, end, pp);
      } else {
        LosePage(m, b, mem.reserved, m1, b1, w0, b0, d, regions, first, v, end);
      }
    }
  }

  lemma VacantReplaceable(m: Pages, b: Books, d: nat, v: nat, pp: nat)
    requires Shape(m.words) && d < |m.words| && v < VPAGES && Translate(m.words, d, v) == Unmapped
    ensures Replaceable(m, b, d, v, pp)
  {
  }

  lemma StackNext(b: Books, d: nat, first: nat, v: nat)
    requires StackUpTo(b, d, first, v)
    ensures Place(d, v) !in b.maps
  {
  }

  lemma StackOneMore(b: Books, b': Books, d: nat, first: nat, v: nat, p: nat)
    requires StackUpTo(b, d, first, v) && first <= v && b'.maps == b.maps[Place(d, v) := p]
    ensures StackUpTo(b', d, first, v + 1)
  {
  }

  lemma VacantHere(words: Words, d: nat, v: nat, end: nat)
    requires Vacant(words, d, v, end) && v < end
    ensures Shape(words) && d < |words| && v < VPAGES && Translate(words, d, v) == Unmapped
  {
  }

  /** Create the memory of a task: kernel mappings and a user stack.  It is complete if
      and only if there are enough free pages.  The program compares the result of an
      insertion with -1, which is never its result; it notices all the same when the next
      page is not there, so that it succeeds with an incomplete stack if and only if
      exactly one page is missing and the last stack page is the one that needs a table. */
  method TaskCreate(mem: Memory, regions: seq<Region>, first: nat) returns (ok: bool, d: int, complete: bool)
    requires mem.Valid(NULL) && (forall i :: 0 <= i < |regions| ==> RegionOk(regions[i])) &&
             first + STACK_PAGES <= VPAGES
    requires forall u: nat :: first <= u < first + STACK_PAGES ==> Layout(regions, u) == Unmapped
    modifies mem
    ensures mem.Valid(NULL) && (ok ==> 0 <= d)
    ensures complete <==> Need(regions, first) <= |old(mem.book.free)|
    ensures ok <==> complete || (|old(mem.book.free)| == Need(regions, first) - 1 && LastAlone(regions, first))
    ensures !complete ==> mem.book.free == []
    ensures complete ==>
              Created(mem.Now(), mem.book, old(mem.book), d) &&
              StackUpTo(mem.book, d, first, first + STACK_PAGES)
    ensures complete ==> StackPaid(mem.book, old(mem.book), d, regions, first, first + STACK_PAGES)
    ensures ok ==> SameTranslation(old(mem.words), mem.words, old(mem.book.dirs))
    ensures complete ==> TaskMapped(mem.words, mem.book, d, regions, first, first + STACK_PAGES)
    ensures ok && !complete ==>
              && TaskMapped(mem.words, mem.book, d, regions, first, first + STACK_PAGES - 1)
              && StackUpTo(mem.book, d, first, first + STACK_PAGES - 1)
              && CreatedBut(mem.Now(), mem.book, old(mem.book), d, LastOf(old(mem.book.free)))
  {
    hide Sound, Created, SameTranslation, LaidOut, Vacant, Layout, TaskMapped, StackUpTo, RefsOk, Touched, Tables,
         CreatedBut, Supply, NeedFor, IsTail, LastOf, Paid, Translate, Shape, LastAlone;
    ghost var w0, b0 := mem.words, mem.book;
    ghost var end := first + STACK_PAGES;
    var mapped;
    d, mapped := SetupKvm(mem, regions);
    if !mapped {
      NeedMore(regions, first, 0, 0);
      RanOutBefore(regions, first, 0, |b0.free|);
      return false, d, false;
    }
    StackStart(mem.Now(), mem.book, w0, b0, d, regions, first, end);
    hide Stacked, StackPaid, PageLost;
    complete := true;
    var v := first;
    while v < first + STACK_PAGES
      invariant first <= v <= end && mem.Valid(NULL)
      invariant complete ==>
                  Stacked(mem.Now(), mem.book, w0, b0, d, regions, first, v, end) &&
                  StackPaid(mem.book, b0, d, regions, first, v)
      invariant !complete ==> first < v && PageLost(mem.Now(), mem.book, w0, b0, d, regions, first, v - 1)
    {
      var r;
      if !complete {
        LostIsEmpty(mem.Now(), mem.book, w0, b0, d, regions, first, v - 1);
      }
      ghost var b := mem.book;
      ok, r := StackPage(mem, d, v, end, first, regions, w0, b0);
      if !ok || r == -1 {
        if complete {
          PaidEmpty(b, b0, d, regions, first, v);
          RanOutBefore(regions, first, v - first, |b0.free|);
        } else {
          NeedMore(regions, first, v - 1 - first, v - first);
          RanOutBefore(regions, first, v - first, |b0.free|);
        }
        return false, d, false;
      }
      if r != 0 {
        complete := false;
      }
      v := v + 1;
    }
    ok := true;
    NeedLast(regions, first);
    if complete {
      StackEnd(mem.Now(), mem.book, w0, b0, d, regions, first, end);
    } else {
      LostAtEnd(mem.Now(), mem.book, w0, b0, d, regions, first);
    }
  }

  lemma StackStart(m: Pages, b: Books, w0: Words, b0: Books, d: nat, regions: seq<Region>, first: nat, end: nat)
    requires Created(m, b, b0, d) && SameTranslation(w0, m.words, b0.dirs) && LaidOut(m.words, d, regions) &&
             end <= VPAGES
    requires forall u: nat :: first <= u < end ==> Layout(regions, u) == Unmapped
    requires forall k :: k in b.maps ==> k.d != d
    requires Paid(b, b0, d, 0) && Tables(b, d) == Touched(regions)
    ensures Stacked(m, b, w0, b0, d, regions, first, first, end) && StackPaid(b, b0, d, regions, first, first)
  {
    hide Created, SameTranslation, Touched, Tables, Supply, Layout;
    LaidOutVacant(m.words, d, regions, first, end);
    TaskMappedStart(m.words, b, d, regions, first);
    SpanNone(first);
  }

  lemma LostIsEmpty(m: Pages, b: Books, w0: Words, b0: Books, d: nat, regions: seq<Region>, first: nat, v: nat)
    requires PageLost(m, b, w0, b0, d, regions, first, v)
    ensures b.free == [] && first <= v && |b0.free| == NeedFor(regions, first, v - first) + 1
  {
  }

  lemma PaidEmpty(b: Books, b0: Books, d: nat, regions: seq<Region>, first: nat, v: nat)
    requires StackPaid(b, b0, d, regions, first, v)
    ensures |b0.free| == |b.free| + NeedFor(regions, first, v - first)
  {
  }

  lemma StackEnd(m: Pages, b: Books, w0: Words, b0: Books, d: nat, regions: seq<Region>, first: nat, end: nat)
    requires end == first + STACK_PAGES && StackPaid(b, b0, d, regions, first, end)
    requires Stacked(m, b, w0, b0, d, regions, first, end, end)
    ensures Need(regions, first) <= |b0.free|
    ensures Created(m, b, b0, d) && StackUpTo(b, d, first, end) && SameTranslation(w0, m.words, b0.dirs)
    ensures TaskMapped(m.words, b, d, regions, first, end)
  {
    PaidEmpty(b, b0, d, regions, first, end);
    hide Created, SameTranslation, Vacant, TaskMapped, StackUpTo, StackPaid, NeedFor;
  }

  lemma LostAtEnd(m: Pages, b: Books, w0: Words, b0: Books, d: nat, regions: seq<Region>, first: nat)
    requires PageLost(m, b, w0, b0, d, regions, first, first + STACK_PAGES - 1)
    ensures LastAlone(regions, first) && |b0.free| == Need(regions, first) - 1 && b.free == []
    ensures SameTranslation(w0, m.words, b0.dirs) && TaskMapped(m.words, b, d, regions, first, first + STACK_PAGES - 1)
    ensures StackUpTo(b, d, first, first + STACK_PAGES - 1) && CreatedBut(m, b, b0, d, LastOf(b0.free))
  {
    NeedLast(regions, first);
    hide SameTranslation, TaskMapped, StackUpTo, NeedFor, Touched, Span, CreatedBut;
  }
}
