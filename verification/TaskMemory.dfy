/** The memory of a task: static mappings, a new address space with a stack, and the
    way all its pages come back. */
module TaskMemory {
  import opened PageTables
  import opened PageCounts
  import opened PageModel
  import opened PageMemory

  // ----- what belongs to an address space -----

  ghost predicate IsTable(b: Books, d: nat, p: nat) {
    exists k :: k in b.tabs && k.d == d && b.tabs[k] == p
  }

  ghost predicate IsMapped(b: Books, d: nat, p: nat) {
    exists k :: k in b.maps && k.d == d && b.maps[k] == p
  }

  /** A page of the address space: its directory, one of its tables, or a page inserted
      into it. */
  ghost predicate Owned(b: Books, d: nat, p: nat) {
    p == d || IsTable(b, d, p) || IsMapped(b, d, p)
  }

  /** What is free or belongs to the address space is the same as before. */
  ghost predicate Conserved(b: Books, b': Books, d: nat) {
    forall p: nat :: p in b'.free || Owned(b', d, p) <==> p in b.free || Owned(b, d, p)
  }

  /** No page of the address space has a second use. */
  ghost predicate Private(m: Pages, b: Books, d: nat) {
    && d < |m.refs| && m.refs[d] == 0
    && (forall k :: k in b.tabs && k.d == d ==> b.tabs[k] < |m.refs| && m.refs[b.tabs[k]] == 1)
    && (forall k :: k in b.maps && k.d == d ==> b.maps[k] < |m.refs| && m.refs[b.maps[k]] == 1)
  }

  /** Nothing but tables of this directory has been taken from the free list. */
  ghost predicate Grown(m: Pages, b: Books, m': Pages, b': Books, d: nat) {
    && b'.dirs == b.dirs && b'.maps == b.maps && |m'.refs| == |m.refs|
    && (forall k :: k in b.tabs ==> k in b'.tabs && b'.tabs[k] == b.tabs[k])
    && (forall k :: k in b'.tabs && k !in b.tabs ==>
          k.d == d && b'.tabs[k] in b.free && b'.tabs[k] < |m.refs| && m'.refs[b'.tabs[k]] == 1)
    && (forall p: nat :: p in b.free ==> p in b'.free || IsTable(b', d, p))
    && (forall p: nat :: p in b'.free ==> p in b.free)
    && (forall p: nat :: p < |m.refs| && p !in b.free ==> m'.refs[p] == m.refs[p])
    && (forall p: nat :: p in b.free ==> p < |m.refs|)
  }

  lemma GrownNot(m: Pages, b: Books, reserved: set<nat>, d: nat)
    requires Sound(m, b, reserved, NULL)
    ensures Grown(m, b, m, b, d)
  {
    hide FreeList, TabsOk, MapsOk, Counted, MapsApart;
  }

  /** One table has been taken from the front of the free list. */
  lemma GrownOnce(m: Pages, b: Books, reserved: set<nat>, m': Pages, b': Books, d: nat, i: nat, t: nat)
    requires Sound(m, b, reserved, NULL) && b.free != [] && t == b.free[0] && t < |m.refs| && m'.refs == m.refs[t := 1]
    requires Slot(d, i) !in b.tabs && b' == b.(free := b.free[1..], tabs := b.tabs[Slot(d, i) := t])
    ensures Grown(m, b, m', b', d)
  {
    hide FreeList, TabsOk, MapsOk, Counted, MapsApart;
    assert Slot(d, i) in b'.tabs && b'.tabs[Slot(d, i)] == t;
    assert IsTable(b', d, t);
  }

  lemma GrownTwice(m: Pages, b: Books, m': Pages, b': Books, m'': Pages, b'': Books, d: nat)
    requires Grown(m, b, m', b', d) && Grown(m', b', m'', b'', d)
    requires forall k :: k in b'.tabs ==> b'.tabs[k] !in b'.free
    ensures Grown(m, b, m'', b'', d)
  {
    forall p: nat | p in b.free ensures p in b''.free || IsTable(b'', d, p) {
      if p !in b'.free {
        var k :| k in b'.tabs && k.d == d && b'.tabs[k] == p;
        assert k in b''.tabs && b''.tabs[k] == p;
      }
    }
  }

  lemma GrownConserves(m: Pages, b: Books, m': Pages, b': Books, d: nat)
    requires Grown(m, b, m', b', d)
    ensures Conserved(b, b', d)
  {
    forall p: nat ensures p in b'.free || Owned(b', d, p) <==> p in b.free || Owned(b, d, p) {
      if IsTable(b, d, p) {
        var k :| k in b.tabs && k.d == d && b.tabs[k] == p;
        assert k in b'.tabs && b'.tabs[k] == p;
      }
      if IsTable(b', d, p) {
        var k :| k in b'.tabs && k.d == d && b'.tabs[k] == p;
        assert k in b.tabs ==> IsTable(b, d, p);
      }
    }
  }

  lemma GrownPrivate(m: Pages, b: Books, reserved: set<nat>, m': Pages, b': Books, d: nat)
    requires Sound(m, b, reserved, NULL) && Private(m, b, d) && Grown(m, b, m', b', d) && d !in b.free
    ensures Private(m', b', d)
  {
    hide FreeList, TabsOk, MapsOk, Counted, MapsApart, NoDirectory;
    forall k | k in b'.tabs && k.d == d ensures b'.tabs[k] < |m'.refs| && m'.refs[b'.tabs[k]] == 1 {
      if k in b.tabs {
        assert b.tabs[k] !in b.free;
      }
    }
  }

  lemma TablesNotFree(m: Pages, b: Books, reserved: set<nat>)
    requires Sound(m, b, reserved, NULL)
    ensures forall k :: k in b.tabs ==> b.tabs[k] !in b.free
  {
    forall k | k in b.tabs && b.tabs[k] in b.free ensures false {
      Unused(m.refs, b.tabs, b.maps, reserved, NULL, b.tabs[k]);
    }
  }

  // ----- how many tables -----

  /** The directory slots that have a table. */
  ghost function Tables(b: Books, d: nat): set<nat> {
    set k | k in b.tabs && k.d == d :: k.i
  }

  /** The directory slots that the pages from `v` on belong to. */
  ghost function Span(v: nat, count: nat): set<nat> {
    set u | v <= u < v + count :: u / ENTRIES
  }

  lemma SpanMore(v: nat, count: nat)
    ensures Span(v, count + 1) == Span(v, count) + {(v + count) / ENTRIES}
  {
    var more := Span(v, count + 1);
    forall i | i in Span(v, count) + {(v + count) / ENTRIES} ensures i in more {
      if i in Span(v, count) {
        var u :| v <= u < v + count && u / ENTRIES == i;
        assert v <= u < v + (count + 1);
      } else {
        assert v <= v + count < v + (count + 1);
      }
    }
  }

  lemma SpanWithin(v: nat, count: nat, count': nat)
    requires count <= count'
    ensures Span(v, count) <= Span(v, count')
  {
    forall i | i in Span(v, count) ensures i in Span(v, count') {
      var u :| v <= u < v + count && u / ENTRIES == i;
      assert v <= u < v + count';
    }
  }

  lemma SpanNone(v: nat)
    ensures Span(v, 0) == {}
  {
  }

  lemma TableMore(b: Books, b': Books, d: nat, i: nat, t: nat)
    requires b'.tabs == b.tabs[Slot(d, i) := t]
    ensures Tables(b', d) == Tables(b, d) + {i}
    ensures i in Tables(b, d) <==> Slot(d, i) in b.tabs
  {
    forall j | j in Tables(b, d) + {i} ensures j in Tables(b', d) {
      if j == i {
        assert Slot(d, i) in b'.tabs;
      } else {
        var k :| k in b.tabs && k.d == d && k.i == j;
        assert k in b'.tabs;
      }
    }
    assert Slot(d, i).d == d && Slot(d, i).i == i;
  }

  lemma TableThere(b: Books, d: nat, i: nat)
    ensures i in Tables(b, d) <==> Slot(d, i) in b.tabs
  {
    assert Slot(d, i).d == d && Slot(d, i).i == i;
  }

  /** Free pages and tables together. */
  ghost function Supply(b: Books, d: nat): nat {
    |b.free| + |Tables(b, d)|
  }

  /** A table has been taken from the free list. */
  lemma SupplyKept(b: Books, b': Books, d: nat, i: nat, t: nat)
    requires b.free != [] && b'.free == b.free[1..] && b'.tabs == b.tabs[Slot(d, i) := t] && Slot(d, i) !in b.tabs
    ensures Supply(b', d) == Supply(b, d)
  {
    TableMore(b, b', d, i, t);
  }

  /** Pages are taken from the front of the free list. */
  ghost predicate IsTail(a: seq<nat>, b: seq<nat>) {
    |a| <= |b| && a == b[|b| - |a|..]
  }

  lemma TailTwice(a: seq<nat>, b: seq<nat>, c: seq<nat>)
    requires IsTail(a, b) && IsTail(b, c)
    ensures IsTail(a, c)
  {
  }

  /** Some slot is still without a table when memory has run out. */
  lemma TooFew(have: set<nat>, want: set<nat>, i: nat)
    requires have <= want && i in want && i !in have
    ensures |have| < |want|
  {
    Smaller(have + {i}, want);
  }

  lemma Smaller(a: set<nat>, b: set<nat>)
    requires a <= b
    ensures |a| <= |b|
  {
    assert b == a + (b - a);
  }

  // ----- static mappings -----

  /** The pages from `v` on translate to the pages from `page` on, everything else as
      before. */
  ghost predicate RegionMapped(words: Words, words': Words, dirs: set<nat>, d: nat, v: nat, count: nat, page: nat,
                               perm: nat) {
    && Shape(words) && Shape(words') && |words| == |words'|
    && forall e, u: nat :: e in dirs && e < |words| && u < VPAGES ==>
         Translate(words', e, u)
         == if e == d && v <= u < v + count then Mapped(page + (u - v), WithPresent(perm)) else Translate(words, e, u)
  }

  /** Each page of the stretch is mapped to its page, present, with the permissions asked for. */
  ghost predicate AllPermitted(words: Words, d: nat, v: nat, count: nat, page: nat, perm: nat) {
    && Shape(words) && d < |words|
    && forall u: nat :: v <= u < v + count && u < VPAGES ==>
         var m := Translate(words, d, u);
         m.Mapped? && m.page == page + (u - v) && m.flags % 2 == 1 && m.flags / 2 == perm / 2
  }

  lemma RegionPermits(words: Words, words': Words, dirs: set<nat>, d: nat, v: nat, count: nat, page: nat, perm: nat)
    requires RegionMapped(words, words', dirs, d, v, count, page, perm) && d in dirs && d < |words|
    ensures AllPermitted(words', d, v, count, page, perm)
  {
    hide Translate;
  }

  lemma RegionNone(words: Words, dirs: set<nat>, d: nat, v: nat, page: nat, perm: nat)
    requires Shape(words)
    ensures RegionMapped(words, words, dirs, d, v, 0, page, perm)
  {
  }

  lemma RegionOne(words: Words, words': Words, words'': Words, words3: Words, dirs: set<nat>, d: nat, v: nat,
                  count: nat, page: nat, perm: nat)
    requires RegionMapped(words, words', dirs, d, v, count, page, perm) && SameTranslation(words', words'', dirs)
    requires Remapped(words'', words3, dirs, d, v + count, Mapped(page + count, WithPresent(perm)))
    ensures RegionMapped(words, words3, dirs, d, v, count + 1, page, perm)
  {
    hide Translate, WithPresent;
  }

  /** Map a stretch of pages without counting them.  If memory for a table runs out the
      program stops; otherwise exactly the stretch is remapped. */
  method BootMapRegion(mem: Memory, d: nat, v: nat, count: nat, page: nat, perm: nat) returns (ok: bool)
    requires mem.Valid(NULL) && d in mem.book.dirs && v + count <= VPAGES && perm < FRAME
    requires forall k :: k in mem.book.maps && k.d == d ==> !(v <= k.v < v + count)
    modifies mem
    ensures mem.Valid(NULL) && Grown(old(mem.Now()), old(mem.book), mem.Now(), mem.book, d)
    ensures ok ==> RegionMapped(old(mem.words), mem.words, mem.book.dirs, d, v, count, page, perm)
    ensures ok ==> AllPermitted(mem.words, d, v, count, page, perm)
    ensures !ok ==> mem.book.free == []
    ensures Supply(mem.book, d) == old(Supply(mem.book, d)) &&
            Tables(mem.book, d) <= old(Tables(mem.book, d)) + Span(v, count)
    ensures ok ==> Tables(mem.book, d) == old(Tables(mem.book, d)) + Span(v, count)
    ensures ok <==> |old(Tables(mem.book, d)) + Span(v, count)| <= old(Supply(mem.book, d))
    ensures IsTail(mem.book.free, old(mem.book.free))
  {
    hide Sound, Grown, RegionMapped, Translate, Remapped, SameTranslation, Shape, RefsOk, Tables, Span, AllPermitted;
    ghost var m0, b0 := mem.Now(), mem.book;
    ghost var have, want := Tables(b0, d), Tables(b0, d) + Span(v, count);
    SpanNone(v);
    DirectoryThere(m0, b0, mem.reserved, d);
    GrownNot(m0, b0, mem.reserved, d);
    FreeIsEmpty(m0, b0, mem.reserved);
    RegionNone(mem.words, b0.dirs, d, v, page, perm);
    var i := 0;
    while i < count
      invariant 0 <= i <= count && mem.Valid(NULL) && mem.book.dirs == b0.dirs && mem.book.maps == b0.maps
      invariant Grown(m0, b0, mem.Now(), mem.book, d)
      invariant RegionMapped(m0.words, mem.words, b0.dirs, d, v, i, page, perm)
      invariant Supply(mem.book, d) == Supply(b0, d) && Tables(mem.book, d) == have + Span(v, i)
      invariant IsTail(mem.book.free, b0.free)
    {
      ghost var free := mem.book.free;
      ok := MapOne(mem, d, v, i, page, perm, m0, b0);
      TailTwice(mem.book.free, free, b0.free);
      SpanMore(v, i);
      SpanWithin(v, i + 1, count);
      if !ok {
        TooFew(Tables(mem.book, d), want, (v + i) / ENTRIES);
        return;
      }
      i := i + 1;
    }
    ok := true;
    RegionPermits(m0.words, mem.words, b0.dirs, d, v, count, page, perm);
  }

  lemma DirectoryThere(m: Pages, b: Books, reserved: set<nat>, d: nat)
    requires Sound(m, b, reserved, NULL) && d in b.dirs
    ensures d < |m.words|
  {
  }

  method MapOne(mem: Memory, d: nat, v: nat, i: nat, page: nat, perm: nat, ghost m0: Pages, ghost b0: Books)
    returns (ok: bool)
    requires mem.Valid(NULL) && d in mem.book.dirs && v + i < VPAGES && perm < FRAME &&
             Place(d, v + i) !in mem.book.maps
    requires Grown(m0, b0, mem.Now(), mem.book, d) &&
             RegionMapped(m0.words, mem.words, mem.book.dirs, d, v, i, page, perm)
    modifies mem
    ensures mem.Valid(NULL) && mem.book.dirs == old(mem.book.dirs) && mem.book.maps == old(mem.book.maps)
    ensures Grown(m0, b0, mem.Now(), mem.book, d)
    ensures ok ==> RegionMapped(m0.words, mem.words, mem.book.dirs, d, v, i + 1, page, perm)
    ensures Supply(mem.book, d) == old(Supply(mem.book, d)) && IsTail(mem.book.free, old(mem.book.free))
    ensures ok ==> Tables(mem.book, d) == old(Tables(mem.book, d)) + {(v + i) / ENTRIES}
    ensures !ok ==> mem.book == old(mem.book) && mem.book.free == [] && (v + i) / ENTRIES !in Tables(mem.book, d)
  {
    hide Sound, Grown, RegionMapped, Translate, Remapped, SameTranslation, Shape, RefsOk, Tables, Supply;
    ghost var m1, b1 := mem.Now(), mem.book;
    var t := mem.PgdirWalk(d, v + i, true, NULL);
    TableThere(b1, d, (v + i) / ENTRIES);
    ok := t != NULL;
    if ok {
      ghost var m2, b2 := mem.Now(), mem.book;
      if Slot(d, (v + i) / ENTRIES) !in b1.tabs {
        GrownOnce(m1, b1, mem.reserved, m2, b2, d, (v + i) / ENTRIES, t);
        SupplyKept(b1, b2, d, (v + i) / ENTRIES, t);
        TableMore(b1, b2, d, (v + i) / ENTRIES, t);
        TablesNotFree(m1, b1, mem.reserved);
        GrownTwice(m0, b0, m1, b1, m2, b2, d);
      }
      EntryMapped(m2, b2, mem.reserved, NULL, d, v + i);
      MapStaticSound(m2, b2, mem.reserved, d, v + i, page + i, perm);
      var row: seq<nat> := mem.words[t][(v + i) % ENTRIES := Entry(page + i, perm)];
      mem.words := mem.words[t := row];
      RegionOne(m0.words, m1.words, m2.words, mem.words, b2.dirs, d, v, i, page, perm);
      GrownWrite(m0, b0, m2, mem.Now(), b2, d);
    }
  }

  lemma GrownWrite(m: Pages, b: Books, m': Pages, m'': Pages, b': Books, d: nat)
    requires Grown(m, b, m', b', d) && m''.refs == m'.refs
    ensures Grown(m, b, m'', b', d)
  {
  }
}
