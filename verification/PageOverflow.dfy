/** What a reference count of 16 bits means: one page mapped at many addresses, and one
    of these mappings removed. */
module PageOverflow {
  import opened PageTables
  import opened PageCounts
  import opened PageModel
  import opened PageMemory
  import opened TaskMemory
  import opened TaskLife

  /** The pages from `v` on all translate to the same page, everything else as before. */
  ghost predicate Everywhere(words: Words, words': Words, dirs: set<nat>, d: nat, v: nat, count: nat, m: Mapping) {
    && Shape(words) && Shape(words') && |words| == |words'|
    && forall e, u: nat :: e in dirs && e < |words| && u < VPAGES ==>
         Translate(words', e, u) == if e == d && v <= u < v + count then m else Translate(words, e, u)
  }

  /** The page has been inserted exactly at these places in addition. */
  ghost predicate InsertedAt(maps: map<Place, nat>, maps': map<Place, nat>, d: nat, v: nat, count: nat, p: nat) {
    && (forall k :: k in maps' <==> k in maps || (k.d == d && v <= k.v < v + count))
    && (forall k :: k in maps' ==>
          if k.d == d && v <= k.v < v + count then maps'[k] == p else k in maps && maps'[k] == maps[k])
  }

  /** A page that may be inserted: taken, and no directory. */
  ghost predicate Insertable(m: Pages, b: Books, p: nat) {
    p < |m.refs| == |m.words| && p !in b.free && p !in b.dirs && NoDirectory(b.tabs, p)
  }

  /** The page has been inserted at the first `i` of the addresses. */
  ghost predicate Spread(m0: Pages, b0: Books, m: Pages, b: Books, d: nat, p: nat, v: nat, i: nat, perm: nat) {
    && b.dirs == b0.dirs && Insertable(m, b, p) && |m0.refs| == |m.refs|
    && m.refs[p] == m0.refs[p] + i && InsertedAt(b0.maps, b.maps, d, v, i, p)
    && Everywhere(m0.words, m.words, b0.dirs, d, v, i, Mapped(p, WithPresent(perm)))
    && Tables(b, d) == Tables(b0, d) + Span(v, i) && Supply(b, d) == Supply(b0, d)
  }

  lemma SpreadStart(m: Pages, b: Books, d: nat, p: nat, v: nat, perm: nat)
    requires Insertable(m, b, p) && Shape(m.words)
    ensures Spread(m, b, m, b, d, p, v, 0, perm)
  {
    hide Translate, NoDirectory, Supply, Tables;
    SpanNone(v);
  }

  lemma EverywhereMore(words: Words, words': Words, words'': Words, dirs: set<nat>, d: nat, v: nat, count: nat,
                       m: Mapping)
    requires Everywhere(words, words', dirs, d, v, count, m) && Remapped(words', words'', dirs, d, v + count, m)
    ensures Everywhere(words, words'', dirs, d, v, count + 1, m)
  {
    hide Translate;
  }

  lemma InsertedMore(maps: map<Place, nat>, maps': map<Place, nat>, d: nat, v: nat, count: nat, p: nat)
    requires InsertedAt(maps, maps', d, v, count, p)
    ensures InsertedAt(maps, maps'[Place(d, v + count) := p], d, v, count + 1, p)
  {
    var maps'' := maps'[Place(d, v + count) := p];
    forall k ensures k in maps'' <==> k in maps || (k.d == d && v <= k.v < v + (count + 1)) {
      assert k == Place(k.d, k.v);
    }
    forall k | k in maps''
      ensures if k.d == d && v <= k.v < v + (count + 1) then maps''[k] == p else k in maps && maps''[k] == maps[k]
    {
      assert k == Place(k.d, k.v);
    }
  }

  /** What an insertion at a vacant address keeps. */
  lemma InsertableStill(m: Pages, b: Books, m': Pages, b': Books, d: nat, v: nat, p: nat)
    requires Insertable(m, b, p) && Inserted(m, b, m', b', d, v, p) && d in b.dirs && |m'.words| == |m.words|
    ensures Insertable(m', b', p) && m'.refs[p] == m.refs[p] + 1 && |m'.refs| == |m.refs| && b'.dirs == b.dirs
  {
  }

  lemma SpreadMore(m0: Pages, b0: Books, m: Pages, b: Books, m': Pages, b': Books, d: nat, p: nat, v: nat, i: nat,
                   perm: nat)
    requires Spread(m0, b0, m, b, d, p, v, i, perm) && Inserted(m, b, m', b', d, v + i, p) && d in b.dirs
    requires b'.maps == b.maps[Place(d, v + i) := p]
    requires Remapped(m.words, m'.words, b.dirs, d, v + i, Mapped(p, WithPresent(perm)))
    ensures Spread(m0, b0, m', b', d, p, v, i + 1, perm)
  {
    InsertableStill(m, b, m', b', d, v + i, p);
    InsertedTables(m, b, m', b', d, v + i, p);
    SpanMore(v, i);
    InsertedMore(b0.maps, b.maps, d, v, i, p);
    hide Translate, Inserted, Supply, Tables, Span, WithPresent, Insertable, InsertedAt, Everywhere, Remapped;
    EverywhereMore(m0.words, m.words, m'.words, b0.dirs, d, v, i, Mapped(p, WithPresent(perm)));
  }

  /** The next address is still vacant. */
  lemma NextVacant(m0: Pages, b0: Books, m: Pages, b: Books, d: nat, p: nat, v: nat, i: nat, perm: nat, end: nat)
    requires Spread(m0, b0, m, b, d, p, v, i, perm) && Vacant(m0.words, d, v, end) && v + i < end && d in b0.dirs
    ensures Shape(m.words) && d < |m.words| && v + i < VPAGES && Translate(m.words, d, v + i) == Unmapped
    ensures Replaceable(m, b, d, v + i, p) && Insertable(m, b, p) && d in b.dirs
  {
    hide Translate;
  }

  /** Insert a page at `k` vacant addresses.  The number of its uses goes up by `k`, and its
      count is that number in 16 bits.  It fails if and only if there is no memory for the
      tables. */
  method InsertMany(mem: Memory, d: nat, p: nat, v: nat, k: nat, perm: nat) returns (ok: bool)
    requires mem.Valid(NULL) && d in mem.book.dirs && v + k <= VPAGES && perm < FRAME &&
             Insertable(mem.Now(), mem.book, p)
    requires Vacant(mem.words, d, v, v + k)
    modifies mem
    ensures mem.Valid(NULL) && (ok <==> |old(Tables(mem.book, d)) + Span(v, k)| <= old(Supply(mem.book, d)))
    ensures ok ==> Spread(old(mem.Now()), old(mem.book), mem.Now(), mem.book, d, p, v, k, perm)
    ensures ok ==> p < |mem.refs| == |old(mem.uses)| && mem.refs[p] == (old(mem.uses)[p] + k) % REF_LIMIT
  {
    hide Sound, RefsOk, Spread, Insertable, Vacant, Translate, Shape, Tables, Span, Replaceable, Spoilt, Counted,
         Remapped, Inserted, NoDirectory, WithPresent;
    ghost var m0, b0 := mem.Now(), mem.book;
    ghost var want := Tables(b0, d) + Span(v, k);
    VacantShape(m0.words, d, v, v + k);
    SpreadStart(m0, b0, d, p, v, perm);
    var i := 0;
    while i < k
      invariant 0 <= i <= k && mem.Valid(NULL) && Spread(m0, b0, mem.Now(), mem.book, d, p, v, i, perm)
    {
      ghost var m, b := mem.Now(), mem.book;
      NextVacant(m0, b0, m, b, d, p, v, i, perm, v + k);
      InsertableFacts(m, b, p);
      var r := mem.PageInsert(d, p, v + i, perm);
      if r != 0 {
        NoTable(m0, b0, m, b, d, p, v, i, perm, k);
        return false;
      }
      SpreadMore(m0, b0, m, b, mem.Now(), mem.book, d, p, v, i, perm);
      i := i + 1;
    }
    ok := true;
    SpreadEnd(mem.refs, m0, b0, mem.Now(), mem.book, d, p, v, k, perm);
  }

  lemma VacantShape(words: Words, d: nat, v: nat, end: nat)
    requires Vacant(words, d, v, end)
    ensures Shape(words) && d < |words|
  {
  }

  lemma InsertableFacts(m: Pages, b: Books, p: nat)
    requires Insertable(m, b, p)
    ensures p < |m.refs| == |m.words| && p !in b.free && p !in b.dirs && NoDirectory(b.tabs, p)
  {
  }

  lemma NoTable(m0: Pages, b0: Books, m: Pages, b: Books, d: nat, p: nat, v: nat, i: nat, perm: nat, k: nat)
    requires Spread(m0, b0, m, b, d, p, v, i, perm) && i < k && b.free == [] && Slot(d, (v + i) / ENTRIES) !in b.tabs
    ensures |Tables(b0, d) + Span(v, k)| > Supply(b0, d)
  {
    hide Translate, Insertable, Everywhere, InsertedAt;
    TableThere(b, d, (v + i) / ENTRIES);
    SpanMore(v, i);
    SpanWithin(v, i + 1, k);
    TooFew(Tables(b, d), Tables(b0, d) + Span(v, k), (v + i) / ENTRIES);
  }

  lemma SpreadEnd(r: seq<nat>, m0: Pages, b0: Books, m: Pages, b: Books, d: nat, p: nat, v: nat, k: nat, perm: nat)
    requires Spread(m0, b0, m, b, d, p, v, k, perm) && RefsOk(r, m.refs)
    ensures |Tables(b0, d) + Span(v, k)| <= Supply(b0, d)
    ensures p < |r| == |m0.refs| && r[p] == (m0.refs[p] + k) % REF_LIMIT
  {
    hide Translate, Everywhere, InsertedAt, Tables, Span;
  }

  /** The fewest uses with which a page is given back too early. */
  lemma FewestOverused(u: nat)
    ensures Overused(REF_LIMIT + 1) && (Overused(u) ==> u >= REF_LIMIT + 1)
  {
  }

  /** Take a page, insert it at `k` vacant addresses and remove it from the first.  The
      others still map to it.  It is on the free list while it is in use if and only if
      `k` is more than one and one more than a multiple of 65536; otherwise it has been given back
      exactly if it is no longer in use. */
  method RemoveOne(mem: Memory, d: nat, v: nat, k: nat, perm: nat) returns (ok: bool, p: int)
    requires mem.Valid(NULL) && d in mem.book.dirs && 0 < k && v + k <= VPAGES && perm < FRAME &&
             Vacant(mem.words, d, v, v + k)
    modifies mem
    ensures ok <==> |old(Tables(mem.book, d)) + Span(v, k)| < old(Supply(mem.book, d))
    ensures ok ==> old(mem.book.free) != [] && p == old(mem.book.free)[0]
    ensures ok ==> Shape(mem.words) && d < |mem.words|
                   && forall u: nat :: v < u < v + k ==> Translate(mem.words, d, u) == Mapped(p, WithPresent(perm))
    ensures ok ==> FreeList(mem.link, mem.head, mem.book.free, mem.numFree)
    ensures ok ==> (p in mem.book.free <==> k == 1 || Overused(k))
    ensures ok && !Overused(k) ==> mem.Valid(NULL)
  {
    hide Sound, RefsOk, Spread, Insertable, Vacant, Translate, Shape, Tables, Span, Removable, Spoilt, Counted,
         Remapped, TabsOk, NoDirectory, WithPresent, FreeList, Overused, Removed, SameTranslation;
    ghost var m0, b0 := mem.Now(), mem.book;
    VacantShape(m0.words, d, v, v + k);
    p := mem.PageAlloc(false);
    if p == NULL {
      NoSupply(b0, d, Span(v, k));
      return false, p;
    }
    ghost var m1, b1 := mem.Now(), mem.book;
    PageTaken(m0, b0, m1, b1, d, p, v, v + k);
    ok := InsertMany(mem, d, p, v, k, perm);
    if !ok {
      return;
    }
    ghost var r2, m2, b2 := mem.refs, mem.Now(), mem.book;
    RemoveNow(m1, b1, m2, b2, d, p, v, k, perm);
    mem.PageRemove(d, v, NULL);
    RemovedBook(r2, m2, b2, mem.refs, mem.Now(), mem.book, d, v, p);
    RemovedNow(r2, m1, b1, m2, b2, mem.refs, mem.Now(), mem.book, d, p, v, k, perm);
  }

  lemma NoSupply(b: Books, d: nat, more: set<nat>)
    requires b.free == []
    ensures |Tables(b, d) + more| >= Supply(b, d)
  {
    hide Tables;
    Smaller(Tables(b, d), Tables(b, d) + more);
  }

  lemma PageTaken(m0: Pages, b0: Books, m1: Pages, b1: Books, d: nat, p: nat, v: nat, end: nat)
    requires Vacant(m0.words, d, v, end) && SameTranslation(m0.words, m1.words, b1.dirs) && d in b1.dirs
    requires b0.free != [] && b1 == b0.(free := b0.free[1..]) && Unclaimed(m1, b1, p)
    ensures Vacant(m1.words, d, v, end) && Insertable(m1, b1, p) && m1.refs[p] == 0
    ensures Tables(b1, d) == Tables(b0, d) && Supply(b1, d) == Supply(b0, d) - 1
  {
    VacantSame(m0.words, m1.words, b1.dirs, d, v, end);
  }

  lemma RemoveNow(m1: Pages, b1: Books, m2: Pages, b2: Books, d: nat, p: nat, v: nat, k: nat, perm: nat)
    requires Spread(m1, b1, m2, b2, d, p, v, k, perm) && 0 < k && v + k <= VPAGES && d in b1.dirs && d < |m1.words|
    requires m1.refs[p] == 0
    ensures d in b2.dirs && d < |m2.words| && Shape(m2.words) && v < VPAGES
    ensures Translate(m2.words, d, v) == Mapped(p, WithPresent(perm)) && p < |m2.words|
    ensures Place(d, v) in b2.maps && b2.maps[Place(d, v)] == p
    ensures Removable(m2, b2, d, v) <==> !Overused(k)
  {
    hide Translate, Overused, WithPresent, Tables, Supply;
    assert m2.refs[p] == k;
  }

  lemma RemovedNow(r: seq<nat>, m1: Pages, b1: Books, m2: Pages, b2: Books, r': seq<nat>, m': Pages, b': Books,
                   d: nat, p: nat, v: nat, k: nat, perm: nat)
    requires Spread(m1, b1, m2, b2, d, p, v, k, perm) && 0 < k && v + k <= VPAGES && d in b1.dirs && d < |m1.words|
    requires m1.refs[p] == 0 && RefsOk(r, m2.refs) && Removed(r, m2, b2, r', m', b', d, v, p)
    requires Remapped(m2.words, m'.words, b2.dirs, d, v, Unmapped)
    ensures FreeList(m'.link, m'.head, b'.free, m'.numFree) && (p in b'.free <==> k == 1 || Overused(k))
    ensures Shape(m'.words) && d < |m'.words|
    ensures forall u: nat :: v < u < v + k ==> Translate(m'.words, d, u) == Mapped(p, WithPresent(perm))
  {
    hide Translate, WithPresent, Tables, Supply, FreeList;
    assert m2.refs[p] == k && r[p] == k % REF_LIMIT;
  }
}
