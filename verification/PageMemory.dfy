/** The physical page allocator and the operations on page tables, on the kernel's
    global state. */
module PageMemory {
  import opened PageTables
  import opened PageCounts
  import opened PageModel

  const E_NO_MEM := 4

  /** Reference counts have 16 bits. */
  const REF_LIMIT := 0x10000

  function Incremented(r: nat): nat {
    if r == REF_LIMIT - 1 then 0 else r + 1
  }

  function Decremented(r: nat): nat {
    if r == 0 then REF_LIMIT - 1 else r - 1
  }

  /** The counts of the program are the numbers of uses in 16 bits. */
  ghost predicate RefsOk(refs: seq<nat>, uses: seq<nat>) {
    |refs| == |uses| && forall p :: 0 <= p < |refs| ==> refs[p] == uses[p] % REF_LIMIT
  }

  lemma WrapUp(u: nat)
    ensures (u + 1) % REF_LIMIT == Incremented(u % REF_LIMIT)
  {
  }

  lemma WrapDown(u: nat)
    requires u > 0
    ensures (u - 1) % REF_LIMIT == Decremented(u % REF_LIMIT)
  {
  }

  lemma SameLength(refs: seq<nat>, uses: seq<nat>)
    requires RefsOk(refs, uses)
    ensures |refs| == |uses|
  {
  }

  lemma OneUseMore(refs: seq<nat>, uses: seq<nat>, p: nat)
    requires RefsOk(refs, uses) && p < |refs|
    ensures RefsOk(refs[p := Incremented(refs[p])], uses[p := uses[p] + 1])
  {
    WrapUp(uses[p]);
  }

  lemma OneUseLess(refs: seq<nat>, uses: seq<nat>, p: nat)
    requires RefsOk(refs, uses) && p < |refs| && uses[p] > 0
    ensures RefsOk(refs[p := Decremented(refs[p])], uses[p := uses[p] - 1])
  {
    WrapDown(uses[p]);
  }

  /** So many uses that one less looks like none. */
  predicate Overused(u: nat) {
    u > 1 && u % REF_LIMIT == 1
  }

  /** A count is wrong, or a page that is in use is on the free list. */
  ghost predicate Spoilt(refs: seq<nat>, uses: seq<nat>, free: seq<nat>) {
    |refs| == |uses| && exists p: nat :: p < |refs| && Wrong(refs[p], uses[p], p in free)
  }

  predicate Wrong(ref: nat, use: nat, free: bool) {
    ref != use % REF_LIMIT || (free && use > 0)
  }

  lemma SpoiltUnsound(refs: seq<nat>, m: Pages, b: Books, reserved: set<nat>, hold: int)
    requires Spoilt(refs, m.refs, b.free)
    ensures !(Sound(m, b, reserved, hold) && RefsOk(refs, m.refs))
  {
  }

  // ----- initialisation -----

  /** The pages that the initialisation leaves free: base memory except page 0 and the
      page with the code that starts the other processors, and extended memory beyond
      what the kernel already uses. */
  predicate IsFree(p: nat, basemem: nat, nextfree: nat) {
    p != 0 && if p < basemem then p != 7 else 256 <= p && nextfree <= p
  }

  /** The first `i` page records have been set up. */
  ghost predicate Initialised(refs: seq<nat>, free: seq<nat>, i: nat, basemem: nat, nextfree: nat) {
    && |refs| == i
    && (forall p :: p in free <==> 0 <= p < i && IsFree(p, basemem, nextfree))
    && (forall p :: 0 <= p < i ==> refs[p] == One(!IsFree(p, basemem, nextfree)))
  }

  /** The next page by the cases of the initialisation. */
  lemma OneMorePage(refs: seq<nat>, free: seq<nat>, i: nat, basemem: nat, nextfree: nat)
    requires Initialised(refs, free, i, basemem, nextfree)
    ensures if i == 0 || (i < basemem && i == 7) then Initialised(refs + [1], free, i + 1, basemem, nextfree)
            else if i < basemem then Initialised(refs + [0], [i] + free, i + 1, basemem, nextfree)
            else if i < 256 || i < nextfree then Initialised(refs + [1], free, i + 1, basemem, nextfree)
            else Initialised(refs + [0], [i] + free, i + 1, basemem, nextfree)
  {
    if IsFree(i, basemem, nextfree) {
      OneMoreFree(refs, free, i, basemem, nextfree);
    } else {
      OneMoreUsed(refs, free, i, basemem, nextfree);
    }
    hide Initialised;
  }

  lemma OneMoreFree(refs: seq<nat>, free: seq<nat>, i: nat, basemem: nat, nextfree: nat)
    requires Initialised(refs, free, i, basemem, nextfree) && IsFree(i, basemem, nextfree)
    ensures Initialised(refs + [0], [i] + free, i + 1, basemem, nextfree)
  {
    hide IsFree;
  }

  lemma OneMoreUsed(refs: seq<nat>, free: seq<nat>, i: nat, basemem: nat, nextfree: nat)
    requires Initialised(refs, free, i, basemem, nextfree) && !IsFree(i, basemem, nextfree)
    ensures Initialised(refs + [1], free, i + 1, basemem, nextfree)
  {
    hide IsFree;
  }

  lemma FreePages(refs: seq<nat>, free: seq<nat>, n: nat, basemem: nat, nextfree: nat)
    requires Initialised(refs, free, n, basemem, nextfree)
    ensures forall p: nat :: p in free <==>
              p < n && ((0 < p < basemem && p != 7) || (p >= basemem && p >= 256 && p >= nextfree))
  {
  }

  lemma Lengthened(link: seq<int>, head: int, free: seq<nat>, numFree: int)
    requires FreeList(link, head, free, numFree)
    ensures FreeList(link + [NULL], head, free, numFree) &&
            FreeList(link + [head], |link|, [|link|] + free, numFree + 1)
  {
    var n := |link|;
    assert n !in free;
    Pushed(link + [NULL], head, free, numFree, n);
    assert (link + [NULL])[n := head] == link + [head];
  }

  lemma NothingYet(basemem: nat, nextfree: nat)
    ensures FreeList([], NULL, [], 0) && Initialised([], [], 0, basemem, nextfree)
  {
  }

  lemma InitialisedSound(m: Pages, free: seq<nat>, basemem: nat, nextfree: nat, reserved: set<nat>)
    requires |m.refs| == |m.link| == |m.words| && Shape(m.words)
    requires Initialised(m.refs, free, |m.refs|, basemem, nextfree) && FreeList(m.link, m.head, free, m.numFree)
    requires forall p: nat :: p in reserved <==> p < |m.refs| && !IsFree(p, basemem, nextfree)
    ensures Sound(m, Books(free, {}, map[], map[]), reserved, NULL) && RefsOk(m.refs, m.refs)
  {
    hide FreeList, IsFree;
    assert forall p: nat :: Keys<Slot>(map[], p) == {};
    assert forall p: nat :: Keys<Place>(map[], p) == {};
  }

  class Memory {
    var refs: seq<nat>        // pp_ref of every page
    ghost var uses: seq<nat>  // how often every page is in use
    var link: seq<int>        // pp_link of every page
    var head: int             // page_free_list
    var numFree: int          // num_free_pages
    var words: Words          // the memory itself
    ghost var book: Books
    ghost const reserved: set<nat>

    ghost function Now(): Pages
      reads this
    {
      Pages(uses, link, head, numFree, words)
    }

    ghost predicate Valid(hold: int)
      reads this
    {
      Sound(Now(), book, reserved, hold) && RefsOk(refs, uses)
    }

    /** Set up the page records.  Exactly the pages that nobody uses yet are free. */
    constructor (npages: nat, basemem: nat, nextfree: nat, memory: Words)
      requires |memory| == npages && Shape(memory)
      ensures Valid(NULL) && words == memory && book.dirs == {} && book.tabs == map[] && book.maps == map[]
      ensures forall p: nat :: p in book.free <==>
                p < npages && ((0 < p < basemem && p != 7) || (p >= basemem && p >= 256 && p >= nextfree))
      ensures forall p: nat :: p in reserved <==> p < npages && !IsFree(p, basemem, nextfree)
    {
      refs, link, uses := [], [], [];
      head, numFree := NULL, 0;
      words := memory;
      book := Books([], {}, map[], map[]);
      reserved := set p | 0 <= p < npages && !IsFree(p, basemem, nextfree);
      new;
      hide FreeList, Initialised, Sound, One;
      ghost var free: seq<nat> := [];
      NothingYet(basemem, nextfree);
      var i := 0;
      while i < npages
        invariant 0 <= i <= npages && words == memory && |link| == i
        invariant FreeList(link, head, free, numFree) && Initialised(refs, free, i, basemem, nextfree)
      {
        Lengthened(link, head, free, numFree);
        OneMorePage(refs, free, i, basemem, nextfree);
        hide IsFree;
        if i == 0 || (i < basemem && i == 7) {
          refs, link := refs + [1], link + [NULL];
        } else if i < basemem {
          refs, link := refs + [0], link + [head];
          head, free := i, [i] + free;
          numFree := numFree + 1;
        } else if i < 256 || i < nextfree {
          refs, link := refs + [1], link + [NULL];
        } else {
          refs, link := refs + [0], link + [head];
          head, free := i, [i] + free;
          numFree := numFree + 1;
        }
        i := i + 1;
      }
      book := Books(free, {}, map[], map[]);
      uses := refs;
      InitialisedSound(Now(), free, basemem, nextfree, reserved);
      FreePages(refs, free, npages, basemem, nextfree);
    }

    // ----- pages -----

    /** Take a page from the free list, if there is one. */
    method PageAlloc(zero: bool) returns (p: int)
      requires Valid(NULL)
      modifies this
      ensures Valid(NULL)
      ensures old(book.free) == [] ==> p == NULL && Now() == old(Now()) && book == old(book)
      ensures old(book.free) != [] ==> p == old(book.free)[0] && book == old(book).(free := old(book.free)[1..])
      ensures old(book.free) != [] ==> Unclaimed(Now(), book, p) && (zero ==> Blank(words[p]))
      ensures refs == old(refs) && uses == old(uses)
      ensures old(book.free) != [] ==>
                0 <= p < |old(words)| && words == if zero then old(words)[p := Zeros()] else old(words)
      ensures SameTranslation(old(words), words, book.dirs)
    {
      hide Sound;
      FreeIsEmpty(Now(), book, reserved);
      if head == NULL {
        return NULL;
      }
      p := head;
      AllocSound(Now(), book, reserved, NULL, zero);
      head := link[head];
      if zero {
        words := words[p := Zeros()];
      }
      link := link[p := NULL];
      numFree := numFree - 1;
      book := book.(free := book.free[1..]);
    }

    /** Put a page on the free list.  The two assertions of the program are what is asked
        of the caller; they let the last page of the list pass, and what is left then is
        no list. */
    method PageFree(p: nat)
      requires p < |refs| == |link| && refs[p] == 0 && link[p] == NULL && FreeList(link, head, book.free, numFree)
      modifies this`link, this`head, this`numFree
      ensures |link| == old(|link|)
      ensures p !in book.free ==> FreeList(link, head, [p] + book.free, numFree)
      ensures p in book.free ==> NoList(link, head, numFree)
    {
      if p !in book.free {
        Pushed(link, head, book.free, numFree, p);
      } else {
        LastPushed(link, head, book.free, numFree, p);
      }
      link := link[p := head];
      head := p;
      numFree := numFree + 1;
    }

    /** One reference less in 16 bits.  The page goes to the front of the free list exactly
        if that leaves none. */
    method PageDecref(p: nat)
      requires p < |refs| == |link| && FreeList(link, head, book.free, numFree) && (refs[p] == 1 ==> p !in book.free)
      modifies this`refs, this`link, this`head, this`numFree
      ensures refs == old(refs)[p := Decremented(old(refs)[p])] && |link| == old(|link|)
      ensures FreeList(link, head, if old(refs)[p] == 1 then [p] + book.free else book.free, numFree)
    {
      refs := refs[p := Decremented(refs[p])];
      if refs[p] == 0 {
        PageFree(p);
      }
    }

    // ----- page tables -----

    /** Find the table for page `v`, and make one if asked to.  No address space
        translates differently afterwards. */
    method PgdirWalk(d: nat, v: nat, create: bool, ghost hold: int) returns (t: int)
      requires Valid(hold) && (create ==> hold == NULL) && d in book.dirs && v < VPAGES
      modifies this
      ensures Valid(hold) && SameTranslation(old(words), words, book.dirs)
      ensures t == NULL <==> Slot(d, v / ENTRIES) !in old(book.tabs) && (!create || old(book.free) == [])
      ensures t == NULL || Slot(d, v / ENTRIES) in old(book.tabs) ==>
                Now() == old(Now()) && refs == old(refs) && book == old(book)
      ensures t != NULL ==> Slot(d, v / ENTRIES) in book.tabs && book.tabs[Slot(d, v / ENTRIES)] == t && t < |words|
      ensures t != NULL && Slot(d, v / ENTRIES) !in old(book.tabs) ==>
                old(book.free) != [] && t == old(book.free)[0] && t < |old(uses)| && uses == old(uses)[t := 1]
                && book == old(book).(free := old(book.free)[1..], tabs := old(book.tabs)[Slot(d, v / ENTRIES) := t])
                && d < |words| && |words[d]| == 1024 && words[d][v / 1024] == 4096 * t + 7
    {
      SlotPresent(Now(), book, reserved, hold, d, v / ENTRIES);
      hide Sound, TabsOk, Shape;
      var pde := words[d][v / ENTRIES];
      if Present(pde) {
        t := PageOf(pde);
      } else {
        if !create {
          return NULL;
        }
        t := PageAlloc(true);
        if t == NULL {
          return;
        }
        t := NewTablePage(d, v / ENTRIES, t);
      }
    }

    /** Count the new table and hang it into the directory. */
    method NewTablePage(d: nat, i: nat, p: nat) returns (t: int)
      requires Valid(NULL) && d in book.dirs && i < ENTRIES && d < |words| && |words[d]| == ENTRIES &&
               !Present(words[d][i])
      requires Unclaimed(Now(), book, p) && Blank(words[p])
      modifies this
      ensures Valid(NULL) && t == p && book == old(book).(tabs := old(book.tabs)[Slot(d, i) := p])
      ensures uses == old(uses)[p := 1] && SameTranslation(old(words), words, book.dirs)
      ensures words == Put(old(words), d, i, Entry(p, TABLE_PERM))
    {
      hide Sound, Shape, Blank, NoDirectory;
      NewTableSound(Now(), book, reserved, d, i, p);
      OneUseMore(refs, uses, p);
      refs, uses := refs[p := Incremented(refs[p])], uses[p := uses[p] + 1];
      var page: seq<nat> := words[d][i := Entry(p, TABLE_PERM)];
      words := words[d := page];
      book := book.(tabs := book.tabs[Slot(d, i) := p]);
      t := p;
    }

    /** The page at `v`, and the table with its entry; nothing is changed. */
    method PageLookup(d: nat, v: nat, ghost hold: int) returns (p: int, t: int)
      requires Valid(hold) && d in book.dirs && d < |words| && Shape(words) && v < VPAGES
      requires Translate(words, d, v).Mapped? ==> Translate(words, d, v).page < |words|
      modifies this
      ensures Now() == old(Now()) && refs == old(refs) && book == old(book)
      ensures p == match old(Translate(words, d, v)) case Unmapped => NULL case Mapped(page, _) => page
      ensures p != NULL ==> Slot(d, v / ENTRIES) in book.tabs && t == book.tabs[Slot(d, v / ENTRIES)] < |words|
    {
      SlotPresent(Now(), book, reserved, hold, d, v / ENTRIES);
      hide Sound;
      p := NULL;
      t := PgdirWalk(d, v, false, hold);
      if t == NULL || !Present(words[t][v % ENTRIES]) {
        return;
      }
      p := PageOf(words[t][v % ENTRIES]);
    }

    /** Unmap the page at `v`, if there is one: its count goes down, it is given back if
        that leaves the count zero, and no other page of any address space is affected.
        All is well afterwards if and only if the page had been inserted and is not
        overused; otherwise its count is wrong or it is free while still in use. */
    method PageRemove(d: nat, v: nat, ghost hold: int)
      requires Valid(hold) && d in book.dirs && d < |words| && Shape(words) && v < VPAGES
      requires Translate(words, d, v).Mapped? ==> Translate(words, d, v).page < |words|
      modifies this
      ensures Remapped(old(words), words, book.dirs, d, v, Unmapped)
      ensures old(Translate(words, d, v)) == Unmapped ==> Now() == old(Now()) && refs == old(refs) && book == old(book)
      ensures match old(Translate(words, d, v))
              case Unmapped => true
              case Mapped(p, _) => Removed(old(refs), old(Now()), old(book), refs, Now(), book, d, v, p)
      ensures Counted(uses, book.tabs, book.maps, reserved, hold) && TabsOk(words, book.dirs, book.tabs)
      ensures Removable(old(Now()), old(book), d, v) <==> Valid(hold)
      ensures !Removable(old(Now()), old(book), d, v) ==> Spoilt(refs, uses, book.free)
    {
      hide Sound, Translate, RefsOk, Counted, TabsOk, FreeList, Remapped, Removable, Spoilt, Removed, Shape,
           Decremented;
      RemovalStart(refs, Now(), book, reserved, hold, d, v);
      ghost var m, b, r := Now(), book, refs;
      var p, t := PageLookup(d, v, hold);
      if p == NULL {
        return;
      }
      PageDecref(p);
      ShapeAt(words, b.dirs, b.tabs, t);
      var page: seq<nat> := words[t][v % ENTRIES := 0];
      words := words[t := page];
      if Place(d, v) in b.maps {
        uses := uses[p := uses[p] - 1];
      }
      book := b.(free := if r[p] == 1 then [p] + b.free else b.free, maps := b.maps - {Place(d, v)});
      RemovalDone(r, m, refs, Now(), b, book, d, v, p);
      RemovalResult(r, m, refs, Now(), b, book, reserved, hold, d, v, p);
      if !Removable(m, b, d, v) {
        SpoiltUnsound(refs, Now(), book, reserved, hold);
      }
    }

    /** Map a page at `v`.  Afterwards `v` translates to it, and nothing else translates
        differently; a page that was there before is removed.  Inserting a page once more
        where it already is changes no count and frees nothing.  All is well afterwards if
        and only if the removal, if there is one, goes well. */
    method PageInsert(d: nat, pp: nat, v: nat, perm: nat) returns (r: int)
      requires Valid(NULL) && d in book.dirs && d < |words| && Shape(words) && v < VPAGES && perm < FRAME
      requires Translate(words, d, v).Mapped? ==> Translate(words, d, v).page < |words|
      requires pp < |uses| == |words| && pp !in book.free && pp !in book.dirs && NoDirectory(book.tabs, pp)
      modifies this
      ensures book.dirs == old(book.dirs) && |uses| == old(|uses|)
      ensures r == 0 ==> TabsAfter(old(book), book, d, v)
      ensures r == if Slot(d, v / ENTRIES) !in old(book.tabs) && old(book.free) == [] then -4 else 0
      ensures r != 0 ==> Valid(NULL) && Now() == old(Now()) && book == old(book)
      ensures r == 0 ==> Remapped(old(words), words, book.dirs, d, v, Mapped(pp, WithPresent(perm)))
      ensures r == 0 ==> Permitted(words, d, v, pp, perm)
      ensures r == 0 ==>
                book.maps == old(book.maps)[Place(d, v) := pp] &&
                Counted(uses, book.tabs, book.maps, reserved, NULL)
      ensures Replaceable(old(Now()), old(book), d, v, pp) <==> Valid(NULL)
      ensures !Replaceable(old(Now()), old(book), d, v, pp) ==> Spoilt(refs, uses, book.free)
      ensures Replaceable(old(Now()), old(book), d, v, pp) && IsAt(old(book), d, v, pp) ==>
                r == 0 && uses == old(uses) && book == old(book)
      ensures Replaceable(old(Now()), old(book), d, v, pp) && old(Translate(words, d, v)).Mapped? ==>
                Swapped(old(Now()), old(book), uses, book, d, v, pp)
      ensures r == 0 && old(Translate(words, d, v)) == Unmapped ==>
                Inserted(old(Now()), old(book), Now(), book, d, v, pp)
    {
      hide Sound, Translate, Remapped, SameTranslation, Shape, NoDirectory, RefsOk, Spoilt, Overused, Swapped,
           Permitted;
      ghost var m0, b0 := Now(), book;
      SlotMapped(m0, b0, reserved, NULL, d, v);
      var t := PgdirWalk(d, v, true, NULL);
      if t == NULL {
        return -E_NO_MEM;
      }
      StillNoDirectory(b0.tabs, book.dirs, d, v / ENTRIES, pp, t);
      SameAt(m0.words, words, book.dirs, d, v);
      ghost var words1 := words;
      InsertAt(d, pp, v, perm, t);
      FirstSame(m0.words, words1, words, book.dirs, d, v, Mapped(pp, WithPresent(perm)));
      RemappedPermitted(m0.words, words, book.dirs, d, v, pp, perm);
      r := 0;
      if !Replaceable(m0, b0, d, v, pp) {
        SpoiltUnsound(refs, Now(), book, reserved, NULL);
      }
    }

    /** The rest of the insertion, when there is a table. */
    method InsertAt(d: nat, pp: nat, v: nat, perm: nat, t: nat)
      requires Valid(NULL) && d in book.dirs && d < |words| && Shape(words) && v < VPAGES && perm < FRAME
      requires Translate(words, d, v).Mapped? ==> Translate(words, d, v).page < |words|
      requires pp < |uses| == |words| && pp !in book.free && pp !in book.dirs && NoDirectory(book.tabs, pp)
      requires Slot(d, v / ENTRIES) in book.tabs && t == book.tabs[Slot(d, v / ENTRIES)] < |words|
      modifies this
      ensures book.dirs == old(book.dirs) && book.tabs == old(book.tabs) && |uses| == old(|uses|)
      ensures Remapped(old(words), words, book.dirs, d, v, Mapped(pp, WithPresent(perm)))
      ensures book.maps == old(book.maps)[Place(d, v) := pp] && Counted(uses, book.tabs, book.maps, reserved, NULL)
      ensures Replaceable(old(Now()), old(book), d, v, pp) ==> Valid(NULL)
      ensures !Replaceable(old(Now()), old(book), d, v, pp) ==> Spoilt(refs, uses, book.free)
      ensures Replaceable(old(Now()), old(book), d, v, pp) && IsAt(old(book), d, v, pp) ==>
                uses == old(uses) && book == old(book)
      ensures Replaceable(old(Now()), old(book), d, v, pp) && old(Translate(words, d, v)).Mapped? ==>
                Swapped(old(Now()), old(book), uses, book, d, v, pp)
      ensures old(Translate(words, d, v)) == Unmapped ==>
                uses == old(uses)[pp := old(uses)[pp] + 1] &&
                book == old(book).(maps := old(book.maps)[Place(d, v) := pp])
    {
      hide Sound, Translate, Remapped, Shape, NoDirectory, RefsOk, Spoilt, Counted, TabsOk, Replaceable, Swapped;
      ghost var m0, b0 := Now(), book;
      MakeRoom(d, pp, v, t);
      ghost var m1, b1 := Now(), book;
      ShapeAt(words, book.dirs, book.tabs, t);
      var page: seq<nat> := words[t][v % ENTRIES := Entry(pp, perm)];
      words := words[t := page];
      book := book.(maps := book.maps[Place(d, v) := pp]);
      Insertion(m1, Now(), b1, reserved, d, v, pp, perm);
      LastCounts(m0.words, m1.words, words, book.dirs, d, v, Unmapped, Mapped(pp, WithPresent(perm)));
      BackAgain(b0.maps, Place(d, v), pp);
      if Replaceable(m0, b0, d, v, pp) {
        MapSound(m1, b1, reserved, d, v, pp, perm);
      }
    }

    /** Count the page and then remove what is there; in this order it cannot be given
        back in between. */
    method MakeRoom(d: nat, pp: nat, v: nat, t: nat)
      requires Valid(NULL) && d in book.dirs && d < |words| && Shape(words) && v < VPAGES && pp < |uses| &&
               pp !in book.free
      requires Translate(words, d, v).Mapped? ==> Translate(words, d, v).page < |words|
      requires Slot(d, v / ENTRIES) in book.tabs && t == book.tabs[Slot(d, v / ENTRIES)] < |words|
      modifies this
      ensures book == old(book).(free := book.free, maps := old(book.maps) - {Place(d, v)}) &&
              |words| == |old(words)| && |uses| == old(|uses|)
      ensures Remapped(old(words), words, book.dirs, d, v, Unmapped) || words == old(words)
      ensures TabsOk(words, book.dirs, book.tabs) && Counted(uses, book.tabs, book.maps, reserved, pp)
      ensures Replaceable(old(Now()), old(book), d, v, pp) ==> Valid(pp)
      ensures !Replaceable(old(Now()), old(book), d, v, pp) ==> Spoilt(refs, uses, book.free)
      ensures Replaceable(old(Now()), old(book), d, v, pp) && IsAt(old(book), d, v, pp) ==>
                uses == old(uses) && book.free == old(book.free)
      ensures Replaceable(old(Now()), old(book), d, v, pp) && old(Translate(words, d, v)).Mapped? ==>
                Swapped(old(Now()), old(book), uses, book.(maps := book.maps[Place(d, v) := pp]), d, v, pp)
      ensures old(Translate(words, d, v)) == Unmapped ==>
                uses == old(uses)[pp := old(uses)[pp] + 1] && book == old(book)
    {
      hide Sound, Translate, Shape, RefsOk, Spoilt, Counted, TabsOk, Replaceable, Removable, Removed, Remapped,
           Swapped;
      ghost var m0, b0 := Now(), book;
      EntryMapped(m0, b0, reserved, NULL, d, v);
      HeldRemovable(m0, b0, reserved, d, v, pp);
      CountUp(pp);
      ghost var r := refs;
      NoOverlap(r, Now(), b0, reserved, pp);
      if Present(words[t][v % ENTRIES]) {
        PageRemove(d, v, pp);
        RemovedSize(r, Held(m0, pp), b0, refs, Now(), book, d, v, Translate(m0.words, d, v).page);
        RemovedBook(r, Held(m0, pp), b0, refs, Now(), book, d, v, Translate(m0.words, d, v).page);
        SameSize(m0.words, words, book.dirs, d, v);
        if Replaceable(m0, b0, d, v, pp) {
          SwapCounts(r, m0, b0, refs, Now(), book, reserved, d, v, pp);
        }
      } else {
        assert b0.maps - {Place(d, v)} == b0.maps;
      }
    }

    /** One reference more. */
    method CountUp(pp: nat)
      requires Valid(NULL) && pp < |uses| && pp !in book.free
      modifies this`refs, this`uses
      ensures Valid(pp) && Now() == Held(old(Now()), pp)
    {
      hide Sound, RefsOk, Incremented;
      HoldSound(Now(), book, reserved, pp);
      SameLength(refs, uses);
      OneUseMore(refs, uses, pp);
      refs, uses := refs[pp := Incremented(refs[pp])], uses[pp := uses[pp] + 1];
    }
  }

  ghost predicate NoList(link: seq<int>, head: int, numFree: int) {
    forall free :: !FreeList(link, head, free, numFree)
  }

  /** Freeing the last page of the list a second time closes a circle. */
  lemma LastPushed(link: seq<int>, head: int, free: seq<nat>, numFree: int, p: nat)
    requires FreeList(link, head, free, numFree) && p in free && p < |link| && link[p] == NULL
    ensures NoList(link[p := head], p, numFree + 1)
  {
    FreedTwice(link, head, free, numFree, p);
    var link', n := link[p := head], numFree + 1;
    forall free' | FreeList(link', p, free', n) ensures false {
      Circle(link, head, free, numFree, p, free', |free| - 1);
    }
  }

  lemma {:induction false} Circle(link: seq<int>, head: int, free: seq<nat>, numFree: int, p: nat, free': seq<nat>,
                                  i: nat)
    requires FreeList(link, head, free, numFree) && i < |free| && free[|free| - 1] == p < |link|
    requires FreeList(link[p := head], p, free', numFree + 1)
    ensures i + 1 < |free'| && free'[i + 1] == free[i]
  {
    if i > 0 {
      Circle(link, head, free, numFree, p, free', i - 1);
      assert free[i - 1] != p;
    }
  }

  /** A second release of a page is caught by the link unless it is the last of the list. */
  lemma FreedTwice(link: seq<int>, head: int, free: seq<nat>, numFree: int, p: nat)
    requires FreeList(link, head, free, numFree) && p in free && p < |link|
    ensures link[p] == NULL <==> p == free[|free| - 1]
  {
    var i :| 0 <= i < |free| && free[i] == p;
    assert i < |free| - 1 ==> link[p] == free[i + 1];
  }

  /** What a removal does: the count of the page goes down in 16 bits, and the page is
      freed if that leaves it zero. */
  ghost predicate Removed(r: seq<nat>, m: Pages, b: Books, r': seq<nat>, m': Pages, b': Books, d: nat, v: nat, p: nat) {
    && p < |r| == |m.refs| && r' == r[p := Decremented(r[p])]
    && b' == b.(free := if r[p] == 1 then [p] + b.free else b.free, maps := b.maps - {Place(d, v)})
    && FreeList(m'.link, m'.head, b'.free, m'.numFree)
    && if Place(d, v) in b.maps then b.maps[Place(d, v)] == p && 0 < m.refs[p] && m'.refs == m.refs[p := m.refs[p] - 1]
       else m'.refs == m.refs
  }

  /** What is mapped at `v` was inserted there and is not overused. */
  ghost predicate Removable(m: Pages, b: Books, d: nat, v: nat)
    requires Shape(m.words) && d < |m.words| && v < VPAGES
  {
    Translate(m.words, d, v).Mapped? ==>
      Place(d, v) in b.maps && b.maps[Place(d, v)] < |m.refs| && !Overused(m.refs[b.maps[Place(d, v)]])
  }

  /** There is one table more only if the page had none, and that is the first free page. */
  ghost predicate TabsAfter(b: Books, b': Books, d: nat, v: nat) {
    var slot := Slot(d, v / ENTRIES);
    if slot in b.tabs then b'.tabs == b.tabs else b.free != [] && b'.tabs == b.tabs[slot := b.free[0]]
  }

  /** The page is inserted at this address. */
  ghost predicate IsAt(b: Books, d: nat, v: nat, p: nat) {
    Place(d, v) in b.maps && b.maps[Place(d, v)] == p
  }

  /** The same when `pp` has been counted once more. */
  ghost predicate Replaceable(m: Pages, b: Books, d: nat, v: nat, pp: nat)
    requires Shape(m.words) && d < |m.words| && v < VPAGES
  {
    Translate(m.words, d, v).Mapped? ==>
      Place(d, v) in b.maps && b.maps[Place(d, v)] < |m.refs|
      && !Overused(m.refs[b.maps[Place(d, v)]] + One(b.maps[Place(d, v)] == pp))
  }

  /** A page with count 1 is not on the free list. */
  lemma NoOverlap(r: seq<nat>, m: Pages, b: Books, reserved: set<nat>, hold: int)
    requires Sound(m, b, reserved, hold) && RefsOk(r, m.refs)
    ensures |r| == |m.refs| == |m.link| == |m.words| && FreeList(m.link, m.head, b.free, m.numFree)
    ensures Counted(m.refs, b.tabs, b.maps, reserved, hold) && TabsOk(m.words, b.dirs, b.tabs)
    ensures forall p: nat :: p < |r| && r[p] == 1 ==> p !in b.free
  {
    hide Counted, TabsOk, FreeList;
  }

  lemma RemovalStart(r: seq<nat>, m: Pages, b: Books, reserved: set<nat>, hold: int, d: nat, v: nat)
    requires Sound(m, b, reserved, hold) && RefsOk(r, m.refs) && d in b.dirs && d < |m.words| && Shape(m.words) &&
             v < VPAGES
    ensures |r| == |m.refs| == |m.link| == |m.words| && FreeList(m.link, m.head, b.free, m.numFree)
    ensures Counted(m.refs, b.tabs, b.maps, reserved, hold) && TabsOk(m.words, b.dirs, b.tabs)
    ensures forall p: nat :: p < |r| && r[p] == 1 ==> p !in b.free
    ensures Place(d, v) in b.maps ==>
              && Translate(m.words, d, v).Mapped? && Translate(m.words, d, v).page == b.maps[Place(d, v)] < |m.refs|
              && m.refs[b.maps[Place(d, v)]] > 0
    ensures Translate(m.words, d, v) == Unmapped ==>
              Remapped(m.words, m.words, b.dirs, d, v, Unmapped) && Removable(m, b, d, v)
  {
    NoOverlap(r, m, b, reserved, hold);
    PlaceMapped(m, b, reserved, hold, d, v);
    if Place(d, v) in b.maps {
      PlaceUsed(m, b, reserved, hold, d, v);
    }
  }

  lemma RemovalDone(r: seq<nat>, m: Pages, r': seq<nat>, m': Pages, b: Books, b': Books, d: nat, v: nat, p: nat)
    requires p < |r| == |m.refs| && r' == r[p := Decremented(r[p])] && FreeList(m'.link, m'.head, b'.free, m'.numFree)
    requires b' == b.(free := if r[p] == 1 then [p] + b.free else b.free, maps := b.maps - {Place(d, v)})
    requires if Place(d, v) in b.maps then b.maps[Place(d, v)] == p && 0 < m.refs[p] &&
             m'.refs == m.refs[p := m.refs[p] - 1]
             else m'.refs == m.refs
    ensures Removed(r, m, b, r', m', b', d, v, p)
  {
    hide FreeList;
  }

  /** Whatever is removed: what holds afterwards, and when all is well. */
  lemma RemovalResult(r: seq<nat>, m: Pages, r': seq<nat>, m': Pages, b: Books, b': Books, reserved: set<nat>,
                      hold: int, d: nat, v: nat, p: nat)
    requires Sound(m, b, reserved, hold) && RefsOk(r, m.refs) && Removed(r, m, b, r', m', b', d, v, p) &&
             |m'.link| == |m.link|
    requires d in b.dirs && d < |m.words| && Shape(m.words) && v < VPAGES && Slot(d, v / ENTRIES) in b.tabs
    requires Translate(m.words, d, v).Mapped?
    requires var t := b.tabs[Slot(d, v / ENTRIES)]; t < |m.words| && m'.words == Put(m.words, t, v % ENTRIES, 0)
    ensures Remapped(m.words, m'.words, b.dirs, d, v, Unmapped) && TabsOk(m'.words, b.dirs, b.tabs)
    ensures Counted(m'.refs, b'.tabs, b'.maps, reserved, hold)
    ensures Removable(m, b, d, v) ==> Sound(m', b', reserved, hold) && RefsOk(r', m'.refs)
    ensures !Removable(m, b, d, v) ==> Spoilt(r', m'.refs, b'.free)
  {
    hide Sound, RefsOk, Counted, TabsOk, FreeList, Remapped, Spoilt, Overused, Decremented, Translate, Put, Shape;
    RemovalRemaps(m, m', b, reserved, hold, d, v);
    if Place(d, v) !in b.maps {
      StaticRemoval(r, m, r', b, b', reserved, hold, d, v, p);
    } else if Overused(m.refs[p]) {
      OverusedRemoval(r, m, r', m', b, b', reserved, hold, d, v, p);
    } else {
      Removal(r, m, r', m', b, b', reserved, hold, d, v);
    }
  }

  lemma RemovalRemaps(m: Pages, m': Pages, b: Books, reserved: set<nat>, hold: int, d: nat, v: nat)
    requires Sound(m, b, reserved, hold) && d in b.dirs && v < VPAGES && Slot(d, v / ENTRIES) in b.tabs
    requires var t := b.tabs[Slot(d, v / ENTRIES)]; t < |m.words| && m'.words == Put(m.words, t, v % ENTRIES, 0)
    ensures Remapped(m.words, m'.words, b.dirs, d, v, Unmapped) && TabsOk(m'.words, b.dirs, b.tabs)
  {
    hide FreeList, Counted, TabsOk, FreeApart, Translate, NoDirectory;
    WriteRemaps(m, b, d, v, 0);
  }

  /** A mapping that was never counted: afterwards the count is wrong. */
  lemma StaticRemoval(r: seq<nat>, m: Pages, r': seq<nat>, b: Books, b': Books, reserved: set<nat>, hold: int, d: nat,
                      v: nat, p: nat)
    requires Sound(m, b, reserved, hold) && RefsOk(r, m.refs) && p < |r| && r' == r[p := Decremented(r[p])]
    requires Place(d, v) !in b.maps && b'.maps == b.maps - {Place(d, v)} && b'.tabs == b.tabs
    ensures Spoilt(r', m.refs, b'.free) && Counted(m.refs, b'.tabs, b'.maps, reserved, hold)
  {
    assert b'.maps == b.maps;
    hide Sound;
    assert Wrong(r'[p], m.refs[p], p in b'.free);
  }

  /** An overused page: afterwards it is on the free list while still in use. */
  lemma OverusedRemoval(r: seq<nat>, m: Pages, r': seq<nat>, m': Pages, b: Books, b': Books, reserved: set<nat>,
                        hold: int, d: nat, v: nat, p: nat)
    requires Sound(m, b, reserved, hold) && Place(d, v) in b.maps && b.maps[Place(d, v)] == p &&
             p < |r| == |m.refs| == |r'|
    requires RefsOk(r, m.refs) && Overused(m.refs[p]) && m'.refs == m.refs[p := m.refs[p] - 1]
    requires b'.free == (if r[p] == 1 then [p] + b.free else b.free) && b'.maps == b.maps - {Place(d, v)} &&
             b'.tabs == b.tabs
    ensures Spoilt(r', m'.refs, b'.free) && Counted(m'.refs, b'.tabs, b'.maps, reserved, hold)
  {
    CountUnmap(m.refs, b.tabs, b.maps, reserved, hold, Place(d, v));
    hide Sound, Counted;
    assert Wrong(r'[p], m'.refs[p], p in b'.free);
  }

  lemma Removal(r: seq<nat>, m: Pages, r': seq<nat>, m': Pages, b: Books, b': Books, reserved: set<nat>, hold: int,
                d: nat, v: nat)
    requires Sound(m, b, reserved, hold) && Place(d, v) in b.maps && Slot(d, v / ENTRIES) in b.tabs && RefsOk(r, m.refs)
    requires var p, t := b.maps[Place(d, v)], b.tabs[Slot(d, v / ENTRIES)];
             && Removed(r, m, b, r', m', b', d, v, p) && !Overused(m.refs[p]) && |m'.link| == |m.link|
             && t < |m.words| && m'.words == Put(m.words, t, v % ENTRIES, 0)
    ensures Sound(m', b', reserved, hold) && RefsOk(r', m'.refs) && Counted(m'.refs, b'.tabs, b'.maps, reserved, hold)
  {
    var p := b.maps[Place(d, v)];
    FirstUse(m.refs[p]);
    OneUseLess(r, m.refs, p);
    hide RefsOk, FreeList;
    UnmapSound(m, m', b, reserved, hold, d, v);
    hide TabsOk, MapsOk, Counted, FreeApart, MapsApart;
  }

  lemma FirstUse(u: nat)
    requires u > 0 && !Overused(u)
    ensures u % REF_LIMIT == 1 <==> u == 1
  {
  }

  /** The entry has been written for the page that is held, whatever came before. */
  lemma Insertion(m: Pages, m': Pages, b: Books, reserved: set<nat>, d: nat, v: nat, p: nat, perm: nat)
    requires TabsOk(m.words, b.dirs, b.tabs) && d in b.dirs && v < VPAGES && Slot(d, v / ENTRIES) in b.tabs &&
             perm < FRAME
    requires Counted(m.refs, b.tabs, b.maps, reserved, p) && Place(d, v) !in b.maps
    requires b.tabs[Slot(d, v / ENTRIES)] < |m.words| &&
             m' == Written(m, b.tabs[Slot(d, v / ENTRIES)], v, Entry(p, perm))
    ensures Remapped(m.words, m'.words, b.dirs, d, v, Mapped(p, WithPresent(perm)))
    ensures Counted(m'.refs, b.tabs, b.maps[Place(d, v) := p], reserved, NULL)
  {
    WriteRemaps(m, b, d, v, Entry(p, perm));
    DecodeEntry(p, perm);
    hide TabsOk, Counted, Entry, Decode, Translate;
    CountMap(m.refs, b.tabs, b.maps, reserved, Place(d, v), p);
  }

  /** Removing after counting is replacing. */
  lemma HeldRemovable(m: Pages, b: Books, reserved: set<nat>, d: nat, v: nat, pp: nat)
    requires Sound(m, b, reserved, NULL) && d in b.dirs && d < |m.words| && Shape(m.words) && v < VPAGES &&
             pp < |m.refs|
    ensures Removable(Held(m, pp), b, d, v) <==> Replaceable(m, b, d, v, pp)
    ensures Translate(m.words, d, v) == Unmapped ==> Replaceable(m, b, d, v, pp)
    ensures Place(d, v) in b.maps ==> b.maps[Place(d, v)] < |m.refs| && 0 < m.refs[b.maps[Place(d, v)]]
    ensures Place(d, v) in b.maps ==>
              Translate(m.words, d, v).Mapped? && Translate(m.words, d, v).page == b.maps[Place(d, v)]
  {
    hide Overused, Sound, Translate;
    PlaceMapped(m, b, reserved, NULL, d, v);
    if Place(d, v) in b.maps {
      PlaceUsed(m, b, reserved, NULL, d, v);
    }
  }

  lemma RemovedBook(r: seq<nat>, m: Pages, b: Books, r': seq<nat>, m': Pages, b': Books, d: nat, v: nat, p: nat)
    requires Removed(r, m, b, r', m', b', d, v, p)
    ensures b' == b.(free := b'.free, maps := b.maps - {Place(d, v)})
  {
  }

  lemma RemovedSize(r: seq<nat>, m: Pages, b: Books, r': seq<nat>, m': Pages, b': Books, d: nat, v: nat, p: nat)
    requires Removed(r, m, b, r', m', b', d, v, p)
    ensures |m'.refs| == |m.refs|
  {
  }

  lemma SameSize(words: Words, words': Words, dirs: set<nat>, d: nat, v: nat)
    requires Remapped(words, words', dirs, d, v, Unmapped)
    ensures |words| == |words'|
  {
  }

  /** What an insertion does to the counts where another page, or the same, was inserted: one
      has a use more, the other a use less, and it is given back if it has none. */
  ghost predicate Swapped(m: Pages, b: Books, refs: seq<nat>, b': Books, d: nat, v: nat, pp: nat) {
    && Place(d, v) in b.maps && b.maps[Place(d, v)] < |m.refs| && pp < |m.refs|
    && var q := b.maps[Place(d, v)];
       var held := m.refs[pp := m.refs[pp] + 1];
    && held[q] > 0 && refs == held[q := held[q] - 1]
    && b' == b.(free := if held[q] == 1 then [q] + b.free else b.free, maps := b.maps[Place(d, v) := pp])
  }

  lemma SwapCounts(r: seq<nat>, m: Pages, b: Books, r': seq<nat>, m': Pages, b': Books, reserved: set<nat>, d: nat,
                   v: nat,
                   pp: nat)
    requires Shape(m.words) && d < |m.words| && v < VPAGES && Translate(m.words, d, v).Mapped? && pp < |m.refs|
    requires Replaceable(m, b, d, v, pp) && RefsOk(r, Held(m, pp).refs)
    requires Removed(r, Held(m, pp), b, r', m', b', d, v, Translate(m.words, d, v).page)
    ensures Swapped(m, b, m'.refs, b'.(maps := b'.maps[Place(d, v) := pp]), d, v, pp)
    ensures IsAt(b, d, v, pp) && m.refs[pp] > 0 ==> m'.refs == m.refs && b'.free == b.free
  {
    hide Translate, FreeList;
    var q := b.maps[Place(d, v)];
    FirstUse(m.refs[q] + One(q == pp));
    hide Overused;
    BackAgain(b.maps, Place(d, v), pp);
  }

  /** A page that is neither free nor used for anything. */
  ghost predicate Unclaimed(m: Pages, b: Books, p: int) {
    && 0 <= p < |m.refs| == |m.words| && m.refs[p] == 0 && p !in b.free && p !in b.dirs && NoDirectory(b.tabs, p)
    && forall k :: k in b.tabs ==> b.tabs[k] != p
  }

  lemma NewTableSound(m: Pages, b: Books, reserved: set<nat>, d: nat, i: nat, p: nat)
    requires Sound(m, b, reserved, NULL) && Unclaimed(m, b, p) && Blank(m.words[p])
    requires d in b.dirs && d < |m.words| && i < ENTRIES == |m.words[d]| && !Present(m.words[d][i])
    ensures var m' := Hung(Held(m, p), d, i, p);
            Sound(m', b.(tabs := b.tabs[Slot(d, i) := p]), reserved, NULL) && SameTranslation(m.words, m'.words, b.dirs)
  {
    HoldSound(m, b, reserved, p);
    hide Sound, NoDirectory, Blank, SameTranslation;
    HangSound(Held(m, p), b, reserved, d, i, p);
  }

  /** What an insertion where nothing was inserted does to the counts: the page has one
      use more, and the table, if it is new, has its first. */
  ghost predicate Inserted(m: Pages, b: Books, m': Pages, b': Books, d: nat, v: nat, p: nat) {
    var slot := Slot(d, v / ENTRIES);
    && p < |m.refs|
    && if slot in b.tabs then
         m'.refs == m.refs[p := m.refs[p] + 1] && b' == b.(maps := b.maps[Place(d, v) := p])
       else
         && b.free != [] && b.free[0] < |m.refs|
         && m'.refs == m.refs[b.free[0] := 1][p := m.refs[p] + 1]
         && b' == b.(free := b.free[1..], tabs := b.tabs[slot := b.free[0]], maps := b.maps[Place(d, v) := p])
  }

  lemma FreeIsEmpty(m: Pages, b: Books, reserved: set<nat>)
    requires Sound(m, b, reserved, NULL)
    ensures m.head == NULL <==> b.free == []
    ensures |m.refs| == |m.link| == |m.words| && Shape(m.words)
    ensures SameTranslation(m.words, m.words, b.dirs)
  {
  }

  /** A directory slot has a table exactly when it is present, and then that one. */
  lemma SlotPresent(m: Pages, b: Books, reserved: set<nat>, hold: int, d: nat, i: nat)
    requires Sound(m, b, reserved, hold) && d in b.dirs && i < ENTRIES
    ensures d < |m.words| && |m.words[d]| == ENTRIES && |m.refs| == |m.words|
    ensures Present(m.words[d][i]) <==> Slot(d, i) in b.tabs
    ensures Present(m.words[d][i]) ==> PageOf(m.words[d][i]) == b.tabs[Slot(d, i)] < |m.words|
    ensures SameTranslation(m.words, m.words, b.dirs)
  {
    if Slot(d, i) in b.tabs {
      assert TabOk(m.words, b.dirs, Slot(d, i), b.tabs[Slot(d, i)]);
    }
  }

  /** An inserted page is mapped. */
  lemma PlaceMapped(m: Pages, b: Books, reserved: set<nat>, hold: int, d: nat, v: nat)
    requires Sound(m, b, reserved, hold) && d < |m.words| && Shape(m.words) && v < VPAGES
    ensures Place(d, v) in b.maps ==>
              && Slot(d, v / ENTRIES) in b.tabs
              && Translate(m.words, d, v).Mapped? && Translate(m.words, d, v).page == b.maps[Place(d, v)] < |m.words|
    ensures Translate(m.words, d, v) == Unmapped ==> Remapped(m.words, m.words, b.dirs, d, v, Unmapped)
  {
    if Place(d, v) in b.maps {
      assert MapOk(m.words, b.dirs, Place(d, v), b.maps[Place(d, v)]);
    }
  }

  /** Without a table nothing is mapped. */
  lemma SlotMapped(m: Pages, b: Books, reserved: set<nat>, hold: int, d: nat, v: nat)
    requires Sound(m, b, reserved, hold) && d in b.dirs && d < |m.words| && Shape(m.words) && v < VPAGES
    ensures Translate(m.words, d, v).Mapped? ==> Slot(d, v / ENTRIES) in b.tabs
    ensures Place(d, v) in b.maps ==> Translate(m.words, d, v).Mapped?
  {
    SlotPresent(m, b, reserved, hold, d, v / ENTRIES);
    PlaceMapped(m, b, reserved, hold, d, v);
  }

  lemma ShapeAt(words: Words, dirs: set<nat>, tabs: map<Slot, nat>, t: nat)
    requires TabsOk(words, dirs, tabs) && t < |words|
    ensures |words[t]| == ENTRIES
  {
  }

  lemma StillNoDirectory(tabs: map<Slot, nat>, dirs: set<nat>, d: nat, i: nat, p: nat, t: nat)
    requires NoDirectory(tabs, p) && d in dirs && p !in dirs
    ensures NoDirectory(tabs[Slot(d, i) := t], p)
  {
  }

  lemma SameAt(words: Words, words': Words, dirs: set<nat>, d: nat, v: nat)
    requires SameTranslation(words, words', dirs) && d in dirs && d < |words| && v < VPAGES
    ensures Shape(words) && Shape(words') && |words| == |words'| && Translate(words', d, v) == Translate(words, d, v)
  {
  }

  lemma FirstSame(words: Words, words': Words, words'': Words, dirs: set<nat>, d: nat, v: nat, m: Mapping)
    requires SameTranslation(words, words', dirs) && Remapped(words', words'', dirs, d, v, m)
    ensures Remapped(words, words'', dirs, d, v, m)
  {
    hide Translate;
  }

  lemma LastCounts(words: Words, words': Words, words'': Words, dirs: set<nat>, d: nat, v: nat, m: Mapping, m': Mapping)
    requires Remapped(words', words'', dirs, d, v, m')
    requires Remapped(words, words', dirs, d, v, m) || words == words'
    ensures Remapped(words, words'', dirs, d, v, m')
  {
    hide Translate;
  }

  /** The entry in the table is what the page translates to. */
  lemma EntryMapped(m: Pages, b: Books, reserved: set<nat>, hold: int, d: nat, v: nat)
    requires Sound(m, b, reserved, hold) && d in b.dirs && v < VPAGES && Slot(d, v / ENTRIES) in b.tabs
    ensures d < |m.words| == |m.refs| && Shape(m.words) && b.tabs[Slot(d, v / ENTRIES)] < |m.words|
    ensures |m.words[b.tabs[Slot(d, v / ENTRIES)]]| == ENTRIES
    ensures Present(m.words[b.tabs[Slot(d, v / ENTRIES)]][v % ENTRIES]) <==> Translate(m.words, d, v).Mapped?
    ensures Place(d, v) in b.maps ==> Translate(m.words, d, v).Mapped?
  {
    SlotPresent(m, b, reserved, hold, d, v / ENTRIES);
    if Place(d, v) in b.maps {
      assert MapOk(m.words, b.dirs, Place(d, v), b.maps[Place(d, v)]);
    }
  }

  lemma BackAgain(maps: map<Place, nat>, k: Place, p: nat)
    ensures (maps - {k})[k := p] == maps[k := p]
    ensures k in maps && maps[k] == p ==> (maps - {k})[k := p] == maps
  {
  }

}
