/** Freeing a task's memory, and its whole life. */
module TaskFree {
  import opened PageTables
  import opened PageCounts
  import opened PageModel
  import opened PageMemory
  import opened TaskMemory
  import opened TaskLife

  /** What is inserted into the address space is the stack from `v` on. */
  ghost predicate StackFrom(b: Books, d: nat, v: nat, end: nat) {
    forall u: nat :: Place(d, u) in b.maps <==> v <= u < end
  }

  /** The slots of `d` from `i` on that are present, and no others, hold tables in use. */
  ghost predicate SlotsFrom(words: Words, b: Books, d: nat, i: nat)
    requires Shape(words) && d < |words|
  {
    && (forall j: nat :: Slot(d, j) in b.tabs <==> i <= j < ENTRIES && Present(words[d][j]))
    && (forall j: nat :: Slot(d, j) in b.tabs ==> PageOf(words[d][j]) == b.tabs[Slot(d, j)])
  }

  /** Remove one stack page, if it is there; as it has no other use, it is given back. */
  method FreeStackPage(mem: Memory, d: nat, v: nat, ghost end: nat, ghost top: nat, ghost b0: Books)
    requires mem.Valid(NULL) && d in mem.book.dirs && Private(mem.Now(), mem.book, d) && v < top <= VPAGES && end <= top
    requires StackFrom(mem.book, d, v, end) && Conserved(b0, mem.book, d) && d !in mem.book.free
    requires Vacant(mem.words, d, end, top)
    modifies mem
    ensures mem.Valid(NULL) && Private(mem.Now(), mem.book, d) && mem.book.dirs == old(mem.book.dirs) &&
            d !in mem.book.free
    ensures StackFrom(mem.book, d, v + 1, end) && Conserved(b0, mem.book, d)
    ensures Shape(old(mem.words)) && Remapped(old(mem.words), mem.words, mem.book.dirs, d, v, Unmapped)
    ensures Vacant(mem.words, d, end, top)
  {
    hide Sound, Conserved, Remapped, Translate, StackFrom, RefsOk, Removable, Spoilt, Counted, TabsOk, FreeList,
         Vacant, Private;
    ghost var m, b := mem.Now(), mem.book;
    if v < end {
      StackHere(mem.refs, m, b, mem.reserved, d, v, end);
    } else {
      NoStackHere(m, b, d, v, end, top);
    }
    mem.PageRemove(d, v, NULL);
    if v < end {
      assert mem.book.free == [b.maps[Place(d, v)]] + b.free;
      UnmapConserved(m, b, mem.Now(), mem.book, mem.reserved, d, v);
      ConservedTwice(b0, b, mem.book, d);
      StackOneLess(b, mem.book, d, v, end);
    }
    StillVacant(m.words, mem.words, mem.book.dirs, d, v, end, top);
  }

  /** A page above the stack is not mapped. */
  lemma NoStackHere(m: Pages, b: Books, d: nat, v: nat, end: nat, top: nat)
    requires Vacant(m.words, d, end, top) && end <= v < top && StackFrom(b, d, v, end)
    ensures Shape(m.words) && d < |m.words| && v < VPAGES && Translate(m.words, d, v) == Unmapped
    ensures Removable(m, b, d, v) && StackFrom(b, d, v + 1, end)
  {
  }

  lemma StillVacant(words: Words, words': Words, dirs: set<nat>, d: nat, v: nat, end: nat, top: nat)
    requires Vacant(words, d, end, top) && Remapped(words, words', dirs, d, v, Unmapped) && d in dirs
    ensures Vacant(words', d, end, top)
  {
    hide Translate;
  }

  lemma StackHere(r: seq<nat>, m: Pages, b: Books, reserved: set<nat>, d: nat, v: nat, end: nat)
    requires Sound(m, b, reserved, NULL) && RefsOk(r, m.refs) && Private(m, b, d) && d in b.dirs &&
             v < end <= VPAGES && StackFrom(b, d, v, end)
    ensures Place(d, v) in b.maps && d < |m.words| && Shape(m.words) && b.maps[Place(d, v)] != d
    ensures var p := b.maps[Place(d, v)];
            m.refs[p] == 1 && r[p] == 1 && Translate(m.words, d, v).Mapped? &&
            Translate(m.words, d, v).page == p < |m.words|
    ensures Removable(m, b, d, v)
    ensures d < |m.words| && v < VPAGES
  {
    assert MapOk(m.words, b.dirs, Place(d, v), b.maps[Place(d, v)]);
  }

  lemma StackOneLess(b: Books, b': Books, d: nat, v: nat, end: nat)
    requires StackFrom(b, d, v, end) && v < end && b'.maps == b.maps - {Place(d, v)}
    ensures StackFrom(b', d, v + 1, end)
  {
  }

  /** Drop the table of one directory slot, if there is one; as it has no other use, it
      is given back. */
  method FreeTable(mem: Memory, d: nat, i: nat, ghost b0: Books)
    requires mem.Valid(NULL) && d !in mem.book.dirs && Private(mem.Now(), mem.book, d) && i < ENTRIES
    requires Shape(mem.words) && d < |mem.words| && SlotsFrom(mem.words, mem.book, d, i) && d !in mem.book.free
    requires Conserved(b0, mem.book, d)
    modifies mem
    ensures mem.Valid(NULL) && Private(mem.Now(), mem.book, d) && mem.words == old(mem.words) && d !in mem.book.free
    ensures SlotsFrom(mem.words, mem.book, d, i + 1) && Conserved(b0, mem.book, d)
    ensures mem.book.dirs == old(mem.book.dirs) && mem.book.maps == old(mem.book.maps)
  {
    hide Sound, Conserved, FreeList, Counted, TabsOk, Private, SlotsFrom, RefsOk, Decremented;
    NoOverlap(mem.refs, mem.Now(), mem.book, mem.reserved, NULL);
    ghost var m, b, r := mem.Now(), mem.book, mem.refs;
    SlotHere(mem.words, b, d, i);
    var pde := mem.words[d][i];
    if Present(pde) {
      var t := PageOf(pde);
      TableHere(r, m, b, mem.reserved, Slot(d, i));
      mem.PageDecref(t);
      mem.uses := mem.uses[t := mem.uses[t] - 1];
      mem.book := b.(free := [t] + b.free, tabs := b.tabs - {Slot(d, i)});
      TableFreed(r, m, mem.refs, mem.Now(), b, mem.reserved, Slot(d, i), b0);
    }
    SlotDone(mem.words, b, mem.book, d, i);
  }

  lemma SlotHere(words: Words, b: Books, d: nat, i: nat)
    requires Shape(words) && d < |words| && SlotsFrom(words, b, d, i) && i < ENTRIES
    ensures |words[d]| == ENTRIES && (Present(words[d][i]) <==> Slot(d, i) in b.tabs)
    ensures Present(words[d][i]) ==> PageOf(words[d][i]) == b.tabs[Slot(d, i)]
  {
  }

  lemma SlotDone(words: Words, b: Books, b': Books, d: nat, i: nat)
    requires Shape(words) && d < |words| && SlotsFrom(words, b, d, i) && i < ENTRIES
    requires b'.tabs == b.tabs - {Slot(d, i)} || (b' == b && Slot(d, i) !in b.tabs)
    ensures SlotsFrom(words, b', d, i + 1)
  {
  }

  lemma TableHere(r: seq<nat>, m: Pages, b: Books, reserved: set<nat>, k: Slot)
    requires Sound(m, b, reserved, NULL) && RefsOk(r, m.refs) && Private(m, b, k.d) && k in b.tabs
    ensures b.tabs[k] < |r| == |m.refs| && b.tabs[k] !in b.free && b.tabs[k] != k.d &&
            r[b.tabs[k]] == m.refs[b.tabs[k]] == 1
  {
    TableUsed(m, b, reserved, k);
  }

  lemma TableFreed(r: seq<nat>, m: Pages, r': seq<nat>, m': Pages, b: Books, reserved: set<nat>, k: Slot, b0: Books)
    requires Sound(m, b, reserved, NULL) && RefsOk(r, m.refs) && Private(m, b, k.d) && k in b.tabs && k.d !in b.dirs
    requires var t := b.tabs[k];
             && t < |r| == |m.refs| && m.refs[t] == 1 && r' == r[t := Decremented(r[t])] &&
                m'.refs == m.refs[t := m.refs[t] - 1]
             && m'.words == m.words && |m'.link| == |m.link| && FreeList(m'.link, m'.head, [t] + b.free, m'.numFree)
    requires Conserved(b0, b, k.d)
    ensures var b' := b.(free := [b.tabs[k]] + b.free, tabs := b.tabs - {k});
            && Sound(m', b', reserved, NULL) && RefsOk(r', m'.refs) && Private(m', b', k.d) && Conserved(b0, b', k.d)
  {
    hide Sound, Conserved, FreeList, Private, RefsOk, Decremented;
    OneUseLess(r, m.refs, b.tabs[k]);
    var b' := b.(free := [b.tabs[k]] + b.free, tabs := b.tabs - {k});
    UntableSound(m, m', b, reserved, k);
    UntableConserved(m, b, m', b', reserved, k);
    ConservedTwice(b0, b, b', k.d);
  }

  /** Drop all tables of a directory. */
  method PtableRemove(mem: Memory, d: nat, ghost b0: Books)
    requires mem.Valid(NULL) && d in mem.book.dirs && Private(mem.Now(), mem.book, d) && d !in mem.book.free
    requires (forall k :: k in mem.book.maps ==> k.d != d) && Conserved(b0, mem.book, d)
    modifies mem
    ensures mem.Valid(NULL) && Private(mem.Now(), mem.book, d) && mem.words == old(mem.words) && d !in mem.book.free
    ensures mem.book.dirs == old(mem.book.dirs) - {d} && mem.book.maps == old(mem.book.maps) &&
            Conserved(b0, mem.book, d)
    ensures NoDirectory(mem.book.tabs, d)
  {
    hide Sound, Conserved, Private, SlotsFrom;
    SlotsOfDirectory(mem.Now(), mem.book, mem.reserved, d);
    GiveUpSound(mem.Now(), mem.book, mem.reserved, d);
    GivenUp(mem.Now(), b0, mem.book, d);
    mem.book := mem.book.(dirs := mem.book.dirs - {d});
    var i := 0;
    while i < ENTRIES
      invariant 0 <= i <= ENTRIES && mem.Valid(NULL) && Private(mem.Now(), mem.book, d) && mem.words == old(mem.words)
      invariant Shape(mem.words) && d < |mem.words| && SlotsFrom(mem.words, mem.book, d, i) &&
                Conserved(b0, mem.book, d)
      invariant mem.book.dirs == old(mem.book.dirs) - {d} && mem.book.maps == old(mem.book.maps) && d !in mem.book.free
    {
      FreeTable(mem, d, i, b0);
      i := i + 1;
    }
    NoSlots(mem.words, mem.book, d);
  }

  lemma SlotsOfDirectory(m: Pages, b: Books, reserved: set<nat>, d: nat)
    requires Sound(m, b, reserved, NULL) && d in b.dirs
    ensures Shape(m.words) && d < |m.words| && SlotsFrom(m.words, b, d, 0) &&
            SlotsFrom(m.words, b.(dirs := b.dirs - {d}), d, 0)
  {
    hide Counted, FreeList, FreeApart, MapsOk, MapsApart;
    forall j: nat | Slot(d, j) in b.tabs ensures j < ENTRIES && Present(m.words[d][j]) &&
        PageOf(m.words[d][j]) == b.tabs[Slot(d, j)] {
      assert TabOk(m.words, b.dirs, Slot(d, j), b.tabs[Slot(d, j)]);
    }
  }

  lemma GivenUp(m: Pages, b0: Books, b: Books, d: nat)
    requires Private(m, b, d) && Conserved(b0, b, d)
    ensures Private(m, b.(dirs := b.dirs - {d}), d) && Conserved(b0, b.(dirs := b.dirs - {d}), d)
  {
    var b' := b.(dirs := b.dirs - {d});
    forall p: nat ensures Owned(b', d, p) <==> Owned(b, d, p) {
      assert IsTable(b', d, p) <==> IsTable(b, d, p);
      assert IsMapped(b', d, p) <==> IsMapped(b, d, p);
    }
  }

  lemma NoSlots(words: Words, b: Books, d: nat)
    requires Shape(words) && d < |words| && SlotsFrom(words, b, d, ENTRIES)
    ensures NoDirectory(b.tabs, d)
  {
    forall k | k in b.tabs ensures k.d != d {
      assert k == Slot(k.d, k.i);
    }
  }

  /** Give back everything that belongs to an address space whose pages have no other use:
      stack pages, page tables and the directory, each exactly once, and nothing else.
      The other address spaces translate as before.  Stack pages from `end` on may be
      missing. */
  method FreeTask(mem: Memory, d: nat, first: nat, ghost end: nat)
    requires mem.Valid(NULL) && d in mem.book.dirs && d !in mem.book.free && Private(mem.Now(), mem.book, d)
    requires end <= first + STACK_PAGES <= VPAGES && StackFrom(mem.book, d, first, end)
    requires Vacant(mem.words, d, end, first + STACK_PAGES)
    modifies mem
    ensures mem.Valid(NULL) && mem.book.dirs == old(mem.book.dirs) - {d}
    ensures forall p: nat :: p in mem.book.free <==> p in old(mem.book.free) || Owned(old(mem.book), d, p)
    ensures SameTranslation(old(mem.words), mem.words, mem.book.dirs)
  {
    hide Sound, Conserved, Private, StackFrom, SameTranslation, Remapped, Translate, Owned, NoDirectory, RefsOk,
         FreeList;
    ghost var w0, b0 := mem.words, mem.book;
    ConservedNot(b0, d);
    FreeIsEmpty(mem.Now(), mem.book, mem.reserved);
    StartSame(w0, b0.dirs, d);
    var v := first;
    while v < first + STACK_PAGES
      invariant first <= v <= first + STACK_PAGES && mem.Valid(NULL) && Private(mem.Now(), mem.book, d)
      invariant mem.book.dirs == b0.dirs && d !in mem.book.free
      invariant StackFrom(mem.book, d, v, end) && Conserved(b0, mem.book, d)
      invariant SameTranslation(w0, mem.words, b0.dirs - {d}) && Vacant(mem.words, d, end, first + STACK_PAGES)
    {
      ghost var w1 := mem.words;
      FreeStackPage(mem, d, v, end, first + STACK_PAGES, b0);
      OtherSame(w0, w1, mem.words, b0.dirs, d, v);
      v := v + 1;
    }
    NoStack(mem.book, d, v, end);
    PtableRemove(mem, d, b0);
    DirectoryLast(mem.refs, mem.Now(), b0, mem.book, mem.reserved, d);
    ghost var m := mem.Now();
    mem.PageFree(d);
    FreeSound(m, mem.Now(), mem.book, mem.reserved, NULL, d);
    mem.book := mem.book.(free := [d] + mem.book.free);
  }

  lemma ConservedNot(b: Books, d: nat)
    ensures Conserved(b, b, d)
  {
  }

  lemma StartSame(words: Words, dirs: set<nat>, d: nat)
    requires Shape(words)
    ensures SameTranslation(words, words, dirs - {d})
  {
  }

  lemma OtherSame(words: Words, words': Words, words'': Words, dirs: set<nat>, d: nat, v: nat)
    requires SameTranslation(words, words', dirs - {d}) && Remapped(words', words'', dirs, d, v, Unmapped)
    ensures SameTranslation(words, words'', dirs - {d})
  {
    hide Translate;
  }

  lemma NoStack(b: Books, d: nat, v: nat, end: nat)
    requires StackFrom(b, d, v, end) && end <= v
    ensures forall k :: k in b.maps ==> k.d != d
  {
    forall k | k in b.maps ensures k.d != d {
      assert k == Place(k.d, k.v);
    }
  }

  /** When tables and stack are gone only the directory is left to be given back. */
  lemma DirectoryLast(r: seq<nat>, m: Pages, b0: Books, b: Books, reserved: set<nat>, d: nat)
    requires Sound(m, b, reserved, NULL) && RefsOk(r, m.refs) && Private(m, b, d) && Conserved(b0, b, d) && d !in b.free
    requires NoDirectory(b.tabs, d) && forall k :: k in b.maps ==> k.d != d
    ensures d < |r| == |m.refs| == |m.link| && r[d] == m.refs[d] == 0 && m.link[d] == NULL
    ensures FreeList(m.link, m.head, b.free, m.numFree)
    ensures forall p: nat :: p in [d] + b.free <==> p in b0.free || Owned(b0, d, p)
  {
    hide Counted, TabsOk, MapsOk, MapsApart, FreeApart;
    forall p: nat ensures p in [d] + b.free <==> p in b0.free || Owned(b0, d, p) {
      assert Owned(b, d, p) <==> p == d;
      assert p in b.free || Owned(b, d, p) <==> p in b0.free || Owned(b0, d, p);
    }
  }

  // ----- the whole life -----

  /** What a task needs with its user regions: a directory, a table for every slot of the
      kernel regions, the stack and the user regions, and the stack itself. */
  ghost function NeedAll(kernel: seq<Region>, user: seq<Region>, first: nat): nat {
    1 + |Touched(kernel) + Span(first, STACK_PAGES) + Touched(user)| + STACK_PAGES
  }

  lemma NeedsAll(kernel: seq<Region>, user: seq<Region>, first: nat)
    ensures Need(kernel, first) <= NeedAll(kernel, user, first)
  {
    hide Touched, Span;
    Smaller(Touched(kernel) + Span(first, STACK_PAGES), Touched(kernel) + Span(first, STACK_PAGES) + Touched(user));
  }

  /** The tables for the first `i` user regions have been taken, too. */
  ghost predicate UserPaid(b: Books, b0: Books, d: nat, kernel: seq<Region>, user: seq<Region>, first: nat, i: nat)
    requires i <= |user|
  {
    Paid(b, b0, d, STACK_PAGES) && Tables(b, d) == Touched(kernel) + Span(first, STACK_PAGES) + Touched(user[..i])
  }

  lemma UserStart(b: Books, b0: Books, d: nat, kernel: seq<Region>, user: seq<Region>, first: nat)
    requires StackPaid(b, b0, d, kernel, first, first + STACK_PAGES)
    ensures UserPaid(b, b0, d, kernel, user, first, 0)
  {
    hide Span, Tables, Supply;
    TouchedNone(user[..0]);
  }

  lemma UserMore(b: Books, b': Books, b0: Books, d: nat, kernel: seq<Region>, user: seq<Region>, first: nat, i: nat)
    requires i < |user| && UserPaid(b, b0, d, kernel, user, first, i) && Supply(b', d) == Supply(b, d) &&
             IsTail(b'.free, b.free)
    requires Tables(b', d) == Tables(b, d) + Span(user[i].v, user[i].count)
    ensures UserPaid(b', b0, d, kernel, user, first, i + 1)
  {
    hide Span, Tables, Supply, Touched;
    TouchedMore(user, i);
    TailTwice(b'.free, b.free, b0.free);
  }

  /** If a region cannot be mapped there was not enough memory for all. */
  lemma UserFails(b: Books, b0: Books, d: nat, kernel: seq<Region>, user: seq<Region>, first: nat, i: nat)
    requires i < |user| && UserPaid(b, b0, d, kernel, user, first, i)
    requires |Tables(b, d) + Span(user[i].v, user[i].count)| > Supply(b, d)
    ensures |b0.free| < NeedAll(kernel, user, first)
  {
    hide Span, Tables, Supply, Touched;
    TouchedMore(user, i);
    TouchedPrefix(user, i + 1);
    Smaller(Tables(b, d) + Span(user[i].v, user[i].count), Touched(kernel) + Span(first, STACK_PAGES) + Touched(user));
  }

  lemma UserEnd(b: Books, b0: Books, d: nat, kernel: seq<Region>, user: seq<Region>, first: nat)
    requires UserPaid(b, b0, d, kernel, user, first, |user|)
    ensures NeedAll(kernel, user, first) <= |b0.free|
  {
    hide Span, Tables, Touched;
    assert user[..|user|] == user;
  }

  /** Create a task, map any regions outside its stack into its address space, and free
      it again.  It runs to its end if and only if there is enough memory, and then the free
      pages and their number are what they were. */
  method Lifetime(mem: Memory, kernel: seq<Region>, user: seq<Region>, first: nat) returns (complete: bool)
    requires mem.Valid(NULL) && first + STACK_PAGES <= VPAGES
    requires forall i :: 0 <= i < |kernel| ==> RegionOk(kernel[i])
    requires forall u: nat :: first <= u < first + STACK_PAGES ==> Layout(kernel, u) == Unmapped
    requires forall i :: 0 <= i < |user| ==>
               RegionOk(user[i]) && (user[i].v + user[i].count <= first || first + STACK_PAGES <= user[i].v)
    modifies mem
    ensures mem.Valid(NULL)
    ensures complete <==> NeedAll(kernel, user, first) <= |old(mem.book.free)|
    ensures !complete ==> mem.book.free == []
    ensures complete ==> forall p: nat :: p in mem.book.free <==> p in old(mem.book.free)
    ensures complete ==> mem.numFree == old(mem.numFree) && mem.book.dirs == old(mem.book.dirs)
  {
    hide Sound, Created, Private, StackUpTo, StackFrom, Owned, SameTranslation, Layout, RefsOk, TaskMapped, UserPaid,
         StackPaid, NeedAll, NeedFor, Touched, LastAlone;
    ghost var m0, b0 := mem.Now(), mem.book;
    NeedsAll(kernel, user, first);
    var ok, d;
    ok, d, complete := TaskCreate(mem, kernel, first);
    if !complete {
      return;
    }
    UserStart(mem.book, b0, d, kernel, user, first);
    var i := 0;
    while i < |user|
      invariant 0 <= i <= |user| && mem.Valid(NULL) && Created(mem.Now(), mem.book, b0, d)
      invariant StackUpTo(mem.book, d, first, first + STACK_PAGES) && UserPaid(mem.book, b0, d, kernel, user, first, i)
    {
      ghost var b := mem.book;
      complete := SetupVm(mem, d, user[i], first, b0);
      if !complete {
        UserFails(b, b0, d, kernel, user, first, i);
        return;
      }
      UserMore(b, mem.book, b0, d, kernel, user, first, i);
      i := i + 1;
    }
    UserEnd(mem.book, b0, d, kernel, user, first);
    ReadyToFree(mem.Now(), mem.book, b0, d, first);
    NoPages(mem.Now(), mem.book, mem.reserved, d, first + STACK_PAGES);
    FreeTask(mem, d, first, first + STACK_PAGES);
    complete := true;
    SameNumber(m0, b0, mem.Now(), mem.book, mem.reserved);
  }

  lemma NoPages(m: Pages, b: Books, reserved: set<nat>, d: nat, end: nat)
    requires Sound(m, b, reserved, NULL) && d in b.dirs && end <= VPAGES
    ensures Vacant(m.words, d, end, end)
  {
  }

  /** Create a task and free it at once, whenever its creation is reported as a success: all
      pages come back, except that if the last stack page was not mapped, the last page of
      the free list is lost. */
  method CreateAndFree(mem: Memory, kernel: seq<Region>, first: nat) returns (ok: bool)
    requires mem.Valid(NULL) && (forall i :: 0 <= i < |kernel| ==> RegionOk(kernel[i])) && first + STACK_PAGES <= VPAGES
    requires forall u: nat :: first <= u < first + STACK_PAGES ==> Layout(kernel, u) == Unmapped
    modifies mem
    ensures mem.Valid(NULL)
    ensures var n, need := |old(mem.book.free)|, Need(kernel, first);
            && (ok <==> n >= need || (n == need - 1 && LastAlone(kernel, first)))
            && (ok && n >= need ==> forall p: nat :: p in mem.book.free <==> p in old(mem.book.free))
            && (ok && n < need ==>
                  forall p: nat :: p in mem.book.free <==> p in old(mem.book.free) && p != LastOf(old(mem.book.free)))
    ensures ok ==> mem.book.dirs == old(mem.book.dirs)
  {
    hide Sound, Created, CreatedBut, Private, StackUpTo, StackFrom, Owned, SameTranslation, Layout, RefsOk,
         TaskMapped, StackPaid, NeedFor, Touched, LastAlone, Vacant, LastOf;
    ghost var b0 := mem.book;
    var d, complete;
    ok, d, complete := TaskCreate(mem, kernel, first);
    if !ok {
      return;
    }
    if complete {
      ReadyToFree(mem.Now(), mem.book, b0, d, first);
      NoPages(mem.Now(), mem.book, mem.reserved, d, first + STACK_PAGES);
      FreeTask(mem, d, first, first + STACK_PAGES);
    } else {
      ReadyToFreeBut(mem.Now(), mem.book, b0, d, kernel, first);
      FreeTask(mem, d, first, first + STACK_PAGES - 1);
    }
  }

  lemma ReadyToFreeBut(m: Pages, b: Books, b0: Books, d: nat, kernel: seq<Region>, first: nat)
    requires CreatedBut(m, b, b0, d, LastOf(b0.free)) && StackUpTo(b, d, first, first + STACK_PAGES - 1)
    requires TaskMapped(m.words, b, d, kernel, first, first + STACK_PAGES - 1) && first + STACK_PAGES <= VPAGES
    requires forall u: nat :: first <= u < first + STACK_PAGES ==> Layout(kernel, u) == Unmapped
    ensures d in b.dirs && d !in b.free && Private(m, b, d) && StackFrom(b, d, first, first + STACK_PAGES - 1)
    ensures b.dirs - {d} == b0.dirs && Vacant(m.words, d, first + STACK_PAGES - 1, first + STACK_PAGES)
    ensures forall p: nat :: p in b.free || Owned(b, d, p) <==> p in b0.free && p != LastOf(b0.free)
  {
    hide Private, Owned, Translate, Layout, LastOf;
  }

  /** Map a user region. */
  method SetupVm(mem: Memory, d: nat, r: Region, first: nat, ghost b0: Books) returns (ok: bool)
    requires mem.Valid(NULL) && RegionOk(r) && (r.v + r.count <= first || first + STACK_PAGES <= r.v)
    requires Created(mem.Now(), mem.book, b0, d) && StackUpTo(mem.book, d, first, first + STACK_PAGES)
    modifies mem
    ensures mem.Valid(NULL) && Created(mem.Now(), mem.book, b0, d) && StackUpTo(mem.book, d, first, first + STACK_PAGES)
    ensures ok ==> RegionMapped(old(mem.words), mem.words, mem.book.dirs, d, r.v, r.count, r.page, r.perm)
    ensures Supply(mem.book, d) == old(Supply(mem.book, d)) && (!ok ==> mem.book.free == [])
    ensures IsTail(mem.book.free, old(mem.book.free))
    ensures ok ==> Tables(mem.book, d) == old(Tables(mem.book, d)) + Span(r.v, r.count)
    ensures ok <==> |old(Tables(mem.book, d)) + Span(r.v, r.count)| <= old(Supply(mem.book, d))
  {
    CreatedDirs(mem.Now(), mem.book, b0, d);
    StackElsewhere(mem.book, d, r, first);
    hide Sound, Created, RegionMapped, StackUpTo, RefsOk, Supply, Tables, Span;
    ghost var m, b := mem.Now(), mem.book;
    ok := BootMapRegion(mem, d, r.v, r.count, r.page, r.perm);
    GrownCreated(m, b, mem.reserved, mem.Now(), mem.book, b0, d);
    SameStack(b, mem.book, d, first);
  }

  lemma StackElsewhere(b: Books, d: nat, r: Region, first: nat)
    requires StackUpTo(b, d, first, first + STACK_PAGES) && (r.v + r.count <= first || first + STACK_PAGES <= r.v)
    ensures forall k :: k in b.maps && k.d == d ==> !(r.v <= k.v < r.v + r.count)
  {
    forall k | k in b.maps && k.d == d ensures !(r.v <= k.v < r.v + r.count) {
      assert k == Place(d, k.v);
    }
  }

  lemma SameStack(b: Books, b': Books, d: nat, first: nat)
    requires StackUpTo(b, d, first, first + STACK_PAGES) && b'.maps == b.maps
    ensures StackUpTo(b', d, first, first + STACK_PAGES)
  {
  }

  lemma ReadyToFree(m: Pages, b: Books, b0: Books, d: nat, first: nat)
    requires Created(m, b, b0, d) && StackUpTo(b, d, first, first + STACK_PAGES)
    ensures d in b.dirs && d !in b.free && Private(m, b, d) && StackFrom(b, d, first, first + STACK_PAGES)
    ensures b.dirs - {d} == b0.dirs && forall p: nat :: p in b.free || Owned(b, d, p) <==> p in b0.free
  {
    hide Private, Owned;
  }

  ghost function Elements(s: seq<nat>): set<nat> {
    set p | p in s
  }

  /** The length of the free list is the number of free pages. */
  lemma SameNumber(m: Pages, b: Books, m': Pages, b': Books, reserved: set<nat>)
    requires Sound(m, b, reserved, NULL) && Sound(m', b', reserved, NULL)
    requires forall p: nat :: p in b'.free <==> p in b.free
    ensures m'.numFree == m.numFree
  {
    hide Counted, TabsOk, MapsOk, MapsApart, FreeApart;
    DistinctLength(b.free);
    DistinctLength(b'.free);
    assert Elements(b.free) == Elements(b'.free);
  }

  lemma {:induction false} DistinctLength(s: seq<nat>)
    requires Distinct(s)
    ensures |Elements(s)| == |s|
  {
    if s == [] {
      assert Elements(s) == {};
    } else {
      var m := |s| - 1;
      var rest := s[..m];
      DistinctLength(rest);
      assert s == rest + [s[m]];
      assert s[m] !in rest;
      assert Elements(s) == Elements(rest) + {s[m]};
    }
  }

  // ----- a stack page that is missing -----

  /** The first stack page of the program: ten pages below 0xeebfe000. */
  const USTACK := 0xeebfe - STACK_PAGES

  /** At the program's own stack address the last page shares its table, so that the stack
      is always complete when the program says so. */
  lemma StackShares(regions: seq<Region>)
    ensures USTACK + STACK_PAGES <= VPAGES && !LastAlone(regions, USTACK)
  {
    var u := USTACK + STACK_PAGES - 2;
    assert USTACK <= u < USTACK + (STACK_PAGES - 1) && u / ENTRIES == (USTACK + STACK_PAGES - 1) / ENTRIES;
  }

  /** A memory of 14 pages, twelve of them free, and a stack that ends with the first page of
      a table: the program reports success, and the last page of the stack is not mapped. */
  method StackPageMissing() returns (mem: Memory, ok: bool, d: int)
    ensures mem.Valid(NULL) && ok && 0 <= d < |mem.words| && Shape(mem.words)
    ensures Translate(mem.words, d, ENTRIES) == Unmapped && ENTRIES == 1015 + STACK_PAGES - 1
  {
    hide Need, LastAlone, RefsOk, Sound, TaskMapped, Created, CreatedBut, StackUpTo, StackPaid, SameTranslation,
         LastOf, Layout, Translate;
    mem := new Memory(14, 14, 0, seq(14, _ => Zeros()));
    TwelveFree(mem.Now(), mem.book, mem.reserved);
    AloneNeeds();
    NoLayout();
    var complete;
    ok, d, complete := TaskCreate(mem, [], 1015);
    MissingHere(mem.words, mem.book, d);
  }

  lemma NoLayout()
    ensures forall u: nat :: Layout([], u) == Unmapped
  {
  }

  lemma MissingHere(words: Words, b: Books, d: nat)
    requires TaskMapped(words, b, d, [], 1015, ENTRIES)
    ensures Shape(words) && d < |words| && Translate(words, d, ENTRIES) == Unmapped
  {
    hide Translate;
  }

  lemma TwelveFree(m: Pages, b: Books, reserved: set<nat>)
    requires Sound(m, b, reserved, NULL) && forall p: nat :: p in b.free <==> p < 14 && IsFree(p, 14, 0)
    ensures |b.free| == 12
  {
    FreeDistinct(m, b, reserved);
    hide Sound;
    DistinctLength(b.free);
    assert Elements(b.free) == Below(14) - {7};
  }

  lemma FreeDistinct(m: Pages, b: Books, reserved: set<nat>)
    requires Sound(m, b, reserved, NULL)
    ensures Distinct(b.free)
  {
  }

  /** The positive numbers below `n`. */
  ghost function Below(n: nat): (s: set<nat>)
    requires 1 <= n
    ensures (forall p :: p in s <==> 1 <= p < n) && |s| == n - 1
  {
    if n == 1 then {} else Below(n - 1) + {n - 1}
  }

  lemma AloneNeeds()
    ensures Need([], 1015) == 13 && LastAlone([], 1015)
  {
    assert Touched([]) == {};
    var nine, ten := Span(1015, 9), Span(1015, 10);
    assert 1015 <= 1015 < 1015 + 9 && 1015 / ENTRIES == 0;
    assert nine == {0};
    SpanMore(1015, 9);
    assert ten == {0, 1};
  }

  // ----- a static mapping that is removed -----

  /** A new address space with one static mapping: removing it leaves a wrong count. */
  method RemoveStatic() returns (mem: Memory, d: int)
    ensures Spoilt(mem.refs, mem.uses, mem.book.free)
    ensures Counted(mem.uses, mem.book.tabs, mem.book.maps, mem.reserved, NULL)
  {
    hide Sound, RefsOk, Created, SameTranslation, LaidOut, Touched, Tables, Paid, Spoilt, Counted, Remapped, Removed,
         TabsOk;
    mem := new Memory(14, 14, 0, seq(14, _ => Zeros()));
    TwelveFree(mem.Now(), mem.book, mem.reserved);
    var regions := [Region(0, 1, 5, 2)];
    OneRegion(regions);
    ghost var w0, b0 := mem.words, mem.book;
    var ok;
    d, ok := SetupKvm(mem, regions);
    CreatedDirs(mem.Now(), mem.book, b0, d);
    StaticHere(w0, mem.Now(), mem.book, b0, d, regions);
    mem.PageRemove(d, 0, NULL);
  }

  lemma OneRegion(regions: seq<Region>)
    requires regions == [Region(0, 1, 5, 2)]
    ensures RegionOk(regions[0]) && |Touched(regions)| == 1 && Layout(regions, 0) == Mapped(5, WithPresent(2))
  {
    assert regions[..0] == [];
    TouchedMore(regions, 0);
    assert regions[..1] == regions;
    SpanNone(0);
    SpanMore(0, 0);
    assert Touched(regions) == {0};
  }

  lemma StaticHere(w0: Words, m: Pages, b: Books, b0: Books, d: nat, regions: seq<Region>)
    requires LaidOut(m.words, d, regions) && SameTranslation(w0, m.words, b0.dirs) && |w0| == 14
    requires Layout(regions, 0) == Mapped(5, WithPresent(2)) && forall k :: k in b.maps ==> k.d != d
    ensures Shape(m.words) && d < |m.words| == 14 && Translate(m.words, d, 0) == Mapped(5, WithPresent(2))
    ensures !Removable(m, b, d, 0)
  {
    hide Translate, Layout, WithPresent;
    assert Place(d, 0).d == d;
  }
}
