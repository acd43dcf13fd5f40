/** Whole runs of page operations on a part of an address space: what any sequence of mapping
    a new page, mapping a page that is mapped already at a second address, and unmapping does
    follows from the table of mappings, the free list, the slots with tables and the numbers
    of uses. */
module PageRuns {
  import opened PageTables
  import opened PageCounts
  import opened PageModel
  import opened PageMemory
  import opened TaskMemory

  /** Map a new page at `v`; map at `v` the page that is at `u`; unmap `v`. */
  datatype Op = Fresh(v: nat, perm: nat) | Share(u: nat, v: nat, perm: nat) | Drop(v: nat)

  predicate OpOk(op: Op, lo: nat, hi: nat) {
    lo <= op.v < hi && (op.Share? ==> lo <= op.u < hi) && (!op.Drop? ==> op.perm < FRAME)
  }

  /** The translation of an address space, as a table. */
  ghost function Table(words: Words, d: nat): (t: seq<Mapping>)
    requires Shape(words) && d < |words|
    ensures |t| == VPAGES && forall v: nat :: v < VPAGES ==> t[v] == Translate(words, d, v)
  {
    seq(VPAGES, v requires 0 <= v < VPAGES => Translate(words, d, v))
  }

  /** An address space and the memory behind it. */
  datatype Space = Space(table: seq<Mapping>, free: seq<nat>, slots: set<nat>, uses: seq<nat>)

  ghost function SpaceOf(m: Pages, b: Books, d: nat): Space
    requires Shape(m.words) && d < |m.words|
  {
    Space(Table(m.words, d), b.free, Tables(b, d), m.refs)
  }

  /** There is a table for the page, or a free page for one. */
  predicate Roomy(s: Space, v: nat) {
    v / ENTRIES in s.slots || s.free != []
  }

  /** With a table for the page. */
  function WithTable(s: Space, v: nat): Space {
    if v / ENTRIES in s.slots || s.free == [] || s.free[0] >= |s.uses| then s
    else s.(free := s.free[1..], slots := s.slots + {v / ENTRIES}, uses := s.uses[s.free[0] := 1])
  }

  /** With one use more of a page. */
  function Counting(s: Space, p: nat): Space {
    if p < |s.uses| then s.(uses := s.uses[p := s.uses[p] + 1]) else s
  }

  /** Nothing mapped at `v`; what was mapped there has a use less and is free if it has
      none. */
  function Cleared(s: Space, v: nat): Space {
    if v >= |s.table| || s.table[v].Unmapped? || s.table[v].page >= |s.uses| || s.uses[s.table[v].page] == 0 then s
    else
      var p := s.table[v].page;
      Space(s.table[v := Unmapped], if s.uses[p] == 1 then [p] + s.free
              else s.free, s.slots, s.uses[p := s.uses[p] - 1])
  }

  /** Page `p` mapped at `v`. */
  function Placed(s: Space, p: nat, v: nat, perm: nat): Space {
    var t := Cleared(Counting(WithTable(s, v), p), v);
    if v < |t.table| then t.(table := t.table[v := Mapped(p, WithPresent(perm))]) else t
  }

  function Taken(s: Space): Space
    requires s.free != []
  {
    s.(free := s.free[1..])
  }

  /** The page that an operation maps, or none: a new page is the first free one and takes
      another one if there is no table; a shared page is the one that is mapped. */
  function FrameOf(s: Space, op: Op): int {
    match op
    case Fresh(v, _) => if s.free != [] && Roomy(Taken(s), v) then s.free[0] else NULL
    case Share(u, v, _) => if u < |s.table| && s.table[u].Mapped? && Roomy(s, v) then s.table[u].page else NULL
    case Drop(_) => NULL
  }

  /** What an operation does.  A new page without a table is lost. */
  function Applied(s: Space, op: Op): Space {
    match op
    case Fresh(v, perm) =>
      if s.free == [] then s
      else if Roomy(Taken(s), v) then Placed(Taken(s), s.free[0], v, perm)
      else Taken(s)
    case Share(u, v, perm) =>
      if u < |s.table| && s.table[u].Mapped? && Roomy(s, v) then Placed(s, s.table[u].page, v, perm) else s
    case Drop(v) => Cleared(s, v)
  }

  function AllApplied(s: Space, ops: seq<Op>): Space {
    if ops == [] then s else Applied(AllApplied(s, ops[..|ops| - 1]), ops[|ops| - 1])
  }

  function AllFrames(s: Space, ops: seq<Op>): seq<int> {
    if ops == [] then []
    else
      var n := |ops| - 1;
      AllFrames(s, ops[..n]) + [FrameOf(AllApplied(s, ops[..n]), ops[n])]
  }

  /** What the caller sees to: between `lo` and `hi` nothing is mapped but what was inserted,
      and no page is used so often that `room` uses more are too many. */
  ghost predicate Usable(m: Pages, b: Books, d: nat, lo: nat, hi: nat, room: nat) {
    && Shape(m.words) && d in b.dirs && d < |m.words| && hi <= VPAGES
    && (forall v: nat :: lo <= v < hi && Translate(m.words, d, v).Mapped? ==> Place(d, v) in b.maps)
    && (forall p :: 0 <= p < |m.refs| ==> m.refs[p] + room < REF_LIMIT)
  }

  // ----- counts stay in range -----

  lemma KeysAtMost<K>(m: map<K, nat>, k: K, q: nat, p: nat)
    ensures |Keys(m[k := q], p)| <= |Keys(m, p)| + One(p == q)
  {
    var m' := m - {k};
    assert m[k := q] == m'[k := q];
    KeysPut(m', k, q, p);
    if k in m {
      KeysDrop(m, k, p);
    } else {
      assert m' == m;
    }
  }

  /** Every page has at most one use more: the one inserted, and the table, which had
      none. */
  lemma UsesBounded(m: Pages, b: Books, m': Pages, b': Books, reserved: set<nat>, d: nat, v: nat, pp: nat)
    requires Sound(m, b, reserved, NULL) && Counted(m'.refs, b'.tabs, b'.maps, reserved, NULL) && |m'.refs| == |m.refs|
    requires b'.maps == b.maps[Place(d, v) := pp] && pp !in b.free
    requires TabsAfter(b, b', d, v)
    ensures forall p :: 0 <= p < |m.refs| ==> m'.refs[p] <= m.refs[p] + 1
  {
    forall p | 0 <= p < |m.refs| ensures m'.refs[p] <= m.refs[p] + 1 {
      KeysAtMost(b.maps, Place(d, v), pp, p);
      if b'.tabs != b.tabs {
        KeysAtMost(b.tabs, Slot(d, v / ENTRIES), b.free[0], p);
        assert b.free[0] in b.free;
      }
    }
  }

  // ----- one operation -----

  lemma NotOverused(u: nat)
    requires u <= REF_LIMIT
    ensures !Overused(u)
  {
  }

  lemma UsableHere(m: Pages, b: Books, reserved: set<nat>, d: nat, lo: nat, hi: nat, room: nat, v: nat, pp: nat)
    requires Sound(m, b, reserved, NULL) && Usable(m, b, d, lo, hi, room + 1) && lo <= v < hi
    ensures Shape(m.words) && d in b.dirs && d < |m.words| && v < VPAGES
    ensures Translate(m.words, d, v).Mapped? ==> Translate(m.words, d, v).page < |m.words|
    ensures Removable(m, b, d, v) && Replaceable(m, b, d, v, pp)
  {
    hide Sound, Translate, Overused;
    PlaceMapped(m, b, reserved, NULL, d, v);
    if Translate(m.words, d, v).Mapped? {
      SizesOf(m, b, reserved);
      var q := b.maps[Place(d, v)];
      NotOverused(m.refs[q]);
      NotOverused(m.refs[q] + 1);
    }
  }

  lemma SizesOf(m: Pages, b: Books, reserved: set<nat>)
    requires Sound(m, b, reserved, NULL)
    ensures |m.refs| == |m.words|
  {
  }

  /** The page that is mapped may be inserted once more. */
  lemma MappedInsertable(m: Pages, b: Books, reserved: set<nat>, d: nat, u: nat)
    requires Sound(m, b, reserved, NULL) && Place(d, u) in b.maps
    ensures var p := b.maps[Place(d, u)];
            p < |m.refs| == |m.words| && p !in b.free && p !in b.dirs && NoDirectory(b.tabs, p)
  {
    PlaceUsed(m, b, reserved, NULL, d, u);
    assert MapOk(m.words, b.dirs, Place(d, u), b.maps[Place(d, u)]);
  }

  /** After an insertion. */
  lemma UsableAfter(m: Pages, b: Books, m': Pages, b': Books, reserved: set<nat>, d: nat, lo: nat, hi: nat, room: nat,
                    v: nat, pp: nat, perm: nat)
    requires Sound(m, b, reserved, NULL) && Usable(m, b, d, lo, hi, room + 1) && lo <= v < hi && Shape(m.words)
    requires Remapped(m.words, m'.words, b.dirs, d, v, Mapped(pp, WithPresent(perm))) && b'.dirs == b.dirs &&
             pp !in b.free
    requires Counted(m'.refs, b'.tabs, b'.maps, reserved, NULL) && |m'.refs| == |m.refs|
    requires b'.maps == b.maps[Place(d, v) := pp]
    requires TabsAfter(b, b', d, v)
    ensures Usable(m', b', d, lo, hi, room)
    ensures Table(m'.words, d) == Table(m.words, d)[v := Mapped(pp, WithPresent(perm))] && |Table(m.words, d)| == VPAGES
    ensures SameTranslation(m.words, m'.words, b.dirs - {d})
  {
    UsesBounded(m, b, m', b', reserved, d, v, pp);
    hide Sound, Translate, Counted, WithPresent;
  }

  /** After a removal. */
  lemma UsableLess(m: Pages, b: Books, m': Pages, b': Books, reserved: set<nat>, d: nat, lo: nat, hi: nat, room: nat,
                   v: nat)
    requires Sound(m, b, reserved, NULL) && Usable(m, b, d, lo, hi, room + 1) && lo <= v < hi && Shape(m.words)
    requires Remapped(m.words, m'.words, b.dirs, d, v, Unmapped) && b'.dirs == b.dirs
    requires |m'.refs| == |m.refs| && b'.maps == b.maps - {Place(d, v)}
    requires forall p :: 0 <= p < |m.refs| ==> m'.refs[p] <= m.refs[p]
    ensures Usable(m', b', d, lo, hi, room) && Table(m'.words, d) == Table(m.words, d)[v := Unmapped]
    ensures SameTranslation(m.words, m'.words, b.dirs - {d})
  {
    hide Sound, Translate;
  }

  /** When nothing is mapped differently. */
  lemma UsableSame(m: Pages, b: Books, m': Pages, b': Books, d: nat, lo: nat, hi: nat, room: nat)
    requires Usable(m, b, d, lo, hi, room + 1) && SameTranslation(m.words, m'.words, b.dirs)
    requires m'.refs == m.refs && b'.maps == b.maps && b'.dirs == b.dirs
    ensures Usable(m', b', d, lo, hi, room) && Usable(m', b', d, lo, hi, room + 1)
    ensures Table(m'.words, d) == Table(m.words, d) && SameTranslation(m.words, m'.words, b.dirs - {d})
  {
    hide Translate;
  }

  // ----- what an insertion does to the space -----

  lemma TablesAfter(b: Books, b': Books, d: nat, v: nat)
    requires TabsAfter(b, b', d, v)
    ensures Tables(b', d) == Tables(b, d) + {v / ENTRIES} &&
            (v / ENTRIES in Tables(b, d) <==> Slot(d, v / ENTRIES) in b.tabs)
  {
    TableThere(b, d, v / ENTRIES);
    if Slot(d, v / ENTRIES) in b.tabs {
      assert Tables(b', d) == Tables(b, d);
    } else {
      TableMore(b, b', d, v / ENTRIES, b.free[0]);
    }
  }

  /** At a vacant address. */
  lemma PlacedVacant(m: Pages, b: Books, m': Pages, b': Books, d: nat, v: nat, pp: nat, perm: nat)
    requires Shape(m.words) && d < |m.words| && Shape(m'.words) && d < |m'.words| && v < VPAGES
    requires Inserted(m, b, m', b', d, v, pp) && TabsAfter(b, b', d, v) && pp !in b.free
    requires Translate(m.words, d, v) == Unmapped
    requires Table(m'.words, d) == Table(m.words, d)[v := Mapped(pp, WithPresent(perm))]
    ensures SpaceOf(m', b', d) == Placed(SpaceOf(m, b, d), pp, v, perm)
  {
    TablesAfter(b, b', d, v);
    hide Translate, Tables, WithPresent, Shape;
    var s := SpaceOf(m, b, d);
    assert s.table[v] == Unmapped;
    if v / ENTRIES in s.slots {
      assert s.slots + {v / ENTRIES} == s.slots;
    } else {
      assert b.free[0] in b.free;
    }
  }

  /** Where something is inserted. */
  lemma PlacedOver(m: Pages, b: Books, m': Pages, b': Books, d: nat, v: nat, pp: nat, perm: nat)
    requires Shape(m.words) && d < |m.words| && Shape(m'.words) && d < |m'.words| && v < VPAGES
    requires Swapped(m, b, m'.refs, b', d, v, pp) && Slot(d, v / ENTRIES) in b.tabs
    requires Translate(m.words, d, v).Mapped? && Translate(m.words, d, v).page == b.maps[Place(d, v)]
    requires Table(m'.words, d) == Table(m.words, d)[v := Mapped(pp, WithPresent(perm))]
    ensures SpaceOf(m', b', d) == Placed(SpaceOf(m, b, d), pp, v, perm)
  {
    TableThere(b, d, v / ENTRIES);
    assert Tables(b', d) == Tables(b, d);
    hide Translate, Tables, WithPresent, Shape;
  }

  /** What a removal does to the space. */
  lemma ClearedBy(r: seq<nat>, m: Pages, b: Books, r': seq<nat>, m': Pages, b': Books, d: nat, v: nat, p: nat)
    requires Shape(m.words) && d < |m.words| && Shape(m'.words) && d < |m'.words| && v < VPAGES
    requires Translate(m.words, d, v).Mapped? && Translate(m.words, d, v).page == p && Place(d, v) in b.maps
    requires Removed(r, m, b, r', m', b', d, v, p) && RefsOk(r, m.refs) && m.refs[p] < REF_LIMIT
    requires Table(m'.words, d) == Table(m.words, d)[v := Unmapped]
    ensures SpaceOf(m', b', d) == Cleared(SpaceOf(m, b, d), v)
  {
    assert Tables(b', d) == Tables(b, d);
    hide Translate, Tables, Shape, FreeList;
    assert r[p] == m.refs[p];
  }

  // ----- one operation -----

  /** What an operation leaves. */
  ghost predicate Done(m: Pages, b: Books, m': Pages, b': Books, d: nat, lo: nat, hi: nat, room: nat, op: Op,
                       frame: int)
    requires Shape(m.words) && d < |m.words| && op.v < VPAGES
  {
    && b'.dirs == b.dirs && Usable(m', b', d, lo, hi, room) && SameTranslation(m.words, m'.words, b.dirs - {d})
    && SpaceOf(m', b', d) == Applied(SpaceOf(m, b, d), op) && frame == FrameOf(SpaceOf(m, b, d), op)
  }

  lemma DropBounds(m: Pages, b: Books, r: seq<nat>, r': seq<nat>, m': Pages, b': Books, d: nat, v: nat)
    requires Shape(m.words) && d < |m.words| && v < VPAGES
    requires match Translate(m.words, d, v)
             case Unmapped => m' == m && b' == b && Place(d, v) !in b.maps
             case Mapped(p, _) => Removed(r, m, b, r', m', b', d, v, p)
    ensures |m'.refs| == |m.refs| && b'.dirs == b.dirs && b'.maps == b.maps - {Place(d, v)}
    ensures forall p :: 0 <= p < |m.refs| ==> m'.refs[p] <= m.refs[p]
  {
    hide Translate, FreeList;
    if Translate(m.words, d, v) == Unmapped {
      assert b.maps - {Place(d, v)} == b.maps;
    }
  }

  lemma DropSpace(r: seq<nat>, m: Pages, b: Books, r': seq<nat>, m': Pages, b': Books, reserved: set<nat>, d: nat,
                  lo: nat,
                  hi: nat, room: nat, v: nat)
    requires Sound(m, b, reserved, NULL) && RefsOk(r, m.refs) && Usable(m, b, d, lo, hi, room + 1) && lo <= v < hi
    requires Shape(m.words) && d < |m.words| && v < VPAGES && Usable(m', b', d, lo, hi, room)
    requires match Translate(m.words, d, v)
             case Unmapped => m' == m && b' == b && Place(d, v) !in b.maps
             case Mapped(p, _) => Removed(r, m, b, r', m', b', d, v, p)
    requires Table(m'.words, d) == Table(m.words, d)[v := Unmapped]
    ensures SpaceOf(m', b', d) == Cleared(SpaceOf(m, b, d), v)
  {
    hide Sound, Translate, RefsOk, Shape, Tables, Removed;
    if Translate(m.words, d, v) != Unmapped {
      PlaceMapped(m, b, reserved, NULL, d, v);
      RemovedUses(r, m, b, r', m', b', d, v, Translate(m.words, d, v).page);
      ClearedBy(r, m, b, r', m', b', d, v, Translate(m.words, d, v).page);
    } else {
      assert Table(m.words, d)[v] == Unmapped;
    }
  }

  lemma RemovedUses(r: seq<nat>, m: Pages, b: Books, r': seq<nat>, m': Pages, b': Books, d: nat, v: nat, p: nat)
    requires Removed(r, m, b, r', m', b', d, v, p)
    ensures p < |m.refs|
  {
  }

  /** Unmap a page. */
  method PerformDrop(mem: Memory, d: nat, op: Op, lo: nat, hi: nat, ghost room: nat)
    requires mem.Valid(NULL) && OpOk(op, lo, hi) && op.Drop? && Usable(mem.Now(), mem.book, d, lo, hi, room + 1)
    modifies mem
    ensures mem.Valid(NULL) && Done(old(mem.Now()), old(mem.book), mem.Now(), mem.book, d, lo, hi, room, op, NULL)
  {
    hide Sound, RefsOk, Usable, Translate, Removable, Spoilt, Counted, TabsOk, Remapped, Removed, SameTranslation,
         Table, Shape, Cleared, SpaceOf;
    ghost var m, b, r := mem.Now(), mem.book, mem.refs;
    UsableHere(m, b, mem.reserved, d, lo, hi, room, op.v, 0);
    PlaceMapped(m, b, mem.reserved, NULL, d, op.v);
    mem.PageRemove(d, op.v, NULL);
    DropBounds(m, b, r, mem.refs, mem.Now(), mem.book, d, op.v);
    UsableLess(m, b, mem.Now(), mem.book, mem.reserved, d, lo, hi, room, op.v);
    DropSpace(r, m, b, mem.refs, mem.Now(), mem.book, mem.reserved, d, lo, hi, room, op.v);
  }

  /** Map a page that has been taken, or is mapped already. */
  method Insert(mem: Memory, d: nat, pp: nat, v: nat, perm: nat, lo: nat, hi: nat, ghost room: nat) returns (ok: bool)
    requires mem.Valid(NULL) && lo <= v < hi && perm < FRAME && Usable(mem.Now(), mem.book, d, lo, hi, room + 1)
    requires pp < |mem.uses| == |mem.words| && pp !in mem.book.free && pp !in mem.book.dirs &&
             NoDirectory(mem.book.tabs, pp)
    modifies mem
    ensures mem.Valid(NULL) && mem.book.dirs == old(mem.book.dirs) && Usable(mem.Now(), mem.book, d, lo, hi, room)
    ensures Shape(old(mem.words)) && d < |old(mem.words)| && v < VPAGES
    ensures var s, s' := old(SpaceOf(mem.Now(), mem.book, d)), SpaceOf(mem.Now(), mem.book, d);
            (ok <==> Roomy(s, v)) && s' == if ok then Placed(s, pp, v, perm) else s
    ensures SameTranslation(old(mem.words), mem.words, old(mem.book.dirs) - {d})
  {
    hide Sound, RefsOk, Usable, Translate, Replaceable, Spoilt, Counted, Remapped, Inserted, SameTranslation, Table,
         Shape, NoDirectory, WithPresent, TabsAfter, Swapped, Placed, Tables;
    ghost var m, b := mem.Now(), mem.book;
    UsableHere(m, b, mem.reserved, d, lo, hi, room, v, pp);
    PlaceMapped(m, b, mem.reserved, NULL, d, v);
    SlotMapped(m, b, mem.reserved, NULL, d, v);
    TableThere(b, d, v / ENTRIES);
    var r := mem.PageInsert(d, pp, v, perm);
    ok := r == 0;
    if ok {
      UsableAfter(m, b, mem.Now(), mem.book, mem.reserved, d, lo, hi, room, v, pp, perm);
      UsableShape(mem.Now(), mem.book, d, lo, hi, room);
      if Translate(m.words, d, v) == Unmapped {
        PlacedVacant(m, b, mem.Now(), mem.book, d, v, pp, perm);
      } else {
        UsableInserted(m, b, d, lo, hi, room, v);
        PlacedOver(m, b, mem.Now(), mem.book, d, v, pp, perm);
      }
    } else {
      Unchanged(m.words, b.dirs);
      UsableSame(m, b, mem.Now(), mem.book, d, lo, hi, room);
    }
  }

  lemma UsableShape(m: Pages, b: Books, d: nat, lo: nat, hi: nat, room: nat)
    requires Usable(m, b, d, lo, hi, room)
    ensures Shape(m.words) && d < |m.words| && d in b.dirs
  {
  }

  lemma UsableInserted(m: Pages, b: Books, d: nat, lo: nat, hi: nat, room: nat, v: nat)
    requires Usable(m, b, d, lo, hi, room + 1) && lo <= v < hi && Translate(m.words, d, v).Mapped?
    ensures Place(d, v) in b.maps
  {
  }

  lemma Unchanged(words: Words, dirs: set<nat>)
    requires Shape(words)
    ensures SameTranslation(words, words, dirs)
  {
  }

  lemma SameTwice(words: Words, words': Words, words'': Words, dirs: set<nat>)
    requires SameTranslation(words, words', dirs) && SameTranslation(words', words'', dirs)
    ensures SameTranslation(words, words'', dirs)
  {
    hide Translate;
  }

  /** Map a new page.  If there is none, or no table for it, nothing is mapped; in the second
      case the page is lost. */
  method PerformFresh(mem: Memory, d: nat, op: Op, lo: nat, hi: nat, ghost room: nat) returns (frame: int)
    requires mem.Valid(NULL) && OpOk(op, lo, hi) && op.Fresh? && Usable(mem.Now(), mem.book, d, lo, hi, room + 1)
    modifies mem
    ensures mem.Valid(NULL) && Done(old(mem.Now()), old(mem.book), mem.Now(), mem.book, d, lo, hi, room, op, frame)
  {
    hide Sound, RefsOk, Usable, Translate, SameTranslation, Table, Shape, NoDirectory, WithPresent, Placed, Tables;
    ghost var m, b := mem.Now(), mem.book;
    UsableHere(m, b, mem.reserved, d, lo, hi, room, op.v, 0);
    frame := mem.PageAlloc(true);
    UsableSame(m, b, mem.Now(), mem.book, d, lo, hi, room);
    SameTables(b, mem.book, d);
    if frame != NULL {
      ghost var words1 := mem.words;
      UsableShape(mem.Now(), mem.book, d, lo, hi, room);
      var ok := Insert(mem, d, frame, op.v, op.perm, lo, hi, room);
      SameTwice(m.words, words1, mem.words, b.dirs - {d});
      if !ok {
        frame := NULL;
      }
    }
  }

  lemma SameTables(b: Books, b': Books, d: nat)
    requires b'.tabs == b.tabs
    ensures Tables(b', d) == Tables(b, d)
  {
  }

  /** Map at a second address the page that is mapped at the first, if there is one. */
  method PerformShare(mem: Memory, d: nat, op: Op, lo: nat, hi: nat, ghost room: nat) returns (frame: int)
    requires mem.Valid(NULL) && OpOk(op, lo, hi) && op.Share? && Usable(mem.Now(), mem.book, d, lo, hi, room + 1)
    modifies mem
    ensures mem.Valid(NULL) && Done(old(mem.Now()), old(mem.book), mem.Now(), mem.book, d, lo, hi, room, op, frame)
  {
    hide Sound, RefsOk, Translate, SameTranslation, Shape, NoDirectory, WithPresent, Usable, Placed, Tables;
    ghost var m, b := mem.Now(), mem.book;
    UsableHere(m, b, mem.reserved, d, lo, hi, room, op.u, 0);
    PlaceMapped(m, b, mem.reserved, NULL, d, op.u);
    Unchanged(m.words, b.dirs);
    UsableSame(m, b, m, b, d, lo, hi, room);
    if Translate(m.words, d, op.u) != Unmapped {
      UsableInserted(m, b, d, lo, hi, room, op.u);
      MappedInsertable(m, b, mem.reserved, d, op.u);
    }
    var t;
    frame, t := mem.PageLookup(d, op.u, NULL);
    if frame != NULL {
      var ok := Insert(mem, d, frame, op.v, op.perm, lo, hi, room);
      if !ok {
        frame := NULL;
      }
    }
  }

  method Perform(mem: Memory, d: nat, op: Op, lo: nat, hi: nat, ghost room: nat) returns (frame: int)
    requires mem.Valid(NULL) && OpOk(op, lo, hi) && Usable(mem.Now(), mem.book, d, lo, hi, room + 1)
    modifies mem
    ensures op.v < VPAGES && Shape(old(mem.words)) && d < |old(mem.words)|
    ensures mem.Valid(NULL) && Done(old(mem.Now()), old(mem.book), mem.Now(), mem.book, d, lo, hi, room, op, frame)
  {
    UsableBounds(mem.Now(), mem.book, d, lo, hi, room, op);
    hide Sound, RefsOk, Usable, Done, Shape;
    match op {
      case Fresh(_, _) =>
        frame := PerformFresh(mem, d, op, lo, hi, room);
      case Share(_, _, _) =>
        frame := PerformShare(mem, d, op, lo, hi, room);
      case Drop(_) =>
        PerformDrop(mem, d, op, lo, hi, room);
        frame := NULL;
    }
  }

  lemma UsableBounds(m: Pages, b: Books, d: nat, lo: nat, hi: nat, room: nat, op: Op)
    requires Usable(m, b, d, lo, hi, room + 1) && OpOk(op, lo, hi)
    ensures op.v < VPAGES && Shape(m.words) && d < |m.words|
  {
  }

  // ----- what each operation comes to -----

  /** Free pages are different and have no use, mapped pages have one. */
  ghost predicate Sane(s: Space) {
    && (forall p :: p in s.free ==> p < |s.uses| && s.uses[p] == 0)
    && (forall i, j :: 0 <= i < j < |s.free| ==> s.free[i] != s.free[j])
    && (forall v :: 0 <= v < |s.table| && s.table[v].Mapped? ==>
          s.table[v].page < |s.uses| && s.uses[s.table[v].page] > 0)
  }

  /** Address `v`, and no other, now translates to `p`, present and with the permissions
      asked for. */
  ghost predicate NowAt(s: Space, s': Space, v: nat, p: nat, perm: nat) {
    && v < |s.table| == |s'.table| && (forall u :: 0 <= u < |s.table| && u != v ==> s'.table[u] == s.table[u])
    && s'.table[v].Mapped? && s'.table[v].page == p
    && s'.table[v].flags % 2 == 1 && s'.table[v].flags / 2 == perm / 2
  }

  predicate IsThere(s: Space, v: nat, p: nat) {
    v < |s.table| && s.table[v].Mapped? && s.table[v].page == p
  }

  /** Sharing fails exactly if there is no table and no page for one; otherwise the second
      address translates to the page at the first, which has one use more unless it was
      there already. */
  lemma ShareMaps(s: Space, u: nat, v: nat, perm: nat)
    requires Sane(s) && u < |s.table| && v < |s.table| && s.table[u].Mapped?
    ensures var s', p, f := Applied(s, Share(u, v, perm)), s.table[u].page, FrameOf(s, Share(u, v, perm));
            if v / 1024 !in s.slots && s.free == [] then f == NULL && s' == s
            else f == p && NowAt(s, s', v, p, perm) && p < |s'.uses| == |s.uses| &&
                 s'.uses[p] == s.uses[p] + (if IsThere(s, v, p) then 0 else 1)
  {
    hide WithPresent;
    if v / ENTRIES !in s.slots && s.free != [] {
      assert s.free[0] in s.free;
    }
  }

  /** Mapping a new page takes the first free one and, if there is no table, the second for
      one; without the second the first is lost.  The page has one use. */
  lemma FreshMaps(s: Space, v: nat, perm: nat)
    requires Sane(s) && v < |s.table| && s.free != []
    ensures var s', p, f := Applied(s, Fresh(v, perm)), s.free[0], FrameOf(s, Fresh(v, perm));
            if v / 1024 !in s.slots && |s.free| == 1 then f == NULL && s' == s.(free := [])
            else f == p && NowAt(s, s', v, p, perm) && p < |s'.uses| == |s.uses| && s'.uses[p] == 1
  {
    hide WithPresent;
    assert s.free[0] in s.free;
    if v / ENTRIES !in s.slots && |s.free| > 1 {
      assert s.free[1] in s.free && s.free[1..][0] == s.free[1];
    }
  }

  /** Unmapping leaves nothing at the address and every other address alone; the page that was
      there has one use less, and is the first free page if that was its last. */
  lemma DropUnmaps(s: Space, v: nat)
    requires Sane(s) && v < |s.table|
    ensures var s' := Applied(s, Drop(v));
            && |s'.table| == |s.table| && s'.table[v] == Unmapped && s'.slots == s.slots
            && (forall u :: 0 <= u < |s.table| && u != v ==> s'.table[u] == s.table[u])
            && (s.table[v].Mapped? ==>
                  var p := s.table[v].page;
                  && p < |s'.uses| == |s.uses| && s'.uses[p] == s.uses[p] - 1
                  && s'.free == (if s.uses[p] == 1 then [p] else []) + s.free)
  {
  }

  // ----- undoing -----

  /** Unmapping a page that was new gives back the page and leaves everything as it was; a
      table made for it stays. */
  lemma FreshThenDrop(s: Space, v: nat, perm: nat)
    requires v < |s.table| && s.table[v] == Unmapped && s.free != [] && Roomy(Taken(s), v)
    requires forall p :: p in s.free ==> p < |s.uses| && s.uses[p] == 0
    requires forall i, j :: 0 <= i < j < |s.free| ==> s.free[i] != s.free[j]
    ensures var s' := Applied(Applied(s, Fresh(v, perm)), Drop(v));
            if v / ENTRIES in s.slots then s' == s
            else s'.table == s.table && s'.slots == s.slots + {v / ENTRIES} && s'.free == [s.free[0]] + s.free[2..]
  {
    hide WithPresent;
    var p := s.free[0];
    assert p in s.free && s.free == [p] + s.free[1..];
    if v / ENTRIES !in s.slots {
      var t := s.free[1];
      assert t in s.free && t != p;
      assert s.free[1..][1..] == s.free[2..];
    }
  }

  /** Unmapping the second address of a shared page undoes the sharing. */
  lemma ShareThenDrop(s: Space, u: nat, v: nat, perm: nat)
    requires u < |s.table| && v < |s.table| && u != v && s.table[u].Mapped? && s.table[v] == Unmapped &&
             v / ENTRIES in s.slots
    requires s.table[u].page < |s.uses| && s.uses[s.table[u].page] > 0
    ensures Applied(Applied(s, Share(u, v, perm)), Drop(v)) == s
  {
    hide WithPresent;
  }

  // ----- any sequence -----

  lemma AppliedNext(s: Space, ops: seq<Op>, i: nat)
    requires i < |ops|
    ensures AllApplied(s, ops[..i + 1]) == Applied(AllApplied(s, ops[..i]), ops[i])
    ensures AllFrames(s, ops[..i + 1]) == AllFrames(s, ops[..i]) + [FrameOf(AllApplied(s, ops[..i]), ops[i])]
  {
    assert ops[..i + 1][..i] == ops[..i];
  }

  /** Any sequence of operations: the translation of the address space, the free list, the
      tables and all counts are what the operations make of them one after the other, every
      operation maps the page it should exactly if it can, and the other address spaces
      translate as before, as long as no page can come to 65536 uses. */
  method Run(mem: Memory, d: nat, ops: seq<Op>, lo: nat, hi: nat) returns (frames: seq<int>)
    requires mem.Valid(NULL) && (forall i :: 0 <= i < |ops| ==> OpOk(ops[i], lo, hi))
    requires Usable(mem.Now(), mem.book, d, lo, hi, |ops|)
    modifies mem
    ensures mem.Valid(NULL) && mem.book.dirs == old(mem.book.dirs)
    ensures Shape(mem.words) && d < |mem.words| && Shape(old(mem.words)) && d < |old(mem.words)|
    ensures SpaceOf(mem.Now(), mem.book, d) == AllApplied(old(SpaceOf(mem.Now(), mem.book, d)), ops)
    ensures frames == AllFrames(old(SpaceOf(mem.Now(), mem.book, d)), ops)
    ensures SameTranslation(old(mem.words), mem.words, old(mem.book.dirs) - {d})
  {
    hide Sound, RefsOk, Translate, SameTranslation, Shape, WithPresent, Usable, Applied, FrameOf, OpOk, SpaceOf,
         AllApplied, AllFrames;
    ghost var words0, b0 := mem.words, mem.book;
    UsableShape(mem.Now(), b0, d, lo, hi, |ops|);
    Unchanged(words0, b0.dirs - {d});
    ghost var s := SpaceOf(mem.Now(), b0, d);
    RunStart(s, ops);
    frames := [];
    var i := 0;
    while i < |ops|
      invariant 0 <= i <= |ops| && mem.Valid(NULL) && mem.book.dirs == b0.dirs
      invariant Usable(mem.Now(), mem.book, d, lo, hi, |ops| - i) && Shape(mem.words) && d < |mem.words|
      invariant SpaceOf(mem.Now(), mem.book, d) == AllApplied(s, ops[..i]) && frames == AllFrames(s, ops[..i])
      invariant SameTranslation(words0, mem.words, b0.dirs - {d})
    {
      ghost var m, b := mem.Now(), mem.book;
      var frame := Perform(mem, d, ops[i], lo, hi, |ops| - i - 1);
      DoneFacts(m, b, mem.Now(), mem.book, d, lo, hi, |ops| - i - 1, ops[i], frame);
      SameTwice(words0, m.words, mem.words, b0.dirs - {d});
      AppliedNext(s, ops, i);
      frames := frames + [frame];
      i := i + 1;
    }
    assert ops[..i] == ops;
  }

  lemma RunStart(s: Space, ops: seq<Op>)
    ensures AllApplied(s, ops[..0]) == s && AllFrames(s, ops[..0]) == []
  {
  }

  lemma DoneFacts(m: Pages, b: Books, m': Pages, b': Books, d: nat, lo: nat, hi: nat, room: nat, op: Op, frame: int)
    requires Shape(m.words) && d < |m.words| && op.v < VPAGES && Done(m, b, m', b', d, lo, hi, room, op, frame)
    ensures b'.dirs == b.dirs && Usable(m', b', d, lo, hi, room) && SameTranslation(m.words, m'.words, b.dirs - {d})
    ensures Shape(m'.words) && d < |m'.words| && SpaceOf(m', b', d) == Applied(SpaceOf(m, b, d), op)
    ensures frame == FrameOf(SpaceOf(m, b, d), op)
  {
    hide Translate, Applied, FrameOf;
  }
}
