/** Two-level page tables in physical memory: the format of their words, the
    translation they define, and what a write to one of them does to it.  The format is
    that of 32-bit paging, section 4.3 of the Intel 64 and IA-32 Architectures Software
    Developer's Manual, volume 3A. */
module PageTables {

  /** Words in a page, and so entries in a directory or a table. */
  const ENTRIES := 1024

  /** Bytes in a page: the low bits of a word are flags, the rest is a page number. */
  const FRAME := 4096

  /** Pages in an address space. */
  const VPAGES := 1024 * 1024

  /** The contents of the physical pages, as far as they are used for page tables. */
  type Words = seq<seq<nat>>

  predicate Present(w: nat) {
    w % 2 == 1
  }

  function PageOf(w: nat): nat {
    w / FRAME
  }

  function FlagsOf(w: nat): nat {
    w % FRAME
  }

  /** The permissions together with the present bit. */
  function WithPresent(perm: nat): (flags: nat)
    ensures flags % 2 == 1 && flags / 2 == perm / 2
  {
    if Present(perm) then perm else perm + 1
  }

  /** The word for a page with these permissions, present. */
  function Entry(page: nat, perm: nat): nat {
    page * FRAME + WithPresent(perm)
  }

  datatype Mapping = Unmapped | Mapped(page: nat, flags: nat)

  function Decode(w: nat): Mapping {
    if Present(w) then Mapped(PageOf(w), FlagsOf(w)) else Unmapped
  }

  /** A word that was put together is taken apart again. */
  lemma DecodeEntry(page: nat, perm: nat)
    requires perm < FRAME
    ensures Decode(Entry(page, perm)) == Mapped(page, WithPresent(perm))
    ensures var m := Decode(Entry(page, perm)); m.page == page && m.flags % 2 == 1 && m.flags / 2 == perm / 2
    ensures Entry(page, perm) == 4096 * page + (perm / 2) * 2 + 1
  {
    var flags := WithPresent(perm);
    assert page * FRAME + flags == 2 * (page * 2048) + flags;
  }

  ghost predicate Shape(words: Words) {
    forall p :: 0 <= p < |words| ==> |words[p]| == ENTRIES
  }

  /** What page `v` of the address space of directory `d` is mapped to. */
  ghost function Translate(words: Words, d: nat, v: nat): Mapping
    requires Shape(words) && d < |words| && v < VPAGES
  {
    var pde := words[d][v / ENTRIES];
    if Present(pde) && PageOf(pde) < |words| then Decode(words[PageOf(pde)][v % ENTRIES]) else Unmapped
  }

  /** A slot of a directory. */
  datatype Slot = Slot(d: nat, i: nat)

  /** The tables in use, each by one directory slot: `tabs` lists them. */
  ghost predicate TabsOk(words: Words, dirs: set<nat>, tabs: map<Slot, nat>) {
    && Shape(words)
    && (forall d :: d in dirs ==> d < |words|)
    && (forall k :: k in tabs ==> TabOk(words, dirs, k, tabs[k]))
    && (forall d, i :: d in dirs && 0 <= i < ENTRIES && Present(words[d][i]) ==> Slot(d, i) in tabs)
    && (forall k, l :: k in tabs && l in tabs ==> tabs[k] != l.d && (tabs[k] == tabs[l] ==> k == l))
  }

  ghost predicate TabOk(words: Words, dirs: set<nat>, k: Slot, t: nat)
    requires Shape(words)
  {
    k.d < |words| && k.i < ENTRIES && Present(words[k.d][k.i]) && PageOf(words[k.d][k.i]) == t < |words| && t !in dirs
  }

  function Put(words: Words, p: nat, i: nat, w: nat): Words
    requires p < |words| && i < |words[p]|
  {
    var page: seq<nat> := words[p][i := w];
    words[p := page]
  }

  /** Writing an entry of a table changes the mapping of one page in one address space. */
  lemma WriteEntry(words: Words, dirs: set<nat>, tabs: map<Slot, nat>, d: nat, v: nat, w: nat)
    requires TabsOk(words, dirs, tabs) && d in dirs && v < VPAGES && Slot(d, v / ENTRIES) in tabs
    ensures tabs[Slot(d, v / ENTRIES)] < |words|
    ensures var words' := Put(words, tabs[Slot(d, v / ENTRIES)], v % ENTRIES, w);
            && TabsOk(words', dirs, tabs)
            && forall e, u: nat :: e in dirs && u < VPAGES ==>
                 Translate(words', e, u) == if e == d && u == v then Decode(w) else Translate(words, e, u)
  {
    hide Decode, PageOf, Present;
    var t := tabs[Slot(d, v / ENTRIES)];
    assert TabOk(words, dirs, Slot(d, v / ENTRIES), t);
    var words' := Put(words, t, v % ENTRIES, w);
    forall k | k in tabs ensures TabOk(words', dirs, k, tabs[k]) {
      assert TabOk(words, dirs, k, tabs[k]);
    }
    forall e, u: nat | e in dirs && u < VPAGES
      ensures Translate(words', e, u) == if e == d && u == v then Decode(w) else Translate(words, e, u)
    {
      OtherEntry(words, dirs, tabs, d, v, w, e, u);
    }
  }

  lemma OtherEntry(words: Words, dirs: set<nat>, tabs: map<Slot, nat>, d: nat, v: nat, w: nat, e: nat, u: nat)
    requires TabsOk(words, dirs, tabs) && d in dirs && v < VPAGES && Slot(d, v / ENTRIES) in tabs && e in dirs &&
             u < VPAGES
    ensures tabs[Slot(d, v / ENTRIES)] < |words|
    ensures Translate(Put(words, tabs[Slot(d, v / ENTRIES)], v % ENTRIES, w), e, u)
         == if e == d && u == v then Decode(w) else Translate(words, e, u)
  {
    hide Decode, PageOf, Present;
    var t := tabs[Slot(d, v / ENTRIES)];
    assert TabOk(words, dirs, Slot(d, v / ENTRIES), t);
    if Slot(e, u / ENTRIES) in tabs {
      assert TabOk(words, dirs, Slot(e, u / ENTRIES), tabs[Slot(e, u / ENTRIES)]);
      SameAddress(u, v);
    }
  }

  lemma SameAddress(u: nat, v: nat)
    ensures u / ENTRIES == v / ENTRIES && u % ENTRIES == v % ENTRIES ==> u == v
  {
  }

  /** A page that is neither a directory nor a table can be overwritten. */
  lemma WriteElsewhere(words: Words, dirs: set<nat>, tabs: map<Slot, nat>, p: nat, page: seq<nat>)
    requires TabsOk(words, dirs, tabs) && p < |words| && |page| == ENTRIES
    requires p !in dirs && (forall k :: k in tabs ==> tabs[k] != p && k.d != p)
    ensures TabsOk(words[p := page], dirs, tabs)
    ensures forall e, u: nat :: e in dirs && u < VPAGES ==> Translate(words[p := page], e, u) == Translate(words, e, u)
  {
    hide Decode, PageOf, Present;
    var words' := words[p := page];
    forall k | k in tabs ensures TabOk(words', dirs, k, tabs[k]) {
      assert TabOk(words, dirs, k, tabs[k]);
    }
    forall e, u: nat | e in dirs && u < VPAGES ensures Translate(words', e, u) == Translate(words, e, u) {
      if Slot(e, u / ENTRIES) in tabs {
        assert TabOk(words, dirs, Slot(e, u / ENTRIES), tabs[Slot(e, u / ENTRIES)]);
      }
    }
  }

  ghost predicate Blank(page: seq<nat>) {
    forall i :: 0 <= i < |page| ==> page[i] == 0
  }

  /** Hanging an empty table into a directory maps nothing. */
  lemma NewTable(words: Words, dirs: set<nat>, tabs: map<Slot, nat>, d: nat, i: nat, t: nat, perm: nat)
    requires TabsOk(words, dirs, tabs) && d in dirs && i < ENTRIES && !Present(words[d][i]) && perm < FRAME
    requires t < |words| && t !in dirs && (forall k :: k in tabs ==> tabs[k] != t && k.d != t) && Blank(words[t])
    ensures var words' := Put(words, d, i, Entry(t, perm));
            && TabsOk(words', dirs, tabs[Slot(d, i) := t])
            && forall e, u: nat :: e in dirs && u < VPAGES ==> Translate(words', e, u) == Translate(words, e, u)
  {
    DecodeEntry(t, perm);
    var w := Entry(t, perm);
    assert Present(w) && PageOf(w) == t;
    var words', tabs' := Put(words, d, i, w), tabs[Slot(d, i) := t];
    hide PageOf, Entry, FlagsOf;
    assert Slot(d, i) !in tabs;
    forall k | k in tabs' ensures TabOk(words', dirs, k, tabs'[k]) {
      if k != Slot(d, i) {
        assert TabOk(words, dirs, k, tabs[k]);
      }
    }
    forall e, u: nat | e in dirs && u < VPAGES ensures Translate(words', e, u) == Translate(words, e, u) {
      if Slot(e, u / ENTRIES) in tabs {
        assert TabOk(words, dirs, Slot(e, u / ENTRIES), tabs[Slot(e, u / ENTRIES)]);
      }
    }
  }
}
