/** The database library on its two files, one process at a time.

    `idx` and `dat` are the contents of the index and data file; the other plain
    fields are those of the library's private structure.  Reading outside a file
    or failing one of the library's sanity checks would end the process; the
    methods below prove that none of them ever fires.  The two ways the process
    can really stop are the limits on record length and on file offsets. */
module Db {
  import opened DbFormat
  import opened DbFile
  import opened DbState
  import opened DbDisk
  import opened DbSizes

  function Blanks(n: nat): (s: string)
    ensures |s| == n && Blank(s)
  {
    seq(n, _ => SPACE)
  }

  lemma InvOf(st: St, m: map<string, string>)
    requires Represents(st, m)
    ensures Inv(st) && AllWellFormed(st.heads, st.recs)
    ensures |st.lists| == NHEADS == |st.heads| && |st.home| == |st.recs|
  {
    ListFacts(st, 0);
  }

  // ----- deleting -----

  ghost function BlankRec(st: St, r: nat): Rec
    requires r < |st.recs| && |st.heads| > 0
  {
    Rec(st.heads[0], Blanks(|st.recs[r].key|), st.recs[r].datoff, st.recs[r].datlen)
  }

  lemma BlankFits(st: St, r: nat)
    requires Inv(st) && r < |st.recs|
    ensures var b := BlankRec(st, r);
            WellFormed(b) && |Body(b)| == |Body(st.recs[r])| && Blank(b.key) && st.recs[r].datlen >= 1
  {
    assert WellFormed(st.recs[r]);
  }

  /** The `len` characters from `off` on are blanks and a newline, and all others as before. */
  ghost predicate BlankedFrom(dat: string, dat': string, off: nat, len: nat) {
    && |dat'| == |dat| && 0 < len && off + len <= |dat|
    && forall i :: 0 <= i < |dat| ==>
         dat'[i] == if off <= i < off + len - 1 then ' ' else if i == off + len - 1 then '\n' else dat[i]
  }

  lemma BlankedData(dat: string, dat': string, off: nat, len: nat)
    requires 0 < len && off <= |dat| == |dat'| && dat' == WriteAt(dat, off, Blanks(len - 1) + [NEWLINE])
    ensures BlankedFrom(dat, dat', off, len)
  {
  }

  /** Off its chain, blanked, and at the front of the free list. */
  ghost function Deleted(st: St, k: nat, pos: nat): St
    requires Inv(st) && 1 <= k < NHEADS && pos < |st.lists[k]|
  {
    ListFacts(st, k);
    var r := st.lists[k][pos];
    var b := BlankRec(st, r);
    var st1 := Unlink(st, k, pos);
    if b.datoff <= |st.dat| && b.datlen >= 1 then Link(Rewrite(st1, r, b, Blanks(b.datlen - 1)), r, 0) else st
  }

  lemma DeletedRepresents(st: St, k: nat, pos: nat, m: map<string, string>)
    requires Represents(st, m) && 1 <= k < NHEADS && pos < |st.lists[k]|
    ensures st.lists[k][pos] < |st.recs|
    ensures Represents(Deleted(st, k, pos), m - {st.recs[st.lists[k][pos]].key})
    ensures Complete(st) ==> Complete(Deleted(st, k, pos))
  {
    hide AllWellFormed, ListsOk, DataOk, KeysOk, Represents, WellFormed, Body, Blank;
    InvOf(st, m);
    ListFacts(st, k);
    var r := st.lists[k][pos];
    var b, m' := BlankRec(st, r), m - {st.recs[r].key};
    BlankFits(st, r);
    var blanks := Blanks(b.datlen - 1);
    var st1 := Unlink(st, k, pos);
    UnlinkRepresents(st, k, pos, m);
    InvOf(st1, m');
    UnlinkKeepsRecord(st, k, pos);
    RewriteRepresents(st1, r, b, blanks, m');
    var st2 := Rewrite(st1, r, b, blanks);
    InvOf(st2, m');
    OnListBound(st, k, pos);
    RewriteOffset(st, st1, st2, k, pos, b);
    LinkRepresents(st2, r, 0, m');
  }

  /** The record that is taken off its list keeps its contents and its place. */
  lemma UnlinkKeepsRecord(st: St, k: nat, pos: nat)
    requires Inv(st) && k < NHEADS && pos < |st.lists[k]|
    ensures var st' := Unlink(st, k, pos);
            var r := st.lists[k][pos];
            && r < |st.recs| == |st'.recs| == |st'.home| && st'.recs[r] == st.recs[r] && st'.home[r] == NOWHERE
            && (k > 0 ==> st'.heads[0] == st.heads[0]) && st'.dat == st.dat
            && Offset(st'.recs, r) == Offset(st.recs, r)
  {
    hide DataOk, KeysOk, WellFormed, Offset;
    ListFacts(st, k);
    var r := st.lists[k][pos];
    assert WellFormed(st.recs[r]);
    PtrBound(st.recs[r]);
    if pos > 0 {
      SetPtr(st.recs, st.lists[k][pos - 1], st.recs[r].ptr);
      assert Offsets(Unlink(st, k, pos).recs)[r] == Offsets(st.recs)[r];
    }
  }

  lemma RewriteOffset(st: St, st1: St, st2: St, k: nat, pos: nat, b: Rec)
    requires Inv(st) && k < NHEADS && pos < |st.lists[k]| && st1 == Unlink(st, k, pos)
    requires st.lists[k][pos] < |st.recs| && Inv(st1) && WellFormed(b)
    requires |Body(b)| == |Body(st.recs[st.lists[k][pos]])| && st2.recs == st1.recs[st.lists[k][pos] := b]
    ensures Offset(st2.recs, st.lists[k][pos]) == Offset(st.recs, st.lists[k][pos])
  {
    hide DataOk, KeysOk, ListsOk, WellFormed, Offset, Body;
    UnlinkKeepsRecord(st, k, pos);
    ListFacts(st, k);
    var r := st.lists[k][pos];
    assert WellFormed(st1.recs[r]);
    EncodeLength(b);
    EncodeLength(st1.recs[r]);
    OffsetKept(st1.recs, r, b, r);
  }

  /** The place of the pointer that leads to the record at `pos` of list `k`. */
  ghost function PtrPlace(st: St, k: nat, pos: nat): nat
    requires Inv(st) && k < NHEADS && pos <= |st.lists[k]|
  {
    ListFacts(st, k);
    if pos == 0 then PTR_SZ * k else Offset(st.recs, st.lists[k][pos - 1])
  }

  /** The index file after the three writes of a deletion, in the order in which they
      are made: the record, the free-list head, and the pointer to the record. */
  lemma DeletedFile(st: St, k: nat, pos: nat)
    requires Inv(st) && 1 <= k < NHEADS && pos < |st.lists[k]| && st.lists[k][pos] < |st.recs|
    requires |st.heads| == NHEADS
    ensures var r := st.lists[k][pos];
            var b, off := BlankRec(st, r), Offset(st.recs, r);
            var f0 := IndexFile(st.heads, st.recs);
            var st' := Deleted(st, k, pos);
            && off <= |f0|
            && var f1 := WriteAt(f0, off, Encode(b));
               var f2 := WriteAt(f1, 0, Padded(PTR_SZ, off));
            && PtrPlace(st, k, pos) <= |f2|
            && WriteAt(f2, PtrPlace(st, k, pos), Padded(PTR_SZ, st.recs[r].ptr)) == IndexFile(st'.heads, st'.recs)
  {
    hide WellFormed, Body, Encode, Padded, IndexFile, WriteAt, Offset, ListsOk, KeysOk;
    ListFacts(st, k);
    var r := st.lists[k][pos];
    var b, off, next := BlankRec(st, r), Offset(st.recs, r), st.recs[r].ptr;
    BlankFits(st, r);
    PtrBound(st.recs[r]);
    OnListBound(st, k, pos);
    WriteRecord(st.heads, st.recs, r, b);
    var heads', recs' := st.heads[0 := off], st.recs[r := b];
    assert AllWellFormed(st.heads, recs') && AllWellFormed(heads', recs');
    WriteHead(st.heads, recs', 0, off);
    UnlinkKeepsRecord(st, k, pos);
    UnlinkLists(st, k, pos);
    if pos == 0 {
      OffsetKept(st.recs, r, b, r);
      WriteHead(heads', recs', k, next);
      assert heads'[k := next] == st.heads[k := next][0 := off];
    } else {
      var q := st.lists[k][pos - 1];
      OffsetKept(st.recs, r, b, q);
      WriteChainPtr(heads', recs', q, next);
      var recs1 := st.recs[q := st.recs[q].(ptr := next)];
      assert WellFormed(recs1[r]);
      EncodeLength(b);
      EncodeLength(st.recs[r]);
      OffsetKept(recs1, r, b, r);
      assert recs'[q := recs'[q].(ptr := next)] == recs1[r := b];
    }
  }

  /** A deletion changes the length of neither file. */
  lemma DeletedLengths(st: St, k: nat, pos: nat)
    requires Inv(st) && 1 <= k < NHEADS && pos < |st.lists[k]| && st.lists[k][pos] < |st.recs|
    requires |st.heads| == NHEADS && Inv(Deleted(st, k, pos))
    ensures var st' := Deleted(st, k, pos);
            |IndexFile(st'.heads, st'.recs)| == |IndexFile(st.heads, st.recs)| && |st'.dat| == |st.dat|
  {
    hide Body, Encode, IndexFile, Offset, ListsOk, KeysOk, WellFormed;
    ListFacts(st, k);
    var r, n := st.lists[k][pos], |st.recs|;
    var b := BlankRec(st, r);
    BlankFits(st, r);
    assert WellFormed(st.recs[r]);
    PtrBound(st.recs[r]);
    EncodeLength(b);
    EncodeLength(st.recs[r]);
    OffsetKept(st.recs, r, b, n);
    if pos > 0 {
      var q := st.lists[k][pos - 1];
      var q' := st.recs[q].(ptr := st.recs[r].ptr);
      PtrOnly(st.recs[q], st.recs[r].ptr);
      EncodeLength(st.recs[q]);
      EncodeLength(q');
      OffsetKept(st.recs, q, q', n);
      OffsetKept(st.recs[q := q'], r, b, n);
    }
    var st' := Deleted(st, k, pos);
    AppendRecord(st.heads, st.recs, b);
    AppendRecord(st'.heads, st'.recs, b);
    WriteInside(st.dat, b.datoff, Blanks(b.datlen - 1) + [NEWLINE]);
  }

  lemma DeletedSizes(st: St, k: nat, pos: nat)
    requires Inv(st) && 1 <= k < NHEADS && pos < |st.lists[k]| && st.lists[k][pos] < |st.recs|
    ensures FreeSizes(Deleted(st, k, pos)) == FreeSizes(st) + multiset{Size(st.recs[st.lists[k][pos]])}
  {
    hide ListsOk, KeysOk, FreeSizes, Offset, WellFormed, WriteAt, Body;
    ListFacts(st, k);
    BlankFits(st, st.lists[k][pos]);
    var r := st.lists[k][pos];
    var b, st1 := BlankRec(st, r), Unlink(st, k, pos);
    UnlinkUsed(st, k, pos);
    UnlinkKeepsRecord(st, k, pos);
    var blanks := Blanks(b.datlen - 1);
    RewriteSizes(st1, r, b, blanks);
    LinkSizes(Rewrite(st1, r, b, blanks), r, 0);
  }

  // ----- inserting -----

  predicate Matches(r: Rec, keylen: nat, datlen: nat) {
    |r.key| == keylen && r.datlen == datlen
  }

  lemma UnlinkedFile(st: St, k: nat, pos: nat)
    requires Inv(st) && k < NHEADS && pos < |st.lists[k]| && st.lists[k][pos] < |st.recs| && |st.heads| == NHEADS
    ensures var st' := Unlink(st, k, pos);
            && st.recs[st.lists[k][pos]].ptr <= PTR_MAX
            && PtrPlace(st, k, pos) <= |IndexFile(st.heads, st.recs)| == |IndexFile(st'.heads, st'.recs)|
            && WriteAt(IndexFile(st.heads, st.recs), PtrPlace(st, k, pos),
                       Padded(PTR_SZ, st.recs[st.lists[k][pos]].ptr))
            == IndexFile(st'.heads, st'.recs)
  {
    hide WellFormed, Body, Encode, Padded, IndexFile, WriteAt, Offset, ListsOk, KeysOk;
    ListFacts(st, k);
    var r := st.lists[k][pos];
    assert WellFormed(st.recs[r]);
    PtrBound(st.recs[r]);
    UnlinkLists(st, k, pos);
    var st' := Unlink(st, k, pos);
    AppendRecord(st.heads, st.recs, st.recs[r]);
    AppendRecord(st'.heads, st'.recs, st.recs[r]);
    if pos == 0 {
      WriteHead(st.heads, st.recs, k, st.recs[r].ptr);
    } else {
      var q := st.lists[k][pos - 1];
      WriteChainPtr(st.heads, st.recs, q, st.recs[r].ptr);
      var q' := st.recs[q].(ptr := st.recs[r].ptr);
      PtrOnly(st.recs[q], st.recs[r].ptr);
      EncodeLength(st.recs[q]);
      EncodeLength(q');
      OffsetKept(st.recs, q, q', |st.recs|);
    }
  }

  /** Record `r` is the first on the free list with these lengths of key and data. */
  ghost predicate FirstFit(st: St, r: nat, keylen: nat, want: nat) {
    && st.lists != [] && (forall i :: 0 <= i < |st.lists[0]| ==> st.lists[0][i] < |st.recs|)
    && exists pos :: 0 <= pos < |st.lists[0]| && st.lists[0][pos] == r && Matches(st.recs[r], keylen, want) &&
         forall i :: 0 <= i < pos ==> !Matches(st.recs[st.lists[0][i]], keylen, want)
  }

  ghost predicate Fresh(st: St, m: map<string, string>, r: nat, key: string) {
    && Represents(st, m) && r < |st.recs| == |st.home| && st.home[r] == NOWHERE
    && key !in m && Offset(st.recs, r) <= PTR_MAX && |st.heads| == NHEADS == |st.lists|
  }

  /** Putting a record that carries `key` and is on no list at the front of its chain. */
  lemma LinkStep(st: St, r: nat, m: map<string, string>)
    requires r < |st.recs| && Fresh(st, m, r, st.recs[r].key)
    requires st.recs[r].ptr == st.heads[Bucket(st.recs[r].key)]
    ensures var k := Bucket(st.recs[r].key);
            var st' := Link(st, r, k);
            && DataOk(st.recs, st.dat)
            && Represents(st', m[st.recs[r].key := Data(st.recs, st.dat, r)])
            && PTR_SZ * k <= |IndexFile(st.heads, st.recs)|
            && WriteAt(IndexFile(st.heads, st.recs), PTR_SZ * k, Padded(PTR_SZ, Offset(st.recs, r)))
            == IndexFile(st'.heads, st'.recs)
  {
    hide WellFormed, Padded, IndexFile, WriteAt, Offset, ListsOk, KeysOk, Blank, Bucket;
    InvOf(st, m);
    var k := Bucket(st.recs[r].key);
    assert forall t :: !IsRecordOf(st, st.recs[r].key, t);
    LinkRepresents(st, r, k, m);
    WriteHead(st.heads, st.recs, k, Offset(st.recs, r));
  }

  /** Filling a free record taken off the free list. */
  lemma ReuseStep(st: St, r: nat, key: string, data: string, m: map<string, string>)
    requires Fresh(st, m, r, key) && SEP !in key && Matches(st.recs[r], |key|, |data| + 1)
    ensures var rec := Rec(st.heads[Bucket(key)], key, st.recs[r].datoff, st.recs[r].datlen);
            && rec.ptr <= PTR_MAX && IDXLEN_MIN <= |Body(rec)| <= IDXLEN_MAX && rec.datoff <= |st.dat|
            && var st' := Rewrite(st, r, rec, data);
            && Fresh(st', m, r, key) && DataOk(st'.recs, st'.dat) && Data(st'.recs, st'.dat, r) == data
            && Offset(st'.recs, r) == Offset(st.recs, r) <= |IndexFile(st.heads, st.recs)|
            && WriteAt(IndexFile(st.heads, st.recs), Offset(st.recs, r), Encode(rec)) == IndexFile(st'.heads, st'.recs)
  {
    hide IndexFile, WriteAt, Offset, ListsOk, KeysOk, Blank, Bucket, Encode, Represents;
    InvOf(st, m);
    var rec := Rec(st.heads[Bucket(key)], key, st.recs[r].datoff, st.recs[r].datlen);
    assert WellFormed(st.recs[r]) && WellFormed(rec);
    RewriteRepresents(st, r, rec, data, m);
    WriteRecord(st.heads, st.recs, r, rec);
    OffsetKept(st.recs, r, rec, r);
    InvOf(Rewrite(st, r, rec, data), m);
  }

  /** Appending a record to both files. */
  lemma AppendStep(st: St, key: string, data: string, m: map<string, string>)
    requires Represents(st, m) && key !in m && SEP !in key && |st.heads| == NHEADS
    requires 0 < |data| + 1 <= DATLEN_MAX
    ensures |st.home| == |st.recs| && st.heads[Bucket(key)] <= PTR_MAX
    ensures var rec := Rec(st.heads[Bucket(key)], key, |st.dat|, |data| + 1);
            var st' := Append(st, rec, data);
            IDXLEN_MIN <= |Body(rec)| <= IDXLEN_MAX ==>
              && Represents(st', m) && DataOk(st'.recs, st'.dat) && Data(st'.recs, st'.dat, |st.recs|) == data
              && Offset(st'.recs, |st.recs|) == |IndexFile(st.heads, st.recs)|
              && WriteAt(IndexFile(st.heads, st.recs), |IndexFile(st.heads, st.recs)|, Encode(rec))
              == IndexFile(st'.heads, st'.recs)
  {
    hide IndexFile, WriteAt, ListsOk, KeysOk, Blank, Bucket, Encode, Represents;
    InvOf(st, m);
    var rec := Rec(st.heads[Bucket(key)], key, |st.dat|, |data| + 1);
    if IDXLEN_MIN <= |Body(rec)| <= IDXLEN_MAX {
      assert WellFormed(rec);
      AppendRepresents(st, rec, data, m);
      AppendRecord(st.heads, st.recs, rec);
      assert (st.recs + [rec])[..|st.recs|] == st.recs[..|st.recs|];
      InvOf(Append(st, rec, data), m);
    }
  }

  class Database {
    var idx: string
    var dat: string

    var idxbuf: string
    var idxoff: nat
    var datoff: nat
    var datlen: nat
    var ptrval: nat
    var ptroff: nat
    var chainoff: nat
    var cursor: nat

    ghost var st: St
    ghost var contents: map<string, string>

    /** Create an empty database. */
    constructor ()
      ensures Valid() && Complete(st) && View() == Disk(map[], multiset{}, 829, 0)
    {
      var zero := Padded(PTR_SZ, 0);
      var table, i := "", 0;
      while i < NHASH + 1
        invariant 0 <= i <= NHASH + 1 && table == EncodeHeads(Zeros(i))
      {
        ZerosSnoc(i);
        table := table + zero;
        i := i + 1;
      }
      idx := table + [NEWLINE];
      dat := "";
      idxbuf, idxoff, datoff, datlen, ptrval, ptroff, chainoff, cursor := "", 0, 0, 0, 0, 0, 0, BASE;
      st := EmptySt();
      contents := map[];
      new;
      EmptyRepresents();
      assert idx == IndexFile(st.heads, st.recs) by {
        assert EncodeRecs([]) == [];
      }
      HeadsLength(Zeros(NHEADS));
    }

    /** The files are well formed and represent the finite map `contents`. */
    ghost predicate Valid()
      reads `idx, `dat, `st, `contents
    {
      idx == IndexFile(st.heads, st.recs) && dat == st.dat && Represents(st, contents)
    }

    /** The map, the sizes of the free records and the lengths of the files. */
    ghost function View(): Disk
      reads `idx, `dat, `st, `contents
    {
      Disk(contents, FreeSizes(st), |idx|, |dat|)
    }

    /** The private structure describes record `r`. */
    ghost predicate Current(r: nat)
      reads this
    {
      r < |st.recs| && idxoff == Offset(st.recs, r) &&
      Rec(ptrval, idxbuf, datoff, datlen) == st.recs[r]
    }

    /** `ptroff` is the place of the pointer to the record at `pos` of list `k`. */
    ghost predicate PointsAt(where: nat, k: nat, pos: nat)
      reads this
    {
      && k < NHEADS && k < |st.lists| && pos <= |st.lists[k]|
      && (pos > 0 ==> st.lists[k][pos - 1] < |st.recs|)
      && where == if pos == 0 then PTR_SZ * k else Offset(st.recs, st.lists[k][pos - 1])
    }

    method ReadIndex(offset: nat, ghost r: nat)
      requires Valid() && r < |st.recs| && offset == Offset(st.recs, r)
      modifies `idxbuf, `idxoff, `datoff, `datlen, `ptrval
      ensures Current(r)
    {
      hide Represents;
      assert AllWellFormed(st.heads, st.recs) by { InvOf(st, contents); }
      ReadRecord(st.heads, st.recs, r);
      var rec := ReadIdx(idx, offset);
      idxoff := offset;
      ptrval, idxbuf, datoff, datlen := rec.value.ptr, rec.value.key, rec.value.datoff, rec.value.datlen;
    }

    /** Walk the chain of a key until its record is found or the chain ends. */
    method FindAndLock(key: string) returns (found: bool, ghost pos: nat)
      requires Valid()
      modifies `idxbuf, `idxoff, `datoff, `datlen, `ptrval, `ptroff, `chainoff
      ensures chainoff == PTR_SZ * Bucket(key)
      ensures found <==> key in contents
      ensures |st.lists| == NHEADS
      ensures found ==> pos < |st.lists[Bucket(key)]| && Current(st.lists[Bucket(key)][pos]) && idxbuf == key
      ensures found ==> PointsAt(ptroff, Bucket(key), pos)
    {
      hide Valid, Offset, Ptrs, Linked, AllWellFormed, ReadIdx, ReadPtr;
      ghost var k := Bucket(key);
      ListHead(k);
      ghost var list := st.lists[k];
      var hval := Hash(key);
      chainoff := hval * PTR_SZ + PTR_SZ;
      ptroff := chainoff;
      var offset := ReadPtr(idx, ptroff).value;
      pos := 0;
      while offset != 0
        invariant 0 <= pos <= |list| && PointsAt(ptroff, k, pos) && Valid() && chainoff == PTR_SZ * k
        invariant offset == if pos < |list| then Offset(st.recs, list[pos]) else 0
        invariant forall i :: 0 <= i < pos ==> st.recs[list[i]].key != key
        decreases |list| - pos
      {
        ListNext(k, pos);
        ReadIndex(offset, list[pos]);
        if idxbuf == key {
          break;
        }
        ptroff := offset;
        offset := ptrval;
        pos := pos + 1;
      }
      if pos < |list| {
        ListNext(k, pos);
      }
      found := offset != 0;
      assert found ==> st.recs[list[pos]].key == key;
      Lookup(key);
    }

    /** The pointer at the head of list `k` leads to its first record. */
    lemma ListHead(k: nat)
      requires Valid() && k < NHEADS
      ensures |st.lists| == NHEADS == |st.heads|
      ensures ReadPtr(idx, PTR_SZ * k) == Some(st.heads[k])
      ensures forall i :: 0 <= i < |st.lists[k]| ==> st.lists[k][i] < |st.recs|
      ensures st.heads[k] == if st.lists[k] == [] then 0 else Offset(st.recs, st.lists[k][0])
    {
      ListFacts(st, k);
      ReadHead(st.heads, st.recs, k);
    }

    /** The pointer in a record leads to the next record of its list. */
    lemma ListNext(k: nat, pos: nat)
      requires Valid() && k < NHEADS && |st.lists| == NHEADS && pos < |st.lists[k]|
      ensures var list := st.lists[k];
              && list[pos] < |st.recs| && Offset(st.recs, list[pos]) != 0
              && (pos + 1 < |list| ==> list[pos + 1] < |st.recs|)
              && st.recs[list[pos]].ptr == if pos + 1 < |list| then Offset(st.recs, list[pos + 1]) else 0
    {
      ListFacts(st, k);
      assert Ptrs(st.recs)[st.lists[k][pos]] == st.recs[st.lists[k][pos]].ptr;
    }

    lemma Lookup(key: string)
      requires Valid()
      ensures |st.lists| == NHEADS
      ensures forall i :: 0 <= i < |st.lists[Bucket(key)]| ==> st.lists[Bucket(key)][i] < |st.recs|
      ensures key in contents <==>
              exists i :: 0 <= i < |st.lists[Bucket(key)]| && st.recs[st.lists[Bucket(key)][i]].key == key
    {
      ListFacts(st, Bucket(key));
      LookupOnChain(st, key, contents);
    }

    // ----- writing -----

    method WritePtr(offset: nat, p: nat) returns (ok: bool)
      requires offset <= |idx|
      modifies `idx
      ensures ok <==> p <= PTR_MAX
      ensures idx == if ok then WriteAt(old(idx), offset, Padded(PTR_SZ, p)) else old(idx)
    {
      ok := p <= PTR_MAX;
      if ok {
        idx := WriteAt(idx, offset, Padded(PTR_SZ, p));
      }
    }

    method WriteIdx(key: string, offset: nat, ptr: nat) returns (ok: bool)
      requires offset <= |idx|
      modifies `idx, `idxbuf, `idxoff, `ptrval
      ensures var r := Rec(ptr, key, datoff, datlen);
              && (ok <==> ptr <= PTR_MAX && IDXLEN_MIN <= |Body(r)| <= IDXLEN_MAX)
              && idx == (if ok then WriteAt(old(idx), offset, Encode(r)) else old(idx))
      ensures ok ==> idxoff == offset && ptrval == ptr
    {
      ptrval := ptr;
      ok := ptr <= PTR_MAX;
      if ok {
        idxbuf := Body(Rec(ptr, key, datoff, datlen));
        ok := IDXLEN_MIN <= |idxbuf| <= IDXLEN_MAX;
        if ok {
          idxoff := offset;
          idx := WriteAt(idx, offset, Padded(PTR_SZ, ptr) + Padded(IDXLEN_SZ, |idxbuf|) + idxbuf);
        }
      }
    }

    method WriteDat(data: string, offset: nat)
      requires offset <= |dat|
      modifies `dat, `datoff, `datlen
      ensures dat == WriteAt(old(dat), offset, data + [NEWLINE])
      ensures datoff == offset && datlen == |data| + 1
    {
      datoff := offset;
      datlen := |data| + 1;
      dat := WriteAt(dat, offset, data + [NEWLINE]);
    }

    method ReadDat() returns (data: string)
      requires datlen > 0 && datoff + datlen <= |dat| && dat[datoff + datlen - 1] == NEWLINE
      ensures data == dat[datoff..datoff + datlen - 1]
    {
      var buf := dat[datoff..datoff + datlen];
      data := buf[..datlen - 1];
    }

    /** Delete the current record: blank it, put it at the front of the free list and
        take it out of its chain.  The last two writes are the ones that do it. */
    method DoDelete(ghost k: nat, ghost pos: nat)
      requires Valid() && 1 <= k < NHEADS && |st.lists| == NHEADS && pos < |st.lists[k]|
      requires Current(st.lists[k][pos]) && PointsAt(ptroff, k, pos)
      modifies `idx, `dat, `idxbuf, `idxoff, `datoff, `datlen, `ptrval, `st, `contents
      ensures Valid() && contents == old(contents) - {old(idxbuf)}
      ensures |idx| == old(|idx|) && |dat| == old(|dat|)
      ensures BlankedFrom(old(dat), dat, old(datoff), old(datlen))
      ensures FreeSizes(st) == old(FreeSizes(st)) + multiset{(|old(idxbuf)|, old(datlen))}
      ensures old(Complete(st)) ==> Complete(st)
    {
      hide Valid, IndexFile, Offset, WriteAt, Encode, Body, Padded, Deleted, Blanks, ReadPtr, Complete, Represents,
           PtrPlace, FreeSizes, BlankedFrom;
      DeletionFacts(k, pos);
      FreeHead();
      ghost var r := st.lists[k][pos];
      var blanks := Blanks(datlen - 1);
      var key := Blanks(|idxbuf|);
      WriteDat(blanks, datoff);
      var freeptr := ReadPtr(idx, 0).value;
      var saveptr := ptrval;
      var ok := WriteIdx(key, idxoff, freeptr);
      ok := WritePtr(0, idxoff);
      ok := WritePtr(ptroff, saveptr);
      contents := contents - {old(idxbuf)};
      st := Deleted(st, k, pos);
      ValidIntro();
      BlankedData(old(dat), dat, old(datoff), old(datlen));
    }

    lemma ValidIntro()
      requires idx == IndexFile(st.heads, st.recs) && dat == st.dat && Represents(st, contents)
      ensures Valid()
    {
    }

    lemma FreeHead()
      requires Valid()
      ensures |st.heads| == NHEADS && ReadPtr(idx, 0) == Some(st.heads[0]) && st.heads[0] <= PTR_MAX
    {
      InvOf(st, contents);
      ReadHead(st.heads, st.recs, 0);
    }

    lemma DeletionFacts(k: nat, pos: nat)
      requires Valid() && 1 <= k < NHEADS && |st.lists| == NHEADS && pos < |st.lists[k]|
      requires Current(st.lists[k][pos]) && PointsAt(ptroff, k, pos)
      ensures Inv(st) && datlen >= 1 && datoff <= |dat| && |st.heads| == NHEADS && idxoff <= PTR_MAX &&
              ptrval <= PTR_MAX
      ensures var b := Rec(st.heads[0], Blanks(|idxbuf|), datoff, datlen);
              && IDXLEN_MIN <= |Body(b)| <= IDXLEN_MAX
              && idxoff <= |idx|
              && var f2 := WriteAt(WriteAt(idx, idxoff, Encode(b)), 0, Padded(PTR_SZ, idxoff));
              && ptroff <= |f2|
              && WriteAt(f2, ptroff, Padded(PTR_SZ, ptrval))
                   == IndexFile(Deleted(st, k, pos).heads, Deleted(st, k, pos).recs)
      ensures var st' := Deleted(st, k, pos);
              && Represents(st', contents - {idxbuf})
              && st'.dat == WriteAt(dat, datoff, Blanks(datlen - 1) + [NEWLINE])
              && |IndexFile(st'.heads, st'.recs)| == |idx| && |st'.dat| == |dat|
              && FreeSizes(st') == FreeSizes(st) + multiset{(|idxbuf|, datlen)}
              && (Complete(st) ==> Complete(st'))
    {
      hide IndexFile, Offset, WriteAt, Encode, Body, Padded, Represents, ListsOk, KeysOk, WellFormed, Complete;
      InvOf(st, contents);
      var r := st.lists[k][pos];
      BlankFits(st, r);
      assert WellFormed(st.recs[r]) && WellFormed(BlankRec(st, r));
      PtrBound(st.recs[r]);
      BodyBound(BlankRec(st, r));
      OnListBound(st, k, pos);
      DeletedRepresents(st, k, pos, contents);
      InvOf(Deleted(st, k, pos), contents - {idxbuf});
      DeletedFile(st, k, pos);
      DeletedLengths(st, k, pos);
      DeletedSizes(st, k, pos);
    }

    // ----- reading everything in file order -----

    ghost predicate ScanAt(i: nat)
      reads `cursor, `st
    {
      i <= |st.recs| && cursor == Offset(st.recs, i)
    }

    method Rewind()
      requires Valid()
      modifies `cursor
      ensures ScanAt(0)
    {
      cursor := (NHASH + 1) * PTR_SZ + 1;
      assert st.recs[..0] == [];
    }

    /** The next record whose key is not blank, in file order. */
    method NextRec(ghost i: nat) returns (r: Option<(string, string)>, ghost j: nat)
      requires Valid() && ScanAt(i)
      modifies `idxbuf, `idxoff, `datoff, `datlen, `ptrval, `cursor
      ensures i <= j <= |st.recs| && forall n :: i <= n < j ==> Blank(st.recs[n].key)
      ensures r == None <==> j == |st.recs|
      ensures DataOk(st.recs, st.dat)
      ensures j < |st.recs| ==> !Blank(st.recs[j].key) && r == Some((st.recs[j].key, Data(st.recs, st.dat, j)))
      ensures ScanAt(if j < |st.recs| then j + 1 else j)
    {
      hide Valid, Offset, Body, Encode, IndexFile;
      FileEnd();
      j := i;
      while cursor != |idx|
        invariant Valid() && i <= j <= |st.recs| && cursor == Offset(st.recs, j) && |idx| == Offset(st.recs, |st.recs|)
        invariant forall n :: i <= n < j ==> Blank(st.recs[n].key)
        decreases |st.recs| - j
      {
        CursorInside(j);
        ReadIndex(cursor, j);
        cursor := cursor + PTR_SZ + IDXLEN_SZ + |Body(Rec(ptrval, idxbuf, datoff, datlen))|;
        if !Blank(idxbuf) {
          var data := ReadDat();
          r := Some((idxbuf, data));
          return;
        }
        j := j + 1;
      }
      CursorAtEnd(j);
      r := None;
    }

    lemma FileEnd()
      requires Valid()
      ensures |idx| == Offset(st.recs, |st.recs|) && DataOk(st.recs, st.dat)
    {
      InvOf(st, contents);
      AppendRecord(st.heads, st.recs, Rec(0, "", 0, 0));
    }

    lemma CursorInside(j: nat)
      requires Valid() && j <= |st.recs| && cursor == Offset(st.recs, j) && cursor != |idx|
      requires |idx| == Offset(st.recs, |st.recs|)
      ensures j < |st.recs|
      ensures Offset(st.recs, j + 1) == Offset(st.recs, j) + PTR_SZ + IDXLEN_SZ + |Body(st.recs[j])|
      ensures DataOk(st.recs, st.dat) && dat == st.dat
    {
      InvOf(st, contents);
      OffsetNext(st.recs, j);
      EncodeLength(st.recs[j]);
    }

    lemma CursorAtEnd(j: nat)
      requires Valid() && j <= |st.recs| && Offset(st.recs, j) == Offset(st.recs, |st.recs|)
      ensures j == |st.recs|
    {
      InvOf(st, contents);
      if j < |st.recs| {
        OffsetsIncrease(st.recs, j, |st.recs|);
      }
    }

    /** Rewinding and reading to the end yields every live key that is not blank
        exactly once, with its current data, and no deleted record. */
    method ReadAll() returns (all: seq<(string, string)>)
      requires Valid() && Complete(st)
      modifies `idxbuf, `idxoff, `datoff, `datlen, `ptrval, `cursor
      ensures DistinctKeys(all)
      ensures forall key, data :: (key, data) in all <==> key in contents && contents[key] == data && !Blank(key)
    {
      hide Valid, Offset, IndexFile, DataOk, Blank, Complete, Data;
      Rewind();
      all := [];
      FileEnd();
      ghost var i := 0;
      while true
        invariant Valid() && Complete(st) && ScanAt(i) && DataOk(st.recs, st.dat) && all == NonBlank(st.recs, st.dat, i)
        decreases |st.recs| - i
      {
        var r;
        ghost var j;
        r, j := NextRec(i);
        NonBlankSkip(st.recs, st.dat, i, j);
        if r == None {
          break;
        }
        all := all + [r.value];
        i := j + 1;
      }
      AllRead();
    }

    lemma AllRead()
      requires Valid() && Complete(st)
      ensures DataOk(st.recs, st.dat)
      ensures var all := NonBlank(st.recs, st.dat, |st.recs|);
              && DistinctKeys(all)
              && (forall key, data :: (key, data) in all <==> key in contents && contents[key] == data && !Blank(key))
    {
      NonBlankIsContents(st, contents);
    }

    // ----- storing -----

    /** Look for a free record of exactly the right sizes and take it off the free list. */
    method FindFree(keylen: nat, want: nat) returns (found: bool, ghost r: nat)
      requires Valid()
      modifies `idx, `idxbuf, `idxoff, `datoff, `datlen, `ptrval, `st
      ensures Valid() && |idx| == old(|idx|)
      ensures found <==> (keylen, want) in old(FreeSizes(st))
      ensures found ==> FreeSizes(st) == old(FreeSizes(st)) - multiset{(keylen, want)}
      ensures !found ==> idx == old(idx) && st == old(st)
      ensures |st.heads| == NHEADS == |old(st.heads)| && st.heads[1..] == old(st.heads[1..])
      ensures found ==> Taken(r, keylen, want) && (old(Complete(st)) ==> CompleteBut(st, r))
      ensures found ==> FirstFit(old(st), r, keylen, want)
    {
      hide Valid, Offset, Ptrs, Linked, AllWellFormed, ReadIdx, ReadPtr, FreeSizes, Unlink, Complete, WriteAt, Padded,
           IndexFile;
      r := 0;
      ListHead(0);
      ghost var list := st.lists[0];
      var saveoffset := 0;
      var offset := ReadPtr(idx, saveoffset).value;
      ghost var pos := 0;
      while offset != 0
        invariant st == old(st) && idx == old(idx) && Valid()
        invariant 0 <= pos <= |list| && PointsAt(saveoffset, 0, pos)
        invariant offset == if pos < |list| then Offset(st.recs, list[pos]) else 0
        invariant forall i :: 0 <= i < pos ==> !Matches(st.recs[list[i]], keylen, want)
        decreases |list| - pos
      {
        ListNext(0, pos);
        ReadIndex(offset, list[pos]);
        if |idxbuf| == keylen && datlen == want {
          break;
        }
        saveoffset := offset;
        offset := ptrval;
        pos := pos + 1;
      }
      if pos < |list| {
        ListNext(0, pos);
      }
      found := offset != 0;
      FreeLookup(keylen, want);
      if found {
        r := list[pos];
        assert FirstFit(st, r, keylen, want);
        TakeFacts(saveoffset, pos, r);
        var ok := WritePtr(saveoffset, ptrval);
        st := Unlink(st, 0, pos);
        ValidIntro();
      }
    }

    /** The private structure describes `r`, which fits and is on no list. */
    ghost predicate Taken(r: nat, keylen: nat, want: nat)
      reads this
    {
      && r < |st.recs| == |st.home| && st.home[r] == NOWHERE && Matches(st.recs[r], keylen, want)
      && idxoff == Offset(st.recs, r) <= PTR_MAX && datoff == st.recs[r].datoff && datlen == st.recs[r].datlen
    }

    lemma FreeLookup(keylen: nat, want: nat)
      requires Valid()
      ensures |st.lists| == NHEADS
      ensures forall i :: 0 <= i < |st.lists[0]| ==> st.lists[0][i] < |st.recs|
      ensures (keylen, want) in FreeSizes(st) <==>
              exists i :: 0 <= i < |st.lists[0]| && Matches(st.recs[st.lists[0][i]], keylen, want)
    {
      ListFacts(st, 0);
      assert Houses(st.lists[0], st.home, 0);
      SizeOfFree(st.recs, st.home, |st.recs|, (keylen, want));
      if (keylen, want) in FreeSizes(st) {
        var r :| 0 <= r < |st.recs| && st.home[r] == 0 && Matches(st.recs[r], keylen, want);
        assert r in st.lists[0];
      }
    }

    lemma TakeFacts(where: nat, pos: nat, r: nat)
      requires Valid() && |st.lists| == NHEADS && pos < |st.lists[0]| && r == st.lists[0][pos]
      requires Current(r) && PointsAt(where, 0, pos)
      ensures Inv(st) && |st.heads| == NHEADS && idxoff <= PTR_MAX && ptrval <= PTR_MAX && where <= |idx|
      ensures var st' := Unlink(st, 0, pos);
              && Represents(st', contents) && st'.dat == dat
              && WriteAt(idx, where, Padded(PTR_SZ, ptrval)) == IndexFile(st'.heads, st'.recs)
              && |IndexFile(st'.heads, st'.recs)| == |idx|
              && |st'.heads| == NHEADS && st'.heads[1..] == st.heads[1..]
              && r < |st'.recs| == |st'.home| && st'.recs[r] == st.recs[r] && st'.home[r] == NOWHERE
              && Offset(st'.recs, r) == Offset(st.recs, r)
              && (Complete(st) ==> CompleteBut(st', r))
              && FreeSizes(st') == FreeSizes(st) - multiset{Size(st.recs[r])}
    {
      hide IndexFile, Offset, WriteAt, Padded, Represents, ListsOk, KeysOk, WellFormed;
      InvOf(st, contents);
      OnListBound(st, 0, pos);
      UnlinkRepresents(st, 0, pos, contents);
      UnlinkedFile(st, 0, pos);
      UnlinkKeepsRecord(st, 0, pos);
      UnlinkFree(st, pos);
    }

    /** Append a new record and put it at the front of its chain. */
    method StoreAppend(key: string, data: string, ptr: nat) returns (ok: bool)
      requires Valid() && key !in contents && chainoff == PTR_SZ * Bucket(key)
      requires |data| + 1 <= DATLEN_MAX && |st.heads| == NHEADS && ptr == st.heads[Bucket(key)]
      modifies `idx, `dat, `idxbuf, `idxoff, `datoff, `datlen, `ptrval, `st, `contents
      ensures ok <==> !OverLimit(old(View()), key, |data|)
      ensures SEP in key && FitsIndex(key, old(|dat|), |data|) ==>
                HasBroken(idx) && (ok ==> Unreadable(idx, Bucket(key)))
      ensures !(SEP in key && FitsIndex(key, old(|dat|), |data|)) ==>
                Valid() && View() == Appended(old(View()), key, data) && (ok && old(Complete(st)) ==> Complete(st))
    {
      hide Valid, IndexFile, WriteAt, Encode, Body, Padded, Represents, Bucket, Data, Offset, HasBroken, Unreadable,
           FreeSizes;
      ghost var rec := Rec(ptr, key, |dat|, |data| + 1);
      BodyPtr(rec, Rec(0, key, |dat|, |data| + 1));
      AppendFacts(key, data);
      WriteDat(data, |dat|);
      WriteAtEnd(old(dat), data + [NEWLINE]);
      assert dat == st.dat + data + [NEWLINE];
      ok := WriteIdx(key, |idx|, ptr);
      if !ok {
        DataAppended(st, data + [NEWLINE], contents);
        SameSizes(st, st.(dat := dat));
        st := st.(dat := dat);
        ValidIntro();
        return;
      }
      WriteAtEnd(old(idx), Encode(rec));
      EncodedSize(rec);
      if SEP in key {
        Broken(old(idx), |old(idx)|, rec, chainoff, Bucket(key));
      } else {
        AppendSizes(st, rec, data);
        st := Append(st, rec, data);
      }
      ok := WritePtr(chainoff, idxoff);
      if SEP !in key {
        if ok {
          ghost var n := |old(st.recs)|;
          LinkStep(st, n, contents);
          LinkSizes(st, n, Bucket(key));
          SameLength(old(idx) + Encode(rec), chainoff, idxoff);
          contents := contents[key := data];
          st := Link(st, n, Bucket(key));
        }
        ValidIntro();
      }
    }

    lemma AppendFacts(key: string, data: string)
      requires Valid() && key !in contents && |data| + 1 <= DATLEN_MAX && |st.heads| == NHEADS
      ensures Represents(st, contents) && dat == st.dat && idx == IndexFile(st.heads, st.recs)
      ensures |st.home| == |st.recs| && st.heads[Bucket(key)] <= PTR_MAX && PTR_SZ * Bucket(key) + PTR_SZ <= |idx|
      ensures var rec := Rec(st.heads[Bucket(key)], key, |st.dat|, |data| + 1);
              var st' := Append(st, rec, data);
              IDXLEN_MIN <= |Body(rec)| <= IDXLEN_MAX && SEP !in key ==>
                && Represents(st', contents) && DataOk(st'.recs, st'.dat) && Data(st'.recs, st'.dat, |st.recs|) == data
                && Offset(st'.recs, |st.recs|) == |idx| && |st'.lists| == NHEADS
                && WriteAt(idx, |idx|, Encode(rec)) == IndexFile(st'.heads, st'.recs)
                && PTR_SZ * Bucket(key) <= |IndexFile(st'.heads, st'.recs)|
    {
      hide Offset, WriteAt, Encode, Body, Padded, Represents, Bucket, Data;
      InvOf(st, contents);
      if SEP !in key {
        AppendStep(st, key, data, contents);
      }
      HeadsLength(st.heads);
    }

    /** Fill the free record that was found and put it at the front of its chain. */
    method StoreReuse(key: string, data: string, ptr: nat, ghost r: nat)
      requires Valid() && key !in contents && chainoff == PTR_SZ * Bucket(key)
      requires |st.heads| == NHEADS && ptr == st.heads[Bucket(key)] && Taken(r, |key|, |data| + 1)
      modifies `idx, `dat, `idxbuf, `idxoff, `datoff, `datlen, `ptrval, `st, `contents
      ensures SEP in key ==> HasBroken(idx) && Unreadable(idx, Bucket(key))
      ensures SEP !in key ==>
                Valid() && View() == old(View()).(m := old(contents)[key := data]) &&
                (old(CompleteBut(st, r)) ==> Complete(st))
    {
      hide Valid, IndexFile, WriteAt, Encode, Body, Padded, Represents, Bucket, Data, Offset, HasBroken, Unreadable,
           FreeSizes;
      ReuseFacts(key, data, r);
      ghost var rec := Rec(ptr, key, datoff, datlen);
      WriteDat(data, datoff);
      var ok := WriteIdx(key, idxoff, ptr);
      WrittenInside(old(dat), datoff, data + [NEWLINE]);
      WrittenInside(old(idx), idxoff, Encode(rec));
      SameLength(idx, chainoff, idxoff);
      if SEP in key {
        Broken(old(idx), idxoff, rec, chainoff, Bucket(key));
      } else {
        RewriteSizes(st, r, rec, data);
        st := Rewrite(st, r, rec, data);
        LinkStep(st, r, contents);
        LinkSizes(st, r, Bucket(key));
      }
      ok := WritePtr(chainoff, idxoff);
      if SEP !in key {
        contents := contents[key := data];
        st := Link(st, r, Bucket(key));
        ValidIntro();
      }
    }

    lemma ReuseFacts(key: string, data: string, r: nat)
      requires Valid() && key !in contents && |st.heads| == NHEADS && Taken(r, |key|, |data| + 1)
      ensures Represents(st, contents) && dat == st.dat && idx == IndexFile(st.heads, st.recs)
      ensures st.heads[Bucket(key)] <= PTR_MAX && datoff + datlen <= |dat| && 0 < datlen <= DATLEN_MAX &&
              idxoff <= PTR_MAX
      ensures PTR_SZ * Bucket(key) + PTR_SZ <= idxoff
      ensures idxoff + |Encode(Rec(st.heads[Bucket(key)], key, datoff, datlen))| <= |idx|
      ensures var rec := Rec(st.heads[Bucket(key)], key, datoff, datlen); IDXLEN_MIN <= |Body(rec)| <= IDXLEN_MAX
      ensures var rec := Rec(st.heads[Bucket(key)], key, datoff, datlen);
              SEP !in key ==>
              var st' := Rewrite(st, r, rec, data);
              && Fresh(st', contents, r, key) && DataOk(st'.recs, st'.dat) && Data(st'.recs, st'.dat, r) == data
              && Offset(st'.recs, r) == idxoff <= |idx|
              && WriteAt(idx, idxoff, Encode(rec)) == IndexFile(st'.heads, st'.recs)
    {
      hide Offset, WriteAt, Encode, Body, Padded, Represents, Bucket, Data;
      InvOf(st, contents);
      RecordBounds(st, r);
      SameBody(st.recs[r], st.heads[Bucket(key)], key);
      EncodeLength(st.recs[r]);
      BodyBound(st.recs[r]);
      EncodedSize(Rec(st.heads[Bucket(key)], key, datoff, datlen));
      if SEP !in key {
        ReuseStep(st, r, key, data, contents);
      }
    }

    /** Store a record.  The reply is 0 on success, 1 if the key exists and the flag
        asks for insertion only, and -1 for a bad flag or a missing key to replace.  A key
        with a separator is not refused: once its record is written, the file has a record
        that stops whoever reads it, and if the store succeeds it is the first of its chain. */
    method Store(key: string, data: string, flag: int) returns (reply: Reply)
      requires Valid()
      modifies this
      ensures reply == StoreReply(old(View()), key, data, flag)
      ensures !Spoils(old(View()), key, data, flag) ==>
                Valid() && View() == Stored(old(View()), key, data, flag)
                && (old(Complete(st)) && !reply.Stopped? ==> Complete(st))
      ensures Spoils(old(View()), key, data, flag) ==>
                HasBroken(idx) && (reply == Code(0) ==> Unreadable(idx, Bucket(key)))
    {
      hide Valid, IndexFile, Offset, Represents, Bucket, Complete, FreeSizes, OverLimit, HasBroken, Unreadable,
           FitsIndex, RecSize;
      if flag != DB_INSERT && flag != DB_REPLACE && flag != DB_STORE {
        return Code(-1);
      }
      if |data| + 1 < DATLEN_MIN || |data| + 1 > DATLEN_MAX {
        return Stopped;
      }
      var found;
      ghost var pos;
      found, pos := FindAndLock(key);
      KeysHaveNoSep(key);
      if !found {
        if flag == DB_REPLACE {
          return Code(-1);
        }
        reply := StoreNew(key, data);
      } else {
        if flag == DB_INSERT {
          return Code(1);
        }
        reply := StoreAgain(key, data, pos);
      }
    }

    /** A key that is not there: a free record of the right sizes is filled, or a new one is
        appended. */
    method StoreNew(key: string, data: string) returns (reply: Reply)
      requires Valid() && key !in contents && chainoff == PTR_SZ * Bucket(key) && LegalData(data)
      modifies this
      ensures reply == StoreReply(old(View()), key, data, DB_STORE)
      ensures !Spoils(old(View()), key, data, DB_STORE) ==>
                Valid() && View() == Stored(old(View()), key, data, DB_STORE)
                && (old(Complete(st)) && !reply.Stopped? ==> Complete(st))
      ensures Spoils(old(View()), key, data, DB_STORE) ==>
                HasBroken(idx) && (reply == Code(0) ==> Unreadable(idx, Bucket(key)))
    {
      hide Valid, IndexFile, Offset, Represents, Bucket, Complete, FreeSizes, OverLimit, HasBroken, Unreadable,
           FitsIndex, RecSize;
      ChainHead(key);
      var ptr := ReadPtr(idx, chainoff).value;
      var reuse;
      ghost var r;
      reuse, r := FindFree(|key|, |data| + 1);
      assert st.heads[Bucket(key)] == st.heads[1..][Bucket(key) - 1];
      if !reuse {
        var ok := StoreAppend(key, data, ptr);
        reply := if ok then Code(0) else Stopped;
      } else {
        StoreReuse(key, data, ptr, r);
        reply := Code(0);
      }
    }

    /** A key that is there: data of the same length is overwritten; otherwise the record is
        deleted and a new one appended. */
    method StoreAgain(key: string, data: string, ghost pos: nat) returns (reply: Reply)
      requires Valid() && key in contents && SEP !in key && chainoff == PTR_SZ * Bucket(key) && LegalData(data)
      requires |st.lists| == NHEADS && pos < |st.lists[Bucket(key)]| && Current(st.lists[Bucket(key)][pos]) &&
               idxbuf == key
      requires PointsAt(ptroff, Bucket(key), pos)
      modifies this
      ensures reply == StoreReply(old(View()), key, data, DB_STORE)
      ensures Valid() && View() == Stored(old(View()), key, data, DB_STORE)
      ensures old(Complete(st)) && !reply.Stopped? ==> Complete(st)
    {
      hide Valid, IndexFile, Offset, Represents, Bucket, Complete, FreeSizes, OverLimit, HasBroken, Unreadable,
           FitsIndex, RecSize;
      CurrentData(Bucket(key), pos);
      if |data| + 1 != datlen {
        DoDelete(Bucket(key), pos);
        ChainHead(key);
        var ptr := ReadPtr(idx, chainoff).value;
        var ok := StoreAppend(key, data, ptr);
        reply := if ok then Code(0) else Stopped;
      } else {
        ghost var r := st.lists[Bucket(key)][pos];
        Overwritten(key, r, data);
        WrittenInside(dat, datoff, data + [NEWLINE]);
        WriteDat(data, datoff);
        SameSizes(st, st.(dat := dat));
        st := st.(dat := dat);
        contents := contents[key := data];
        ValidIntro();
        reply := Code(0);
      }
    }

    lemma KeysHaveNoSep(key: string)
      requires Valid()
      ensures key in contents ==> SEP !in key
    {
      hide IndexFile, ListsOk, DataOk;
      if key in contents {
        Lookup(key);
        InvOf(st, contents);
        var i :| 0 <= i < |st.lists[Bucket(key)]| && st.recs[st.lists[Bucket(key)][i]].key == key;
        assert WellFormed(st.recs[st.lists[Bucket(key)][i]]);
      }
    }

    lemma ChainHead(key: string)
      requires Valid()
      ensures |st.heads| == NHEADS && ReadPtr(idx, PTR_SZ * Bucket(key)) == Some(st.heads[Bucket(key)])
    {
      ListHead(Bucket(key));
    }

    /** The current record's data is what the map holds for its key. */
    lemma CurrentData(k: nat, pos: nat)
      requires Valid() && 1 <= k < NHEADS && |st.lists| == NHEADS && pos < |st.lists[k]| && Current(st.lists[k][pos])
      ensures IsRecordOf(st, idxbuf, st.lists[k][pos])
      ensures datlen > 0 && datoff + datlen <= |dat| && dat[datoff + datlen - 1] == NEWLINE
      ensures idxbuf in contents && contents[idxbuf] == dat[datoff..datoff + datlen - 1]
    {
      hide AllWellFormed, ListsOk, KeysOk, IndexFile, Offset;
      ListFacts(st, k);
      assert IsRecordOf(st, idxbuf, st.lists[k][pos]);
    }

    lemma Overwritten(key: string, r: nat, data: string)
      requires Valid() && IsRecordOf(st, key, r) && |data| + 1 == st.recs[r].datlen
      ensures st.recs[r].datoff <= |dat|
      ensures var st' := st.(dat := WriteAt(dat, st.recs[r].datoff, data + [NEWLINE]));
              Represents(st', contents[key := data]) && (Complete(st) ==> Complete(st')) &&
              idx == IndexFile(st.heads, st.recs)
    {
      hide WriteAt;
      OverwriteRepresents(st, key, r, data, contents);
    }

    /** Fetch the data stored under a key. */
    method Fetch(key: string) returns (r: Option<string>)
      requires Valid()
      modifies `idxbuf, `idxoff, `datoff, `datlen, `ptrval, `ptroff, `chainoff
      ensures r == if key in contents then Some(contents[key]) else None
    {
      hide Valid, Offset, Bucket;
      var found;
      ghost var pos;
      found, pos := FindAndLock(key);
      if !found {
        r := None;
      } else {
        CurrentData(Bucket(key), pos);
        var data := ReadDat();
        r := Some(data);
      }
    }

    /** Delete a key; -1 if it is not there. */
    method Delete(key: string) returns (rc: int)
      requires Valid()
      modifies this
      ensures Valid() && View() == if key in old(contents) then Erased(old(View()), key) else old(View())
      ensures rc == if key in old(contents) then 0 else -1
      ensures old(Complete(st)) ==> Complete(st)
    {
      hide Valid, Offset, Bucket, Complete, FreeSizes;
      var found;
      ghost var pos;
      found, pos := FindAndLock(key);
      if found {
        CurrentData(Bucket(key), pos);
        DoDelete(Bucket(key), pos);
        rc := 0;
      } else {
        rc := -1;
      }
    }

    /** One call; no answer if and only if it stops the process. */
    method Perform(call: Call) returns (answer: Option<Answer>)
      requires Valid() && (call.StoreCall? ==> SEP !in call.key)
      modifies this
      ensures Valid() && answer == Reaction(old(View()), call) && View() == Performed(old(View()), call)
      ensures old(Complete(st)) && answer.Some? ==> Complete(st)
    {
      hide Valid, Complete, StoreReply, Stored, FreeSizes;
      match call {
        case StoreCall(key, data, flag) =>
          var reply := Store(key, data, flag);
          answer := if reply.Stopped? then None else Some(Status(reply.rc));
        case FetchCall(key) =>
          var r := Fetch(key);
          answer := Some(Fetched(r));
        case DeleteCall(key) =>
          var rc := Delete(key);
          answer := Some(Status(rc));
      }
    }

    /** Run a sequence of calls until one of them stops the process.  What the calls answer,
        where the run ends and what it leaves follows from the map, the sizes of the free
        records and the lengths of the files. */
    method Run(calls: seq<Call>) returns (answers: seq<Answer>)
      requires Valid() && forall i :: 0 <= i < |calls| && calls[i].StoreCall? ==> SEP !in calls[i].key
      modifies this
      ensures Valid() && answers == RunAnswers(old(View()), calls) && View() == RunEnd(old(View()), calls)
      ensures old(Complete(st)) && |answers| == |calls| ==> Complete(st)
    {
      hide Valid, Complete, Reaction, Performed, FreeSizes;
      ghost var d := View();
      answers := [];
      while |answers| < |calls|
        invariant Valid() && |answers| <= |calls| && (old(Complete(st)) ==> Complete(st))
        invariant RunAnswers(d, calls) == answers + RunAnswers(View(), calls[|answers|..])
        invariant RunEnd(d, calls) == RunEnd(View(), calls[|answers|..])
      {
        var n := |answers|;
        assert calls[n..][1..] == calls[n + 1..];
        var answer := Perform(calls[n]);
        if answer == None {
          return;
        }
        answers := answers + [answer.value];
      }
    }
  }

  /** A record that is replaced is lost if and only if the new one has another length and
      cannot be appended. */
  lemma ReplacedIsLost(d: Disk, key: string, data: string, flag: int)
    requires key in d.m
    ensures key !in Stored(d, key, data, flag).m <==>
              && (flag == DB_REPLACE || flag == DB_STORE) && LegalData(data)
              && |data| != |d.m[key]| && OverLimit(d, key, |data|)
  {
  }

  /** A new database and a key of 1019 characters: with one character of data its record
      is just short enough; replacing these by nine stops the process, and the key is
      gone. */
  method LoseKey() returns (db: Database, key: string, first: Reply, second: Reply)
    ensures db.Valid() && first == Code(0) && second == Stopped && |key| == 1019 && key !in db.contents
  {
    hide Represents, IndexFile, FreeSizes, HasBroken, Unreadable, Bucket, OverLimit, FitsIndex, RecSize;
    db := new Database();
    key := seq(1019, _ => 'k');
    LongRecord(db.View(), key);
    first := db.Store(key, "x", DB_INSERT);
    ShortOfSpace(Erased(db.View(), key), key);
    second := db.Store(key, "xxxxxxxxx", DB_REPLACE);
  }

  lemma LongRecord(d: Disk, key: string)
    requires |key| == 1019 && d.datlen == 0 && d.idxlen == BASE
    ensures !OverLimit(d, key, 1)
  {
    assert Decimal(0) == "0" && Decimal(2) == "2";
  }

  lemma ShortOfSpace(d: Disk, key: string)
    requires |key| == 1019
    ensures OverLimit(d, key, 9)
  {
    assert |Decimal(d.datlen)| >= 1 && Decimal(10) == "10";
  }

  /** A new database takes a key with a separator, and its chain can no longer be read. */
  method BreakChain() returns (db: Database, reply: Reply)
    ensures reply == Code(0) && HasBroken(db.idx) && Unreadable(db.idx, Bucket("a:b"))
  {
    hide Represents, IndexFile, FreeSizes, HasBroken, Unreadable, Bucket, FitsIndex, RecSize;
    db := new Database();
    ShortRecord("a:b");
    assert SEP in "a:b" by {
      assert "a:b"[1] == SEP;
    }
    reply := db.Store("a:b", "x", DB_INSERT);
  }

  lemma ShortRecord(key: string)
    requires |key| == 3
    ensures FitsIndex(key, 0, 1)
  {
    assert Decimal(0) == "0" && Decimal(2) == "2";
  }

  // ----- reading everything -----

  /** The non-blank records among the first `n`, with their data. */
  ghost function NonBlank(recs: seq<Rec>, dat: string, n: nat): seq<(string, string)>
    requires n <= |recs| && DataOk(recs, dat)
  {
    if n == 0 then []
    else NonBlank(recs, dat, n - 1) +
         (if Blank(recs[n - 1].key) then [] else [(recs[n - 1].key, Data(recs, dat, n - 1))])
  }

  ghost predicate DistinctKeys(all: seq<(string, string)>) {
    forall i, j :: 0 <= i < j < |all| ==> all[i].0 != all[j].0
  }

  lemma {:induction false} NonBlankSkip(recs: seq<Rec>, dat: string, i: nat, j: nat)
    requires i <= j <= |recs| && DataOk(recs, dat) && forall n :: i <= n < j ==> Blank(recs[n].key)
    ensures NonBlank(recs, dat, j) == NonBlank(recs, dat, i)
  {
    if i < j {
      NonBlankSkip(recs, dat, i, j - 1);
    }
  }

  lemma {:induction false} NonBlankMembers(recs: seq<Rec>, dat: string, n: nat)
    requires n <= |recs| && DataOk(recs, dat)
    ensures forall p :: p in NonBlank(recs, dat, n) <==>
                          exists r :: 0 <= r < n && !Blank(recs[r].key) && p == (recs[r].key, Data(recs, dat, r))
  {
    if n > 0 {
      NonBlankMembers(recs, dat, n - 1);
      var before, all := NonBlank(recs, dat, n - 1), NonBlank(recs, dat, n);
      forall p ensures p in all <==>
        exists r :: 0 <= r < n && !Blank(recs[r].key) && p == (recs[r].key, Data(recs, dat, r)) {
        if p in before {
          var r :| 0 <= r < n - 1 && !Blank(recs[r].key) && p == (recs[r].key, Data(recs, dat, r));
        }
        if r :| 0 <= r < n && !Blank(recs[r].key) && p == (recs[r].key, Data(recs, dat, r)) {
          assert r < n - 1 ==> p in before;
        }
      }
    }
  }

  lemma {:induction false} NonBlankDistinct(st: St, n: nat)
    requires Inv(st) && Complete(st) && n <= |st.recs|
    ensures DistinctKeys(NonBlank(st.recs, st.dat, n))
  {
    hide AllWellFormed, ListsOk, Blank, Bucket, Data;
    ListFacts(st, 0);
    if n > 0 {
      NonBlankDistinct(st, n - 1);
      NonBlankMembers(st.recs, st.dat, n - 1);
      var before := NonBlank(st.recs, st.dat, n - 1);
      var all, last := NonBlank(st.recs, st.dat, n), st.recs[n - 1].key;
      forall i | 0 <= i < |before| && !Blank(last) ensures before[i].0 != last {
        assert before[i] in before;
        var r :| 0 <= r < n - 1 && !Blank(st.recs[r].key) && before[i] == (st.recs[r].key, Data(st.recs, st.dat, r));
      }
      forall i, j | 0 <= i < j < |all| ensures all[i].0 != all[j].0 {
        assert all[i] == before[i];
        if j < |before| {
          assert all[j] == before[j] && before[i].0 != before[j].0;
        } else {
          assert all[j].0 == last && !Blank(last) && before[i].0 != last;
        }
      }
    }
  }

  /** The non-blank records of a complete database are its live non-blank keys. */
  lemma NonBlankIsContents(st: St, m: map<string, string>)
    requires Represents(st, m) && Complete(st)
    ensures DataOk(st.recs, st.dat)
    ensures var all := NonBlank(st.recs, st.dat, |st.recs|);
            && DistinctKeys(all)
            && (forall key, data :: (key, data) in all <==> key in m && m[key] == data && !Blank(key))
  {
    hide AllWellFormed, ListsOk, Blank, Bucket, Data;
    ListFacts(st, 0);
    NonBlankDistinct(st, |st.recs|);
    NonBlankMembers(st.recs, st.dat, |st.recs|);
    var all := NonBlank(st.recs, st.dat, |st.recs|);
    forall key, data ensures (key, data) in all <==> key in m && m[key] == data && !Blank(key) {
      if (key, data) in all {
        var r :| 0 <= r < |st.recs| && !Blank(st.recs[r].key) &&
        (key, data) == (st.recs[r].key, Data(st.recs, st.dat, r));
        assert IsRecordOf(st, key, r);
      }
      if key in m && m[key] == data && !Blank(key) {
        var r: nat :| IsRecordOf(st, key, r);
        assert (key, data) == (st.recs[r].key, Data(st.recs, st.dat, r));
      }
    }
  }

  // ----- an empty database -----

  ghost function Zeros(n: nat): seq<nat> {
    seq(n, _ => 0)
  }

  lemma ZerosSnoc(n: nat)
    ensures EncodeHeads(Zeros(n + 1)) == EncodeHeads(Zeros(n)) + Padded(PTR_SZ, 0)
  {
    assert Zeros(n + 1)[..n] == Zeros(n);
  }

  ghost function EmptySt(): St {
    St(Zeros(NHEADS), [], seq(NHEADS, _ => []), [], "")
  }

  lemma EmptyRepresents()
    ensures Represents(EmptySt(), map[]) && Complete(EmptySt())
  {
    var st := EmptySt();
    forall k | 0 <= k < NHEADS
      ensures Linked(Offsets(st.recs), Ptrs(st.recs), st.heads[k], st.lists[k]) && Houses(st.lists[k], st.home, k)
    {
    }
  }

  // ----- what a store does -----

  /** The store writes a record whose key has a separator. */
  predicate Spoils(d: Disk, key: string, data: string, flag: int) {
    && SEP in key && ValidFlag(flag) && flag != DB_REPLACE && LegalData(data)
    && ((|key|, |data| + 1) in d.free || FitsIndex(key, d.datlen, |data|))
  }

  /** There is a place in the index file with a record that cannot be read. */
  ghost predicate HasBroken(idx: string) {
    exists before, rec, after :: BrokenAt(idx, before, rec, after)
  }

  predicate BrokenAt(idx: string, before: string, rec: Rec, after: string) {
    idx == before + Encode(rec) + after && SEP in rec.key && ReadIdx(idx, |before|) == None
  }

  /** The chain starts with a record that cannot be read. */
  predicate Unreadable(idx: string, k: nat) {
    var head := ReadPtr(idx, PTR_SZ * k);
    head.Some? && head.value != 0 && ReadIdx(idx, head.value) == None
  }

  /** A record whose key has a separator is written and then made the first of its chain. */
  lemma Broken(file: string, off: nat, rec: Rec, where: nat, k: nat)
    requires where == PTR_SZ * k && where + PTR_SZ <= off <= |file| && SEP in rec.key
    requires rec.ptr <= PTR_MAX && IDXLEN_MIN <= |Body(rec)| <= IDXLEN_MAX && 0 < rec.datlen <= DATLEN_MAX
    ensures var mid := WriteAt(file, off, Encode(rec));
            && HasBroken(mid) && where <= |mid|
            && var file' := WriteAt(mid, where, Padded(PTR_SZ, off));
            off <= PTR_MAX ==> HasBroken(file') && Unreadable(file', k)
  {
    hide ReadIdx, Body;
    EncodedSize(rec);
    var mid := WriteAt(file, off, Encode(rec));
    var tail := mid[off + |Encode(rec)|..];
    assert mid == file[..off] + Encode(rec) + tail;
    RecordReadable(file[..off], rec, tail);
    assert BrokenAt(mid, file[..off], rec, tail);
    if off <= PTR_MAX {
      PtrFits(off);
      PaddedRoundTrip(PTR_SZ, off);
      var file' := WriteAt(mid, where, Padded(PTR_SZ, off));
      var before := file[..where] + Padded(PTR_SZ, off) + file[where + PTR_SZ..off];
      assert file' == before + Encode(rec) + tail;
      RecordReadable(before, rec, tail);
      assert BrokenAt(file', before, rec, tail);
      assert file'[where..where + PTR_SZ] == Padded(PTR_SZ, off);
    }
  }

  lemma RecordBounds(st: St, r: nat)
    requires Inv(st) && r < |st.recs|
    ensures |st.heads| == NHEADS && (forall k :: 0 <= k < NHEADS ==> st.heads[k] <= PTR_MAX)
    ensures WellFormed(st.recs[r]) && st.recs[r].datoff + st.recs[r].datlen <= |st.dat|
    ensures BASE <= Offset(st.recs, r) && Offset(st.recs, r) + |Encode(st.recs[r])| <= |IndexFile(st.heads, st.recs)|
  {
    hide ListsOk, KeysOk, Encode, WellFormed, EncodeHeads, EncodeRecs;
    OffsetNext(st.recs, r);
    OffsetsIncrease(st.recs, r, |st.recs|);
    if r + 1 < |st.recs| {
      OffsetsIncrease(st.recs, r + 1, |st.recs|);
    }
    assert st.recs[..|st.recs|] == st.recs;
    HeadsLength(st.heads);
  }

  lemma SameSizes(st: St, st': St)
    requires st'.recs == st.recs && st'.home == st.home
    ensures FreeSizes(st') == FreeSizes(st)
  {
  }

  lemma WrittenInside(file: string, where: nat, bytes: string)
    requires where + |bytes| <= |file|
    ensures |WriteAt(file, where, bytes)| == |file|
  {
  }

  /** Overwriting a pointer inside the file does not lengthen it. */
  lemma SameLength(file: string, where: nat, p: nat)
    requires where + PTR_SZ <= |file| && p <= PTR_MAX
    ensures |WriteAt(file, where, Padded(PTR_SZ, p))| == |file|
  {
    PtrFits(p);
  }

  lemma SameBody(a: Rec, ptr: nat, key: string)
    requires |key| == |a.key|
    ensures |Body(Rec(ptr, key, a.datoff, a.datlen))| == |Body(a)|
  {
  }

  /** Every record except `r` is on a list. */
  ghost predicate CompleteBut(st: St, r: nat) {
    forall i :: 0 <= i < |st.home| && i != r ==> st.home[i] != NOWHERE
  }

  lemma BodyPtr(a: Rec, b: Rec)
    requires a == b.(ptr := a.ptr)
    ensures Body(a) == Body(b)
  {
  }

  lemma WriteAtEnd(file: string, bytes: string)
    ensures WriteAt(file, |file|, bytes) == file + bytes
  {
  }

  lemma BodyBound(r: Rec)
    requires WellFormed(r)
    ensures IDXLEN_MIN <= |Body(r)| <= IDXLEN_MAX
  {
  }
}
