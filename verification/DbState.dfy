/** The state of the hash-chained database: linked lists of index records threaded
    through file offsets, and a data file cut into one piece per record.

    The three list steps below (unlink, rewrite a record that is on no list, link)
    and appending make up every update of the index file. */
module DbState {
  import opened DbFormat
  import opened DbFile

  // ----- lists threaded through offsets -----

  ghost predicate NoRepeats(list: seq<nat>) {
    forall i, j :: 0 <= i < j < |list| ==> list[i] != list[j]
  }

  /** Starting at `head` and following `ptrs`, one visits exactly the records in
      `list`, in that order, and then reaches the null offset. */
  ghost predicate Linked(offs: seq<nat>, ptrs: seq<nat>, head: nat, list: seq<nat>) {
    && |offs| == |ptrs| && NoRepeats(list)
    && (forall i :: 0 <= i < |list| ==> list[i] < |offs|)
    && head == (if list == [] then 0 else offs[list[0]])
    && (forall i {:trigger ptrs[list[i]]} :: 0 <= i < |list| ==>
          ptrs[list[i]] == if i + 1 < |list| then offs[list[i + 1]] else 0)
  }

  function RemoveAt<T>(s: seq<T>, i: nat): seq<T>
    requires i < |s|
  {
    s[..i] + s[i + 1..]
  }

  lemma LinkedPush(offs: seq<nat>, ptrs: seq<nat>, head: nat, list: seq<nat>, r: nat)
    requires Linked(offs, ptrs, head, list) && r < |offs| && r !in list && ptrs[r] == head
    ensures Linked(offs, ptrs, offs[r], [r] + list)
  {
    var list' := [r] + list;
    forall i | 0 <= i < |list'| ensures ptrs[list'[i]] == if i + 1 < |list'| then offs[list'[i + 1]] else 0 {
      if i > 0 {
        assert ptrs[list[i - 1]] == if i < |list| then offs[list[i]] else 0;
      }
    }
  }

  lemma LinkedDropFirst(offs: seq<nat>, ptrs: seq<nat>, head: nat, list: seq<nat>)
    requires Linked(offs, ptrs, head, list) && list != []
    ensures Linked(offs, ptrs, ptrs[list[0]], list[1..])
  {
    var list' := list[1..];
    forall i | 0 <= i < |list'| ensures ptrs[list'[i]] == if i + 1 < |list'| then offs[list'[i + 1]] else 0 {
      assert ptrs[list[i + 1]] == if i + 2 < |list| then offs[list[i + 2]] else 0;
    }
  }

  lemma LinkedDropAfter(offs: seq<nat>, ptrs: seq<nat>, head: nat, list: seq<nat>, pos: nat)
    requires Linked(offs, ptrs, head, list) && 0 < pos < |list|
    ensures Linked(offs, ptrs[list[pos - 1] := ptrs[list[pos]]], head, RemoveAt(list, pos))
  {
    var list', ptrs' := RemoveAt(list, pos), ptrs[list[pos - 1] := ptrs[list[pos]]];
    forall i | 0 <= i < |list'| ensures ptrs'[list'[i]] == if i + 1 < |list'| then offs[list'[i + 1]] else 0 {
      if i < pos - 1 {
        assert ptrs[list[i]] == offs[list[i + 1]];
      } else if i == pos - 1 {
        assert ptrs[list[pos]] == if pos + 1 < |list| then offs[list[pos + 1]] else 0;
      } else {
        assert ptrs[list[i + 1]] == if i + 2 < |list| then offs[list[i + 2]] else 0;
      }
    }
  }

  lemma LinkedFrame(offs: seq<nat>, ptrs: seq<nat>, head: nat, list: seq<nat>, r: nat, p: nat)
    requires Linked(offs, ptrs, head, list) && r < |ptrs| && r !in list
    ensures Linked(offs, ptrs[r := p], head, list)
  {
  }

  lemma LinkedGrow(offs: seq<nat>, ptrs: seq<nat>, head: nat, list: seq<nat>, o: nat, p: nat)
    requires Linked(offs, ptrs, head, list)
    ensures Linked(offs + [o], ptrs + [p], head, list)
  {
    var offs', ptrs' := offs + [o], ptrs + [p];
    forall i | 0 <= i < |list| ensures ptrs'[list[i]] == if i + 1 < |list| then offs'[list[i + 1]] else 0 {
      assert ptrs[list[i]] == if i + 1 < |list| then offs[list[i + 1]] else 0;
    }
  }

  // ----- the database state -----

  /** `lists[0]` is the free list and `lists[k]` the chain of hash value `k - 1`;
      `home[r]` tells on which list record `r` is, or NOWHERE. */
  datatype St = St(heads: seq<nat>, recs: seq<Rec>, lists: seq<seq<nat>>, home: seq<int>, dat: string)

  const NOWHERE := -1

  /** The list a key belongs to: the sum of its (signed) characters, each times its
      1-based position, reduced modulo the table size; list 0 is the free list. */
  function HashSum(key: string, i: nat): int
    requires i <= |key|
  {
    if i == 0 then 0
    else
      var c := key[i - 1] as int;
      (HashSum(key, i - 1) + (if c < 128 then c else c - 256) * i) % 0x1_0000_0000_0000_0000
  }

  function Bucket(key: string): (k: nat)
    ensures 1 <= k < NHEADS
  {
    HashSum(key, |key|) % NHASH + 1
  }

  /** The hash value, with the sum kept in a machine word of 64 bits. */
  method Hash(key: string) returns (hval: nat)
    ensures hval == Bucket(key) - 1
  {
    var sum, i := 0, 1;
    while i <= |key|
      invariant 1 <= i <= |key| + 1 && sum == HashSum(key, i - 1)
    {
      var c := key[i - 1] as int;
      sum := (sum + (if c < 128 then c else c - 256) * i) % 0x1_0000_0000_0000_0000;
      i := i + 1;
    }
    hval := sum % NHASH;
  }

  /** The characters of the key as signed bytes, each times its position, counted from 1. */
  ghost function Weight(key: string): int {
    if key == [] then 0
    else
      var n, c := |key|, key[|key| - 1] as int;
      Weight(key[..n - 1]) + n * (if c < 128 then c else c - 256)
  }

  /** The chain of a key is the weighted sum of its characters, taken modulo 2^64 and then
      modulo 137, after the free list. */
  lemma BucketIsWeight(key: string)
    ensures Bucket(key) == Weight(key) % 0x1_0000_0000_0000_0000 % 137 + 1
  {
    SumIsWeight(key, |key|);
    assert key[..|key|] == key;
  }

  lemma {:induction false} SumIsWeight(key: string, i: nat)
    requires i <= |key|
    ensures HashSum(key, i) == Weight(key[..i]) % 0x1_0000_0000_0000_0000
  {
    if i > 0 {
      SumIsWeight(key, i - 1);
      assert key[..i][..i - 1] == key[..i - 1];
      var c := key[i - 1] as int;
      ModuloSum(Weight(key[..i - 1]), i * (if c < 128 then c else c - 256));
    }
  }

  lemma ModuloSum(a: int, b: int)
    ensures (a % 0x1_0000_0000_0000_0000 + b) % 0x1_0000_0000_0000_0000 == (a + b) % 0x1_0000_0000_0000_0000
  {
  }

  ghost function Ptrs(recs: seq<Rec>): seq<nat> {
    seq(|recs|, i requires 0 <= i < |recs| => recs[i].ptr)
  }

  predicate Blank(key: string) {
    forall i :: 0 <= i < |key| ==> key[i] == SPACE
  }

  /** The data file: every record owns a piece that ends in a newline, and no two
      pieces overlap. */
  ghost predicate DataOk(recs: seq<Rec>, dat: string) {
    && (forall i :: 0 <= i < |recs| ==>
          recs[i].datoff + recs[i].datlen <= |dat| && recs[i].datlen > 0 &&
          dat[recs[i].datoff + recs[i].datlen - 1] == NEWLINE)
    && (forall i, j :: 0 <= i < |recs| && 0 <= j < |recs| && i != j ==> Apart(recs[i], recs[j]))
  }

  ghost predicate Apart(a: Rec, b: Rec) {
    a.datoff + a.datlen <= b.datoff || b.datoff + b.datlen <= a.datoff
  }

  /** The lists are threaded correctly, and every record is on the list that is its
      home and on no other. */
  ghost predicate ListsOk(heads: seq<nat>, recs: seq<Rec>, lists: seq<seq<nat>>, home: seq<int>) {
    && |lists| == NHEADS == |heads| && |home| == |recs|
    && (forall k :: 0 <= k < NHEADS ==> Linked(Offsets(recs), Ptrs(recs), heads[k], lists[k]))
    && (forall k :: 0 <= k < NHEADS ==> Houses(lists[k], home, k))
  }

  ghost predicate Houses(list: seq<nat>, home: seq<int>, k: nat) {
    forall r: nat :: r in list <==> r < |home| && home[r] == k
  }

  /** Records are filed under their own hash value, once per key; the keys of free
      records are blank. */
  ghost predicate KeysOk(recs: seq<Rec>, home: seq<int>) {
    && |home| == |recs|
    && (forall r :: 0 <= r < |recs| ==> NOWHERE <= home[r] < NHEADS)
    && (forall r :: 0 <= r < |recs| && home[r] == 0 ==> Blank(recs[r].key))
    && (forall r :: 0 <= r < |recs| && home[r] >= 1 ==> Bucket(recs[r].key) == home[r])
    && (forall r, t :: 0 <= r < t < |recs| && home[r] >= 1 && home[t] >= 1 ==> recs[r].key != recs[t].key)
  }

  ghost predicate Inv(st: St) {
    && AllWellFormed(st.heads, st.recs)
    && ListsOk(st.heads, st.recs, st.lists, st.home)
    && KeysOk(st.recs, st.home)
    && DataOk(st.recs, st.dat)
  }

  /** Every record is on a hash chain or on the free list. */
  ghost predicate Complete(st: St) {
    forall r :: 0 <= r < |st.home| ==> st.home[r] != NOWHERE
  }

  ghost function Data(recs: seq<Rec>, dat: string, r: nat): string
    requires r < |recs| && DataOk(recs, dat)
  {
    dat[recs[r].datoff..recs[r].datoff + recs[r].datlen - 1]
  }

  /** `r` is the live record of `key`. */
  ghost predicate IsRecordOf(st: St, key: string, r: nat) {
    r < |st.recs| == |st.home| && st.home[r] >= 1 && st.recs[r].key == key
  }

  /** The finite map that the files represent. */
  ghost predicate Represents(st: St, m: map<string, string>) {
    && Inv(st)
    && (forall key :: key in m ==> exists r :: IsRecordOf(st, key, r))
    && (forall key, r :: IsRecordOf(st, key, r) ==> key in m && m[key] == Data(st.recs, st.dat, r))
  }

  // ----- changing a chain pointer -----

  lemma SetPtr(recs: seq<Rec>, i: nat, p: nat)
    requires i < |recs| && WellFormed(recs[i]) && p <= PTR_MAX
    ensures var recs' := recs[i := recs[i].(ptr := p)];
            Offsets(recs') == Offsets(recs) && Ptrs(recs') == Ptrs(recs)[i := p] && WellFormed(recs'[i])
  {
    hide WellFormed, Encode, Body;
    PtrOnly(recs[i], p);
    EncodeLength(recs[i]);
    EncodeLength(recs[i].(ptr := p));
    OffsetsKept(recs, i, recs[i].(ptr := p));
  }

  lemma DataSame(recs: seq<Rec>, recs': seq<Rec>, dat: string)
    requires DataOk(recs, dat) && |recs'| == |recs|
    requires forall i :: 0 <= i < |recs| ==> recs'[i].datoff == recs[i].datoff && recs'[i].datlen == recs[i].datlen
    ensures DataOk(recs', dat)
  {
    forall i, j | 0 <= i < |recs| && 0 <= j < |recs| && i != j ensures Apart(recs'[i], recs'[j]) {
      assert Apart(recs[i], recs[j]);
    }
  }

  lemma ListFacts(st: St, k: nat)
    requires Inv(st) && k < NHEADS
    ensures |st.lists| == NHEADS == |st.heads| && |st.home| == |st.recs| && NoRepeats(st.lists[k])
    ensures forall i :: 0 <= i < |st.lists[k]| ==> st.lists[k][i] < |st.recs| && st.home[st.lists[k][i]] == k
    ensures Linked(Offsets(st.recs), Ptrs(st.recs), st.heads[k], st.lists[k])
  {
    assert Linked(Offsets(st.recs), Ptrs(st.recs), st.heads[k], st.lists[k]);
    assert Houses(st.lists[k], st.home, k);
    forall i | 0 <= i < |st.lists[k]| ensures st.home[st.lists[k][i]] == k {
      assert st.lists[k][i] in st.lists[k];
    }
  }

  lemma PtrBound(r: Rec)
    requires WellFormed(r)
    ensures r.ptr <= PTR_MAX && SEP !in r.key && 0 < r.datlen <= DATLEN_MAX
  {
  }

  // ----- taking a record off its list -----

  ghost function Unlink(st: St, k: nat, pos: nat): St
    requires Inv(st) && k < NHEADS && pos < |st.lists[k]|
  {
    ListFacts(st, k);
    var r := st.lists[k][pos];
    var next := st.recs[r].ptr;
    var st' := st.(lists := st.lists[k := RemoveAt(st.lists[k], pos)], home := st.home[r := NOWHERE]);
    if pos == 0 then st'.(heads := st.heads[k := next])
    else
      var q := st.lists[k][pos - 1];
      st'.(recs := st.recs[q := st.recs[q].(ptr := next)])
  }

  lemma RemoveAtMembers(list: seq<nat>, pos: nat)
    requires NoRepeats(list) && pos < |list|
    ensures NoRepeats(RemoveAt(list, pos))
    ensures forall x :: x in RemoveAt(list, pos) <==> x in list && x != list[pos]
  {
    var list' := RemoveAt(list, pos);
    forall x | x in list && x != list[pos] ensures x in list' {
      var i :| 0 <= i < |list| && list[i] == x;
      assert if i < pos then list'[i] == x else list'[i - 1] == x;
    }
  }

  lemma UnlinkLists(st: St, k: nat, pos: nat)
    requires Inv(st) && k < NHEADS && pos < |st.lists[k]|
    ensures var st' := Unlink(st, k, pos);
            AllWellFormed(st'.heads, st'.recs) && ListsOk(st'.heads, st'.recs, st'.lists, st'.home)
  {
    hide WellFormed, Offsets, KeysOk, DataOk, Linked, RemoveAt, NoRepeats;
    var st' := Unlink(st, k, pos);
    ListFacts(st, k);
    var list, offs, ptrs := st.lists[k], Offsets(st.recs), Ptrs(st.recs);
    var next := st.recs[list[pos]].ptr;
    PtrBound(st.recs[list[pos]]);
    UnlinkHouses(st, k, pos);
    if pos == 0 {
      LinkedDropFirst(offs, ptrs, st.heads[k], list);
      RemoveFirst(list);
    } else {
      var q := list[pos - 1];
      SetPtr(st.recs, q, next);
      LinkedDropAfter(offs, ptrs, st.heads[k], list, pos);
      forall l | 0 <= l < NHEADS && l != k ensures Linked(offs, ptrs[q := next], st.heads[l], st.lists[l]) {
        assert Houses(st.lists[l], st.home, l);
        assert q !in st.lists[l];
        LinkedFrame(offs, ptrs, st.heads[l], st.lists[l], q, next);
      }
    }
  }

  lemma RemoveFirst(list: seq<nat>)
    requires list != []
    ensures RemoveAt(list, 0) == list[1..]
  {
  }

  lemma UnlinkHouses(st: St, k: nat, pos: nat)
    requires Inv(st) && k < NHEADS && pos < |st.lists[k]|
    ensures var st' := Unlink(st, k, pos); forall l :: 0 <= l < NHEADS ==> Houses(st'.lists[l], st'.home, l)
  {
    hide AllWellFormed, KeysOk, DataOk, Linked, RemoveAt;
    var st' := Unlink(st, k, pos);
    ListFacts(st, k);
    RemoveAtMembers(st.lists[k], pos);
    forall l | 0 <= l < NHEADS ensures Houses(st'.lists[l], st'.home, l) {
      assert Houses(st.lists[l], st.home, l);
    }
  }

  lemma UnlinkKeys(st: St, k: nat, pos: nat)
    requires Inv(st) && k < NHEADS && pos < |st.lists[k]|
    ensures var st' := Unlink(st, k, pos); KeysOk(st'.recs, st'.home) && DataOk(st'.recs, st'.dat)
  {
    hide AllWellFormed, Bucket, Linked, Houses;
    var st' := Unlink(st, k, pos);
    ListFacts(st, k);
    DataSame(st.recs, st'.recs, st.dat);
  }

  /** Taking a record off its list keeps the files in order; a hash chain loses the
      record's key, the free list loses nothing visible. */
  lemma UnlinkRepresents(st: St, k: nat, pos: nat, m: map<string, string>)
    requires Represents(st, m) && k < NHEADS && pos < |st.lists[k]|
    ensures st.lists[k][pos] < |st.recs|
    ensures Represents(Unlink(st, k, pos), if k == 0 then m else m - {st.recs[st.lists[k][pos]].key})
  {
    hide AllWellFormed, Bucket, ListsOk, KeysOk, DataOk, Blank, Data;
    UnlinkLists(st, k, pos);
    UnlinkKeys(st, k, pos);
    UnlinkKeeps(st, k, pos);
    ListFacts(st, k);
    var st', gone := Unlink(st, k, pos), st.lists[k][pos];
    var m' := if k == 0 then m else m - {st.recs[gone].key};
    forall key, r | IsRecordOf(st', key, r)
      ensures key in m' && m'[key] == Data(st'.recs, st'.dat, r)
    {
      assert IsRecordOf(st, key, r);
      if k > 0 {
        OneRecordPerKey(st, r, gone);
      }
      DataOfRecord(st.recs, st'.recs, st.dat, r);
    }
    forall key | key in m' ensures exists r :: IsRecordOf(st', key, r) {
      var r :| IsRecordOf(st, key, r);
      assert IsRecordOf(st', key, r);
    }
  }

  lemma DataOfRecord(recs: seq<Rec>, recs': seq<Rec>, dat: string, r: nat)
    requires r < |recs| && r < |recs'| && DataOk(recs, dat) && DataOk(recs', dat)
    requires recs'[r].datoff == recs[r].datoff && recs'[r].datlen == recs[r].datlen
    ensures Data(recs', dat, r) == Data(recs, dat, r)
  {
  }

  lemma OneRecordPerKey(st: St, r: nat, t: nat)
    requires Inv(st) && r < |st.recs| && t < |st.recs| && st.home[r] >= 1 && st.home[t] >= 1 && r != t
    ensures st.recs[r].key != st.recs[t].key
  {
    hide AllWellFormed, Bucket, ListsOk, DataOk;
  }

  /** What unlinking leaves alone. */
  lemma UnlinkKeeps(st: St, k: nat, pos: nat)
    requires Inv(st) && k < NHEADS && pos < |st.lists[k]|
    ensures var st' := Unlink(st, k, pos);
            && |st'.recs| == |st.recs| == |st.home| == |st'.home| && st'.dat == st.dat
            && (forall r :: 0 <= r < |st.recs| ==>
                  && st'.recs[r].key == st.recs[r].key && st'.recs[r].datoff == st.recs[r].datoff
                  && st'.recs[r].datlen == st.recs[r].datlen)
            && (forall r :: 0 <= r < |st.recs| ==>
                  st'.home[r] == if r == st.lists[k][pos] then NOWHERE else st.home[r])
  {
    ListFacts(st, k);
  }

  // ----- rewriting a record that is on no list -----

  /** Put `r` in place of a record of the same size, and `data` in its piece. */
  ghost function Rewrite(st: St, i: nat, r: Rec, data: string): St
    requires i < |st.recs| && r.datoff <= |st.dat|
  {
    st.(recs := st.recs[i := r], dat := WriteAt(st.dat, r.datoff, data + [NEWLINE]))
  }

  ghost predicate FitsIn(st: St, i: nat, r: Rec, data: string) {
    && i < |st.recs| && WellFormed(r) && |Body(r)| == |Body(st.recs[i])|
    && r.datoff == st.recs[i].datoff && r.datlen == st.recs[i].datlen && |data| + 1 == r.datlen
  }

  lemma RewriteLists(st: St, i: nat, r: Rec)
    requires Inv(st) && i < |st.recs| && WellFormed(r) && |Body(r)| == |Body(st.recs[i])| && st.home[i] == NOWHERE
    ensures AllWellFormed(st.heads, st.recs[i := r]) && ListsOk(st.heads, st.recs[i := r], st.lists, st.home)
  {
    hide WellFormed, Body, Encode, Offsets, Linked, KeysOk, DataOk;
    var recs' := st.recs[i := r];
    EncodeLength(r);
    EncodeLength(st.recs[i]);
    OffsetsKept(st.recs, i, r);
    assert Ptrs(recs') == Ptrs(st.recs)[i := r.ptr];
    forall k | 0 <= k < NHEADS ensures Linked(Offsets(recs'), Ptrs(recs'), st.heads[k], st.lists[k]) {
      ListFacts(st, k);
      LinkedFrame(Offsets(st.recs), Ptrs(st.recs), st.heads[k], st.lists[k], i, r.ptr);
    }
  }

  /** Overwriting one record's piece changes no other piece. */
  lemma PieceWrite(recs: seq<Rec>, dat: string, i: nat, data: string)
    requires DataOk(recs, dat) && i < |recs| && |data| + 1 == recs[i].datlen
    ensures recs[i].datoff <= |dat| && DataOk(recs, WriteAt(dat, recs[i].datoff, data + [NEWLINE]))
    ensures Data(recs, WriteAt(dat, recs[i].datoff, data + [NEWLINE]), i) == data
    ensures forall j :: 0 <= j < |recs| && j != i ==>
                          Data(recs, WriteAt(dat, recs[i].datoff, data + [NEWLINE]), j) == Data(recs, dat, j)
  {
    var o, n := recs[i].datoff, recs[i].datlen;
    var dat' := WriteAt(dat, o, data + [NEWLINE]);
    WriteInside(dat, o, data + [NEWLINE]);
    forall j | 0 <= j < |recs| ensures dat'[recs[j].datoff + recs[j].datlen - 1] == NEWLINE {
      assert j == i || Apart(recs[i], recs[j]);
    }
    assert DataOk(recs, dat');
    assert Data(recs, dat', i) == data;
    forall j | 0 <= j < |recs| && j != i ensures Data(recs, dat', j) == Data(recs, dat, j) {
      assert Apart(recs[i], recs[j]);
    }
  }

  lemma WriteInside(dat: string, o: nat, bytes: string)
    requires o + |bytes| <= |dat|
    ensures |WriteAt(dat, o, bytes)| == |dat|
    ensures forall x :: 0 <= x < |dat| ==>
              WriteAt(dat, o, bytes)[x] == if o <= x < o + |bytes| then bytes[x - o] else dat[x]
  {
  }

  /** Rewriting a record that is on no list changes nothing visible. */
  lemma RewriteRepresents(st: St, i: nat, r: Rec, data: string, m: map<string, string>)
    requires Represents(st, m) && FitsIn(st, i, r, data) && st.home[i] == NOWHERE
    ensures r.datoff <= |st.dat| && Represents(Rewrite(st, i, r, data), m)
    ensures Data(Rewrite(st, i, r, data).recs, Rewrite(st, i, r, data).dat, i) == data
  {
    hide WellFormed, Body, ListsOk, Bucket, Blank, WriteAt;
    RewriteLists(st, i, r);
    PieceWrite(st.recs, st.dat, i, data);
    var st' := Rewrite(st, i, r, data);
    DataSame(st.recs, st'.recs, st'.dat);
    forall key, j | IsRecordOf(st', key, j) ensures key in m && m[key] == Data(st'.recs, st'.dat, j) {
      assert IsRecordOf(st, key, j);
      assert Data(st.recs, st'.dat, j) == Data(st.recs, st.dat, j);
    }
    forall key | key in m ensures exists j :: IsRecordOf(st', key, j) {
      var j :| IsRecordOf(st, key, j);
      assert IsRecordOf(st', key, j);
    }
  }

  // ----- putting a record at the front of a list -----

  ghost function Link(st: St, i: nat, k: nat): St
    requires i < |st.recs| == |st.home| && k < |st.heads| == |st.lists|
  {
    st.(heads := st.heads[k := Offset(st.recs, i)], lists := st.lists[k := [i] + st.lists[k]], home := st.home[i := k])
  }

  ghost predicate CanLink(st: St, i: nat, k: nat) {
    && Inv(st) && i < |st.recs| && k < NHEADS && st.home[i] == NOWHERE
    && st.recs[i].ptr == st.heads[k] && Offset(st.recs, i) <= PTR_MAX
    && (k == 0 ==> Blank(st.recs[i].key))
    && (k >= 1 ==> Bucket(st.recs[i].key) == k && forall r :: !IsRecordOf(st, st.recs[i].key, r))
  }

  lemma LinkLists(st: St, i: nat, k: nat)
    requires CanLink(st, i, k)
    ensures var st' := Link(st, i, k);
            AllWellFormed(st'.heads, st'.recs) && ListsOk(st'.heads, st'.recs, st'.lists, st'.home)
  {
    hide WellFormed, Offset, Linked, KeysOk, DataOk, Bucket, Blank;
    var st' := Link(st, i, k);
    ListFacts(st, k);
    LinkedPush(Offsets(st.recs), Ptrs(st.recs), st.heads[k], st.lists[k], i);
    forall l | 0 <= l < NHEADS ensures Houses(st'.lists[l], st'.home, l) {
      assert Houses(st.lists[l], st.home, l);
    }
  }

  lemma LinkKeys(st: St, i: nat, k: nat)
    requires CanLink(st, i, k)
    ensures var st' := Link(st, i, k); KeysOk(st'.recs, st'.home)
  {
    hide AllWellFormed, ListsOk, DataOk, Bucket, Blank;
    ListFacts(st, k);
    var st' := Link(st, i, k);
    forall r, t | 0 <= r < t < |st.recs| && st'.home[r] >= 1 && st'.home[t] >= 1
      ensures st.recs[r].key != st.recs[t].key
    {
      assert !IsRecordOf(st, st.recs[i].key, r) || k == 0;
      assert !IsRecordOf(st, st.recs[i].key, t) || k == 0;
    }
  }

  /** Linking a record into its hash chain makes its key present with its data. */
  lemma LinkRepresents(st: St, i: nat, k: nat, m: map<string, string>)
    requires Represents(st, m) && CanLink(st, i, k)
    ensures |st.lists| == NHEADS == |st.heads| && |st.home| == |st.recs|
    ensures Represents(Link(st, i, k), if k == 0 then m else m[st.recs[i].key := Data(st.recs, st.dat, i)])
  {
    hide AllWellFormed, ListsOk, Bucket, Blank, Offset;
    ListFacts(st, k);
    LinkLists(st, i, k);
    LinkKeys(st, i, k);
    var st' := Link(st, i, k);
    var m' := if k == 0 then m else m[st.recs[i].key := Data(st.recs, st.dat, i)];
    forall key, r | IsRecordOf(st', key, r) ensures key in m' && m'[key] == Data(st'.recs, st'.dat, r) {
      if r != i {
        assert IsRecordOf(st, key, r);
      }
    }
    forall key | key in m' ensures exists r :: IsRecordOf(st', key, r) {
      if k >= 1 && key == st.recs[i].key {
        assert IsRecordOf(st', key, i);
      } else {
        var r :| IsRecordOf(st, key, r);
        assert IsRecordOf(st', key, r);
      }
    }
  }

  // ----- appending and overwriting -----

  ghost function Append(st: St, r: Rec, data: string): St {
    st.(recs := st.recs + [r], home := st.home + [NOWHERE], dat := st.dat + data + [NEWLINE])
  }

  lemma AppendLists(st: St, r: Rec)
    requires Inv(st) && WellFormed(r)
    ensures AllWellFormed(st.heads, st.recs + [r])
    ensures ListsOk(st.heads, st.recs + [r], st.lists, st.home + [NOWHERE])
  {
    hide WellFormed, Offsets, Linked, KeysOk, DataOk;
    var recs', home' := st.recs + [r], st.home + [NOWHERE];
    OffsetsAppended(st.recs, r);
    assert Ptrs(recs') == Ptrs(st.recs) + [r.ptr];
    forall k | 0 <= k < NHEADS
      ensures Linked(Offsets(recs'), Ptrs(recs'), st.heads[k], st.lists[k]) && Houses(st.lists[k], home', k)
    {
      ListFacts(st, k);
      assert Houses(st.lists[k], st.home, k);
      LinkedGrow(Offsets(st.recs), Ptrs(st.recs), st.heads[k], st.lists[k], Offset(st.recs, |st.recs|), r.ptr);
    }
  }

  lemma AppendKeys(st: St, r: Rec)
    requires Inv(st)
    ensures KeysOk(st.recs + [r], st.home + [NOWHERE])
  {
    hide AllWellFormed, ListsOk, DataOk, Bucket, Blank;
  }

  lemma AppendPiece(recs: seq<Rec>, dat: string, r: Rec, data: string)
    requires DataOk(recs, dat) && r.datoff == |dat| && r.datlen == |data| + 1
    ensures DataOk(recs + [r], dat + data + [NEWLINE])
    ensures Data(recs + [r], dat + data + [NEWLINE], |recs|) == data
    ensures forall j :: 0 <= j < |recs| ==> Data(recs + [r], dat + data + [NEWLINE], j) == Data(recs, dat, j)
  {
    var recs', dat' := recs + [r], dat + data + [NEWLINE];
    forall i, j | 0 <= i < |recs'| && 0 <= j < |recs'| && i != j ensures Apart(recs'[i], recs'[j]) {
      if i < |recs| && j < |recs| {
        assert Apart(recs[i], recs[j]);
      }
    }
    assert DataOk(recs', dat');
    assert Data(recs', dat', |recs|) == data;
  }

  /** A record appended to both files is not visible until it is linked. */
  lemma AppendRepresents(st: St, r: Rec, data: string, m: map<string, string>)
    requires Represents(st, m) && WellFormed(r) && r.datoff == |st.dat| && r.datlen == |data| + 1
    ensures Represents(Append(st, r, data), m)
    ensures Data(Append(st, r, data).recs, Append(st, r, data).dat, |st.recs|) == data
    ensures |st.home| == |st.recs|
  {
    hide AllWellFormed, ListsOk, WellFormed, KeysOk, DataOk, Data;
    ListFacts(st, 0);
    AppendLists(st, r);
    AppendKeys(st, r);
    AppendPiece(st.recs, st.dat, r, data);
    var st' := Append(st, r, data);
    forall key, j | IsRecordOf(st', key, j) ensures key in m && m[key] == Data(st'.recs, st'.dat, j) {
      assert IsRecordOf(st, key, j);
    }
    forall key | key in m ensures exists j :: IsRecordOf(st', key, j) {
      var j :| IsRecordOf(st, key, j);
      assert IsRecordOf(st', key, j);
    }
  }

  /** Data written at the end of the data file belongs to no record yet. */
  lemma DataAppended(st: St, bytes: string, m: map<string, string>)
    requires Represents(st, m)
    ensures Represents(st.(dat := st.dat + bytes), m)
  {
    hide AllWellFormed, ListsOk, KeysOk;
    var st' := st.(dat := st.dat + bytes);
    assert DataOk(st'.recs, st'.dat);
    forall key, j | IsRecordOf(st', key, j) ensures key in m && m[key] == Data(st'.recs, st'.dat, j) {
      assert IsRecordOf(st, key, j);
    }
    forall key | key in m ensures exists j :: IsRecordOf(st', key, j) {
      var j :| IsRecordOf(st, key, j);
      assert IsRecordOf(st', key, j);
    }
  }

  /** Data of the same length can be replaced in place. */
  lemma OverwriteRepresents(st: St, key: string, i: nat, data: string, m: map<string, string>)
    requires Represents(st, m) && IsRecordOf(st, key, i) && |data| + 1 == st.recs[i].datlen
    ensures st.recs[i].datoff <= |st.dat|
    ensures Represents(st.(dat := WriteAt(st.dat, st.recs[i].datoff, data + [NEWLINE])), m[key := data])
  {
    hide AllWellFormed, ListsOk, Bucket, Blank, WriteAt;
    PieceWrite(st.recs, st.dat, i, data);
    var st', m' := st.(dat := WriteAt(st.dat, st.recs[i].datoff, data + [NEWLINE])), m[key := data];
    forall k, j | IsRecordOf(st', k, j) ensures k in m' && m'[k] == Data(st'.recs, st'.dat, j) {
      assert IsRecordOf(st, k, j);
    }
    forall k | k in m' ensures exists j :: IsRecordOf(st', k, j) {
      if k == key {
        assert IsRecordOf(st', k, i);
      } else {
        var j :| IsRecordOf(st, k, j);
        assert IsRecordOf(st', k, j);
      }
    }
  }

  // ----- facts the operations read off the state -----

  /** A record on a list has an offset that fits into a pointer field. */
  lemma OnListBound(st: St, k: nat, pos: nat)
    requires Inv(st) && k < NHEADS && pos < |st.lists[k]|
    ensures Offset(st.recs, st.lists[k][pos]) <= PTR_MAX
  {
    hide KeysOk, DataOk, Offset;
    ListFacts(st, k);
    var list := st.lists[k];
    if pos > 0 {
      assert Ptrs(st.recs)[list[pos - 1]] == Offsets(st.recs)[list[pos]];
      assert WellFormed(st.recs[list[pos - 1]]);
    }
  }

  /** A key is present exactly if a record with that key is on the key's chain. */
  lemma LookupOnChain(st: St, key: string, m: map<string, string>)
    requires Represents(st, m)
    ensures key in m <==> exists i :: 0 <= i < |st.lists[Bucket(key)]| && st.recs[st.lists[Bucket(key)][i]].key == key
  {
    hide AllWellFormed, DataOk, Linked;
    var k := Bucket(key);
    ListFacts(st, k);
    var list := st.lists[k];
    if key in m {
      var r :| IsRecordOf(st, key, r);
      assert Houses(list, st.home, k) && r in list;
    }
    if i :| 0 <= i < |list| && st.recs[list[i]].key == key {
      assert IsRecordOf(st, key, list[i]);
    }
  }
}
