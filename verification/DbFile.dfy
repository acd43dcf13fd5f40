/** The index file as a whole: a free-list head and a table of chain heads,
    a newline, and then nothing but well-formed index records. */
module DbFile {
  import opened DbFormat

  const NHASH := 137

  /** Heads of the free list (0) and of the hash chains (1 to NHASH). */
  const NHEADS := NHASH + 1

  /** Offset of the first index record. */
  const BASE: nat := NHEADS * PTR_SZ + 1

  function EncodeHeads(heads: seq<nat>): string {
    if heads == [] then [] else EncodeHeads(heads[..|heads| - 1]) + Padded(PTR_SZ, heads[|heads| - 1])
  }

  function EncodeRecs(recs: seq<Rec>): string {
    if recs == [] then [] else EncodeRecs(recs[..|recs| - 1]) + Encode(recs[|recs| - 1])
  }

  function IndexFile(heads: seq<nat>, recs: seq<Rec>): string {
    EncodeHeads(heads) + [NEWLINE] + EncodeRecs(recs)
  }

  ghost predicate AllWellFormed(heads: seq<nat>, recs: seq<Rec>) {
    && |heads| == NHEADS && (forall k :: 0 <= k < |heads| ==> heads[k] <= PTR_MAX)
    && (forall i :: 0 <= i < |recs| ==> WellFormed(recs[i]))
  }

  /** Where record `i` starts. */
  ghost function Offset(recs: seq<Rec>, i: nat): nat
    requires i <= |recs|
  {
    BASE + |EncodeRecs(recs[..i])|
  }

  ghost function Offsets(recs: seq<Rec>): seq<nat> {
    seq(|recs|, i requires 0 <= i < |recs| => Offset(recs, i))
  }

  // ----- taking the file apart -----

  lemma {:induction false} HeadsLength(heads: seq<nat>)
    requires forall k :: 0 <= k < |heads| ==> heads[k] <= PTR_MAX
    ensures |EncodeHeads(heads)| == PTR_SZ * |heads|
  {
    if heads != [] {
      HeadsLength(heads[..|heads| - 1]);
      PtrFits(heads[|heads| - 1]);
    }
  }

  lemma {:induction false} HeadsSplit(a: seq<nat>, b: seq<nat>)
    ensures EncodeHeads(a + b) == EncodeHeads(a) + EncodeHeads(b)
  {
    hide Padded;
    if b == [] {
      assert a + b == a;
    } else {
      var n := |b| - 1;
      assert (a + b)[..|a + b| - 1] == a + b[..n];
      HeadsSplit(a, b[..n]);
    }
  }

  lemma {:induction false} RecsSplit(a: seq<Rec>, b: seq<Rec>)
    ensures EncodeRecs(a + b) == EncodeRecs(a) + EncodeRecs(b)
  {
    hide Encode;
    if b == [] {
      assert a + b == a;
    } else {
      var n := |b| - 1;
      assert (a + b)[..|a + b| - 1] == a + b[..n];
      RecsSplit(a, b[..n]);
    }
  }

  lemma OneHead(p: nat)
    ensures EncodeHeads([p]) == Padded(PTR_SZ, p)
  {
    assert [p][..0] == [];
  }

  lemma OneRec(r: Rec)
    ensures EncodeRecs([r]) == Encode(r)
  {
    assert [r][..0] == [];
  }

  /** The bytes before and after record `i`. */
  ghost function Before(heads: seq<nat>, recs: seq<Rec>, i: nat): string
    requires i <= |recs|
  {
    EncodeHeads(heads) + [NEWLINE] + EncodeRecs(recs[..i])
  }

  lemma CutAtRecord(heads: seq<nat>, recs: seq<Rec>, i: nat)
    requires AllWellFormed(heads, recs) && i < |recs|
    ensures IndexFile(heads, recs) == Before(heads, recs, i) + Encode(recs[i]) + EncodeRecs(recs[i + 1..])
    ensures |Before(heads, recs, i)| == Offset(recs, i)
  {
    hide Encode, WellFormed, EncodeHeads;
    HeadsLength(heads);
    assert recs == recs[..i] + ([recs[i]] + recs[i + 1..]);
    RecsSplit(recs[..i], [recs[i]] + recs[i + 1..]);
    RecsSplit([recs[i]], recs[i + 1..]);
    OneRec(recs[i]);
  }

  lemma CutAtHead(heads: seq<nat>, recs: seq<Rec>, k: nat)
    requires AllWellFormed(heads, recs) && k < |heads|
    ensures IndexFile(heads, recs)
         == EncodeHeads(heads[..k]) + Padded(PTR_SZ,
                                             heads[k]) + (EncodeHeads(heads[k + 1..]) + [NEWLINE] + EncodeRecs(recs))
    ensures |EncodeHeads(heads[..k])| == PTR_SZ * k
  {
    hide Padded, EncodeRecs, WellFormed, EncodeHeads;
    HeadsLength(heads[..k]);
    assert heads == heads[..k] + ([heads[k]] + heads[k + 1..]);
    HeadsSplit(heads[..k], [heads[k]] + heads[k + 1..]);
    HeadsSplit([heads[k]], heads[k + 1..]);
    OneHead(heads[k]);
    Regroup(EncodeHeads(heads[..k]), Padded(PTR_SZ, heads[k]), EncodeHeads(heads[k + 1..]), [NEWLINE],
            EncodeRecs(recs));
  }

  lemma Regroup(a: string, b: string, c: string, d: string, e: string)
    ensures a + (b + c) + d + e == a + b + (c + d + e)
  {
  }

  // ----- reading -----

  lemma ReadHead(heads: seq<nat>, recs: seq<Rec>, k: nat)
    requires AllWellFormed(heads, recs) && k < |heads|
    ensures ReadPtr(IndexFile(heads, recs), PTR_SZ * k) == Some(heads[k])
  {
    CutAtHead(heads, recs, k);
    PtrFits(heads[k]);
    PaddedRoundTrip(PTR_SZ, heads[k]);
    var file, off := IndexFile(heads, recs), PTR_SZ * k;
    assert file[off..off + PTR_SZ] == Padded(PTR_SZ, heads[k]);
  }

  /** A record anywhere in the file reads back as it was written. */
  lemma ReadRecord(heads: seq<nat>, recs: seq<Rec>, i: nat)
    requires AllWellFormed(heads, recs) && i < |recs|
    ensures ReadIdx(IndexFile(heads, recs), Offset(recs, i)) == Some(recs[i])
    ensures ReadPtr(IndexFile(heads, recs), Offset(recs, i)) == Some(recs[i].ptr)
  {
    CutAtRecord(heads, recs, i);
    RecordRoundTrip(Before(heads, recs, i), recs[i], EncodeRecs(recs[i + 1..]));
  }

  // ----- offsets -----

  lemma OffsetNext(recs: seq<Rec>, i: nat)
    requires i < |recs|
    ensures Offset(recs, i + 1) == Offset(recs, i) + |Encode(recs[i])|
  {
    assert recs[..i + 1][..i] == recs[..i];
  }

  lemma {:induction false} OffsetsIncrease(recs: seq<Rec>, i: nat, j: nat)
    requires i < j <= |recs| && forall k :: 0 <= k < |recs| ==> WellFormed(recs[k])
    ensures BASE <= Offset(recs, i) < Offset(recs, j)
  {
    OffsetNext(recs, j - 1);
    EncodeLength(recs[j - 1]);
    if i < j - 1 {
      OffsetsIncrease(recs, i, j - 1);
    }
  }

  /** No two records start at the same place, and none starts at 0 (the null pointer). */
  lemma OffsetsDistinct(recs: seq<Rec>)
    requires forall k :: 0 <= k < |recs| ==> WellFormed(recs[k])
    ensures forall i :: 0 <= i < |recs| ==> Offsets(recs)[i] >= BASE
    ensures forall i, j :: 0 <= i < j < |recs| ==> Offsets(recs)[i] != Offsets(recs)[j]
  {
    forall i, j | 0 <= i < j < |recs| ensures Offsets(recs)[i] != Offsets(recs)[j] {
      OffsetsIncrease(recs, i, j);
    }
  }

  /** Rewriting a record at its old length moves no other record. */
  lemma {:induction false} OffsetKept(recs: seq<Rec>, i: nat, r: Rec, j: nat)
    requires i < |recs| && j <= |recs| && |Encode(r)| == |Encode(recs[i])|
    ensures Offset(recs[i := r], j) == Offset(recs, j)
  {
    if j > 0 {
      OffsetKept(recs, i, r, j - 1);
      OffsetNext(recs, j - 1);
      OffsetNext(recs[i := r], j - 1);
    }
  }

  lemma OffsetsKept(recs: seq<Rec>, i: nat, r: Rec)
    requires i < |recs| && |Encode(r)| == |Encode(recs[i])|
    ensures Offsets(recs[i := r]) == Offsets(recs)
  {
    forall j | 0 <= j < |recs| ensures Offset(recs[i := r], j) == Offset(recs, j) {
      OffsetKept(recs, i, r, j);
    }
  }

  lemma OffsetsAppended(recs: seq<Rec>, r: Rec)
    ensures Offsets(recs + [r]) == Offsets(recs) + [Offset(recs, |recs|)]
  {
    forall j | 0 <= j <= |recs| ensures Offset(recs + [r], j) == Offset(recs, j) {
      assert (recs + [r])[..j] == recs[..j];
    }
  }

  // ----- writing -----

  lemma WriteMiddle(a: string, b: string, c: string, b': string)
    requires |b'| == |b|
    ensures WriteAt(a + b + c, |a|, b') == a + b' + c
  {
    var file := a + b + c;
    assert file[..|a|] == a;
    assert file[|a| + |b|..] == c;
  }

  lemma WriteHead(heads: seq<nat>, recs: seq<Rec>, k: nat, p: nat)
    requires AllWellFormed(heads, recs) && k < |heads| && p <= PTR_MAX
    ensures PTR_SZ * k <= |IndexFile(heads, recs)|
    ensures WriteAt(IndexFile(heads, recs), PTR_SZ * k, Padded(PTR_SZ, p)) == IndexFile(heads[k := p], recs)
  {
    CutAtHead(heads, recs, k);
    CutAtHead(heads[k := p], recs, k);
    PtrFits(heads[k]);
    PtrFits(p);
    assert heads[k := p][..k] == heads[..k] && heads[k := p][k + 1..] == heads[k + 1..];
    WriteMiddle(EncodeHeads(heads[..k]), Padded(PTR_SZ, heads[k]),
                EncodeHeads(heads[k + 1..]) + [NEWLINE] + EncodeRecs(recs), Padded(PTR_SZ, p));
  }

  /** Rewriting record `i` at its old length changes that record and nothing else. */
  lemma WriteRecord(heads: seq<nat>, recs: seq<Rec>, i: nat, r: Rec)
    requires AllWellFormed(heads, recs) && i < |recs| && WellFormed(r) && |Body(r)| == |Body(recs[i])|
    ensures Offset(recs, i) <= |IndexFile(heads, recs)| && |Encode(r)| == |Encode(recs[i])|
    ensures WriteAt(IndexFile(heads, recs), Offset(recs, i), Encode(r)) == IndexFile(heads, recs[i := r])
  {
    var recs' := recs[i := r];
    EncodeLength(r);
    EncodeLength(recs[i]);
    CutAtRecord(heads, recs, i);
    CutAtRecord(heads, recs', i);
    assert recs'[..i] == recs[..i] && recs'[i + 1..] == recs[i + 1..];
    WriteMiddle(Before(heads, recs, i), Encode(recs[i]), EncodeRecs(recs[i + 1..]), Encode(r));
  }

  /** Writing only the chain pointer of record `i` changes only that field. */
  lemma WriteChainPtr(heads: seq<nat>, recs: seq<Rec>, i: nat, p: nat)
    requires AllWellFormed(heads, recs) && i < |recs| && p <= PTR_MAX
    ensures Offset(recs, i) <= |IndexFile(heads, recs)|
    ensures WriteAt(IndexFile(heads, recs), Offset(recs, i), Padded(PTR_SZ, p))
         == IndexFile(heads, recs[i := recs[i].(ptr := p)])
  {
    hide Body, IndexFile, Before, EncodeRecs, Padded, WellFormed;
    var r, r' := recs[i], recs[i].(ptr := p);
    PtrOnly(r, p);
    CutAtRecord(heads, recs, i);
    WriteRecord(heads, recs, i, r');
    var recs' := recs[i := r'];
    CutAtRecord(heads, recs', i);
    assert recs'[..i] == recs[..i] && recs'[i + 1..] == recs[i + 1..];
    SamePrefix(heads, recs, recs', i);
    PrefixWrite(Before(heads, recs, i), Padded(PTR_SZ, r.ptr), Padded(IDXLEN_SZ, |Body(r)|) + Body(r),
                EncodeRecs(recs[i + 1..]), Padded(PTR_SZ, p));
    assert Encode(r) == Padded(PTR_SZ, r.ptr) + (Padded(IDXLEN_SZ, |Body(r)|) + Body(r));
    assert Encode(r') == Padded(PTR_SZ, p) + (Padded(IDXLEN_SZ, |Body(r)|) + Body(r));
  }

  lemma SamePrefix(heads: seq<nat>, recs: seq<Rec>, recs': seq<Rec>, i: nat)
    requires i <= |recs| && i <= |recs'| && recs[..i] == recs'[..i]
    ensures Before(heads, recs, i) == Before(heads, recs', i)
  {
  }

  lemma PtrOnly(r: Rec, p: nat)
    requires WellFormed(r) && p <= PTR_MAX
    ensures WellFormed(r.(ptr := p)) && Body(r.(ptr := p)) == Body(r)
    ensures |Padded(PTR_SZ, r.ptr)| == |Padded(PTR_SZ, p)|
  {
    PtrFits(r.ptr);
    PtrFits(p);
  }

  lemma PrefixWrite(a: string, b: string, c: string, d: string, b': string)
    requires |b'| == |b|
    ensures WriteAt(a + (b + c) + d, |a|, b') == a + (b' + c) + d
  {
    assert a + (b + c) + d == a + b + (c + d);
    assert a + (b' + c) + d == a + b' + (c + d);
    WriteMiddle(a, b, c + d, b');
  }

  lemma AppendRecord(heads: seq<nat>, recs: seq<Rec>, r: Rec)
    requires AllWellFormed(heads, recs)
    ensures |IndexFile(heads, recs)| == Offset(recs, |recs|)
    ensures WriteAt(IndexFile(heads, recs), |IndexFile(heads, recs)|, Encode(r)) == IndexFile(heads, recs + [r])
  {
    HeadsLength(heads);
    assert recs[..|recs|] == recs;
    assert (recs + [r])[..|recs|] == recs;
    var file := IndexFile(heads, recs);
    assert file[..|file|] == file;
    assert file[|file|..] == [];
  }
}
