/** The steps of the concurrent database that write to the files. */
module DbConcurrentWrites {
  import opened DbFormat
  import opened DbFile
  import opened DbState
  import opened DbDisk
  import opened Db
  import opened DbConcurrent
  import opened DbConcurrentInv
  import opened DbConcurrentFrame
  import opened DbConcurrentSteps

  /** A step that writes to the files without touching a lock or the map. */
  ghost predicate Writes(s: S, s': S, p: nat) {
    && Sized(s) && Sized(s') && p in s.procs
    && s'.abs == s.abs && s'.log == s.log && s'.writer == s.writer && s'.readers == s.readers
    && s'.freeLock == s.freeLock && s'.datLock == s.datLock && s'.idxLock == s.idxLock
    && s'.procs.Keys == s.procs.Keys && (forall q :: q in s.procs && q != p ==> s'.procs[q] == s.procs[q])
    && s'.procs[p].call == s.procs[p].call
    && var pc, pc' := s.procs[p].pc, s'.procs[p].pc;
       Inside(pc) && Inside(pc') && UsesFree(pc) == UsesFree(pc') && UsesDat(pc) == UsesDat(pc') &&
       UsesIdx(pc) == UsesIdx(pc')
  }

  lemma WriteStep(s: S, s': S, p: nat)
    requires Safe(s) && Writes(s, s', p) && Frame(s, s', p) && RecsOk(s') && ProcOk(s', p)
    requires forall k :: 0 <= k < NHEADS && ControlsList(s, p, k) ==> ListOk(s', k)
    ensures Allowed(s, s', p)
  {
    hide Frame, RecsOk, LogOk, ProcOk, ListOk, Holds, LocksOk, ProcsOk, ChainsOk, ListsAllOk, UsesFree, UsesDat,
         UsesIdx;
    FreeUse(s, p);
    LocksStep(s, s', p);
    SameLog(s, s');
    Assemble(s, s', p);
  }

  /** The only lists a process inside a call may have locked. */
  lemma OwnLists(s: S, p: nat, k: nat)
    requires LocksOk(s) && p in s.procs && ControlsList(s, p, k)
    ensures k == 0 || k == Chain(s.procs[p].call)
  {
  }

  lemma OwnChain(s: S, p: nat)
    requires LocksOk(s) && p in s.procs && Inside(s.procs[p].pc) && !s.procs[p].call.FetchCall?
    ensures ControlsList(s, p, Chain(s.procs[p].call))
    ensures UsesFree(s.procs[p].pc) <==> ControlsList(s, p, 0)
  {
    assert HasChain(s, p);
    FreeUse(s, p);
  }

  // ----- writing a piece of data -----

  lemma PieceRecs(s: S, r: nat, data: string)
    requires Sized(s) && RecsOk(s) && r < |s.recs| && |data| + 1 == s.recs[r].datlen
    ensures s.recs[r].datoff < |s.pieces|
    ensures RecsOk(s.(pieces := s.pieces[s.recs[r].datoff := data]))
    ensures forall x :: 0 <= x < |s.recs| && x != r ==> s.recs[x].datoff != s.recs[r].datoff
  {
    hide Bucket;
  }

  lemma PieceFrame(s: S, s': S, p: nat, r: nat, data: string)
    requires Sized(s) && RecsOk(s) && r < |s.recs| && Controls(s, p, r) && s.recs[r].datoff < |s.pieces|
    requires s'.pieces == s.pieces[s.recs[r].datoff := data] && s'.heads == s.heads && s'.recs == s.recs
    requires s'.lists == s.lists && s'.home == s.home && s'.pieceHome == s.pieceHome && Sized(s')
    ensures Frame(s, s', p)
  {
    hide Bucket, ControlsList;
    assert ControlsPiece(s, p, s.recs[r].datoff);
  }

  /** A piece whose record is not on the chain does not matter to it. */
  lemma PieceElsewhere(s: S, s': S, k: nat, r: nat, data: string, m: map<string, string>)
    requires Sized(s) && Sized(s') && RecsOk(s) && Holds(s, k, m) && r < |s.recs| && s.home[r] != On(k)
    requires s.recs[r].datoff < |s.pieces| && s'.pieces == s.pieces[s.recs[r].datoff := data]
    requires s'.recs == s.recs && s'.home == s.home
    ensures Holds(s', k, m)
  {
    forall key, x: nat | HasKey(s', k, key, x)
      ensures key in m && s'.recs[x].datoff < |s'.pieces| && m[key] == s'.pieces[s'.recs[x].datoff]
    {
      assert HasKey(s, k, key, x);
    }
    forall key | key in m && Bucket(key) == k ensures exists x: nat :: HasKey(s', k, key, x) {
      var x: nat :| HasKey(s, k, key, x);
      assert HasKey(s', k, key, x);
    }
  }

  /** Overwriting the piece of a record on the chain changes the value of its key. */
  lemma PieceOnChain(s: S, s': S, k: nat, key: string, r: nat, data: string, m: map<string, string>)
    requires Sized(s) && Sized(s') && RecsOk(s) && Holds(s, k, m) && HasKey(s, k, key, r) && k >= 1
    requires s.recs[r].datoff < |s.pieces| && s'.pieces == s.pieces[s.recs[r].datoff := data]
    requires s'.recs == s.recs && s'.home == s.home
    ensures Holds(s', k, m[key := data])
  {
    var m' := m[key := data];
    forall kk, x: nat | HasKey(s', k, kk, x)
      ensures kk in m' && s'.recs[x].datoff < |s'.pieces| && m'[kk] == s'.pieces[s'.recs[x].datoff]
    {
      PieceOfOther(s, s', k, key, r, data, m, kk, x);
    }
    hide RecsOk;
    forall kk | kk in m' && Bucket(kk) == k ensures exists x: nat :: HasKey(s', k, kk, x) {
      if kk == key {
        assert HasKey(s', k, kk, r);
      } else {
        var x: nat :| HasKey(s, k, kk, x);
        assert HasKey(s', k, kk, x);
      }
    }
  }

  lemma PieceOfOther(s: S, s': S, k: nat, key: string, r: nat, data: string, m: map<string, string>, kk: string, x: nat)
    requires Sized(s) && Sized(s') && RecsOk(s) && Holds(s, k, m) && HasKey(s, k, key, r) && HasKey(s', k, kk, x) &&
             k >= 1
    requires s.recs[r].datoff < |s.pieces| && s'.pieces == s.pieces[s.recs[r].datoff := data]
    requires s'.recs == s.recs && s'.home == s.home
    ensures var m' := m[key := data];
            kk in m' && s'.recs[x].datoff < |s'.pieces| &&
            m'[kk] == s'.pieces[s'.recs[x].datoff]
  {
    assert HasKey(s, k, kk, x);
  }

  /** Lists do not depend on the data. */
  lemma ListIgnoresData(s: S, s': S, p: nat, k: nat)
    requires Sized(s) && Sized(s') && k < NHEADS && ListOk(s, k) && p in s.procs && p in s'.procs
    requires s'.heads == s.heads && s'.recs == s.recs && s'.lists == s.lists && s'.home == s.home &&
             s'.writer == s.writer
    requires s'.procs.Keys == s.procs.Keys && (forall q :: q in s.procs && q != p ==> s'.procs[q] == s.procs[q])
    requires !Pending(s.procs[p].pc) && !Pending(s'.procs[p].pc)
    ensures ListOk(s', k)
  {
    assert Deleting(s', k) == Deleting(s, k);
    assert HeadOf(s', k) == HeadOf(s, k) && PtrsOf(s', k) == PtrsOf(s, k);
  }

  lemma StepOverwrite(s: S, p: nat)
    requires Safe(s) && p in s.procs && s.procs[p].pc.Found? && Overwrites(s.procs[p].call, s.procs[p].pc.rec)
    ensures Allowed(s, Next(s, p), p)
  {
    hide RecsOk, LogOk, ListOk, Holds, LocksOk, ChainsOk, Frame, UsesFree, UsesDat, UsesIdx;
    var Proc(call, pc) := s.procs[p];
    var k, s' := Chain(call), Next(s, p);
    assert ProcOk(s, p);
    FoundIsInMap(s, p);
    OwnChain(s, p);
    PieceRecs(s, pc.r, call.data);
    PieceFrame(s, s', p, pc.r, call.data);
    SameRecs(s.(pieces := s'.pieces), s');
    PieceOnChain(s, s', k, call.key, pc.r, call.data, s.abs);
    forall l | 0 <= l < NHEADS && ControlsList(s, p, l) ensures ListOk(s', l) {
      ListsOf(s, l);
      ListIgnoresData(s, s', p, l);
    }
    FoundUses(pc);
    FoundUses(s'.procs[p].pc);
    WriteStep(s, s', p);
  }

  lemma FoundUses(pc: Pc)
    ensures pc.Found? || pc.Unlock? || pc.FillData? || pc.FillIdx? || pc.SetHead? ==>
              !UsesFree(pc) && !UsesDat(pc) && !UsesIdx(pc)
  {
  }

  lemma RecHasPiece(s: S, r: nat)
    requires Sized(s) && RecsOk(s) && r < |s.recs|
    ensures s.recs[r].datlen > 0 && s.recs[r].datoff < |s.pieces|
  {
  }

  lemma NextFillData(s: S, p: nat)
    requires Sized(s) && p in s.procs && s.procs[p].pc.FillData? && s.procs[p].pc.rec.datoff < |s.pieces|
    ensures var Proc(call, pc) := s.procs[p];
            Next(s, p) == To(s.(pieces := s.pieces[pc.rec.datoff := DataOf(call)]), p, FillIdx(pc.ptr, pc.r, pc.rec))
  {
    hide Chain;
  }

  lemma StepFillData(s: S, p: nat)
    requires Safe(s) && p in s.procs && s.procs[p].pc.FillData?
    ensures Allowed(s, Next(s, p), p)
  {
    hide RecsOk, LogOk, ListOk, Holds, LocksOk, ChainsOk, Frame, AnswerTo, UsesFree, UsesDat, UsesIdx, Next, ListsAllOk;
    var Proc(call, pc) := s.procs[p];
    var k, data := Chain(call), DataOf(call);
    assert ProcOk(s, p);
    RecHasPiece(s, pc.r);
    NextFillData(s, p);
    var s' := To(s.(pieces := s.pieces[pc.rec.datoff := data]), p, FillIdx(pc.ptr, pc.r, pc.rec));
    PieceRecs(s, pc.r, data);
    PieceFrame(s, s', p, pc.r, data);
    SameRecs(s.(pieces := s'.pieces), s');
    PieceElsewhere(s, s', k, pc.r, data, s.abs - {call.key});
    forall l | 0 <= l < NHEADS && ControlsList(s, p, l) ensures ListOk(s', l) {
      ListsOf(s, l);
      ListIgnoresData(s, s', p, l);
    }
    FoundUses(pc);
    FoundUses(s'.procs[p].pc);
    WriteStep(s, s', p);
  }

  // ----- rewriting a record that belongs to the process alone -----

  lemma PrivateWrite(s: S, s': S, p: nat, r: nat, rec: Rec)
    requires Sized(s) && Sized(s') && RecsOk(s) && Private(s, p, r) && s'.recs == s.recs[r := rec]
    requires |rec.key| == |s.recs[r].key| && rec.datoff == s.recs[r].datoff && rec.datlen == s.recs[r].datlen
    requires s'.pieces == s.pieces && s'.heads == s.heads
    requires s'.lists == s.lists && s'.home == s.home && s'.pieceHome == s.pieceHome
    ensures Frame(s, s', p) && RecsOk(s')
  {
    hide Bucket, ControlsList;
    assert Controls(s, p, r);
  }

  lemma PrivateHolds(s: S, s': S, p: nat, r: nat, k: nat, m: map<string, string>)
    requires Sized(s) && Sized(s') && Holds(s, k, m) && Private(s, p, r) && |s'.recs| == |s.recs|
    requires (forall x :: 0 <= x < |s.recs| && x != r ==> s'.recs[x] == s.recs[x]) && s'.pieces == s.pieces &&
             s'.home == s.home
    ensures Holds(s', k, m)
  {
    forall key, x: nat | HasKey(s', k, key, x)
      ensures key in m && s'.recs[x].datoff < |s'.pieces| && m[key] == s'.pieces[s'.recs[x].datoff]
    {
      assert HasKey(s, k, key, x);
    }
    forall key | key in m && Bucket(key) == k ensures exists x: nat :: HasKey(s', k, key, x) {
      var x: nat :| HasKey(s, k, key, x);
      assert HasKey(s', k, key, x);
    }
  }

  lemma PrivateLists(s: S, s': S, p: nat, r: nat, rec: Rec, k: nat)
    requires Sized(s) && Sized(s') && k < NHEADS && ListOk(s, k) && Private(s, p, r) && s'.recs == s.recs[r := rec]
    requires s'.heads == s.heads && s'.lists == s.lists && s'.home == s.home && s'.writer == s.writer
    requires p in s.procs && p in s'.procs && s'.procs.Keys == s.procs.Keys
    requires forall q :: q in s.procs && q != p ==> s'.procs[q] == s.procs[q]
    requires var pc, pc' := s.procs[p].pc, s'.procs[p].pc;
             Pending(pc) == Pending(pc') && (Pending(pc) ==> pc'.prev == pc.prev && pc'.rec == pc.rec)
    ensures ListOk(s', k)
  {
    hide Linked;
    assert Deleting(s', k) == Deleting(s, k) && HeadOf(s', k) == HeadOf(s, k);
    ListMembers(s, k);
    LinkedSame(Ids(|s.recs|), PtrsOf(s, k), Ids(|s'.recs|), PtrsOf(s', k), HeadOf(s, k), s.lists[k]);
  }

  lemma NextFillIdx(s: S, p: nat)
    requires Sized(s) && p in s.procs && s.procs[p].pc.FillIdx? && s.procs[p].pc.r < |s.recs|
    ensures var Proc(call, pc) := s.procs[p];
            Next(s, p) == To(s.(recs := s.recs[pc.r := Rec(pc.ptr, call.key, pc.rec.datoff, pc.rec.datlen)]), p,
                             SetHead(pc.r))
  {
    hide Chain;
  }

  lemma StepFillIdx(s: S, p: nat)
    requires Safe(s) && p in s.procs && s.procs[p].pc.FillIdx?
    ensures Allowed(s, Next(s, p), p)
  {
    hide RecsOk, LogOk, ListOk, Holds, LocksOk, ChainsOk, Frame, AnswerTo, UsesFree, UsesDat, UsesIdx, Next, ListsAllOk;
    var Proc(call, pc) := s.procs[p];
    var k, rec := Chain(call), Rec(pc.ptr, call.key, pc.rec.datoff, pc.rec.datlen);
    assert ProcOk(s, p);
    NextFillIdx(s, p);
    var s' := To(s.(recs := s.recs[pc.r := rec]), p, SetHead(pc.r));
    PrivateWrite(s, s', p, pc.r, rec);
    PrivateHolds(s, s', p, pc.r, k, s.abs - {call.key});
    forall l | 0 <= l < NHEADS && ControlsList(s, p, l) ensures ListOk(s', l) {
      ListsOf(s, l);
      PrivateLists(s, s', p, pc.r, rec, l);
    }
    FoundUses(pc);
    FoundUses(s'.procs[p].pc);
    WriteStep(s, s', p);
  }

  lemma NextBlankIdx(s: S, p: nat)
    requires Sized(s) && p in s.procs && s.procs[p].pc.BlankIdx? && s.procs[p].pc.r < |s.recs|
    ensures var pc := s.procs[p].pc;
            Next(s, p) == To(s.(recs := s.recs[pc.r := Rec(pc.free, Blanks(|pc.rec.key|), pc.rec.datoff,
                                                           pc.rec.datlen)]), p,
                             SetFree(pc.r, pc.rec, pc.prev))
  {
    hide Chain;
  }

  lemma StepBlankIdx(s: S, p: nat)
    requires Safe(s) && p in s.procs && s.procs[p].pc.BlankIdx?
    ensures Allowed(s, Next(s, p), p)
  {
    hide RecsOk, LogOk, ListOk, Holds, LocksOk, ChainsOk, Frame, Removed, Next, ListsAllOk, ProcOk, ProcsOk,
         PrevInChain, Chain;
    var Proc(call, pc) := s.procs[p];
    var rec := Rec(pc.free, Blanks(|pc.rec.key|), pc.rec.datoff, pc.rec.datlen);
    BlankIdxKnows(s, p);
    NextBlankIdx(s, p);
    var s' := To(s.(recs := s.recs[pc.r := rec]), p, SetFree(pc.r, pc.rec, pc.prev));
    PrivateWrite(s, s', p, pc.r, rec);
    BlankIdxOk(s, s', p, rec);
    BlankedLists(s, s', p, rec);
    WriteStep(s, s', p);
  }

  lemma BlankIdxKnows(s: S, p: nat)
    requires Safe(s) && p in s.procs && s.procs[p].pc.BlankIdx?
    ensures var Proc(call, pc) := s.procs[p];
            && Removed(s, call) && Private(s, p, pc.r) && s.recs[pc.r] == pc.rec
            && PrevInChain(s, Chain(call), pc.prev) && pc.free == s.heads[0]
  {
    hide RecsOk, LogOk, ListOk, LocksOk, ChainsOk, ListsAllOk, Removed, Chain, PrevInChain;
    assert ProcOk(s, p);
  }

  lemma BlankIdxOk(s: S, s': S, p: nat, rec: Rec)
    requires Sized(s) && p in s.procs && s.procs[p].pc.BlankIdx?
    requires var Proc(call, pc) := s.procs[p];
             && Removed(s, call) && Private(s, p, pc.r) && PrevInChain(s, Chain(call), pc.prev) && rec.ptr == s.heads[0]
             && s' == To(s.(recs := s.recs[pc.r := rec]), p, SetFree(pc.r, pc.rec, pc.prev))
    ensures Sized(s') && ProcOk(s', p)
  {
    hide Holds, Chain, AnswerTo;
    var Proc(call, pc) := s.procs[p];
    PrivateHolds(s, s', p, pc.r, Chain(call), s.abs - {call.key});
  }

  lemma BlankedLists(s: S, s': S, p: nat, rec: Rec)
    requires Safe(s) && p in s.procs && s.procs[p].pc.BlankIdx? && Private(s, p, s.procs[p].pc.r)
    requires var pc := s.procs[p].pc; s' == To(s.(recs := s.recs[pc.r := rec]), p, SetFree(pc.r, pc.rec, pc.prev))
    ensures Sized(s') && forall l :: 0 <= l < NHEADS && ControlsList(s, p, l) ==> ListOk(s', l)
  {
    hide LogOk, ListOk, LocksOk, ChainsOk, RecsOk, ListsAllOk, ProcsOk, ControlsList, Chain;
    forall l | 0 <= l < NHEADS && ControlsList(s, p, l) ensures ListOk(s', l) {
      ListsOf(s, l);
      PrivateLists(s, s', p, s.procs[p].pc.r, rec, l);
    }
  }

  // ----- appending -----

  lemma NextAppendDat(s: S, p: nat)
    requires Sized(s) && p in s.procs && s.procs[p].pc.AppendDat?
    ensures var Proc(call, pc) := s.procs[p];
            Next(s, p) == To(s.(pieces := s.pieces + [DataOf(call)], pieceHome := s.pieceHome + [OfProc(p)]), p,
                             DropDat(pc.ptr, |s.pieces|))
  {
    hide Chain;
  }

  lemma StepAppendDat(s: S, p: nat)
    requires Safe(s) && p in s.procs && s.procs[p].pc.AppendDat?
    ensures Allowed(s, Next(s, p), p)
  {
    hide LogOk, ListOk, Holds, LocksOk, ChainsOk, AnswerTo, Frame, RecsOk, Next, ListsAllOk;
    var Proc(call, pc) := s.procs[p];
    assert ProcOk(s, p);
    NextAppendDat(s, p);
    var k := Chain(call);
    var s' := To(s.(pieces := s.pieces + [DataOf(call)], pieceHome := s.pieceHome + [OfProc(p)]), p,
                 DropDat(pc.ptr, |s.pieces|));
    GrowPieces(s, s', p);
    GrowHolds(s, s', k, s.abs - {call.key});
    forall l | 0 <= l < NHEADS && ControlsList(s, p, l) ensures ListOk(s', l) {
      ListsOf(s, l);
      ListIgnoresData(s, s', p, l);
    }
    WriteStep(s, s', p);
  }

  lemma GrowPieces(s: S, s': S, p: nat)
    requires Sized(s) && Sized(s') && RecsOk(s) && s'.heads == s.heads && s'.recs == s.recs &&
             s'.lists == s.lists && s'.home == s.home
    requires s.pieces <= s'.pieces && s.pieceHome <= s'.pieceHome
    ensures Frame(s, s', p) && RecsOk(s')
  {
    hide Bucket, ControlsList;
  }

  /** New records and pieces are on no chain. */
  lemma GrowHolds(s: S, s': S, k: nat, m: map<string, string>)
    requires Sized(s) && Sized(s') && Holds(s, k, m) && s.recs <= s'.recs && s.pieces <= s'.pieces && s.home <= s'.home
    requires forall x :: |s.home| <= x < |s'.home| ==> s'.home[x] != On(k)
    ensures Holds(s', k, m)
  {
    forall key, x: nat | HasKey(s', k, key, x)
      ensures key in m && s'.recs[x].datoff < |s'.pieces| && m[key] == s'.pieces[s'.recs[x].datoff]
    {
      assert HasKey(s, k, key, x);
    }
    forall key | key in m && Bucket(key) == k ensures exists x: nat :: HasKey(s', k, key, x) {
      var x: nat :| HasKey(s, k, key, x);
      assert HasKey(s', k, key, x);
    }
  }

  lemma GrowRecs(s: S, s': S, p: nat, rec: Rec)
    requires Sized(s) && Sized(s') && RecsOk(s) && s'.heads == s.heads && s'.lists == s.lists && s'.pieces == s.pieces
    requires s'.recs == s.recs + [rec] && s'.home == s.home + [Own(p)]
    requires rec.datoff < |s.pieces| && s.pieceHome[rec.datoff] == OfProc(p) && |s.pieces[rec.datoff]| + 1 == rec.datlen
    requires s'.pieceHome == s.pieceHome[rec.datoff := OfRec(|s.recs|)]
    ensures Frame(s, s', p) && RecsOk(s')
  {
    hide Bucket, ControlsList;
    assert ControlsPiece(s, p, rec.datoff);
  }

  lemma GrowLists(s: S, s': S, p: nat, rec: Rec, k: nat)
    requires Sized(s) && Sized(s') && k < NHEADS && ListOk(s, k) && s'.recs == s.recs + [rec] &&
             s'.home == s.home + [Own(p)]
    requires s'.heads == s.heads && s'.lists == s.lists && s'.writer == s.writer
    requires p in s.procs && p in s'.procs && s'.procs.Keys == s.procs.Keys
    requires forall q :: q in s.procs && q != p ==> s'.procs[q] == s.procs[q]
    requires !Pending(s.procs[p].pc) && !Pending(s'.procs[p].pc)
    requires forall q :: q in s.procs && Pending(s.procs[q].pc) ==>
               PrevInChain(s, Chain(s.procs[q].call), s.procs[q].pc.prev)
    ensures ListOk(s', k)
  {
    hide Linked, Chain;
    assert Deleting(s', k) == Deleting(s, k) && HeadOf(s', k) == HeadOf(s, k);
    ListMembers(s, k);
    LinkedSame(Ids(|s.recs|), PtrsOf(s, k), Ids(|s'.recs|), PtrsOf(s', k), HeadOf(s, k), s.lists[k]);
  }

  /** The record appended, private to the process. */
  ghost function Appended(s: S, p: nat, rec: Rec): S
    requires Sized(s) && p in s.procs && rec.datoff < |s.pieceHome|
  {
    To(s.(recs := s.recs + [rec], home := s.home + [Own(p)], pieceHome := s.pieceHome[rec.datoff := OfRec(|s.recs|)]),
       p, DropIdx(|s.recs|))
  }

  lemma NextAppendIdx(s: S, p: nat)
    requires Sized(s) && p in s.procs && s.procs[p].pc.AppendIdx? && s.procs[p].pc.piece < |s.pieceHome|
    ensures var Proc(call, pc) := s.procs[p];
            Next(s, p) == Appended(s, p, Rec(pc.ptr, call.key, pc.piece, |DataOf(call)| + 1))
  {
    hide Chain;
  }

  lemma StepAppendIdx(s: S, p: nat)
    requires Safe(s) && p in s.procs && s.procs[p].pc.AppendIdx?
    ensures Allowed(s, Next(s, p), p)
  {
    hide LogOk, ListOk, Holds, LocksOk, ChainsOk, AnswerTo, Frame, RecsOk, Next, ListsAllOk;
    var Proc(call, pc) := s.procs[p];
    var k, rec := Chain(call), Rec(pc.ptr, call.key, pc.piece, |DataOf(call)| + 1);
    assert ProcOk(s, p);
    NextAppendIdx(s, p);
    var s' := Appended(s, p, rec);
    GrowRecs(s, s', p, rec);
    GrowHolds(s, s', k, s.abs - {call.key});
    AppendedLists(s, p, rec);
    WriteStep(s, s', p);
  }

  lemma AppendedLists(s: S, p: nat, rec: Rec)
    requires Safe(s) && p in s.procs && s.procs[p].pc.AppendIdx? && rec.datoff < |s.pieceHome|
    ensures Sized(Appended(s, p, rec)) && forall l :: 0 <= l < NHEADS && ControlsList(s, p, l) ==>
              ListOk(Appended(s, p, rec), l)
  {
    hide LogOk, ListOk, LocksOk, ChainsOk, RecsOk, ListsAllOk, ProcsOk, ControlsList, Chain;
    var s' := Appended(s, p, rec);
    PendingPlaces(s);
    forall l | 0 <= l < NHEADS && ControlsList(s, p, l) ensures ListOk(s', l) {
      ListsOf(s, l);
      GrowLists(s, s', p, rec, l);
    }
  }

  lemma PendingPlaces(s: S)
    requires Safe(s)
    ensures forall q :: q in s.procs && Pending(s.procs[q].pc) ==>
              PrevInChain(s, Chain(s.procs[q].call), s.procs[q].pc.prev)
  {
    hide Holds, ListsAllOk, LocksOk, ChainsOk, RecsOk, Chain;
    forall q | q in s.procs && Pending(s.procs[q].pc)
      ensures PrevInChain(s, Chain(s.procs[q].call), s.procs[q].pc.prev)
    {
      assert ProcOk(s, q);
    }
  }
}
