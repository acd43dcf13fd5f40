/** The steps of the concurrent database that move a record from one list to
    another, and the steps that begin and end a call. */
module DbConcurrentMoves {
  import opened DbFormat
  import opened DbFile
  import opened DbState
  import opened DbDisk
  import opened Db
  import opened DbConcurrent
  import opened DbConcurrentInv
  import opened DbConcurrentFrame
  import opened DbConcurrentSteps
  import opened DbConcurrentWrites

  // ----- lists and chains that a move does not concern -----

  lemma ListCarries(s: S, s': S, k: nat)
    requires Sized(s) && Sized(s') && k < NHEADS && ListOk(s, k) && |s'.recs| == |s.recs|
    requires s'.lists[k] == s.lists[k] && HeadOf(s', k) == HeadOf(s, k)
    requires |PtrsOf(s, k)| == |s.recs| == |PtrsOf(s', k)|
    requires forall x :: 0 <= x < |s.recs| && s.home[x] == On(k) ==> PtrsOf(s', k)[x] == PtrsOf(s, k)[x]
    requires forall x :: 0 <= x < |s.recs| ==> (s'.home[x] == On(k) <==> s.home[x] == On(k))
    ensures ListOk(s', k)
  {
    hide Linked, HeadOf, PtrsOf;
    ListMembers(s, k);
    LinkedSame(Ids(|s.recs|), PtrsOf(s, k), Ids(|s'.recs|), PtrsOf(s', k), HeadOf(s, k), s.lists[k]);
  }

  lemma HoldsCarries(s: S, s': S, k: nat, m: map<string, string>)
    requires Sized(s) && Sized(s') && Holds(s, k, m) && s'.pieces == s.pieces && |s'.recs| == |s.recs|
    requires forall x :: 0 <= x < |s.recs| ==> s'.recs[x].key == s.recs[x].key && s'.recs[x].datoff == s.recs[x].datoff
    requires forall x :: 0 <= x < |s.recs| ==> (s'.home[x] == On(k) <==> s.home[x] == On(k))
    ensures Holds(s', k, m)
  {
    forall key, x: nat | HasKey(s', k, key, x)
      ensures key in m && s'.recs[x].datoff < |s'.pieces| && m[key] == s'.pieces[s'.recs[x].datoff]
    {
      assert HasKey(s, k, key, x);
    }
    forall key | key in m && Bucket(key) == k ensures exists x: nat :: HasKey(s', k, key, x) {
      var x: nat :| HasKey(s, k, key, x);
      assert HasKey(s', k, key, x);
    }
  }

  /** Off a list and into the hands of a process, with the pointer to it bypassed. */
  lemma DetachLinked(offs: seq<nat>, ptrs: seq<nat>, head: nat, list: seq<nat>, prev: Place, pos: nat)
    requires Linked(offs, ptrs, head, list) && pos < |list|
    requires match prev case AtHead => pos == 0 case InRec(i) => 0 < pos && list[pos - 1] == i
    ensures var next := ptrs[list[pos]];
            Linked(offs, if prev.InRec? then ptrs[prev.i := next] else ptrs, if prev.AtHead? then next else head,
                   RemoveAt(list, pos))
  {
    if pos == 0 {
      LinkedDropFirst(offs, ptrs, head, list);
      assert RemoveAt(list, 0) == list[1..];
    } else {
      LinkedDropAfter(offs, ptrs, head, list, pos);
    }
  }

  // ----- taking a record off the free list -----

  /** What both ways of taking a record off a list have in common. */
  lemma DetachRecs(s: S, s': S, p: nat, k: nat, pos: nat)
    requires Sized(s) && Sized(s') && RecsOk(s) && k < NHEADS && ListOk(s, k) && pos < |s.lists[k]| &&
             ControlsList(s, p, k)
    requires |s'.recs| == |s.recs| && s'.pieces == s.pieces && s'.pieceHome == s.pieceHome
    requires s.lists[k][pos] < |s.home| && s'.home == s.home[s.lists[k][pos] := Own(p)]
    requires forall l :: 0 <= l < NHEADS && l != k ==> s'.heads[l] == s.heads[l] && s'.lists[l] == s.lists[l]
    requires forall x :: 0 <= x < |s.recs| && s.home[x] != On(k) ==> s'.recs[x] == s.recs[x]
    requires forall x :: 0 <= x < |s.recs| ==> s'.recs[x] == s.recs[x].(ptr := s'.recs[x].ptr)
    ensures RecsOk(s') && Frame(s, s', p)
  {
    hide Linked, Bucket;
    assert s.lists[k][pos] in s.lists[k];
  }

  lemma DetachHouses(s: S, k: nat, pos: nat, p: nat)
    requires Sized(s) && k < NHEADS && ListOk(s, k) && pos < |s.lists[k]|
    ensures s.lists[k][pos] < |s.home| && s.home[s.lists[k][pos]] == On(k)
    ensures var home' := s.home[s.lists[k][pos] := Own(p)];
            forall r: nat :: r in RemoveAt(s.lists[k], pos) <==> r < |home'| && home'[r] == On(k)
  {
    hide Linked;
    ListMembers(s, k);
    RemoveAtMembers(s.lists[k], pos);
  }

  lemma StepFreeTake(s: S, p: nat)
    requires Safe(s) && p in s.procs && s.procs[p].pc.FreeTake?
    ensures Allowed(s, Next(s, p), p)
  {
    hide LogOk, Holds, LocksOk, ChainsOk, AnswerTo, Frame, RecsOk, ListOk, Chain, RemoveAt, HeadOf, PtrsOf, Next,
         Writes;
    var Proc(call, pc) := s.procs[p];
    var k, s' := Chain(call), Next(s, p);
    assert ProcOk(s, p);
    FreeUse(s, p);
    ListsOf(s, 0);
    FreeTaken(s, p);
    FreeTakenWrites(s, p);
    assert s'.abs == s.abs && s'.procs[p].call == call && s'.heads[k] == s.heads[k] by {
      SameMap(s, s', p);
      assert s'.heads[k] == s'.heads[1..][k - 1] && s.heads[k] == s.heads[1..][k - 1];
    }
    HoldsCarries(s, s', k, s.abs - {call.key});
    forall l | 0 <= l < NHEADS && ControlsList(s, p, l) ensures ListOk(s', l) {
      OwnLists(s, p, l);
      if l == k {
        ListsOf(s, k);
        FreeTakenOther(s, p, k);
      }
    }
    WriteStep(s, s', p);
  }

  lemma FreeTaken(s: S, p: nat)
    requires Safe(s) && p in s.procs && s.procs[p].pc.FreeTake? && ControlsList(s, p, 0)
    ensures var s', pc := Next(s, p), s.procs[p].pc;
            && Sized(s') && |s'.recs| == |s.recs| && s'.pieces == s.pieces
            && pc.r < |s.recs| && s.home[pc.r] == On(0) && s'.home == s.home[pc.r := Own(p)] && s'.recs[pc.r] == pc.rec
            && (forall x :: 0 <= x < |s.recs| ==> s'.recs[x] == s.recs[x].(ptr := s'.recs[x].ptr))
            && (forall x :: 0 <= x < |s.recs| && s.home[x] != On(0) ==> s'.recs[x] == s.recs[x])
            && s'.heads[1..] == s.heads[1..] && s'.lists[1..] == s.lists[1..]
            && RecsOk(s') && Frame(s, s', p) && ListOk(s', 0)
  {
    hide LogOk, Holds, ChainsOk, AnswerTo, Frame, RecsOk, Chain, LocksOk, RemoveAt, Linked;
    var Proc(call, pc) := s.procs[p];
    var s' := Next(s, p);
    assert ProcOk(s, p);
    FreeListIsNoChain(s);
    ListsOf(s, 0);
    ListMembers(s, 0);
    DetachHouses(s, 0, pc.pos, p);
    if pc.prev.InRec? {
      assert pc.prev.i != pc.r by { ListDistinct(s, 0, pc.pos); }
      assert s.home[pc.prev.i] == On(0) by { assert s.lists[0][pc.pos - 1] == pc.prev.i; }
    }
    DetachRecs(s, s', p, 0, pc.pos);
    assert Ptrs(s'.recs) == if pc.prev.InRec? then Ptrs(s.recs)[pc.prev.i := pc.rec.ptr] else Ptrs(s.recs);
    hide ListOk;
    FreeListLess(s, s', p, pc.pos, pc.prev, pc.rec.ptr);
  }

  lemma FreeListLess(s: S, s': S, p: nat, pos: nat, prev: Place, next: nat)
    requires Sized(s) && Sized(s') && ListOk(s, 0) && 0 !in s.writer && 0 !in s'.writer && |s'.recs| == |s.recs|
    requires pos < |s.lists[0]| && s.lists[0][pos] < |s.recs| && s.recs[s.lists[0][pos]].ptr == next &&
             PrevOk(s, 0, prev, pos)
    requires prev.InRec? ==> prev.i < |s.recs|
    requires Ptrs(s'.recs) == if prev.InRec? then Ptrs(s.recs)[prev.i := next] else Ptrs(s.recs)
    requires s'.heads[0] == (if prev.AtHead? then next else s.heads[0]) && s'.lists[0] == RemoveAt(s.lists[0], pos)
    requires s'.home == s.home[s.lists[0][pos] := Own(p)]
    ensures ListOk(s', 0)
  {
    hide Linked, RemoveAt;
    DetachHouses(s, 0, pos, p);
    assert Ptrs(s.recs)[s.lists[0][pos]] == next;
    DetachLinked(Ids(|s.recs|), Ptrs(s.recs), s.heads[0], s.lists[0], prev, pos);
  }

  lemma FreeTakenWrites(s: S, p: nat)
    requires Sized(s) && p in s.procs && s.procs[p].pc.FreeTake? && Sized(Next(s, p)) && ListOk(s, 0)
    requires var pc := s.procs[p].pc; pc.pos < |s.lists[0]| && s.lists[0][pc.pos] < |s.home|
    ensures var s', pc := Next(s, p), s.procs[p].pc; Writes(s, s', p) && s'.procs[p].pc == FreeGot(pc.ptr, pc.r, pc.rec)
  {
    hide Chain, ListOk, RemoveAt;
  }

  lemma SameMap(s: S, s': S, p: nat)
    requires Writes(s, s', p)
    ensures s'.abs == s.abs && p in s'.procs && s'.procs[p].call == s.procs[p].call
  {
  }

  lemma ListDistinct(s: S, k: nat, pos: nat)
    requires Sized(s) && k < NHEADS && ListOk(s, k) && 0 < pos < |s.lists[k]|
    ensures s.lists[k][pos - 1] != s.lists[k][pos]
  {
  }

  /** The process's own chain does not notice. */
  lemma FreeTakenOther(s: S, p: nat, k: nat)
    requires Safe(s) && p in s.procs && s.procs[p].pc.FreeTake? && ControlsList(s, p, 0) && 1 <= k < NHEADS &&
             ListOk(s, k)
    ensures Sized(Next(s, p)) && ListOk(Next(s, p), k)
  {
    hide LogOk, Holds, ChainsOk, Frame, RecsOk, Chain, LocksOk, RemoveAt, Linked, ProcOk, ListOk;
    FreeTaken(s, p);
    var s' := Next(s, p);
    assert s'.lists[k] == s'.lists[1..][k - 1] && s'.heads[k] == s'.heads[1..][k - 1];
    assert s.lists[k] == s.lists[1..][k - 1] && s.heads[k] == s.heads[1..][k - 1];
    ListCarries(s, s', k);
  }

  // ----- taking a record out of its chain -----

  /** What blanking the data of the record to be deleted does. */
  ghost predicate Blanked(s: S, s': S, p: nat)
    requires Sized(s) && p in s.procs && s.procs[p].pc.BlankData?
  {
    var Proc(call, pc) := s.procs[p];
    var k := Chain(call);
    && Sized(s') && s'.recs == s.recs && s'.heads == s.heads && pc.r < |s.recs| && s.recs[pc.r] == pc.rec
    && pc.rec.datlen > 0 && pc.rec.datoff < |s.pieces|
    && s'.pieces == s.pieces[pc.rec.datoff := Blanks(pc.rec.datlen - 1)] && s'.pieceHome == s.pieceHome
    && s.home[pc.r] == On(k) && s'.home == s.home[pc.r := Own(p)] && HasKey(s, k, call.key, pc.r)
    && (forall l :: 0 <= l < NHEADS && l != k ==> s'.lists[l] == s.lists[l])
    && p in s'.procs && s'.procs[p] == Proc(call, ReadFree(pc.r, pc.rec, pc.prev)) && RecsOk(s') && Frame(s, s', p)
    && PrevInChain(s', k, pc.prev)
  }

  lemma BlankDetached(s: S, p: nat)
    requires Safe(s) && p in s.procs && s.procs[p].pc.BlankData? && ControlsList(s, p, Chain(s.procs[p].call))
    ensures Blanked(s, Next(s, p), p)
  {
    hide LogOk, Holds, ChainsOk, AnswerTo, Frame, Chain, LocksOk, RemoveAt, Linked, RecsOk, ListOk, ListsAllOk, Next;
    var Proc(call, pc) := s.procs[p];
    var k := Chain(call);
    assert ProcOk(s, p);
    ListsOf(s, k);
    ListMembers(s, k);
    DetachHouses(s, k, pc.pos, p);
    RecHasPiece(s, pc.r);
    var mid := s.(pieces := s.pieces[pc.rec.datoff := Blanks(pc.rec.datlen - 1)]);
    var s' := To(Detach(mid, k, pc.pos, p), p, ReadFree(pc.r, pc.rec, pc.prev));
    NextBlankData(s, p);
    PieceRecs(s, pc.r, Blanks(pc.rec.datlen - 1));
    OwnedRecs(mid, s', pc.r, p);
    BlankFrame(s, s', p, k, pc.r, Blanks(pc.rec.datlen - 1));
    if pc.prev.InRec? {
      ListDistinct(s, k, pc.pos);
      assert s.lists[k][pc.pos - 1] == pc.prev.i;
    }
  }

  lemma NextBlankData(s: S, p: nat)
    requires p in s.procs && Sized(s) && s.procs[p].pc.BlankData?
    requires var Proc(call, pc) := s.procs[p];
             var k := Chain(call);
             pc.pos < |s.lists[k]| && s.lists[k][pc.pos] < |s.home| && pc.rec.datoff < |s.pieces| && pc.rec.datlen > 0
    ensures var Proc(call, pc) := s.procs[p];
            var mid := s.(pieces := s.pieces[pc.rec.datoff := Blanks(pc.rec.datlen - 1)]);
            Next(s, p) == To(Detach(mid, Chain(call), pc.pos, p), p, ReadFree(pc.r, pc.rec, pc.prev))
  {
  }

  lemma OwnedRecs(s: S, s': S, r: nat, p: nat)
    requires Sized(s) && Sized(s') && RecsOk(s) && r < |s.recs| && s'.home == s.home[r := Own(p)]
    requires s'.recs == s.recs && s'.pieces == s.pieces && s'.pieceHome == s.pieceHome
    ensures RecsOk(s')
  {
    hide Bucket;
  }

  /** The steps of a deletion all need the free lock and no other shared lock. */
  lemma DeletionUses(pc: Pc)
    requires Pending(pc) || pc.BlankData? || pc.DropFree?
    ensures Inside(pc) && UsesFree(pc) && !UsesDat(pc) && !UsesIdx(pc)
  {
  }

  lemma BlankFrame(s: S, s': S, p: nat, k: nat, r: nat, data: string)
    requires Sized(s) && Sized(s') && RecsOk(s) && k < NHEADS && ControlsList(s, p, k) && r < |s.recs| &&
             s.home[r] == On(k)
    requires s'.recs == s.recs && s'.heads == s.heads && s'.pieceHome == s.pieceHome && s'.home == s.home[r := Own(p)]
    requires s.recs[r].datoff < |s.pieces| && s'.pieces == s.pieces[s.recs[r].datoff := data]
    requires forall l :: 0 <= l < NHEADS && l != k ==> s'.lists[l] == s.lists[l]
    ensures Frame(s, s', p)
  {
    hide Bucket, ControlsList;
    assert Controls(s, p, r) && ControlsPiece(s, p, s.recs[r].datoff);
  }

  /** From here on the chain is meant without the record; one pointer is out of date. */
  lemma BlankLists(s: S, p: nat)
    requires Safe(s) && p in s.procs && s.procs[p].pc.BlankData? && ControlsList(s, p, Chain(s.procs[p].call))
    ensures Sized(Next(s, p)) && ListOk(Next(s, p), Chain(s.procs[p].call)) && ListOk(Next(s, p), 0)
  {
    hide LogOk, Holds, ChainsOk, AnswerTo, Frame, LocksOk, RemoveAt, Linked, RecsOk, ListOk, ListsAllOk;
    var Proc(call, pc) := s.procs[p];
    var k, s' := Chain(call), Next(s, p);
    assert ProcOk(s, p);
    BlankDetached(s, p);
    FreeListIsNoChain(s);
    ListsOf(s, k);
    ListsOf(s, 0);
    ListMembers(s, k);
    assert s'.lists[k] == RemoveAt(s.lists[k], pc.pos) && s'.writer == s.writer;
    hide Next, ProcOk, ProcsOk;
    BlankedList(s, s', p, k, pc.pos, pc.prev, pc.rec.ptr);
    ListCarries(s, s', 0);
  }

  lemma BlankedList(s: S, s': S, p: nat, k: nat, pos: nat, prev: Place, next: nat)
    requires Sized(s) && Sized(s') && k < NHEADS && ListOk(s, k) && !Deleting(s, k) && s'.recs == s.recs &&
             s'.heads == s.heads
    requires pos < |s.lists[k]| && s.lists[k][pos] < |s.recs| && s.recs[s.lists[k][pos]].ptr == next &&
             PrevOk(s, k, prev, pos)
    requires s'.lists[k] == RemoveAt(s.lists[k], pos) && s'.home == s.home[s.lists[k][pos] := Own(p)]
    requires k in s'.writer && s'.writer[k] == p && p in s'.procs && Pending(s'.procs[p].pc)
    requires s'.procs[p].pc.prev == prev && Save(s'.procs[p].pc) == next
    ensures ListOk(s', k)
  {
    hide Linked, RemoveAt;
    DetachHouses(s, k, pos, p);
    ListMembers(s, k);
    assert prev.InRec? ==> s.lists[k][pos - 1] == prev.i && prev.i < |s.recs|;
    assert Ptrs(s.recs)[s.lists[k][pos]] == next;
    DetachLinked(Ids(|s.recs|), Ptrs(s.recs), s.heads[k], s.lists[k], prev, pos);
    assert Deleting(s', k);
  }

  /** Without the record its key is gone from the chain. */
  lemma BlankHolds(s: S, s': S, k: nat, key: string, r: nat, data: string, m: map<string, string>, p: nat)
    requires Sized(s) && Sized(s') && RecsOk(s) && Holds(s, k, m) && HasKey(s, k, key, r) && k >= 1
    requires s.recs[r].datoff < |s.pieces| && s'.pieces == s.pieces[s.recs[r].datoff := data]
    requires s'.recs == s.recs && s'.home == s.home[r := Own(p)]
    ensures Holds(s', k, m - {key})
  {
    forall kk, x: nat | HasKey(s', k, kk, x)
      ensures kk in m - {key} && s'.recs[x].datoff < |s'.pieces| && (m - {key})[kk] == s'.pieces[s'.recs[x].datoff]
    {
      assert HasKey(s, k, kk, x);
    }
    forall kk | kk in m && kk != key && Bucket(kk) == k ensures exists x: nat :: HasKey(s', k, kk, x) {
      var x: nat :| HasKey(s, k, kk, x);
      assert HasKey(s', k, kk, x);
    }
  }

  lemma StepBlankData(s: S, p: nat)
    requires Safe(s) && p in s.procs && s.procs[p].pc.BlankData?
    ensures Allowed(s, Next(s, p), p)
  {
    hide LogOk, Holds, LocksOk, ChainsOk, Frame, RecsOk, ListOk, ListsAllOk, ProcsOk, ProcOk, Next, Removing, Chain;
    BlankDataKnows(s, p);
    OwnChain(s, p);
    BlankDetached(s, p);
    BlankLists(s, p);
    var s' := Next(s, p);
    BlankDataWrites(s, p);
    BlankDataOk(s, s', p);
    forall l | 0 <= l < NHEADS && ControlsList(s, p, l) ensures ListOk(s', l) {
      OwnLists(s, p, l);
    }
    WriteStep(s, s', p);
  }

  lemma BlankDataKnows(s: S, p: nat)
    requires Safe(s) && p in s.procs && s.procs[p].pc.BlankData?
    ensures var Proc(call, pc) := s.procs[p];
            !call.FetchCall? && Removing(s, call, pc.r, pc.rec, pc.prev, pc.pos)
  {
    hide LogOk, LocksOk, ChainsOk, RecsOk, ListOk, ListsAllOk, Chain, At;
    assert ProcOk(s, p);
  }

  lemma BlankDataWrites(s: S, p: nat)
    requires Sized(s) && p in s.procs && s.procs[p].pc.BlankData? && Blanked(s, Next(s, p), p)
    requires var Proc(call, pc) := s.procs[p]; Removing(s, call, pc.r, pc.rec, pc.prev, pc.pos)
    ensures Writes(s, Next(s, p), p) && Next(s, p).abs == s.abs
  {
    hide Holds, AnswerTo, RecsOk, Frame, PrevOk, Chain, Next, PrevInChain;
    NextBlankData(s, p);
    hide RemoveAt;
  }

  lemma BlankDataOk(s: S, s': S, p: nat)
    requires Sized(s) && RecsOk(s) && p in s.procs && s.procs[p].pc.BlankData? && Blanked(s, s', p) && s'.abs == s.abs
    requires var Proc(call, pc) := s.procs[p]; Removing(s, call, pc.r, pc.rec, pc.prev, pc.pos)
    ensures ProcOk(s', p)
  {
    hide Holds, RecsOk, Frame, AnswerTo, Bucket;
    var Proc(call, pc) := s.procs[p];
    BlankHolds(s, s', Chain(call), call.key, pc.r, Blanks(pc.rec.datlen - 1), s.abs, p);
  }

  // ----- putting a record at the front of a list -----

  lemma AttachFrame(s: S, s': S, p: nat, k: nat, r: nat)
    requires Sized(s) && Sized(s') && k < NHEADS && ControlsList(s, p, k) && Private(s, p, r)
    requires s'.heads == s.heads[k := r + 1] && s'.lists == s.lists[k := [r] + s.lists[k]] &&
             s'.home == s.home[r := On(k)]
    requires s'.recs == s.recs && s'.pieces == s.pieces && s'.pieceHome == s.pieceHome
    ensures Frame(s, s', p)
  {
  }

  lemma AttachList(s: S, s': S, p: nat, k: nat, r: nat)
    requires Sized(s) && Sized(s') && k < NHEADS && ListOk(s, k) && Private(s, p, r) && !Deleting(s, k) &&
             !Deleting(s', k)
    requires s'.heads == s.heads[k := r + 1] && s'.lists == s.lists[k := [r] + s.lists[k]] &&
             s'.home == s.home[r := On(k)]
    requires s'.recs == s.recs && s.recs[r].ptr == s.heads[k]
    ensures ListOk(s', k)
  {
    ListMembers(s, k);
    LinkedPush(Ids(|s.recs|), Ptrs(s.recs), s.heads[k], s.lists[k], r);
    hide Linked, Deleting;
    var list := [r] + s.lists[k];
    assert forall x: nat :: x in list <==> x == r || x in s.lists[k];
  }

  lemma NextSetFree(s: S, p: nat)
    requires p in s.procs && Sized(s) && s.procs[p].pc.SetFree? && s.procs[p].pc.r < |s.home|
    ensures var pc := s.procs[p].pc; Next(s, p) == To(Attach(s, 0, pc.r), p, Bypass(pc.rec, pc.prev))
  {
  }

  lemma StepSetFree(s: S, p: nat)
    requires Safe(s) && p in s.procs && s.procs[p].pc.SetFree?
    ensures Allowed(s, Next(s, p), p)
  {
    hide LogOk, Holds, LocksOk, ChainsOk, Frame, RecsOk, ListOk, UsesFree, UsesDat, UsesIdx, ListsAllOk, Next,
         ProcsOk, ProcOk, Removed, PrevInChain, Chain;
    var Proc(call, pc) := s.procs[p];
    SetFreeKnows(s, p);
    NextSetFree(s, p);
    var k, s' := Chain(call), Next(s, p);
    DeletionUses(pc);
    DeletionUses(s'.procs[p].pc);
    FreeUse(s, p);
    FreeListIsNoChain(s);
    ListsOf(s, 0);
    ListsOf(s, k);
    AttachFrame(s, s', p, 0, pc.r);
    AttachList(s, s', p, 0, pc.r);
    FreedRecs(s, s', pc.r, p);
    SetFreeOk(s, s', p);
    forall l | 0 <= l < NHEADS && ControlsList(s, p, l) ensures ListOk(s', l) {
      OwnLists(s, p, l);
      if l == k {
        FreedOther(s, s', p, k, pc.r);
      }
    }
    WriteStep(s, s', p);
  }

  lemma SetFreeKnows(s: S, p: nat)
    requires Safe(s) && p in s.procs && s.procs[p].pc.SetFree?
    ensures var Proc(call, pc) := s.procs[p];
            && Removed(s, call) && Private(s, p, pc.r) && s.recs[pc.r].ptr == s.heads[0]
            && PrevInChain(s, Chain(call), pc.prev)
  {
    hide LogOk, LocksOk, ChainsOk, RecsOk, ListOk, ListsAllOk, Chain, Removed, PrevInChain;
    assert ProcOk(s, p);
  }

  lemma SetFreeOk(s: S, s': S, p: nat)
    requires Sized(s) && p in s.procs && s.procs[p].pc.SetFree?
    requires var Proc(call, pc) := s.procs[p];
             && Removed(s, call) && Private(s, p, pc.r) && PrevInChain(s, Chain(call), pc.prev)
             && s' == To(Attach(s, 0, pc.r), p, Bypass(pc.rec, pc.prev))
    ensures Sized(s') && ProcOk(s', p)
  {
    hide Holds, AnswerTo, Bucket;
    var Proc(call, pc) := s.procs[p];
    HoldsCarries(s, s', Chain(call), s.abs - {call.key});
  }

  lemma FreedOther(s: S, s': S, p: nat, k: nat, r: nat)
    requires Sized(s) && Sized(s') && 1 <= k < NHEADS && ListOk(s, k) && Private(s, p, r) && p in s.procs &&
             p in s'.procs
    requires s'.heads[k] == s.heads[k] && s'.lists[k] == s.lists[k] && s'.home == s.home[r := On(0)] &&
             s'.recs == s.recs
    requires s'.writer == s.writer && s'.procs.Keys == s.procs.Keys
    requires forall q :: q in s.procs && q != p ==> s'.procs[q] == s.procs[q]
    requires s.procs[p].pc.SetFree? && s'.procs[p].pc == Bypass(s.procs[p].pc.rec, s.procs[p].pc.prev)
    ensures ListOk(s', k)
  {
    hide ListOk;
    ListCarries(s, s', k);
  }

  lemma FreedRecs(s: S, s': S, r: nat, p: nat)
    requires Sized(s) && Sized(s') && RecsOk(s) && Private(s, p, r) && s'.home == s.home[r := On(0)]
    requires s'.recs == s.recs && s'.pieces == s.pieces && s'.pieceHome == s.pieceHome
    ensures RecsOk(s')
  {
    hide Bucket;
  }

  /** Overwriting the stale pointer makes the file agree with the specification. */
  lemma StepBypass(s: S, p: nat)
    requires Safe(s) && p in s.procs && s.procs[p].pc.Bypass?
    ensures Allowed(s, Next(s, p), p)
  {
    hide LogOk, Holds, LocksOk, ChainsOk, AnswerTo, Frame, RecsOk, ListOk, UsesFree, UsesDat, UsesIdx, ListsAllOk;
    var Proc(call, pc) := s.procs[p];
    var k, s' := Chain(call), Next(s, p);
    assert ProcOk(s, p);
    DeletionUses(pc);
    DeletionUses(s'.procs[p].pc);
    OwnChain(s, p);
    FreeListIsNoChain(s);
    BypassFrame(s, s', p, k, pc.prev, pc.rec.ptr);
    HoldsCarries(s, s', k, s.abs - {call.key});
    forall l | 0 <= l < NHEADS && ControlsList(s, p, l) ensures ListOk(s', l) {
      OwnLists(s, p, l);
      ListsOf(s, l);
      if l == k {
        BypassList(s, s', p, k);
      } else {
        BypassOther(s, s', k, pc.prev, pc.rec.ptr);
      }
    }
    WriteStep(s, s', p);
  }

  lemma BypassOther(s: S, s': S, k: nat, prev: Place, ptr: nat)
    requires Sized(s) && Sized(s') && 1 <= k < NHEADS && ListOk(s, 0) && PrevInChain(s, k, prev) && 0 !in s.writer
    requires var t := SetPlace(s, k, prev, ptr); s'.heads == t.heads && s'.recs == t.recs
    requires s'.lists == s.lists && s'.home == s.home && s'.writer == s.writer
    ensures ListOk(s', 0)
  {
    hide ListOk;
    ListCarries(s, s', 0);
  }

  lemma BypassFrame(s: S, s': S, p: nat, k: nat, prev: Place, ptr: nat)
    requires Sized(s) && Sized(s') && RecsOk(s) && 1 <= k < NHEADS && ControlsList(s, p, k) && PrevInChain(s, k, prev)
    requires var t := SetPlace(s, k, prev, ptr); s'.heads == t.heads && s'.recs == t.recs
    requires s'.lists == s.lists && s'.home == s.home && s'.pieces == s.pieces && s'.pieceHome == s.pieceHome
    ensures Frame(s, s', p) && RecsOk(s')
  {
    hide Bucket, ControlsList;
  }

  lemma BypassList(s: S, s': S, p: nat, k: nat)
    requires Safe(s) && p in s.procs && s.procs[p].pc.Bypass? && k == Chain(s.procs[p].call) && ControlsList(s, p, k)
    requires s' == Next(s, p) && Sized(s')
    ensures ListOk(s', k)
  {
    hide LogOk, Holds, LocksOk, ChainsOk, AnswerTo, Frame, RecsOk, Linked, Chain;
    ListsOf(s, k);
    assert ProcOk(s, p);
    assert Deleting(s, k) && !Deleting(s', k);
    assert HeadOf(s', k) == HeadOf(s, k);
    assert PtrsOf(s', k) == PtrsOf(s, k);
  }

  /** A new key appears with its data at the moment the head is overwritten. */
  lemma NewKey(s: S, s': S, p: nat, k: nat, key: string, r: nat, m: map<string, string>)
    requires Sized(s) && Sized(s') && RecsOk(s) && Holds(s, k, m - {key}) && Private(s, p, r) && s.recs[r].key == key
    requires k == Bucket(key) && s'.home == s.home[r := On(k)] && s'.recs == s.recs && s'.pieces == s.pieces
    requires s'.pieceHome == s.pieceHome
    ensures s.recs[r].datoff < |s.pieces| && Holds(s', k, m[key := s.pieces[s.recs[r].datoff]]) && RecsOk(s')
  {
    var m' := m[key := s.pieces[s.recs[r].datoff]];
    forall x: nat | x < |s.recs| && s.home[x] == On(k) ensures s.recs[x].key != key {
      assert HasKey(s, k, s.recs[x].key, x);
    }
    forall kk, x: nat | HasKey(s', k, kk, x)
      ensures kk in m' && s'.recs[x].datoff < |s'.pieces| && m'[kk] == s'.pieces[s'.recs[x].datoff]
    {
      if x != r {
        assert HasKey(s, k, kk, x);
      }
    }
    forall kk | kk in m' && Bucket(kk) == k ensures exists x: nat :: HasKey(s', k, kk, x) {
      if kk == key {
        assert HasKey(s', k, kk, r);
      } else {
        var x: nat :| HasKey(s, k, kk, x);
        assert HasKey(s', k, kk, x);
      }
    }
  }

  lemma StepSetHead(s: S, p: nat)
    requires Safe(s) && p in s.procs && s.procs[p].pc.SetHead?
    ensures Allowed(s, Next(s, p), p)
  {
    hide LogOk, Holds, LocksOk, ChainsOk, Frame, RecsOk, ListOk, UsesFree, UsesDat, UsesIdx, ListsAllOk, ProcsOk,
         ProcOk, Next, Adding, Ready, Chain;
    var Proc(call, pc) := s.procs[p];
    SetHeadKnows(s, p);
    NextSetHead(s, p);
    var k, s' := Chain(call), Next(s, p);
    OwnChain(s, p);
    WriterOf(s, p);
    ListsOf(s, k);
    AttachFrame(s, s', p, k, pc.r);
    AttachList(s, s', p, k, pc.r);
    SetHeadOk(s, s', p);
    FoundUses(pc);
    FoundUses(s'.procs[p].pc);
    forall l | 0 <= l < NHEADS && ControlsList(s, p, l) ensures ListOk(s', l) {
      OwnLists(s, p, l);
    }
    WriteStep(s, s', p);
  }

  lemma SetHeadKnows(s: S, p: nat)
    requires Safe(s) && p in s.procs && s.procs[p].pc.SetHead?
    ensures var Proc(call, pc) := s.procs[p];
            Adding(s, call) && Ready(s, p, call, pc.r) && call.StoreCall? && Private(s, p, pc.r) &&
            s.recs[pc.r].ptr == s.heads[Chain(call)]
  {
    hide LogOk, Holds, LocksOk, ChainsOk, RecsOk, ListOk, ListsAllOk, Chain, AnswerTo;
    assert ProcOk(s, p);
  }

  lemma NextSetHead(s: S, p: nat)
    requires Sized(s) && p in s.procs && s.procs[p].pc.SetHead? && s.procs[p].pc.r < |s.home|
    ensures var Proc(call, pc) := s.procs[p]; Next(s, p) == To(Attach(s, Chain(call), pc.r), p, Unlock(Status(0)))
  {
    hide Chain;
  }

  lemma SetHeadOk(s: S, s': S, p: nat)
    requires Sized(s) && RecsOk(s) && p in s.procs && s.procs[p].pc.SetHead? && Adding(s, s.procs[p].call)
    requires Ready(s, p, s.procs[p].call, s.procs[p].pc.r)
    requires var Proc(call, pc) := s.procs[p]; s' == To(Attach(s, Chain(call), pc.r), p, Unlock(Status(0)))
    ensures Sized(s') && ProcOk(s', p) && RecsOk(s')
  {
    hide Holds, RecsOk, Bucket;
    var Proc(call, pc) := s.procs[p];
    NewKey(s, s', p, Chain(call), call.key, pc.r, s.abs);
  }

  // ----- the end and the beginning of a call -----

  /** The locks given back and the call entered into the log. */
  ghost function Left(s: S, p: nat, answer: Answer): S
    requires p in s.procs
  {
    var call := s.procs[p].call;
    var k := Chain(call);
    To(s.(readers := s.readers - {(k, p)}, writer := if call.FetchCall? then s.writer else s.writer - {k},
          abs := AfterCall(s.abs, call), log := s.log + [(call, answer)]), p, Idle)
  }

  lemma NextUnlock(s: S, p: nat)
    requires Sized(s) && p in s.procs && s.procs[p].pc.Unlock?
    ensures Next(s, p) == Left(s, p, s.procs[p].pc.answer)
  {
    hide AfterCall, Chain;
  }

  lemma LeaveLocks(s: S, p: nat)
    requires Sized(s) && LocksOk(s) && p in s.procs && s.procs[p].pc.Unlock?
    ensures LocksOk(Next(s, p))
  {
    NextUnlock(s, p);
    hide Chain, UsesFree, UsesDat, UsesIdx, AfterCall, Next;
    FreeUse(s, p);
    FoundUses(s.procs[p].pc);
    IdleUses();
    assert HasChain(s, p);
    var s' := Left(s, p, s.procs[p].pc.answer);
    forall q | q in s'.procs && Inside(s'.procs[q].pc) ensures HasChain(s', q) {
      assert HasChain(s, q);
    }
  }

  lemma IdleUses()
    ensures !UsesFree(Idle) && !UsesDat(Idle) && !UsesIdx(Idle)
  {
  }

  lemma LeaveOthers(s: S, p: nat)
    requires Sized(s) && LocksOk(s) && p in s.procs && s.procs[p].pc.Unlock?
    ensures Others(s, Next(s, p), p)
  {
    assert HasChain(s, p);
    NextUnlock(s, p);
    hide LocksOk, Next, Sized, Chain;
    LeftOthers(s, p, s.procs[p].pc.answer);
  }

  lemma LeftOthers(s: S, p: nat, answer: Answer)
    requires p in s.procs && HasChain(s, p)
    ensures Others(s, Left(s, p, answer), p)
  {
    hide Chain, AfterCall, Bucket;
    var call := s.procs[p].call;
    forall key | !ControlsList(s, p, Bucket(key))
      ensures key in s.abs <==> key in AfterCall(s.abs, call)
      ensures key in s.abs ==> AfterCall(s.abs, call)[key] == s.abs[key]
    {
      ChainOfKey(call, key);
      AfterElsewhere(s.abs, call, key);
    }
  }

  lemma ChainOfKey(call: Call, key: string)
    ensures key == call.key ==> Bucket(key) == Chain(call)
  {
    hide Bucket;
  }

  /** A call changes no other key, and a fetch none at all. */
  lemma AfterElsewhere(m: map<string, string>, call: Call, key: string)
    requires call.FetchCall? || key != call.key
    ensures key in m <==> key in AfterCall(m, call)
    ensures key in m ==> AfterCall(m, call)[key] == m[key]
  {
    hide AnswerTo;
  }

  /** The call takes its place in the history of the finite map. */
  lemma LogGrows(s: S, s': S, call: Call, answer: Answer)
    requires LogOk(s) && answer == AnswerTo(s.abs, call)
    requires s'.abs == AfterCall(s.abs, call) && s'.log == s.log + [(call, answer)]
    ensures LogOk(s')
  {
    hide AnswerTo, AfterCall;
    var calls, n := Calls(s'.log), |s.log|;
    assert calls[..n] == Calls(s.log);
    assert calls[..n + 1] == calls;
    AnswersSnoc(map[], calls, n);
    assert Replies(s'.log) == Replies(s.log) + [answer];
  }

  lemma StepUnlock(s: S, p: nat)
    requires Safe(s) && p in s.procs && s.procs[p].pc.Unlock?
    ensures Allowed(s, Next(s, p), p)
  {
    hide RecsOk, LogOk, ListOk, Holds, LocksOk, ChainsOk, Frame, Chain, AnswerTo, AfterCall, UsesFree;
    var Proc(call, pc) := s.procs[p];
    var k, s' := Chain(call), Next(s, p);
    assert ProcOk(s, p);
    LeaveLocks(s, p);
    LeaveOthers(s, p);
    FrameSame(s, s', p);
    SameRecs(s, s');
    LogGrows(s, s', call, pc.answer);
    SameHolds(s, s', k, AfterCall(s.abs, call));
    forall l | 0 <= l < NHEADS && ControlsList(s, p, l) ensures ListOk(s', l) && (l >= 1 ==> Holds(s', l, s'.abs)) {
      OwnLists(s, p, l);
      ListsOf(s, l);
      LeaveList(s, p, l);
      assert l == k by { UnlockHasNoFree(s, p); }
    }
    Assemble(s, s', p);
  }

  lemma UnlockHasNoFree(s: S, p: nat)
    requires LocksOk(s) && p in s.procs && s.procs[p].pc.Unlock?
    ensures !ControlsList(s, p, 0)
  {
    FreeUse(s, p);
  }

  lemma LeaveList(s: S, p: nat, k: nat)
    requires Sized(s) && LocksOk(s) && p in s.procs && s.procs[p].pc.Unlock? && k < NHEADS && ListOk(s, k) &&
             ControlsList(s, p, k)
    ensures ListOk(Next(s, p), k)
  {
    hide Linked, AfterCall;
    var s' := Next(s, p);
    FreeListIsNoChain(s);
    assert !Deleting(s, k) && !Deleting(s', k);
    assert HeadOf(s', k) == HeadOf(s, k) && PtrsOf(s', k) == PtrsOf(s, k);
  }

  lemma StepStart(s: S, s': S, p: nat, call: Call)
    requires Safe(s) && Starts(s, s', p, call)
    ensures Allowed(s, s', p)
  {
    hide RecsOk, LogOk, ListOk, Holds, LocksOk, Frame, Chain;
    FrameSame(s, s', p);
    SameRecs(s, s');
    StartLocks(s, s', p, call);
    if call.StoreCall? && !ValidFlag(call.flag) {
      LogGrows(s, s', call, Status(-1));
    } else {
      SameLog(s, s');
    }
    EnterControls(s, p);
    assert ProcOk(s', p);
    Assemble(s, s', p);
  }

  lemma StartLocks(s: S, s': S, p: nat, call: Call)
    requires LocksOk(s) && Starts(s, s', p, call)
    ensures LocksOk(s') && Others(s, s', p)
  {
    StartOthers(s, s', p, call);
    if call.StoreCall? && !ValidFlag(call.flag) {
      hide Chain, UsesFree, UsesDat, UsesIdx, Others;
      forall q | q in s'.procs && Inside(s'.procs[q].pc) ensures HasChain(s', q) {
        assert HasChain(s, q);
      }
    } else {
      hide LocksOk, Others;
      StartWaiting(s, p, call);
    }
  }

  lemma StartWaiting(s: S, p: nat, call: Call)
    requires LocksOk(s) && p in s.procs && s.procs[p].pc == Idle
    ensures LocksOk(s.(procs := s.procs[p := Proc(call, WantChain)]))
  {
    hide Chain, UsesFree, UsesDat, UsesIdx;
    IdleUses();
    PlainSteps();
    var s' := s.(procs := s.procs[p := Proc(call, WantChain)]);
    forall q | q in s'.procs && Inside(s'.procs[q].pc) ensures HasChain(s', q) {
      assert HasChain(s, q);
    }
  }

  lemma StartOthers(s: S, s': S, p: nat, call: Call)
    requires Starts(s, s', p, call)
    ensures Others(s, s', p)
  {
  }
}
