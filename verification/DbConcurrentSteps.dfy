/** Every step of the concurrent database keeps the invariant. */
module DbConcurrentSteps {
  import opened DbFormat
  import opened DbFile
  import opened DbState
  import opened DbDisk
  import opened Db
  import opened DbConcurrent
  import opened DbConcurrentInv
  import opened DbConcurrentFrame

  // ----- putting the parts together -----

  /** Two lists of pointers that agree on a list's records thread the same list. */
  lemma LinkedSame(offs: seq<nat>, ptrs: seq<nat>, offs': seq<nat>, ptrs': seq<nat>, head: nat, list: seq<nat>)
    requires Linked(offs, ptrs, head, list) && |offs'| == |ptrs'| && |offs| <= |offs'|
    requires forall i :: 0 <= i < |list| ==> offs'[list[i]] == offs[list[i]] && ptrs'[list[i]] == ptrs[list[i]]
    ensures Linked(offs', ptrs', head, list)
  {
    forall i | 0 <= i < |list| ensures ptrs'[list[i]] == if i + 1 < |list| then offs'[list[i + 1]] else 0 {
      assert ptrs[list[i]] == if i + 1 < |list| then offs[list[i + 1]] else 0;
    }
  }

  lemma FreeListIsNoChain(s: S)
    requires LocksOk(s)
    ensures 0 !in s.writer
  {
  }

  /** A list that the step's process has not locked stays threaded. */
  lemma ListStays(s: S, s': S, p: nat, k: nat)
    requires Safe(s) && Sized(s') && Frame(s, s', p) && Others(s, s', p) && k < NHEADS && !ControlsList(s, p, k)
    requires 0 !in s'.writer && (k in s'.writer && s'.writer[k] == p ==> p in s'.procs && !Pending(s'.procs[p].pc))
    ensures ListOk(s', k)
  {
    hide Frame, RecsOk, ChainsOk, ProcsOk, LogOk, ProcOk, Linked, Chain;
    ListsOf(s, k);
    ListKept(s, s', p, k);
    FreeListIsNoChain(s);
    var list := s.lists[k];
    assert Deleting(s', k) == Deleting(s, k) && HeadOf(s', k) == HeadOf(s, k);
    ListMembers(s, k);
    LinkedSame(Ids(|s.recs|), PtrsOf(s, k), Ids(|s'.recs|), PtrsOf(s', k), HeadOf(s, k), list);
    forall r: nat ensures r in list <==> r < |s'.home| && s'.home[r] == On(k) {
      RecordKept(s, s', p, k, r);
    }
  }

  lemma ListMembers(s: S, k: nat)
    requires Sized(s) && k < NHEADS && ListOk(s, k)
    ensures NoRepeats(s.lists[k]) && |PtrsOf(s, k)| == |s.recs|
    ensures forall i :: 0 <= i < |s.lists[k]| ==> s.lists[k][i] < |s.recs| && s.home[s.lists[k][i]] == On(k)
    ensures Linked(Ids(|s.recs|), PtrsOf(s, k), HeadOf(s, k), s.lists[k])
  {
    forall i | 0 <= i < |s.lists[k]| ensures s.lists[k][i] < |s.recs| && s.home[s.lists[k][i]] == On(k) {
      assert s.lists[k][i] in s.lists[k];
    }
  }

  /** What remains to be shown of a step: its own process, its own lists, and the
      parts of the invariant that are not about any one list or process. */
  lemma Assemble(s: S, s': S, p: nat)
    requires Safe(s) && Sized(s') && Frame(s, s', p) && Others(s, s', p)
    requires RecsOk(s') && LocksOk(s') && LogOk(s') && p in s'.procs && ProcOk(s', p)
    requires forall k :: 0 <= k < NHEADS && ControlsList(s, p, k) ==> ListOk(s', k)
    requires forall k :: 1 <= k < NHEADS && ControlsList(s, p, k) && k !in s'.writer ==> Holds(s', k, s'.abs)
    requires forall k :: k in s'.writer && s'.writer[k] == p && k !in s.writer ==> !Pending(s'.procs[p].pc)
    ensures Safe(s')
  {
    hide Frame, RecsOk, LogOk, ProcOk, ListOk, Holds;
    FreeListIsNoChain(s');
    forall k | 0 <= k < NHEADS ensures ListOk(s', k) {
      if !ControlsList(s, p, k) {
        ListStays(s, s', p, k);
      }
    }
    forall k | 1 <= k < NHEADS && k !in s'.writer ensures Holds(s', k, s'.abs) {
      if !ControlsList(s, p, k) {
        assert k !in s.writer;
        assert AgreeOn(s.abs, s'.abs, k);
        HoldsKept(s, s', p, k, s.abs, s'.abs);
      }
    }
    forall q | q in s'.procs ensures ProcOk(s', q) {
      if q != p {
        ProcKept(s, s', p, q);
      }
    }
  }

  // ----- steps that change only what the process remembers -----

  /** The two program counters need the same locks and leave the same pointer out of date. */
  predicate SameLocks(pc: Pc, pc': Pc) {
    && Inside(pc) && Inside(pc') && UsesFree(pc) == UsesFree(pc') && UsesDat(pc) == UsesDat(pc') &&
       UsesIdx(pc) == UsesIdx(pc')
    && Pending(pc) == Pending(pc') && (Pending(pc) ==> pc'.prev == pc.prev && pc'.rec == pc.rec)
  }

  lemma FrameSame(s: S, s': S, p: nat)
    requires Sized(s) && Sized(s')
    requires s'.heads == s.heads && s'.recs == s.recs && s'.pieces == s.pieces
    requires s'.lists == s.lists && s'.home == s.home && s'.pieceHome == s.pieceHome
    ensures Frame(s, s', p)
  {
  }

  lemma ToLocks(s: S, p: nat, pc': Pc)
    requires LocksOk(s) && p in s.procs && SameLocks(s.procs[p].pc, pc')
    ensures LocksOk(To(s, p, pc'))
  {
    hide Chain;
    var s' := To(s, p, pc');
    forall q | q in s'.procs && Inside(s'.procs[q].pc) ensures HasChain(s', q) {
      assert HasChain(s, q);
    }
  }

  /** The files, the chain locks and the specification are as before. */
  ghost predicate Quiet(s: S, s': S, p: nat) {
    && s'.heads == s.heads && s'.recs == s.recs && s'.pieces == s.pieces
    && s'.lists == s.lists && s'.home == s.home && s'.pieceHome == s.pieceHome
    && s'.abs == s.abs && s'.log == s.log && s'.writer == s.writer && s'.readers == s.readers
    && p in s.procs && s'.procs.Keys == s.procs.Keys &&
       (forall q :: q in s.procs && q != p ==> s'.procs[q] == s.procs[q])
    && s'.procs[p].call == s.procs[p].call
    && var pc, pc' := s.procs[p].pc, s'.procs[p].pc;
       Pending(pc) == Pending(pc') && (Pending(pc) ==> pc'.prev == pc.prev && pc'.rec == pc.rec)
  }

  lemma QuietLists(s: S, s': S, p: nat, k: nat)
    requires Sized(s) && Quiet(s, s', p) && k < NHEADS && ListOk(s, k)
    ensures Sized(s') && ListOk(s', k)
  {
    assert Deleting(s', k) == Deleting(s, k);
    assert HeadOf(s', k) == HeadOf(s, k) && PtrsOf(s', k) == PtrsOf(s, k);
  }

  /** The invariant is kept and the step stays within what its process controls. */
  ghost predicate Allowed(s: S, s': S, p: nat) {
    Sized(s) && Safe(s') && Frame(s, s', p)
  }

  lemma QuietStep(s: S, s': S, p: nat)
    requires Safe(s) && Sized(s') && Quiet(s, s', p) && LocksOk(s') && ProcOk(s', p)
    ensures Allowed(s, s', p)
  {
    hide Frame, RecsOk, LogOk, ProcOk, ListOk, Holds, LocksOk, ProcsOk, ChainsOk;
    FrameSame(s, s', p);
    SameRecs(s, s');
    SameLog(s, s');
    forall k | 0 <= k < NHEADS ensures ListOk(s', k) {
      QuietLists(s, s', p, k);
    }
    Assemble(s, s', p);
  }

  lemma LocalStep(s: S, p: nat, pc': Pc)
    requires Safe(s) && p in s.procs && SameLocks(s.procs[p].pc, pc') && ProcOk(To(s, p, pc'), p)
    ensures Allowed(s, To(s, p, pc'), p)
  {
    hide RecsOk, LogOk, ProcOk, ListOk, Holds, LocksOk, ProcsOk, ChainsOk, UsesFree, UsesDat, UsesIdx;
    ToLocks(s, p, pc');
    QuietStep(s, To(s, p, pc'), p);
  }

  lemma SameRecs(s: S, s': S)
    requires Sized(s) && RecsOk(s) && s'.heads == s.heads && s'.recs == s.recs && s'.pieces == s.pieces
    requires s'.lists == s.lists && s'.home == s.home && s'.pieceHome == s.pieceHome
    ensures Sized(s') && RecsOk(s')
  {
  }

  lemma SameLog(s: S, s': S)
    requires LogOk(s) && s'.abs == s.abs && s'.log == s.log
    ensures LogOk(s')
  {
  }

  lemma SameHolds(s: S, s': S, k: nat, m: map<string, string>)
    requires Sized(s) && Holds(s, k, m) && Sized(s') && s'.recs == s.recs && s'.pieces == s.pieces && s'.home == s.home
    ensures Holds(s', k, m)
  {
    forall key, r: nat | HasKey(s', k, key, r)
      ensures key in m && s'.recs[r].datoff < |s'.pieces| && m[key] == s'.pieces[s'.recs[r].datoff]
    {
      assert HasKey(s, k, key, r);
    }
    forall key | key in m && Bucket(key) == k ensures exists r: nat :: HasKey(s', k, key, r) {
      var r: nat :| HasKey(s, k, key, r);
      assert HasKey(s', k, key, r);
    }
  }

  // ----- searching -----

  lemma WriterOf(s: S, p: nat)
    requires LocksOk(s) && p in s.procs && Inside(s.procs[p].pc) && !Pending(s.procs[p].pc)
    ensures !Deleting(s, Chain(s.procs[p].call))
  {
    assert HasChain(s, p);
  }

  /** With no deletion in progress the pointers in the file thread the list. */
  lemma WalkAt(s: S, k: nat, pos: nat)
    requires Sized(s) && k < NHEADS && ListOk(s, k) && !Deleting(s, k)
    ensures s.heads[k] == if s.lists[k] == [] then 0 else s.lists[k][0] + 1
    ensures pos < |s.lists[k]| ==>
              && s.lists[k][pos] < |s.recs| && s.home[s.lists[k][pos]] == On(k)
              && s.recs[s.lists[k][pos]].ptr == if pos + 1 < |s.lists[k]| then s.lists[k][pos + 1] + 1 else 0
  {
    ListMembers(s, k);
    if pos < |s.lists[k]| {
      assert Ptrs(s.recs)[s.lists[k][pos]] == s.recs[s.lists[k][pos]].ptr;
    }
  }

  lemma NotInChain(s: S, k: nat, key: string, m: map<string, string>)
    requires Sized(s) && k < NHEADS && ListOk(s, k) && Holds(s, k, m) && Bucket(key) == k
    requires forall i :: 0 <= i < |s.lists[k]| ==> s.lists[k][i] < |s.recs| && s.recs[s.lists[k][i]].key != key
    ensures key !in m
  {
    hide Linked;
  }

  lemma StepGetHead(s: S, p: nat)
    requires Safe(s) && p in s.procs && s.procs[p].pc.GetHead?
    ensures Allowed(s, Next(s, p), p)
  {
    hide RecsOk, LogOk, ListOk, Holds, LocksOk, ChainsOk, Chain;
    var k := Chain(s.procs[p].call);
    ListsOf(s, k);
    WriterOf(s, p);
    WalkAt(s, k, 0);
    assert ProcOk(s, p);
    SameHolds(s, Next(s, p), k, s.abs);
    LocalStep(s, p, Walk(s.heads[k], AtHead, 0));
  }

  /** Where the walk along a chain goes on. */
  ghost function WalkOn(s: S, call: Call, off: nat, prev: Place, pos: nat): Pc {
    if off == 0 || off > |s.recs| then Missing
    else if s.recs[off - 1].key == call.key then Found(off - 1, s.recs[off - 1], prev, pos)
    else Walk(s.recs[off - 1].ptr, InRec(off - 1), pos + 1)
  }

  lemma NextWalk(s: S, p: nat)
    requires Sized(s) && p in s.procs && s.procs[p].pc.Walk?
    ensures var Proc(call, pc) := s.procs[p]; Next(s, p) == To(s, p, WalkOn(s, call, pc.off, pc.prev, pc.pos))
  {
    hide Chain;
  }

  lemma StepWalk(s: S, p: nat)
    requires Safe(s) && p in s.procs && s.procs[p].pc.Walk?
    ensures Allowed(s, Next(s, p), p)
  {
    hide RecsOk, LogOk, ListOk, Holds, LocksOk, ChainsOk, Next, ListsAllOk;
    var Proc(call, pc) := s.procs[p];
    var k := Chain(call);
    assert ProcOk(s, p);
    ListsOf(s, k);
    WriterOf(s, p);
    WalkAt(s, k, pc.pos);
    NextWalk(s, p);
    var pc' := WalkOn(s, call, pc.off, pc.prev, pc.pos);
    SameHolds(s, To(s, p, pc'), k, s.abs);
    if pc.off == 0 {
      NotInChain(s, k, call.key, s.abs);
    }
    LocalStep(s, p, pc');
  }

  lemma StepMissing(s: S, p: nat)
    requires Safe(s) && p in s.procs && s.procs[p].pc.Missing?
    ensures Allowed(s, Next(s, p), p)
  {
    hide RecsOk, LogOk, ListOk, Holds, LocksOk, ChainsOk, Chain, Next, ListsAllOk, ProcOk, AfterMissing;
    assert ProcOk(s, p);
    NextMissing(s, p);
    MissingOk(s, p);
    LocalStep(s, p, AfterMissing(s, p, s.procs[p].call).procs[p].pc);
  }

  lemma MissingOk(s: S, p: nat)
    requires Sized(s) && p in s.procs && s.procs[p].pc.Missing? && ProcOk(s, p)
    ensures var s' := AfterMissing(s, p, s.procs[p].call);
            p in s'.procs && Sized(s') && ProcOk(s', p) && SameLocks(Missing, s'.procs[p].pc) &&
            s' == To(s, p, s'.procs[p].pc)
  {
    hide Holds, Chain;
    var call := s.procs[p].call;
    SameHolds(s, AfterMissing(s, p, call), Chain(call), s.abs);
    assert s.abs - {call.key} == s.abs;
  }

  lemma NextMissing(s: S, p: nat)
    requires Sized(s) && p in s.procs && s.procs[p].pc.Missing?
    ensures Next(s, p) == AfterMissing(s, p, s.procs[p].call)
  {
    hide Chain, AfterMissing;
  }

  lemma FoundIsInMap(s: S, p: nat)
    requires Safe(s) && p in s.procs && s.procs[p].pc.Found?
    ensures var Proc(call, pc) := s.procs[p];
            && call.key in s.abs && pc.rec.datoff < |s.pieces| && s.abs[call.key] == s.pieces[pc.rec.datoff]
            && HasKey(s, Chain(call), call.key, pc.r) && |s.abs[call.key]| + 1 == pc.rec.datlen
  {
    hide LogOk, LocksOk, ChainsOk, Linked, Bucket;
    var Proc(call, pc) := s.procs[p];
    assert ProcOk(s, p);
    ListsOf(s, Chain(call));
    assert pc.r in s.lists[Chain(call)];
    assert HasKey(s, Chain(call), call.key, pc.r);
  }

  predicate Overwrites(call: Call, rec: Rec) {
    call.StoreCall? && call.flag != DB_INSERT && |call.data| + 1 == rec.datlen
  }

  lemma StepFound(s: S, p: nat)
    requires Safe(s) && p in s.procs && s.procs[p].pc.Found? && !Overwrites(s.procs[p].call, s.procs[p].pc.rec)
    ensures Allowed(s, Next(s, p), p)
  {
    hide RecsOk, LogOk, ListOk, Holds, LocksOk, ChainsOk, Chain, Next, ListsAllOk, ProcOk, AfterFound;
    var Proc(call, pc) := s.procs[p];
    assert ProcOk(s, p);
    FoundIsInMap(s, p);
    NextFound(s, p);
    FoundOk(s, p);
    LocalStep(s, p, AfterFound(s, p, call, pc.r, pc.rec, pc.prev, pc.pos).procs[p].pc);
  }

  /** The call only has to tell what it found. */
  predicate Tells(call: Call) {
    call.FetchCall? || (call.StoreCall? && call.flag == DB_INSERT)
  }

  lemma FoundOk(s: S, p: nat)
    requires Sized(s) && p in s.procs && s.procs[p].pc.Found? && ProcOk(s, p) &&
             !Overwrites(s.procs[p].call, s.procs[p].pc.rec)
    requires var Proc(call, pc) := s.procs[p];
             && call.key in s.abs && pc.rec.datoff < |s.pieces| && s.abs[call.key] == s.pieces[pc.rec.datoff]
             && |s.abs[call.key]| + 1 == pc.rec.datlen
    ensures var Proc(call, pc) := s.procs[p];
            var s' := AfterFound(s, p, call, pc.r, pc.rec, pc.prev, pc.pos);
            p in s'.procs && Sized(s') && ProcOk(s', p) && SameLocks(pc, s'.procs[p].pc) &&
            s' == To(s, p, s'.procs[p].pc)
  {
    hide ProcOk, SameLocks, AfterFound, Tells;
    if Tells(s.procs[p].call) {
      FoundTells(s, p);
    } else {
      FoundRemoves(s, p);
    }
  }

  lemma FoundTells(s: S, p: nat)
    requires Sized(s) && p in s.procs && s.procs[p].pc.Found? && ProcOk(s, p) &&
             !Overwrites(s.procs[p].call, s.procs[p].pc.rec)
    requires var Proc(call, pc) := s.procs[p];
             && call.key in s.abs && pc.rec.datoff < |s.pieces| && s.abs[call.key] == s.pieces[pc.rec.datoff]
             && |s.abs[call.key]| + 1 == pc.rec.datlen
    requires Tells(s.procs[p].call)
    ensures var Proc(call, pc) := s.procs[p];
            var s' := AfterFound(s, p, call, pc.r, pc.rec, pc.prev, pc.pos);
            p in s'.procs && Sized(s') && ProcOk(s', p) && SameLocks(pc, s'.procs[p].pc) &&
            s' == To(s, p, s'.procs[p].pc)
  {
    hide Holds, Chain, At;
    var Proc(call, pc) := s.procs[p];
    SameHolds(s, AfterFound(s, p, call, pc.r, pc.rec, pc.prev, pc.pos), Chain(call), s.abs);
  }

  lemma FoundRemoves(s: S, p: nat)
    requires Sized(s) && p in s.procs && s.procs[p].pc.Found? && ProcOk(s, p) &&
             !Overwrites(s.procs[p].call, s.procs[p].pc.rec)
    requires var Proc(call, pc) := s.procs[p];
             && call.key in s.abs && pc.rec.datoff < |s.pieces| && s.abs[call.key] == s.pieces[pc.rec.datoff]
             && |s.abs[call.key]| + 1 == pc.rec.datlen
    requires !Tells(s.procs[p].call)
    ensures var Proc(call, pc) := s.procs[p];
            var s' := AfterFound(s, p, call, pc.r, pc.rec, pc.prev, pc.pos);
            p in s'.procs && Sized(s') && ProcOk(s', p) && SameLocks(pc, s'.procs[p].pc) &&
            s' == To(s, p, s'.procs[p].pc)
  {
    hide Holds, Chain;
    var Proc(call, pc) := s.procs[p];
    SameHolds(s, AfterFound(s, p, call, pc.r, pc.rec, pc.prev, pc.pos), Chain(call), s.abs);
  }

  lemma NextFound(s: S, p: nat)
    requires Sized(s) && p in s.procs && s.procs[p].pc.Found? && s.procs[p].pc.rec.datoff < |s.pieces|
    ensures var Proc(call, pc) := s.procs[p]; Next(s, p) == AfterFound(s, p, call, pc.r, pc.rec, pc.prev, pc.pos)
  {
    hide Chain, AfterFound;
  }

  lemma StepFreeHead(s: S, p: nat)
    requires Safe(s) && p in s.procs && s.procs[p].pc.FreeHead?
    ensures Allowed(s, Next(s, p), p)
  {
    hide RecsOk, LogOk, ListOk, Holds, LocksOk, ChainsOk, Chain, AnswerTo;
    var Proc(call, pc) := s.procs[p];
    assert ProcOk(s, p);
    ListsOf(s, 0);
    FreeListIsNoChain(s);
    WalkAt(s, 0, 0);
    SameHolds(s, Next(s, p), Chain(call), s.abs - {call.key});
    LocalStep(s, p, FreeWalk(pc.ptr, s.heads[0], AtHead, 0));
  }

  lemma StepFreeWalk(s: S, p: nat)
    requires Safe(s) && p in s.procs && s.procs[p].pc.FreeWalk?
    ensures Allowed(s, Next(s, p), p)
  {
    hide RecsOk, LogOk, ListOk, Holds, LocksOk, ChainsOk, Chain, AnswerTo, Next, ListsAllOk;
    var Proc(call, pc) := s.procs[p];
    assert ProcOk(s, p);
    ListsOf(s, 0);
    FreeListIsNoChain(s);
    WalkAt(s, 0, pc.pos);
    NextFreeWalk(s, p);
    var pc' := FreeWalkOn(s, call, pc.ptr, pc.off, pc.prev, pc.pos);
    SameHolds(s, To(s, p, pc'), Chain(call), s.abs - {call.key});
    LocalStep(s, p, pc');
  }

  /** Where the walk along the free list goes on. */
  ghost function FreeWalkOn(s: S, call: Call, ptr: nat, off: nat, prev: Place, pos: nat): Pc {
    if off == 0 || off > |s.recs| then FreeFail(ptr)
    else if Matches(s.recs[off - 1], |call.key|, |DataOf(call)| + 1)
      then FreeTake(ptr, off - 1, s.recs[off - 1], prev, pos)
    else FreeWalk(ptr, s.recs[off - 1].ptr, InRec(off - 1), pos + 1)
  }

  lemma NextFreeWalk(s: S, p: nat)
    requires Sized(s) && p in s.procs && s.procs[p].pc.FreeWalk?
    ensures var Proc(call, pc) := s.procs[p];
            Next(s, p)
            == To(s, p, FreeWalkOn(s, call, pc.ptr, pc.off, pc.prev, pc.pos))
  {
    hide Chain;
  }

  lemma StepReadFree(s: S, p: nat)
    requires Safe(s) && p in s.procs && (s.procs[p].pc.ReadFree? || s.procs[p].pc.Reread?)
    ensures Allowed(s, Next(s, p), p)
  {
    hide RecsOk, LogOk, ListOk, Holds, LocksOk, ChainsOk, Chain, AnswerTo;
    var Proc(call, pc) := s.procs[p];
    assert ProcOk(s, p);
    var s' := Next(s, p);
    SameHolds(s, s', Chain(call), s.abs - {call.key});
    LocalStep(s, p, s'.procs[p].pc);
  }

  // ----- taking and dropping the shared locks -----

  /** A lock changes hands only from nobody to `p` or from `p` to nobody, and `p`
      has it afterwards exactly if its next step needs it. */
  ghost predicate Handover(before: Option<nat>, after: Option<nat>, p: nat, needs: bool) {
    && (after == before || (before == None && after == Some(p)) || (before == Some(p) && after == None))
    && (needs <==> after == Some(p))
  }

  lemma LocksStep(s: S, s': S, p: nat)
    requires LocksOk(s) && p in s.procs && s'.writer == s.writer && s'.readers == s.readers
    requires s'.procs.Keys == s.procs.Keys && (forall q :: q in s.procs && q != p ==> s'.procs[q] == s.procs[q])
    requires s'.procs[p].call == s.procs[p].call && Inside(s.procs[p].pc) && Inside(s'.procs[p].pc)
    requires Handover(s.freeLock, s'.freeLock, p, UsesFree(s'.procs[p].pc))
    requires Handover(s.datLock, s'.datLock, p, UsesDat(s'.procs[p].pc))
    requires Handover(s.idxLock, s'.idxLock, p, UsesIdx(s'.procs[p].pc))
    ensures LocksOk(s')
  {
    hide Chain, UsesFree, UsesDat, UsesIdx;
    forall q | q in s'.procs && Inside(s'.procs[q].pc) ensures HasChain(s', q) {
      assert HasChain(s, q);
    }
  }

  // Steps inside a call that change no file and no chain lock.

  lemma FreeLockTaken(s: S, p: nat)
    requires Safe(s) && p in s.procs && Enabled(s, p)
    requires var pc := s.procs[p].pc; pc.WantFree? || pc.WantFreeDel?
    ensures LocksOk(Next(s, p)) && Quiet(s, Next(s, p), p)
  {
    hide RecsOk, LogOk, ListOk, Holds, ChainsOk, Chain, AnswerTo, ProcOk, LocksOk, ProcsOk, ListsAllOk;
    FreeUse(s, p);
    LocksStep(s, Next(s, p), p);
  }

  lemma FreeLockDropped(s: S, p: nat)
    requires Safe(s) && p in s.procs && Enabled(s, p)
    requires var pc := s.procs[p].pc; pc.FreeFail? || pc.FreeGot? || pc.DropFree?
    ensures LocksOk(Next(s, p)) && Quiet(s, Next(s, p), p)
  {
    hide RecsOk, LogOk, ListOk, Holds, ChainsOk, Chain, AnswerTo, ProcOk, LocksOk, ProcsOk, ListsAllOk, Next;
    FreeUse(s, p);
    NextFreeDropped(s, p);
    LocksStep(s, To(s.(freeLock := None), p, Dropped(s.procs[p].call, s.procs[p].pc)), p);
  }

  /** Where the process goes on when it has given back the free lock. */
  ghost function Dropped(call: Call, pc: Pc): Pc {
    if pc.FreeFail? then WantDat(pc.ptr)
    else if pc.FreeGot? then FillData(pc.ptr, pc.r, pc.rec)
    else if call.DeleteCall? then Unlock(Status(0)) else Reread
  }

  lemma NextFreeDropped(s: S, p: nat)
    requires Sized(s) && p in s.procs
    requires var pc := s.procs[p].pc; pc.FreeFail? || pc.FreeGot? || pc.DropFree?
    ensures Next(s, p) == To(s.(freeLock := None), p, Dropped(s.procs[p].call, s.procs[p].pc))
  {
    hide Chain;
  }

  lemma DatLockMoves(s: S, p: nat)
    requires Safe(s) && p in s.procs && Enabled(s, p)
    requires var pc := s.procs[p].pc; pc.WantDat? || pc.DropDat?
    ensures LocksOk(Next(s, p)) && Quiet(s, Next(s, p), p)
  {
    hide RecsOk, LogOk, ListOk, Holds, ChainsOk, Chain, AnswerTo, ProcOk, LocksOk, ProcsOk, ListsAllOk;
    FreeUse(s, p);
    LocksStep(s, Next(s, p), p);
  }

  lemma IdxLockMoves(s: S, p: nat)
    requires Safe(s) && p in s.procs && Enabled(s, p)
    requires var pc := s.procs[p].pc; pc.WantIdx? || pc.DropIdx?
    ensures LocksOk(Next(s, p)) && Quiet(s, Next(s, p), p)
  {
    hide RecsOk, LogOk, ListOk, Holds, ChainsOk, Chain, AnswerTo, ProcOk, LocksOk, ProcsOk, ListsAllOk;
    FreeUse(s, p);
    LocksStep(s, Next(s, p), p);
  }

  lemma FreeUse(s: S, p: nat)
    requires LocksOk(s) && p in s.procs
    ensures UsesFree(s.procs[p].pc) <==> s.freeLock == Some(p)
    ensures UsesDat(s.procs[p].pc) <==> s.datLock == Some(p)
    ensures UsesIdx(s.procs[p].pc) <==> s.idxLock == Some(p)
  {
  }

  lemma StepFreeLock(s: S, p: nat)
    requires Safe(s) && p in s.procs && Enabled(s, p)
    requires var pc := s.procs[p].pc; pc.WantFree? || pc.WantFreeDel? || pc.FreeFail? || pc.FreeGot?
    ensures Allowed(s, Next(s, p), p)
  {
    hide RecsOk, LogOk, ListOk, Holds, LocksOk, ChainsOk, Chain, AnswerTo, Quiet, ProcOk, Next;
    if s.procs[p].pc.WantFree? || s.procs[p].pc.WantFreeDel? {
      FreeLockTaken(s, p);
    } else {
      FreeLockDropped(s, p);
    }
    FreeLockOk(s, p);
    QuietStep(s, Next(s, p), p);
  }

  lemma FreeLockOk(s: S, p: nat)
    requires Sized(s) && p in s.procs && ProcOk(s, p)
    requires var pc := s.procs[p].pc; pc.WantFree? || pc.WantFreeDel? || pc.FreeFail? || pc.FreeGot?
    ensures p in Next(s, p).procs && Sized(Next(s, p)) && ProcOk(Next(s, p), p)
  {
    hide Holds, Chain, AnswerTo;
    var s', call := Next(s, p), s.procs[p].call;
    if s.procs[p].pc.WantFreeDel? {
      SameHolds(s, s', Chain(call), s.abs);
    } else {
      SameHolds(s, s', Chain(call), s.abs - {call.key});
    }
  }

  lemma StepAppendLock(s: S, p: nat)
    requires Safe(s) && p in s.procs && Enabled(s, p)
    requires var pc := s.procs[p].pc; pc.WantDat? || pc.DropDat? || pc.WantIdx? || pc.DropIdx?
    ensures Allowed(s, Next(s, p), p)
  {
    hide RecsOk, LogOk, ListOk, Holds, LocksOk, ChainsOk, Chain, AnswerTo, Quiet, ProcOk, Next;
    if s.procs[p].pc.WantDat? || s.procs[p].pc.DropDat? {
      DatLockMoves(s, p);
    } else {
      IdxLockMoves(s, p);
    }
    AppendLockOk(s, p);
    QuietStep(s, Next(s, p), p);
  }

  lemma AppendLockOk(s: S, p: nat)
    requires Sized(s) && p in s.procs && ProcOk(s, p)
    requires var pc := s.procs[p].pc; pc.WantDat? || pc.DropDat? || pc.WantIdx? || pc.DropIdx?
    ensures p in Next(s, p).procs && Sized(Next(s, p)) && ProcOk(Next(s, p), p)
  {
    hide Holds, Chain, AnswerTo;
    var call := s.procs[p].call;
    SameHolds(s, Next(s, p), Chain(call), s.abs - {call.key});
  }

  lemma StepDropFree(s: S, p: nat)
    requires Safe(s) && p in s.procs && s.procs[p].pc.DropFree?
    ensures Allowed(s, Next(s, p), p)
  {
    hide RecsOk, LogOk, ListOk, Holds, LocksOk, ChainsOk, Chain, Quiet;
    FreeLockDropped(s, p);
    assert ProcOk(s, p);
    var s', call := Next(s, p), s.procs[p].call;
    SameHolds(s, s', Chain(call), s.abs - {call.key});
    QuietStep(s, s', p);
  }

  // ----- entering and leaving a call -----

  lemma StepWantChain(s: S, p: nat)
    requires Safe(s) && p in s.procs && s.procs[p].pc.WantChain? && Enabled(s, p)
    ensures Allowed(s, Next(s, p), p)
  {
    hide RecsOk, LogOk, ListOk, Holds, LocksOk, Frame, Chain, ProcOk;
    var call, s' := s.procs[p].call, Next(s, p);
    var k := Chain(call);
    EnterLocks(s, p);
    FrameSame(s, s', p);
    SameRecs(s, s');
    SameLog(s, s');
    SameHolds(s, s', k, s.abs);
    assert ProcOk(s, p);
    assert ProcOk(s', p) by { EnterOk(s, p); }
    EnterControls(s, p);
    Assemble(s, s', p);
  }

  lemma EnterOk(s: S, p: nat)
    requires Sized(s) && p in s.procs && s.procs[p].pc.WantChain? && ProcOk(s, p)
    requires Holds(Next(s, p), Chain(s.procs[p].call), s.abs)
    ensures ProcOk(Next(s, p), p)
  {
    hide Holds, Chain;
  }

  /** Before it has entered, a process has no lock. */
  lemma EnterControls(s: S, p: nat)
    requires LocksOk(s) && p in s.procs && !Inside(s.procs[p].pc)
    ensures forall k :: !ControlsList(s, p, k)
  {
  }

  lemma EnterLocks(s: S, p: nat)
    requires Sized(s) && LocksOk(s) && p in s.procs && s.procs[p].pc.WantChain? && Enabled(s, p)
    ensures LocksOk(Next(s, p)) && Others(s, Next(s, p), p)
  {
    if s.procs[p].call.FetchCall? {
      EnterToRead(s, p);
    } else {
      EnterToWrite(s, p);
    }
  }

  lemma EnterToRead(s: S, p: nat)
    requires Sized(s) && LocksOk(s) && p in s.procs && s.procs[p].pc.WantChain? && Enabled(s, p)
    requires s.procs[p].call.FetchCall?
    ensures LocksOk(Next(s, p)) && Others(s, Next(s, p), p)
  {
    hide Chain, UsesFree, UsesDat, UsesIdx, Sized;
    FreeUse(s, p);
    var s' := Next(s, p);
    PlainSteps();
    forall q | q in s'.procs && Inside(s'.procs[q].pc) ensures HasChain(s', q) {
      assert q == p || HasChain(s, q);
    }
  }

  lemma PlainSteps()
    ensures !UsesFree(WantChain) && !UsesFree(GetHead) && !UsesDat(WantChain) && !UsesDat(GetHead)
    ensures !UsesIdx(WantChain) && !UsesIdx(GetHead)
  {
  }

  lemma NextEnterToWrite(s: S, p: nat)
    requires Sized(s) && p in s.procs && s.procs[p].pc.WantChain? && !s.procs[p].call.FetchCall?
    ensures Next(s, p) == To(s.(writer := s.writer[Chain(s.procs[p].call) := p]), p, GetHead)
  {
    hide Chain;
  }

  lemma EnterToWrite(s: S, p: nat)
    requires Sized(s) && LocksOk(s) && p in s.procs && s.procs[p].pc.WantChain? && Enabled(s, p)
    requires !s.procs[p].call.FetchCall?
    ensures LocksOk(Next(s, p)) && Others(s, Next(s, p), p)
  {
    NextEnterToWrite(s, p);
    hide Chain, UsesFree, UsesDat, UsesIdx, Next, LocksOk, Sized;
    var k := Chain(s.procs[p].call);
    EnterOthers(s, p, k);
    EnterWriting(s, p, k);
  }

  lemma EnterOthers(s: S, p: nat, k: nat)
    requires p in s.procs && k !in s.writer
    ensures Others(s, To(s.(writer := s.writer[k := p]), p, GetHead), p)
  {
  }

  lemma EnterWriting(s: S, p: nat, k: nat)
    requires LocksOk(s) && p in s.procs && s.procs[p].pc == WantChain && !s.procs[p].call.FetchCall? &&
             k == Chain(s.procs[p].call)
    requires k !in s.writer && forall t :: t in s.readers ==> t.0 != k
    ensures LocksOk(To(s.(writer := s.writer[k := p]), p, GetHead))
  {
    hide Chain, UsesFree, UsesDat, UsesIdx;
    PlainSteps();
    var s' := To(s.(writer := s.writer[k := p]), p, GetHead);
    forall q | q in s'.procs && Inside(s'.procs[q].pc) ensures HasChain(s', q) {
      assert q == p || HasChain(s, q);
    }
  }
}
