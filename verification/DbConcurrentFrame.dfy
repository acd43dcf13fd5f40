/** Non-interference: a step that keeps to its frame disturbs no other process,
    no list it has not locked, and no chain that nobody is changing. */
module DbConcurrentFrame {
  import opened DbFormat
  import opened DbFile
  import opened DbState
  import opened DbDisk
  import opened Db
  import opened DbConcurrent
  import opened DbConcurrentInv

  ghost predicate AgreeOn(m: map<string, string>, m': map<string, string>, k: nat) {
    forall key :: Bucket(key) == k ==> (key in m <==> key in m') && (key in m ==> m'[key] == m[key])
  }

  /** A record on a list that `p` has not locked is untouched. */
  lemma RecordKept(s: S, s': S, p: nat, k: nat, r: nat)
    requires Sized(s) && Sized(s') && RecsOk(s) && Frame(s, s', p) && !ControlsList(s, p, k)
    ensures r < |s'.recs| && s'.home[r] == On(k) <==> r < |s.recs| && s.home[r] == On(k)
    ensures r < |s.recs| && s.home[r] == On(k) ==>
              && s'.recs[r] == s.recs[r] && s.recs[r].datoff < |s.pieces| <= |s'.pieces|
              && s'.pieces[s.recs[r].datoff] == s.pieces[s.recs[r].datoff]
  {
    hide ControlsList, Bucket;
    if r < |s.recs| {
      assert ControlsPiece(s, p, s.recs[r].datoff) == Controls(s, p, r);
    }
  }

  lemma HoldsKept(s: S, s': S, p: nat, k: nat, m: map<string, string>, m': map<string, string>)
    requires Sized(s) && Sized(s') && RecsOk(s) && Frame(s, s', p) && !ControlsList(s, p, k)
    requires Holds(s, k, m) && AgreeOn(m, m', k) && 1 <= k
    ensures Holds(s', k, m')
  {
    hide Frame, ControlsList;
    forall key, r: nat | HasKey(s', k, key, r)
      ensures key in m' && s'.recs[r].datoff < |s'.pieces| && m'[key] == s'.pieces[s'.recs[r].datoff]
    {
      RecordKept(s, s', p, k, r);
      assert HasKey(s, k, key, r);
    }
    forall key | key in m' && Bucket(key) == k ensures exists r: nat :: HasKey(s', k, key, r) {
      var r: nat :| HasKey(s, k, key, r);
      RecordKept(s, s', p, k, r);
      assert HasKey(s', k, key, r);
    }
  }

  /** The keys that a call of another process depends on. */
  lemma MapKept(s: S, s': S, p: nat, call: Call)
    requires Others(s, s', p) && !ControlsList(s, p, Chain(call))
    ensures AgreeOn(s.abs, s'.abs, Chain(call)) && AgreeOn(s.abs - {call.key}, s'.abs - {call.key}, Chain(call))
    ensures AnswerTo(s'.abs, call) == AnswerTo(s.abs, call) && (call.key in s.abs <==> call.key in s'.abs)
    ensures AgreeOn(AfterCall(s.abs, call), AfterCall(s'.abs, call), Chain(call))
  {
    hide ControlsList;
  }

  /** A process inside a call has a chain that nobody else can change. */
  lemma ChainIsMine(s: S, p: nat, q: nat)
    requires LocksOk(s) && q in s.procs && q != p && Inside(s.procs[q].pc)
    ensures !ControlsList(s, p, Chain(s.procs[q].call))
    ensures UsesFree(s.procs[q].pc) ==> !ControlsList(s, p, 0)
  {
    assert HasChain(s, q);
  }

  ghost predicate SameList(s: S, s': S, k: nat)
    requires Sized(s) && Sized(s') && k < NHEADS
  {
    && s'.heads[k] == s.heads[k] && s'.lists[k] == s.lists[k] && |s.recs| <= |s'.recs|
    && (forall i :: 0 <= i < |s.lists[k]| && s.lists[k][i] < |s.recs| ==>
          s'.recs[s.lists[k][i]] == s.recs[s.lists[k][i]])
    && (forall r :: 0 <= r < |s.recs| && s.home[r] == On(k) ==> s'.home[r] == On(k))
  }

  lemma ListKept(s: S, s': S, p: nat, k: nat)
    requires Sized(s) && Sized(s') && RecsOk(s) && Frame(s, s', p) && !ControlsList(s, p, k) && k < NHEADS
    requires ListOk(s, k)
    ensures SameList(s, s', k)
  {
    hide ControlsList, Bucket, Linked;
    forall i | 0 <= i < |s.lists[k]| && s.lists[k][i] < |s.recs|
      ensures s'.recs[s.lists[k][i]] == s.recs[s.lists[k][i]]
    {
      assert s.lists[k][i] in s.lists[k];
    }
  }

  lemma PrivateKept(s: S, s': S, p: nat, q: nat, r: nat)
    requires Sized(s) && Sized(s') && RecsOk(s) && Frame(s, s', p) && q != p && Private(s, q, r)
    ensures Private(s', q, r) && s'.recs[r] == s.recs[r] && s.recs[r].datoff < |s.pieces| <= |s'.pieces|
    ensures s'.pieces[s.recs[r].datoff] == s.pieces[s.recs[r].datoff]
  {
    hide Bucket;
    assert !Controls(s, p, r);
    assert !ControlsPiece(s, p, s.recs[r].datoff);
  }

  lemma PieceKept(s: S, s': S, p: nat, q: nat, call: Call, piece: nat)
    requires Sized(s) && Sized(s') && Frame(s, s', p) && q != p && PrivatePiece(s, q, call, piece)
    ensures PrivatePiece(s', q, call, piece)
  {
    assert !ControlsPiece(s, p, piece);
  }

  predicate OwnsRecord(pc: Pc) {
    pc.FreeGot? || pc.FillData? || pc.FillIdx? || pc.DropIdx? || pc.SetHead? || pc.ReadFree? || pc.BlankIdx? ||
    pc.SetFree?
  }

  predicate OwnsPiece(pc: Pc) {
    pc.DropDat? || pc.WantIdx? || pc.AppendIdx?
  }

  ghost predicate SameRecord(s: S, s': S, q: nat, r: nat)
    requires Sized(s) && Sized(s')
  {
    Private(s, q, r) ==>
      && Private(s', q, r) && s'.recs[r] == s.recs[r]
      && s.recs[r].datoff < |s.pieces| <= |s'.pieces| && s'.pieces[s.recs[r].datoff] == s.pieces[s.recs[r].datoff]
  }

  /** Everything that a process inside a call can see is the same as before. */
  ghost predicate SameView(s: S, s': S, q: nat) {
    && Sized(s) && Sized(s') && q in s.procs && q in s'.procs && s'.procs[q] == s.procs[q]
    && var Proc(call, pc) := s.procs[q];
       var k := Chain(call);
    && SameList(s, s', k) && (UsesFree(pc) ==> SameList(s, s', 0))
    && (Holds(s, k, s.abs) ==> Holds(s', k, s'.abs))
    && (Holds(s, k, s.abs - {call.key}) ==> Holds(s', k, s'.abs - {call.key}))
    && (Holds(s, k, AfterCall(s.abs, call)) ==> Holds(s', k, AfterCall(s'.abs, call)))
    && AnswerTo(s'.abs, call) == AnswerTo(s.abs, call) && (call.key in s.abs <==> call.key in s'.abs)
    && (OwnsRecord(pc) ==> SameRecord(s, s', q, pc.r))
    && (OwnsPiece(pc) && PrivatePiece(s, q, call, pc.piece) ==> PrivatePiece(s', q, call, pc.piece))
  }

  lemma ViewKept(s: S, s': S, p: nat, q: nat)
    requires Safe(s) && Sized(s') && Frame(s, s', p) && Others(s, s', p) && q in s.procs && q != p
    requires Inside(s.procs[q].pc)
    ensures SameView(s, s', q)
  {
    hide Frame, Holds, ControlsList, Chain, LocksOk, RecsOk, ListOk, AgreeOn, AnswerTo, AfterCall, LogOk, ListsAllOk,
         ProcsOk, ChainsOk, SameList, Private, PrivatePiece;
    var Proc(call, pc) := s.procs[q];
    var k := Chain(call);
    ChainIsMine(s, p, q);
    MapKept(s, s', p, call);
    ListsOf(s, k);
    ListsOf(s, 0);
    ListKept(s, s', p, k);
    if Holds(s, k, s.abs) {
      HoldsKept(s, s', p, k, s.abs, s'.abs);
    }
    if Holds(s, k, s.abs - {call.key}) {
      HoldsKept(s, s', p, k, s.abs - {call.key}, s'.abs - {call.key});
    }
    if Holds(s, k, AfterCall(s.abs, call)) {
      HoldsKept(s, s', p, k, AfterCall(s.abs, call), AfterCall(s'.abs, call));
    }
    if UsesFree(pc) {
      ListKept(s, s', p, 0);
    }
    if OwnsRecord(pc) && Private(s, q, pc.r) {
      PrivateKept(s, s', p, q, pc.r);
    }
    if OwnsPiece(pc) && PrivatePiece(s, q, call, pc.piece) {
      PieceKept(s, s', p, q, call, pc.piece);
    }
  }

  lemma SearchKept(s: S, s': S, q: nat)
    requires SameView(s, s', q) && ProcOk(s, q)
    requires var pc := s.procs[q].pc;
             pc.GetHead? || pc.Walk? || pc.Missing? || pc.Found? || pc.WantFreeDel? ||
             pc.BlankData?
    ensures ProcOk(s', q)
  {
    hide Holds, AnswerTo, AfterCall, Chain, UsesFree, OwnsRecord, OwnsPiece;
  }

  lemma AddKept(s: S, s': S, q: nat)
    requires SameView(s, s', q) && ProcOk(s, q)
    requires var pc := s.procs[q].pc;
             pc.WantFree? || pc.FreeHead? || pc.FreeWalk? || pc.FreeTake? || pc.FreeFail? || pc.WantDat? ||
                 pc.AppendDat? || OwnsPiece(pc)
    ensures ProcOk(s', q)
  {
    hide Holds, AnswerTo, AfterCall, Chain, OwnsRecord, PrivatePiece;
  }

  lemma OwnKept(s: S, s': S, q: nat)
    requires SameView(s, s', q) && ProcOk(s, q) && OwnsRecord(s.procs[q].pc)
    ensures ProcOk(s', q)
  {
    hide Holds, AnswerTo, AfterCall, Chain, OwnsPiece;
  }

  lemma EndKept(s: S, s': S, q: nat)
    requires SameView(s, s', q) && ProcOk(s, q)
    requires var pc := s.procs[q].pc; pc.Bypass? || pc.DropFree? || pc.Reread? || pc.Unlock?
    ensures ProcOk(s', q)
  {
    hide Holds, AnswerTo, AfterCall, Chain, UsesFree, OwnsRecord, OwnsPiece;
  }

  /** Everything another process knows stays true. */
  lemma ProcKept(s: S, s': S, p: nat, q: nat)
    requires Safe(s) && Sized(s') && Frame(s, s', p) && Others(s, s', p) && q in s.procs && q != p
    ensures q in s'.procs && ProcOk(s', q)
  {
    hide Frame, ListsAllOk, RecsOk, LocksOk, ChainsOk, LogOk, SameView;
    var pc := s.procs[q].pc;
    assert ProcOk(s, q);
    if Inside(pc) {
      hide ProcOk;
      ViewKept(s, s', p, q);
      if pc.GetHead? || pc.Walk? || pc.Missing? || pc.Found? || pc.WantFreeDel? || pc.BlankData? {
        SearchKept(s, s', q);
      } else if OwnsRecord(pc) {
        OwnKept(s, s', q);
      } else if pc.Bypass? || pc.DropFree? || pc.Reread? || pc.Unlock? {
        EndKept(s, s', q);
      } else {
        AddKept(s, s', q);
      }
    }
  }

  lemma ListsOf(s: S, k: nat)
    requires Sized(s) && ListsAllOk(s) && k < NHEADS
    ensures ListOk(s, k)
  {
  }
}
