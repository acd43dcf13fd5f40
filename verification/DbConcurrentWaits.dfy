/** Waiting for locks: no processes wait for each other in a circle, every process that is
    not waiting moves on, and every call can come to its end. */
module DbConcurrentWaits {
  import opened DbFormat
  import opened DbFile
  import opened DbState
  import opened DbDisk
  import opened Db
  import opened DbConcurrent
  import opened DbConcurrentInv
  import opened DbConcurrentFrame
  import opened DbConcurrentSteps
  import opened DbConcurrentRuns

  // ----- who waits for whom -----

  /** `q` holds a lock that keeps `p` from its next step. */
  predicate WaitsFor(s: S, p: nat, q: nat) {
    && p in s.procs && q in s.procs
    && var Proc(call, pc) := s.procs[p];
       match pc
       case WantChain => (Chain(call) in s.writer && s.writer[Chain(call)] == q) || (!call.FetchCall? &&
           (Chain(call), q) in s.readers)
       case WantFree(_) => s.freeLock == Some(q)
       case WantFreeDel(_, _, _, _) => s.freeLock == Some(q)
       case WantDat(_) => s.datLock == Some(q)
       case WantIdx(_, _) => s.idxLock == Some(q)
       case _ => false
  }

  /** Waiting for the free list or for the end of a file. */
  predicate WantsShared(pc: Pc) {
    pc.WantFree? || pc.WantFreeDel? || pc.WantDat? || pc.WantIdx?
  }

  /** A process inside a call is held up exactly when it waits for another one. */
  lemma HeldUp(s: S, p: nat)
    requires LocksOk(s) && p in s.procs && s.procs[p].pc != Idle
    ensures !Enabled(s, p) <==> exists q: nat :: WaitsFor(s, p, q)
  {
    hide Chain;
    if !Enabled(s, p) {
      var q := Holder(s, p);
      assert WaitsFor(s, p, q);
    }
    forall q: nat | WaitsFor(s, p, q) ensures !Enabled(s, p) {
      var k := Chain(s.procs[p].call);
      assert (k, q) in s.readers ==> (k, q).0 == k;
    }
  }

  lemma Holder(s: S, p: nat) returns (q: nat)
    requires LocksOk(s) && p in s.procs && s.procs[p].pc != Idle && !Enabled(s, p)
    ensures q in s.procs && WaitsFor(s, p, q)
  {
    hide Chain;
    var pc := s.procs[p].pc;
    if pc.WantFree? || pc.WantFreeDel? {
      q := s.freeLock.value;
    } else if pc.WantDat? {
      q := s.datLock.value;
    } else if pc.WantIdx? {
      q := s.idxLock.value;
    } else {
      var k := Chain(s.procs[p].call);
      if k in s.writer {
        q := s.writer[k];
      } else {
        var t :| t in s.readers && t.0 == k;
        assert (t.0, t.1) in s.readers;
        q := t.1;
      }
    }
  }

  /** A process that is waited for is inside its chain; one that holds the free list or
      the end of a file does not wait. */
  lemma HolderInside(s: S, p: nat, q: nat)
    requires LocksOk(s) && WaitsFor(s, p, q)
    ensures p in s.procs && q in s.procs
    ensures !s.procs[q].pc.WantChain? && s.procs[q].pc != Idle
    ensures WantsShared(s.procs[p].pc) ==> Enabled(s, q)
  {
    hide Chain;
  }

  /** In every state of every run: who waits for a process that waits wants a chain, that
      one wants a shared lock, and who holds that can go on.  So the chain lock comes
      first, and nobody waits while holding one of the others. */
  lemma WaitOrder(run: seq<S>, n: nat, p: nat, q: nat, r: nat)
    requires IsRun(run) && n < |run| && WaitsFor(run[n], p, q) && WaitsFor(run[n], q, r)
    ensures run[n].procs[p].pc == WantChain && WantsShared(run[n].procs[q].pc) && Enabled(run[n], r)
    ensures forall t: nat :: !WaitsFor(run[n], r, t)
  {
    var s := run[n];
    RunSafe(run, n);
    hide IsRun, ListsAllOk, RecsOk, ChainsOk, ProcsOk, LogOk, Chain;
    HolderInside(s, p, q);
    HolderInside(s, q, r);
    HeldUp(s, r);
  }

  /** The processes wait for each other in a circle. */
  ghost predicate Circle(s: S, ring: seq<nat>) {
    ring != [] && WaitsFor(s, ring[|ring| - 1], ring[0]) && forall i :: 0 <= i < |ring| - 1 ==>
      WaitsFor(s, ring[i], ring[i + 1])
  }

  /** No processes ever wait for each other in a circle. */
  lemma NoCircle(run: seq<S>, n: nat, ring: seq<nat>)
    requires IsRun(run) && n < |run|
    ensures !Circle(run[n], ring)
  {
    hide IsRun, WaitsFor;
    var s, m := run[n], |ring|;
    if Circle(s, ring) {
      var q := ring[if m == 1 then 0 else 1];
      var r := ring[if m <= 2 then 0 else 2];
      var t := ring[if m == 2 then 1 else if m <= 3 then 0 else 3];
      assert WaitsFor(s, r, t);
      WaitOrder(run, n, ring[0], q, r);
    }
  }

  // ----- every step leads on -----

  /** The steps of a call, counted from its end. */
  function Stage(pc: Pc): nat {
    match pc
    case Idle => 0
    case Unlock(_) => 1
    case SetHead(_) => 2
    case DropIdx(_) => 3
    case AppendIdx(_, _) => 4
    case WantIdx(_, _) => 5
    case DropDat(_, _) => 6
    case AppendDat(_) => 7
    case WantDat(_) => 8
    case Reread => 9
    case FillIdx(_, _, _) => 9
    case FillData(_, _, _) => 10
    case FreeGot(_, _, _) => 11
    case FreeFail(_) => 12
    case FreeTake(_, _, _, _, _) => 13
    case FreeWalk(_, _, _, _) => 14
    case FreeHead(_) => 15
    case WantFree(_) => 16
    case DropFree => 17
    case Bypass(_, _) => 18
    case SetFree(_, _, _) => 19
    case BlankIdx(_, _, _, _) => 20
    case ReadFree(_, _, _) => 21
    case BlankData(_, _, _, _) => 22
    case WantFreeDel(_, _, _, _) => 23
    case Missing => 24
    case Found(_, _, _, _) => 24
    case Walk(_, _, _) => 25
    case GetHead => 26
    case WantChain => 27
  }

  /** How far a walk along a list still has to go. */
  function Remaining(s: S, p: nat): nat
    requires p in s.procs && Sized(s)
  {
    var Proc(call, pc) := s.procs[p];
    match pc
    case Walk(_, _, pos) => if pos <= |s.lists[Chain(call)]| then |s.lists[Chain(call)]| - pos else 0
    case FreeWalk(_, _, _, pos) => if pos <= |s.lists[0]| then |s.lists[0]| - pos else 0
    case _ => 0
  }

  /** The process is nearer to the end of its call. */
  ghost predicate Nearer(s: S, s': S, p: nat)
    requires Sized(s) && p in s.procs
  {
    && Sized(s') && p in s'.procs
    && var stage, stage' := Stage(s.procs[p].pc), Stage(s'.procs[p].pc);
       stage' < stage || (stage' == stage && Remaining(s', p) < Remaining(s, p))
  }

  /** The step finds what its process knows to be there. */
  ghost predicate Settled(s: S, p: nat)
    requires p in s.procs && Sized(s)
  {
    var Proc(call, pc) := s.procs[p];
    match pc
    case Found(_, rec, _, _) => rec.datoff < |s.pieces|
    case FreeTake(_, _, _, _, pos) => pos < |s.lists[0]| && s.lists[0][pos] < |s.home|
    case FillData(_, _, rec) => rec.datoff < |s.pieces|
    case FillIdx(_, r, _) => r < |s.recs|
    case AppendIdx(_, piece) => piece < |s.pieceHome|
    case SetHead(r) => r < |s.home|
    case BlankData(_, rec, _, pos) =>
      && pos < |s.lists[Chain(call)]| && s.lists[Chain(call)][pos] < |s.home|
      && rec.datoff < |s.pieces| && rec.datlen > 0
    case BlankIdx(_, _, _, _) => pc.r < |s.recs|
    case SetFree(r, _, _) => r < |s.home|
    case _ => true
  }

  lemma IsSettled(s: S, p: nat)
    requires Sized(s) && RecsOk(s) && p in s.procs && ProcOk(s, p)
    ensures Settled(s, p)
  {
    hide Chain, Holds, AnswerTo, AfterCall, PrevOk, PrevInChain, Matches, OffOk;
    var pc := s.procs[p].pc;
    if pc.Found? || pc.BlankData? || pc.FillData? {
      assert pc.r < |s.recs| && s.recs[pc.r] == pc.rec;
    }
  }

  /** Only the process of the step moves, to a later stage unless it walks along a list. */
  ghost predicate MovesOn(s: S, s': S, p: nat)
    requires p in s.procs
  {
    && s'.procs.Keys == s.procs.Keys && (forall q :: q in s.procs && q != p ==> s'.procs[q] == s.procs[q])
    && (Stage(s'.procs[p].pc) < Stage(s.procs[p].pc) || s.procs[p].pc.Walk? || s.procs[p].pc.FreeWalk?)
  }

  lemma EnterMoves(s: S, p: nat)
    requires Sized(s) && p in s.procs && Settled(s, p)
    requires var pc := s.procs[p].pc; pc.WantChain? || pc.GetHead? || pc.Unlock?
    ensures MovesOn(s, Next(s, p), p)
  {
    hide Chain, AfterCall;
  }

  lemma WalkMoves(s: S, p: nat)
    requires Sized(s) && p in s.procs && Settled(s, p)
    requires var pc := s.procs[p].pc; pc.Walk?
    ensures MovesOn(s, Next(s, p), p)
  {
    hide Chain;
  }

  lemma MissingMoves(s: S, p: nat)
    requires Sized(s) && p in s.procs && Settled(s, p)
    requires var pc := s.procs[p].pc; pc.Missing?
    ensures MovesOn(s, Next(s, p), p)
  {
    hide Chain;
  }

  lemma FoundMoves(s: S, p: nat)
    requires Sized(s) && p in s.procs && Settled(s, p)
    requires var pc := s.procs[p].pc; pc.Found?
    ensures MovesOn(s, Next(s, p), p)
  {
    hide Chain;
  }

  lemma FreeMoves(s: S, p: nat)
    requires Sized(s) && p in s.procs && Settled(s, p)
    requires var pc := s.procs[p].pc; pc.WantFree? || pc.FreeHead? || pc.FreeFail? || pc.FreeGot?
    ensures MovesOn(s, Next(s, p), p)
  {
    hide Chain;
  }

  lemma FreeWalkMoves(s: S, p: nat)
    requires Sized(s) && p in s.procs && Settled(s, p)
    requires var pc := s.procs[p].pc; pc.FreeWalk?
    ensures MovesOn(s, Next(s, p), p)
  {
    hide Chain, Matches;
  }

  lemma TakeMoves(s: S, p: nat)
    requires Sized(s) && p in s.procs && Settled(s, p)
    requires var pc := s.procs[p].pc; pc.FreeTake?
    ensures MovesOn(s, Next(s, p), p)
  {
    hide Chain, RemoveAt;
  }

  lemma FillMoves(s: S, p: nat)
    requires Sized(s) && p in s.procs && Settled(s, p)
    requires var pc := s.procs[p].pc; pc.FillData? || pc.FillIdx?
    ensures MovesOn(s, Next(s, p), p)
  {
    hide Chain;
  }

  lemma DataMoves(s: S, p: nat)
    requires Sized(s) && p in s.procs && Settled(s, p)
    requires var pc := s.procs[p].pc; pc.WantDat? || pc.AppendDat? || pc.DropDat?
    ensures MovesOn(s, Next(s, p), p)
  {
    hide Chain;
  }

  lemma IndexMoves(s: S, p: nat)
    requires Sized(s) && p in s.procs && Settled(s, p)
    requires var pc := s.procs[p].pc; pc.WantIdx? || pc.DropIdx? || pc.SetHead?
    ensures MovesOn(s, Next(s, p), p)
  {
    hide Chain;
  }

  lemma AppendMoves(s: S, p: nat)
    requires Sized(s) && p in s.procs && Settled(s, p)
    requires var pc := s.procs[p].pc; pc.AppendIdx?
    ensures MovesOn(s, Next(s, p), p)
  {
    hide Chain;
  }

  lemma BlankMoves(s: S, p: nat)
    requires Sized(s) && p in s.procs && Settled(s, p)
    requires var pc := s.procs[p].pc; pc.BlankData?
    ensures MovesOn(s, Next(s, p), p)
  {
    hide Chain, RemoveAt, Blanks;
  }

  lemma UnlinkMoves(s: S, p: nat)
    requires Sized(s) && p in s.procs && Settled(s, p)
    requires var pc := s.procs[p].pc; pc.SetFree? || pc.Bypass?
    ensures MovesOn(s, Next(s, p), p)
  {
    hide Chain;
  }

  lemma DeleteMoves(s: S, p: nat)
    requires Sized(s) && p in s.procs && Settled(s, p)
    requires var pc := s.procs[p].pc; pc.WantFreeDel? || pc.ReadFree? || pc.BlankIdx?
    ensures MovesOn(s, Next(s, p), p)
  {
    hide Chain, Blanks;
  }

  lemma DropMoves(s: S, p: nat)
    requires Sized(s) && p in s.procs && Settled(s, p)
    requires var pc := s.procs[p].pc; pc.DropFree? || pc.Reread?
    ensures MovesOn(s, Next(s, p), p)
  {
    hide Chain;
  }

  lemma StepMoves(s: S, p: nat)
    requires Safe(s) && p in s.procs && Enabled(s, p)
    ensures MovesOn(s, Next(s, p), p)
  {
    hide Next, MovesOn, ListsAllOk, RecsOk, LocksOk, ChainsOk, LogOk, ProcOk, Settled;
    IsSettled(s, p);
    var pc := s.procs[p].pc;
    if pc.WantChain? || pc.GetHead? || pc.Unlock? {
      EnterMoves(s, p);
    } else if pc.Walk? {
      WalkMoves(s, p);
    } else if pc.Missing? {
      MissingMoves(s, p);
    } else if pc.Found? {
      FoundMoves(s, p);
    } else if pc.WantFree? || pc.FreeHead? || pc.FreeFail? || pc.FreeGot? {
      FreeMoves(s, p);
    } else if pc.FreeWalk? {
      FreeWalkMoves(s, p);
    } else if pc.FreeTake? {
      TakeMoves(s, p);
    } else if pc.FillData? || pc.FillIdx? {
      FillMoves(s, p);
    } else if pc.WantDat? || pc.AppendDat? || pc.DropDat? {
      DataMoves(s, p);
    } else if pc.WantIdx? || pc.DropIdx? || pc.SetHead? {
      IndexMoves(s, p);
    } else if pc.AppendIdx? {
      AppendMoves(s, p);
    } else if pc.BlankData? {
      BlankMoves(s, p);
    } else if pc.SetFree? || pc.Bypass? {
      UnlinkMoves(s, p);
    } else if pc.WantFreeDel? || pc.ReadFree? || pc.BlankIdx? {
      DeleteMoves(s, p);
    } else {
      DropMoves(s, p);
    }
  }

  lemma WalkNearer(s: S, p: nat)
    requires Sized(s) && p in s.procs && s.procs[p].pc.Walk? && ProcOk(s, p)
    ensures Nearer(s, Next(s, p), p)
  {
    hide Chain, Holds, PrevOk, Next;
    NextWalk(s, p);
  }

  lemma FreeWalkNearer(s: S, p: nat)
    requires Sized(s) && p in s.procs && s.procs[p].pc.FreeWalk? && ProcOk(s, p)
    ensures Nearer(s, Next(s, p), p)
  {
    hide Chain, Adding, PrevOk, Next, Matches;
    NextFreeWalk(s, p);
  }

  /** Every step brings its process nearer to the end of its call. */
  lemma StepNearer(s: S, p: nat)
    requires Safe(s) && p in s.procs && Enabled(s, p)
    ensures Nearer(s, Next(s, p), p)
  {
    StepMoves(s, p);
    StepSafe(s, p);
    SizedOf(Next(s, p));
    hide Next, ListsAllOk, RecsOk, LocksOk, ChainsOk, LogOk, ProcOk, Stage, Remaining, Enabled;
    if s.procs[p].pc.Walk? {
      WalkNearer(s, p);
    } else if s.procs[p].pc.FreeWalk? {
      FreeWalkNearer(s, p);
    }
  }

  /** A process in the middle of a walk keeps others away from its list. */
  lemma ListKept(s: S, p: nat, q: nat)
    requires Sized(s) && LocksOk(s) && p in s.procs && q in s.procs && q != p
    ensures s.procs[q].pc.Walk? ==> !ControlsList(s, p, Chain(s.procs[q].call))
    ensures s.procs[q].pc.FreeWalk? ==> !ControlsList(s, p, 0)
  {
    hide Chain;
    if s.procs[q].pc.Walk? {
      assert HasChain(s, q);
    }
  }

  lemma SameLeft(s: S, s': S, p: nat, q: nat)
    requires Sized(s) && Sized(s') && Frame(s, s', p) && q in s.procs && q in s'.procs && s'.procs[q] == s.procs[q]
    requires s.procs[q].pc.Walk? ==> !ControlsList(s, p, Chain(s.procs[q].call))
    requires s.procs[q].pc.FreeWalk? ==> !ControlsList(s, p, 0)
    ensures Remaining(s', q) == Remaining(s, q)
  {
    hide Chain, ControlsList, Controls, ControlsPiece;
  }

  /** A step of another process does not set a process back. */
  lemma OtherStays(s: S, p: nat, q: nat)
    requires Safe(s) && p in s.procs && Enabled(s, p) && q in s.procs && q != p
    ensures var s' := Next(s, p);
            Sized(s') && q in s'.procs && s'.procs[q] == s.procs[q] &&
            Remaining(s', q) == Remaining(s, q)
  {
    hide Next, Enabled, ListsAllOk, RecsOk, ChainsOk, ProcsOk, LogOk, Frame, LocksOk, ControlsList, Remaining;
    StepSafe(s, p);
    StepMoves(s, p);
    ListKept(s, p, q);
    SameLeft(s, Next(s, p), p, q);
  }

  // ----- every call ends -----

  /** Together: the steps and the walks that the processes below `n` still have before
      them. */
  function StagesBelow(s: S, n: nat): nat {
    if n == 0 then 0 else StagesBelow(s, n - 1) + if n - 1 in s.procs then Stage(s.procs[n - 1].pc) else 0
  }

  function LeftBelow(s: S, n: nat): nat
    requires Sized(s)
  {
    if n == 0 then 0 else LeftBelow(s, n - 1) + if n - 1 in s.procs then Remaining(s, n - 1) else 0
  }

  /** All processes together are nearer to their ends. */
  ghost predicate AllNearer(s: S, s': S, n: nat)
    requires Sized(s)
  {
    && Sized(s')
    && (StagesBelow(s', n) < StagesBelow(s, n) ||
        (StagesBelow(s', n) == StagesBelow(s, n) && LeftBelow(s', n) < LeftBelow(s, n)))
  }

  /** Only the share of `p` changes. */
  lemma {:induction false} OnlyOne(s: S, s': S, p: nat, n: nat)
    requires Sized(s) && Sized(s') && p in s.procs && s'.procs.Keys == s.procs.Keys
    requires forall q :: q in s.procs && q != p ==> s'.procs[q] == s.procs[q] && Remaining(s', q) == Remaining(s, q)
    ensures StagesBelow(s', n) - StagesBelow(s, n) == if p < n then Stage(s'.procs[p].pc) - Stage(s.procs[p].pc) else 0
    ensures LeftBelow(s', n) - LeftBelow(s, n) == if p < n then Remaining(s', p) - Remaining(s, p) else 0
  {
    hide Stage, Remaining;
    if n > 0 {
      OnlyOne(s, s', p, n - 1);
      assert n - 1 in s'.procs <==> n - 1 in s'.procs.Keys;
    }
  }

  /** Whatever process takes a step, all together are nearer to their ends: as long as no
      call begins, a run comes to its end. */
  lemma StepAllNearer(s: S, p: nat, n: nat)
    requires Safe(s) && p in s.procs && Enabled(s, p) && p < n
    ensures AllNearer(s, Next(s, p), n)
  {
    hide Next, Enabled, Safe, Stage, Remaining;
    SizedOf(s);
    StepNearer(s, p);
    StepMoves(s, p);
    var s' := Next(s, p);
    forall q | q in s.procs && q != p ensures s'.procs[q] == s.procs[q] && Remaining(s', q) == Remaining(s, q) {
      OtherStays(s, p, q);
    }
    OnlyOne(s, s', p, n);
  }

  /** As long as some process is inside a call, it can go on, or the process that it waits
      for can, or the one that that process waits for; and a step is never without effect. */
  lemma NoDeadlock(run: seq<S>, n: nat, p: nat) returns (q: nat)
    requires IsRun(run) && n < |run| && p in run[n].procs && run[n].procs[p].pc != Idle
    ensures q in run[n].procs && Enabled(run[n], q)
    ensures q == p || WaitsFor(run[n], p, q) || exists r :: WaitsFor(run[n], p, r) && WaitsFor(run[n], r, q)
    ensures Sized(run[n]) && Nearer(run[n], Next(run[n], q), q) && Next(run[n], q) != run[n]
  {
    hide IsRun;
    RunSafe(run, n);
    q := Unblocked(run[n], p);
    StepNearer(run[n], q);
    hide *;
    assert Next(run[n], q) != run[n] by {
      StepChanges(run[n], q);
    }
  }

  lemma StepChanges(s: S, p: nat)
    requires Sized(s) && p in s.procs && Nearer(s, Next(s, p), p)
    ensures Next(s, p) != s
  {
    hide Next;
  }

  lemma Unblocked(s: S, p: nat) returns (q: nat)
    requires Safe(s) && p in s.procs && s.procs[p].pc != Idle
    ensures q in s.procs && Enabled(s, q)
    ensures q == p || WaitsFor(s, p, q) || exists r :: WaitsFor(s, p, r) && WaitsFor(s, r, q)
  {
    hide ListsAllOk, RecsOk, ChainsOk, ProcsOk, LogOk, Chain, Enabled, WaitsFor;
    if Enabled(s, p) {
      q := p;
    } else {
      q := Holder(s, p);
      HolderInside(s, p, q);
      if !Enabled(s, q) {
        var r := q;
        q := Holder(s, r);
        Stuck(s, r);
        HolderInside(s, r, q);
      }
    }
  }

  lemma Stuck(s: S, p: nat)
    requires p in s.procs && s.procs[p].pc != Idle && !s.procs[p].pc.WantChain? && !Enabled(s, p)
    ensures WantsShared(s.procs[p].pc)
  {
  }

  /** Steps of processes inside their calls, none of which begins a new one. */
  ghost predicate IsFinish(run: seq<S>) {
    run != [] && forall i :: 0 <= i < |run| - 1 ==> StepsOn(run[i], run[i + 1])
  }

  ghost predicate StepsOn(s: S, s': S) {
    Sized(s) && exists p :: p in s.procs && Enabled(s, p) && s' == Next(s, p)
  }

  ghost predicate AllIdle(s: S) {
    forall p :: p in s.procs ==> s.procs[p].pc == Idle
  }

  /** From every reachable state all calls in progress can be brought to their ends; with
      StepAllNearer, every way of going on does so. */
  lemma {:induction false} Finishes(s: S, n: nat) returns (run: seq<S>)
    requires Safe(s) && forall p :: p in s.procs ==> p < n
    ensures IsFinish(run) && run[0] == s && AllIdle(run[|run| - 1])
    decreases StagesBelow(s, n), LeftBelow(s, n)
  {
    hide Next, Enabled, Safe, Stage, Remaining, StagesBelow, LeftBelow, IsFinish, StepsOn, WaitsFor;
    if AllIdle(s) {
      run := [s];
      FinishNow(s);
    } else {
      var p :| p in s.procs && s.procs[p].pc != Idle;
      var q := Unblocked(s, p);
      SizedOf(s);
      StepAllNearer(s, q, n);
      StepSafe(s, q);
      StepMoves(s, q);
      var rest := Finishes(Next(s, q), n);
      run := [s] + rest;
      FinishAfter(s, q, rest);
    }
  }

  lemma FinishNow(s: S)
    ensures IsFinish([s])
  {
  }

  lemma FinishAfter(s: S, p: nat, rest: seq<S>)
    requires Sized(s) && p in s.procs && Enabled(s, p) && IsFinish(rest) && rest[0] == Next(s, p)
    ensures IsFinish([s] + rest) && ([s] + rest)[|rest|] == rest[|rest| - 1]
  {
    hide Next, Enabled;
    var run := [s] + rest;
    assert StepsOn(s, rest[0]);
    forall i | 0 <= i < |run| - 1 ensures StepsOn(run[i], run[i + 1]) {
      if i > 0 {
        assert run[i] == rest[i - 1] && run[i + 1] == rest[i];
      }
    }
  }

  lemma {:induction false} Bound(ps: set<nat>) returns (n: nat)
    ensures forall p :: p in ps ==> p < n
  {
    if ps == {} {
      n := 0;
    } else {
      var p :| p in ps;
      var m := Bound(ps - {p});
      n := if m <= p then p + 1 else m;
      assert forall q :: q in ps ==> q == p || q in ps - {p};
    }
  }

  /** In every run, at any time: all calls in progress can come to their ends. */
  lemma CallsEnd(run: seq<S>, n: nat) returns (rest: seq<S>)
    requires IsRun(run) && n < |run|
    ensures IsFinish(rest) && rest[0] == run[n] && AllIdle(rest[|rest| - 1])
  {
    hide IsRun, Safe, IsFinish, AllIdle;
    RunSafe(run, n);
    var bound := Bound(run[n].procs.Keys);
    rest := Finishes(run[n], bound);
  }
}
