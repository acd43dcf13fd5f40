/** What holds in every run of any number of processes: linearizability, one place
    for every record, and changes only under the lock. */
module DbConcurrentRuns {
  import opened DbFormat
  import opened DbFile
  import opened DbState
  import opened DbDisk
  import opened Db
  import opened DbConcurrent
  import opened DbConcurrentInv
  import opened DbConcurrentFrame
  import opened DbConcurrentSteps
  import opened DbConcurrentWrites
  import opened DbConcurrentMoves

  /** An empty database and any number of idle processes. */
  ghost predicate Init(s: S) {
    && s.heads == Zeros(NHEADS) && s.lists == seq(NHEADS, _ => []) && s.recs == [] && s.pieces == []
    && s.home == [] && s.pieceHome == [] && s.writer == map[] && s.readers == {}
    && s.freeLock == None && s.datLock == None && s.idxLock == None
    && (forall p :: p in s.procs ==> s.procs[p].pc == Idle)
    && s.abs == map[] && s.log == []
  }

  lemma InitSafe(s: S)
    requires Init(s)
    ensures Safe(s)
  {
    forall k | 0 <= k < NHEADS ensures ListOk(s, k) {
      assert Linked(Ids(0), [], 0, []);
    }
    forall k | 1 <= k < NHEADS ensures Holds(s, k, s.abs) {
    }
    assert Calls(s.log) == [] && Replies(s.log) == [];
  }

  lemma SearchStep(s: S, p: nat)
    requires Safe(s) && p in s.procs && Enabled(s, p)
    requires var pc := s.procs[p].pc; pc.WantChain? || pc.GetHead? || pc.Walk? || pc.Missing? || pc.Found? || pc.Unlock?
    ensures Allowed(s, Next(s, p), p)
  {
    hide Safe, Next, Allowed;
    var pc := s.procs[p].pc;
    if pc.WantChain? {
      StepWantChain(s, p);
    } else if pc.GetHead? {
      StepGetHead(s, p);
    } else if pc.Walk? {
      StepWalk(s, p);
    } else if pc.Missing? {
      StepMissing(s, p);
    } else if pc.Unlock? {
      StepUnlock(s, p);
    } else if Overwrites(s.procs[p].call, pc.rec) {
      StepOverwrite(s, p);
    } else {
      StepFound(s, p);
    }
  }

  lemma InsertStep(s: S, p: nat)
    requires Safe(s) && p in s.procs && Enabled(s, p)
    requires var pc := s.procs[p].pc;
             pc.WantFree? || pc.FreeHead? || pc.FreeWalk? || pc.FreeTake? || pc.FreeFail? || pc.FreeGot? ||
             pc.FillData? || pc.FillIdx? || pc.WantDat? || pc.AppendDat? || pc.DropDat? || pc.WantIdx? ||
             pc.AppendIdx? || pc.DropIdx? || pc.SetHead?
    ensures Allowed(s, Next(s, p), p)
  {
    hide Safe, Next, Allowed;
    var pc := s.procs[p].pc;
    if pc.WantFree? || pc.FreeFail? || pc.FreeGot? {
      StepFreeLock(s, p);
    } else if pc.FreeHead? {
      StepFreeHead(s, p);
    } else if pc.FreeWalk? {
      StepFreeWalk(s, p);
    } else if pc.FreeTake? {
      StepFreeTake(s, p);
    } else if pc.FillData? {
      StepFillData(s, p);
    } else if pc.FillIdx? {
      StepFillIdx(s, p);
    } else if pc.AppendDat? {
      StepAppendDat(s, p);
    } else if pc.AppendIdx? {
      StepAppendIdx(s, p);
    } else if pc.SetHead? {
      StepSetHead(s, p);
    } else {
      StepAppendLock(s, p);
    }
  }

  lemma DeleteStep(s: S, p: nat)
    requires Safe(s) && p in s.procs && Enabled(s, p)
    requires var pc := s.procs[p].pc;
             pc.WantFreeDel? || pc.BlankData? || pc.ReadFree? || pc.BlankIdx? || pc.SetFree? || pc.Bypass? ||
                 pc.DropFree? || pc.Reread?
    ensures Allowed(s, Next(s, p), p)
  {
    hide Safe, Next, Allowed;
    var pc := s.procs[p].pc;
    if pc.WantFreeDel? {
      StepFreeLock(s, p);
    } else if pc.BlankData? {
      StepBlankData(s, p);
    } else if pc.BlankIdx? {
      StepBlankIdx(s, p);
    } else if pc.SetFree? {
      StepSetFree(s, p);
    } else if pc.Bypass? {
      StepBypass(s, p);
    } else if pc.DropFree? {
      StepDropFree(s, p);
    } else {
      StepReadFree(s, p);
    }
  }

  /** Every step of every process keeps the invariant and stays within its frame. */
  lemma StepSafe(s: S, p: nat)
    requires Safe(s) && p in s.procs && Enabled(s, p)
    ensures Allowed(s, Next(s, p), p)
  {
    hide Safe, Next, Allowed;
    var pc := s.procs[p].pc;
    if pc.WantChain? || pc.GetHead? || pc.Walk? || pc.Missing? || pc.Found? || pc.Unlock? {
      SearchStep(s, p);
    } else if pc.WantFreeDel? || pc.BlankData? || pc.ReadFree? || pc.BlankIdx? || pc.SetFree? || pc.Bypass? ||
        pc.DropFree? || pc.Reread? {
      DeleteStep(s, p);
    } else {
      InsertStep(s, p);
    }
  }

  // ----- whole runs -----

  ghost predicate IsRun(run: seq<S>) {
    run != [] && Init(run[0]) && forall i :: 0 <= i < |run| - 1 ==> Step(run[i], run[i + 1])
  }

  lemma {:induction false} RunSafe(run: seq<S>, n: nat)
    requires IsRun(run) && n < |run|
    ensures Safe(run[n])
  {
    if n == 0 {
      InitSafe(run[0]);
    } else {
      RunSafe(run, n - 1);
      StepKeeps(run[n - 1], run[n]);
    }
  }

  lemma StepKeeps(s: S, s': S)
    requires Safe(s) && Step(s, s')
    ensures Safe(s')
  {
    hide Safe, Next, Starts;
    if p :| p in s.procs && Sized(s) && Enabled(s, p) && s' == Next(s, p) {
      StepSafe(s, p);
    } else {
      var p, call :| Starts(s, s', p, call);
      StepStart(s, s', p, call);
    }
  }

  /** In every run the completed calls, ordered by their last steps, are answered
      exactly as a finite map would answer them one after the other. */
  lemma Linearizable(run: seq<S>, n: nat)
    requires IsRun(run) && n < |run|
    ensures Replies(run[n].log) == Answers(map[], Calls(run[n].log))
    ensures run[n].abs == After(map[], Calls(run[n].log))
  {
    hide IsRun, Answers, After;
    RunSafe(run, n);
  }

  /** At all times a record is on exactly one hash chain, or on the free list, or it
      belongs to one process alone; every list is a null-terminated chain of
      pointers without repeats, except for one pointer of a deletion in progress. */
  lemma OnePlace(run: seq<S>, n: nat, r: nat)
    requires IsRun(run) && n < |run| && r < |run[n].recs|
    ensures var s := run[n];
            && |s.home| == |s.recs| && |s.lists| == NHEADS == |s.heads|
            && (match s.home[r]
                case On(k) => k < NHEADS && r in s.lists[k] && forall l :: 0 <= l < NHEADS && l != k ==>
                  r !in s.lists[l]
                case Own(_) => forall l :: 0 <= l < NHEADS ==> r !in s.lists[l])
            && (forall k :: 0 <= k < NHEADS ==> Linked(Ids(|s.recs|), PtrsOf(s, k), HeadOf(s, k), s.lists[k]))
  {
    hide IsRun, LocksOk, ChainsOk, ProcsOk, LogOk, Linked, PtrsOf, HeadOf;
    RunSafe(run, n);
    var s := run[n];
    forall l | 0 <= l < NHEADS
      ensures r in s.lists[l] <==> s.home[r] == On(l)
      ensures Linked(Ids(|s.recs|), PtrsOf(s, l), HeadOf(s, l), s.lists[l])
    {
      ListsOf(s, l);
    }
  }

  /** A chain, or a record on it, changes only in a step of the process that holds
      its write lock; the free list only under its own lock. */
  lemma ChangesUnderLock(run: seq<S>, n: nat, p: nat, k: nat, r: nat)
    requires IsRun(run) && n < |run| && p in run[n].procs && Enabled(run[n], p) && k < NHEADS
    requires Sized(run[n]) && r < |run[n].recs|
    ensures var s, s' := run[n], Next(run[n], p);
            && Sized(s') && |s.recs| <= |s'.recs|
            && (s'.lists[k] != s.lists[k] || s'.heads[k] != s.heads[k] ==> ControlsList(s, p, k))
            && (s.home[r] == On(k) && (s'.recs[r] != s.recs[r] || s'.home[r] != s.home[r]) ==> ControlsList(s, p, k))
            && |s'.recs[r].key| == |s.recs[r].key| && s'.recs[r].datlen == s.recs[r].datlen
  {
    hide IsRun, Safe, Next, ControlsList;
    RunSafe(run, n);
    StepSafe(run[n], p);
    var s, s' := run[n], Next(run[n], p);
    SizedOf(s');
    if s.home[r] == On(k) && !ControlsList(s, p, k) {
      assert !Controls(s, p, r);
    }
  }

  lemma SizedOf(s: S)
    requires Safe(s)
    ensures Sized(s)
  {
  }
}
