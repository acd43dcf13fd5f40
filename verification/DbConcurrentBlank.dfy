/** What a deletion leaves behind: in every state of every run the records on the free list have
    blank keys and blank data. */
module DbConcurrentBlank {
  import opened DbFormat
  import opened DbFile
  import opened DbState
  import opened DbDisk
  import opened Db
  import opened DbConcurrent
  import opened DbConcurrentInv
  import opened DbConcurrentSteps
  import opened DbConcurrentRuns
  import opened DbConcurrentWrites
  import opened DbConcurrentMoves
  import Frames = DbConcurrentFrame
  import Waits = DbConcurrentWaits
  import Calls = DbConcurrentCalls

  /** The data of a record is blank. */
  ghost predicate DataBlank(s: S, r: nat) {
    r < |s.recs| && s.recs[r].datoff < |s.pieces| && Blank(s.pieces[s.recs[r].datoff])
  }

  ghost predicate FreeBlank(s: S) {
    forall r: nat :: r < |s.home| && s.home[r] == On(0) ==> DataBlank(s, r) && Blank(s.recs[r].key)
  }

  /** A record on its way to the free list, from the step that blanks its data on. */
  predicate Carries(pc: Pc) {
    pc.ReadFree? || pc.BlankIdx? || pc.SetFree?
  }

  ghost predicate HandBlank(s: S, p: nat)
    requires p in s.procs
  {
    var pc := s.procs[p].pc;
    Carries(pc) ==> DataBlank(s, pc.r) && (pc.SetFree? ==> Blank(s.recs[pc.r].key))
  }

  ghost predicate AllBlank(s: S) {
    FreeBlank(s) && forall p :: p in s.procs ==> HandBlank(s, p)
  }

  // ----- steps without the lock of the free list -----

  lemma ElsewhereBlank(s: S, p: nat)
    requires Safe(s) && p in s.procs && Enabled(s, p) && FreeBlank(s) && !UsesFree(s.procs[p].pc)
    ensures FreeBlank(Next(s, p))
  {
    hide ListsAllOk, ChainsOk, ProcsOk, LogOk, Next, Frame, Enabled, RecsOk, Blank;
    StepSafe(s, p);
    FreeUse(s, p);
    hide LocksOk;
    var s' := Next(s, p);
    forall r: nat | r < |s'.home| && s'.home[r] == On(0) ensures DataBlank(s', r) && Blank(s'.recs[r].key) {
      Frames.RecordKept(s, s', p, 0, r);
    }
  }

  // ----- steps with it -----

  /** The free list, its records and their data are the same. */
  lemma SameBlank(s: S, s': S)
    requires FreeBlank(s) && s'.home == s.home && s'.recs == s.recs && s'.pieces == s.pieces
    ensures FreeBlank(s')
  {
    hide Blank;
    forall r: nat | r < |s'.home| && s'.home[r] == On(0) ensures DataBlank(s', r) && Blank(s'.recs[r].key) {
      assert DataBlank(s, r);
    }
  }

  lemma QuietBlank(s: S, p: nat)
    requires Sized(s) && p in s.procs && FreeBlank(s)
    requires var pc := s.procs[p].pc;
             pc.FreeHead? || pc.FreeWalk? || pc.FreeFail? || pc.FreeGot? || pc.ReadFree? || pc.DropFree?
    ensures FreeBlank(Next(s, p))
  {
    QuietSame(s, p);
    hide Next, FreeBlank;
    SameBlank(s, Next(s, p));
  }

  lemma QuietSame(s: S, p: nat)
    requires Sized(s) && p in s.procs
    requires var pc := s.procs[p].pc;
             pc.FreeHead? || pc.FreeWalk? || pc.FreeFail? || pc.FreeGot? || pc.ReadFree? || pc.DropFree?
    ensures var s' := Next(s, p); s'.home == s.home && s'.recs == s.recs && s'.pieces == s.pieces
  {
    hide Chain;
  }

  lemma TakeBlank(s: S, p: nat)
    requires Safe(s) && p in s.procs && s.procs[p].pc.FreeTake? && FreeBlank(s)
    ensures FreeBlank(Next(s, p))
  {
    hide ListsAllOk, RecsOk, ChainsOk, ProcsOk, LogOk, Next, Frame, ListOk, Blank;
    FreeUse(s, p);
    FreeTaken(s, p);
    hide LocksOk;
    var s' := Next(s, p);
    forall r: nat | r < |s'.home| && s'.home[r] == On(0) ensures DataBlank(s', r) && Blank(s'.recs[r].key) {
      assert DataBlank(s, r);
    }
  }

  lemma DataStep(s: S, p: nat)
    requires Safe(s) && p in s.procs && s.procs[p].pc.BlankData? && FreeBlank(s)
    ensures p in Next(s, p).procs && FreeBlank(Next(s, p)) && HandBlank(Next(s, p), p)
  {
    hide ListsAllOk, RecsOk, ChainsOk, LogOk, Next, Frame, ListOk, Chain, LocksOk, Holds;
    assert ProcOk(s, p);
    OwnChain(s, p);
    hide ProcsOk;
    BlankDetached(s, p);
    var s' := Next(s, p);
    BlanksBlank(s.procs[p].pc.rec.datlen - 1);
    hide Blank, Blanks;
    forall r: nat | r < |s'.home| && s'.home[r] == On(0) ensures DataBlank(s', r) && Blank(s'.recs[r].key) {
      assert DataBlank(s, r);
    }
  }

  lemma BlanksBlank(n: nat)
    ensures Blank(Blanks(n))
  {
  }

  lemma IdxStep(s: S, p: nat)
    requires Safe(s) && p in s.procs && s.procs[p].pc.BlankIdx? && FreeBlank(s) && HandBlank(s, p)
    ensures p in Next(s, p).procs && FreeBlank(Next(s, p)) && HandBlank(Next(s, p), p)
  {
    hide ListsAllOk, RecsOk, ChainsOk, LogOk, Next, Frame, ListOk, Chain, LocksOk, Holds;
    assert ProcOk(s, p);
    NextBlankIdx(s, p);
    BlanksBlank(|s.procs[p].pc.rec.key|);
    hide ProcsOk, Blank, Blanks, Removed, PrevInChain;
    var s' := Next(s, p);
    forall r: nat | r < |s'.home| && s'.home[r] == On(0) ensures DataBlank(s', r) && Blank(s'.recs[r].key) {
      assert DataBlank(s, r);
    }
  }

  lemma FreeStep(s: S, p: nat)
    requires Safe(s) && p in s.procs && s.procs[p].pc.SetFree? && FreeBlank(s) && HandBlank(s, p)
    ensures FreeBlank(Next(s, p))
  {
    hide ListsAllOk, RecsOk, ChainsOk, LogOk, Next, Frame, ListOk, Chain, LocksOk, Holds;
    assert ProcOk(s, p);
    NextSetFree(s, p);
    hide ProcsOk, Blank, Removed, PrevInChain;
    var s' := Next(s, p);
    forall r: nat | r < |s'.home| && s'.home[r] == On(0) ensures DataBlank(s', r) && Blank(s'.recs[r].key) {
      assert r != s.procs[p].pc.r ==> DataBlank(s, r);
    }
  }

  lemma BypassBlank(s: S, p: nat)
    requires Sized(s) && p in s.procs && s.procs[p].pc.Bypass? && FreeBlank(s)
    ensures FreeBlank(Next(s, p))
  {
    BypassSame(s, p);
    hide Next, Blank;
    var s' := Next(s, p);
    forall r: nat | r < |s'.home| && s'.home[r] == On(0) ensures DataBlank(s', r) && Blank(s'.recs[r].key) {
      assert DataBlank(s, r);
    }
  }

  lemma BypassSame(s: S, p: nat)
    requires Sized(s) && p in s.procs && s.procs[p].pc.Bypass?
    ensures var s' := Next(s, p);
            && s'.home == s.home && s'.pieces == s.pieces && |s'.recs| == |s.recs|
            && forall r :: 0 <= r < |s.recs| ==> s'.recs[r] == s.recs[r].(ptr := s'.recs[r].ptr)
  {
    hide Chain;
  }

  // ----- every step -----

  lemma StepFree(s: S, p: nat)
    requires Safe(s) && p in s.procs && Enabled(s, p) && FreeBlank(s) && HandBlank(s, p)
    ensures FreeBlank(Next(s, p))
  {
    SizedOf(s);
    hide Safe, Next, Enabled, FreeBlank, HandBlank;
    var pc := s.procs[p].pc;
    if !UsesFree(pc) {
      ElsewhereBlank(s, p);
    } else if pc.FreeTake? {
      TakeBlank(s, p);
    } else if pc.BlankData? {
      DataStep(s, p);
    } else if pc.BlankIdx? {
      IdxStep(s, p);
    } else if pc.SetFree? {
      FreeStep(s, p);
    } else if pc.Bypass? {
      BypassBlank(s, p);
    } else {
      QuietBlank(s, p);
    }
  }

  lemma OwnHand(s: S, p: nat)
    requires Safe(s) && p in s.procs && Enabled(s, p) && FreeBlank(s) && HandBlank(s, p)
    ensures p in Next(s, p).procs && HandBlank(Next(s, p), p)
  {
    hide Safe, Next, Enabled, FreeBlank, Calls.Gains, Blank;
    SizedOf(s);
    var pc := s.procs[p].pc;
    if pc.BlankData? {
      DataStep(s, p);
    } else if pc.BlankIdx? {
      IdxStep(s, p);
    } else if pc.ReadFree? {
      QuietSame(s, p);
      ReadOn(s, p);
    } else if Inside(pc) && !pc.Unlock? {
      Calls.OwnGains(s, p);
      NotCarried(s, p);
    } else {
      EdgeHand(s, p);
    }
  }

  /** Entering and leaving a call. */
  lemma EdgeHand(s: S, p: nat)
    requires Sized(s) && p in s.procs && (!Inside(s.procs[p].pc) || s.procs[p].pc.Unlock?)
    ensures p in Next(s, p).procs && HandBlank(Next(s, p), p)
  {
    hide Chain, AfterCall, Blank;
  }

  lemma ReadOn(s: S, p: nat)
    requires Sized(s) && p in s.procs && s.procs[p].pc.ReadFree?
    ensures p in Next(s, p).procs && Next(s, p).procs[p].pc.BlankIdx? && Next(s, p).procs[p].pc.r == s.procs[p].pc.r
  {
    hide Chain;
  }

  lemma NotCarried(s: S, p: nat)
    requires Sized(s) && p in s.procs && p in Next(s, p).procs && Calls.Gains(s, Next(s, p), p)
    requires var pc := s.procs[p].pc; !pc.BlankData? && !pc.BlankIdx? && !pc.ReadFree?
    ensures HandBlank(Next(s, p), p)
  {
    hide Next, Blank, Calls.Difference, Calls.Gain, Calls.Leads, Calls.PhaseOf;
  }

  lemma OtherHand(s: S, p: nat, q: nat)
    requires Safe(s) && p in s.procs && Enabled(s, p) && q in s.procs && q != p && HandBlank(s, q)
    ensures q in Next(s, p).procs && HandBlank(Next(s, p), q)
  {
    hide ListsAllOk, RecsOk, LocksOk, ChainsOk, LogOk, Next, Frame, Enabled, Blank;
    StepSafe(s, p);
    Waits.StepMoves(s, p);
    if Carries(s.procs[q].pc) {
      assert ProcOk(s, q);
      hide ProcsOk, Removed, PrevInChain, Chain;
      Frames.PrivateKept(s, Next(s, p), p, q, s.procs[q].pc.r);
    }
  }

  lemma StartBlank(s: S, s': S, p: nat, call: Call)
    requires Starts(s, s', p, call) && AllBlank(s)
    ensures AllBlank(s')
  {
    hide Blank, FreeBlank;
    SameBlank(s, s');
    forall q | q in s'.procs ensures HandBlank(s', q) {
      assert HandBlank(s, q);
    }
  }

  lemma StepBlank(s: S, s': S)
    requires Safe(s) && Step(s, s') && AllBlank(s)
    ensures AllBlank(s')
  {
    hide Safe, Next, Enabled, Starts, HandBlank, FreeBlank;
    if p :| p in s.procs && Sized(s) && Enabled(s, p) && s' == Next(s, p) {
      StepFree(s, p);
      OwnHand(s, p);
      Waits.StepMoves(s, p);
      forall q | q in s'.procs ensures HandBlank(s', q) {
        if q != p {
          OtherHand(s, p, q);
        }
      }
    } else {
      var p, call :| Starts(s, s', p, call);
      StartBlank(s, s', p, call);
    }
  }

  lemma InitBlank(s: S)
    requires Init(s)
    ensures AllBlank(s)
  {
  }

  lemma {:induction false} RunBlank(run: seq<S>, n: nat)
    requires IsRun(run) && n < |run|
    ensures AllBlank(run[n])
  {
    hide Step, AllBlank, Init, Safe;
    if n == 0 {
      InitBlank(run[0]);
    } else {
      RunBlank(run, n - 1);
      RunSafe(run, n - 1);
      assert Step(run[n - 1], run[n - 1 + 1]);
      StepBlank(run[n - 1], run[n]);
    }
  }

  /** In every state of every run a record on the free list has a blank key, and its data is as
      long as before and blank. */
  lemma FreeIsBlank(run: seq<S>, n: nat, r: nat)
    requires IsRun(run) && n < |run| && r < |run[n].recs| && Sized(run[n]) && run[n].home[r] == On(0)
    ensures var s := run[n];
            var rec := s.recs[r];
            && (forall i :: 0 <= i < |rec.key| ==> rec.key[i] == ' ') && rec.datoff < |s.pieces|
            && |s.pieces[rec.datoff]| + 1 == rec.datlen
            && forall i :: 0 <= i < |s.pieces[rec.datoff]| ==> s.pieces[rec.datoff][i] == ' '
  {
    hide IsRun, ListsAllOk, LocksOk, ChainsOk, ProcsOk, LogOk, HandBlank;
    RunSafe(run, n);
    RunBlank(run, n);
    assert DataBlank(run[n], r);
  }
}
