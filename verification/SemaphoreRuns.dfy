/** The promises of the semaphore protocol over whole runs. */
module SemaphoreRuns {
  import opened Semaphore
  import opened SemaphoreSafe

  lemma {:induction false} RunSafe(run: seq<State>, moves: seq<Move>, k: nat)
    requires IsRun(run, moves) && Small(run[0]) && k < |run|
    ensures Safe(run[k]) && Small(run[k])
  {
    if k == 0 {
      assert Holders(run[0]) == {} && Lockers(run[0]) == {};
    } else {
      hide Safe, Init;
      RunSafe(run, moves, k - 1);
      assert IsStep(run[k - 1], moves[k - 1], run[k - 1 + 1]);
      StepSafe(run[k - 1], moves[k - 1].p, moves[k - 1].a);
      SameNumber(run[k - 1], moves[k - 1].p, moves[k - 1].a);
    }
  }

  lemma SameNumber(s: State, p: nat, a: Action)
    requires Enabled(s, p, a)
    ensures |Next(s, p, a).procs| == |s.procs|
  {
  }

  /** The counter of an initialised set is exactly the start value less the number of
      processes that hold the set, so that it never exceeds the start value; a set that
      has not been initialised is held by nobody. */
  lemma CounterExact(run: seq<State>, moves: seq<Move>, k: nat)
    requires IsRun(run, moves) && Small(run[0]) && k < |run| && run[k].live
    ensures run[k].v1 == 0 <==> run[k].v1 != BIGCOUNT - |Holders(run[k])|
    ensures run[k].v1 == 0 ==> Holders(run[k]) == {}
    ensures 0 <= run[k].v1 <= BIGCOUNT
  {
    hide IsRun, ProcsOk, Holders;
    RunSafe(run, moves, k);
    HoldersBound(run[k]);
  }

  /** No two processes have the lock. */
  lemma MutualExclusion(run: seq<State>, moves: seq<Move>, k: nat, p: nat, q: nat)
    requires IsRun(run, moves) && Small(run[0]) && k < |run| && p < |run[k].procs| && q < |run[k].procs|
    requires HasLock(run[k], run[k].procs[p]) && HasLock(run[k], run[k].procs[q])
    ensures p == q
  {
    hide IsRun, ProcsOk;
    RunSafe(run, moves, k);
    Members(run[k], p);
    Members(run[k], q);
    OnlyOne(Lockers(run[k]), p);
  }

  /** The set is initialised only while nobody holds it. */
  lemma InitialisedUnheld(run: seq<State>, moves: seq<Move>, k: nat)
    requires IsRun(run, moves) && Small(run[0]) && k < |moves| && (moves[k].a.Set0? || moves[k].a.Set1?)
    ensures Holders(run[k]) == {} && run[k].v1 == 0
  {
    RunSafe(run, moves, k);
    assert IsStep(run[k], moves[k], run[k + 1]);
    assert ProcOk(run[k], run[k].procs[moves[k].p]);
  }

  /** Whenever a process closes the set and is about to remove it: the set is removed under
      a process that holds it if and only if the counter is no longer what was read. */
  lemma RemovalExact(run: seq<State>, moves: seq<Move>, k: nat)
    requires IsRun(run, moves) && Small(run[0]) && k < |moves| && moves[k].a.Remove?
    ensures Holders(run[k]) == {} <==> run[k].v1 == BIGCOUNT
  {
    RunSafe(run, moves, k);
    assert IsStep(run[k], moves[k], run[k + 1]);
    assert ProcOk(run[k], run[k].procs[moves[k].p]);
    Empty(Holders(run[k]));
  }

  /** A process that has closed the set goes on to remove it if and only if no process holds
      it when the counter is read. */
  lemma LastCloseRemoves(run: seq<State>, moves: seq<Move>, k: nat)
    requires IsRun(run, moves) && Small(run[0]) && k < |moves| && moves[k].a.ReadBack?
    ensures moves[k].p < |run[k + 1].procs|
    ensures run[k + 1].procs[moves[k].p].pc == CloseRemove <==> Holders(run[k]) == {}
    ensures run[k + 1].procs[moves[k].p].pc == CloseUnlock <==> Holders(run[k]) != {}
  {
    RunSafe(run, moves, k);
    assert IsStep(run[k], moves[k], run[k + 1]);
    assert ProcOk(run[k], run[k].procs[moves[k].p]);
    Empty(Holders(run[k]));
  }

  /** A process that has the lock sets the value and the counter if and only if the set is new:
      its counter is zero. */
  lemma NewIsInitialised(run: seq<State>, moves: seq<Move>, k: nat)
    requires IsRun(run, moves) && Small(run[0]) && k < |moves| && moves[k].a.Read?
    ensures moves[k].p < |run[k + 1].procs|
    ensures run[k + 1].procs[moves[k].p].pc == CreateSet0 <==> run[k].v1 == 0
    ensures run[k + 1].procs[moves[k].p].pc == CreateEnd <==> run[k].v1 == 10000 - |Holders(run[k])|
  {
    RunSafe(run, moves, k);
    assert IsStep(run[k], moves[k], run[k + 1]);
    HoldersBound(run[k]);
  }

  lemma Empty(h: set<nat>)
    ensures |h| == 0 <==> h == {}
  {
  }

  /** A process that has the lock is never held up before it gives the lock back. */
  lemma LockHolderGoesOn(run: seq<State>, moves: seq<Move>, k: nat, p: nat) returns (a: Action)
    requires IsRun(run, moves) && Small(run[0]) && k < |run| && p < |run[k].procs| && HasLock(run[k], run[k].procs[p])
    ensures Enabled(run[k], p, a) && !a.Exit? && !a.Fail?
  {
    RunSafe(run, moves, k);
    Before(run[k], p);
    var pc := run[k].procs[p].pc;
    a := if pc == CreateRead then Read else if pc == CreateSet0 then Set0(0) else if pc == CreateSet1 then Set1
         else if pc == CreateEnd then End else if pc == CloseRead then ReadBack
           else if pc == CloseRemove then Remove else Unlock;
  }

  /** A process that exits with the lock gives it back, and one that exits while it
      holds the set is counted out. */
  lemma ExitReleases(run: seq<State>, moves: seq<Move>, k: nat)
    requires IsRun(run, moves) && Small(run[0]) && k < |moves| && moves[k].a.Exit? && run[k].live
    requires moves[k].p < |run[k].procs|
    ensures var q := run[k].procs[moves[k].p];
            && (HasLock(run[k], q) ==> run[k + 1].v2 == 0)
            && run[k + 1].v1 == run[k].v1 + if Holds(run[k], q) then 1 else 0
  {
    RunSafe(run, moves, k);
    assert IsStep(run[k], moves[k], run[k + 1]);
    Before(run[k], moves[k].p);
  }

  // ----- attaching only by sem_create -----

  /** No process has opened the set without the lock or removed it outright. */
  ghost predicate CreateOnly(moves: seq<Move>) {
    forall i :: 0 <= i < |moves| ==> !moves[i].a.Find? && !moves[i].a.RemoveNow?
  }

  /** Every process past the lock works on the set that exists, and one that is about to
      remove it has not been overtaken. */
  ghost predicate Attached(s: State, q: Proc) {
    && q.pc != OpenCount
    && (q.pc !in {Idle, CreateLock, CreateSleep} ==> Valid(s, q))
    && (q.pc == CloseRemove ==> s.v1 == BIGCOUNT)
  }

  ghost predicate AllAttached(s: State) {
    forall p :: 0 <= p < |s.procs| ==> Attached(s, s.procs[p])
  }

  lemma StepAttached(s: State, p: nat, a: Action)
    requires Safe(s) && Small(s) && AllAttached(s) && Enabled(s, p, a) && !a.Find? && !a.RemoveNow?
    ensures AllAttached(Next(s, p, a))
  {
    var t := Next(s, p, a);
    Before(s, p);
    assert Attached(s, s.procs[p]);
    forall i | 0 <= i < |t.procs| ensures Attached(t, t.procs[i]) {
      assert Attached(s, s.procs[i]);
      if i != p {
        NotOvertaken(s, p, a, i);
      }
    }
  }

  /** While one process is past the lock no other process removes the set, and while it
      is about to remove the set the counter stays. */
  lemma NotOvertaken(s: State, p: nat, a: Action, i: nat)
    requires Safe(s) && Small(s) && AllAttached(s) && Enabled(s, p, a) && !a.Find? && !a.RemoveNow?
    requires i < |s.procs| && i != p
    ensures Attached(Next(s, p, a), Next(s, p, a).procs[i])
  {
    var q := s.procs[i];
    assert Attached(s, q) && Attached(s, s.procs[p]);
    Before(s, p);
    Before(s, i);
    Members(s, i);
    Members(s, p);
    if HasLock(s, q) {
      OnlyOne(Lockers(s), i);
    }
    if a.Remove? {
      OnlyOne(Lockers(s), p);
      Empty(Holders(s));
    }
    if q.pc == CloseRemove {
      Empty(Holders(s));
    }
    hide ProcsOk, Lockers, Holders;
  }

  lemma {:induction false} RunAttached(run: seq<State>, moves: seq<Move>, k: nat)
    requires IsRun(run, moves) && Small(run[0]) && CreateOnly(moves) && k < |run|
    ensures AllAttached(run[k])
  {
    if k > 0 {
      RunAttached(run, moves, k - 1);
      RunSafe(run, moves, k - 1);
      assert IsStep(run[k - 1], moves[k - 1], run[k - 1 + 1]);
      StepAttached(run[k - 1], moves[k - 1].p, moves[k - 1].a);
    }
  }

  /** If processes attach only through sem_create and nobody removes the set outright, it
      is removed only when no process holds it. */
  lemma RemovedUnheld(run: seq<State>, moves: seq<Move>, k: nat)
    requires IsRun(run, moves) && Small(run[0]) && CreateOnly(moves) && k < |moves| && moves[k].a.Remove?
    ensures Holders(run[k]) == {}
  {
    RunAttached(run, moves, k);
    RemovalExact(run, moves, k);
    assert IsStep(run[k], moves[k], run[k + 1]);
    assert Attached(run[k], run[k].procs[moves[k].p]);
  }

  /** Then, too, no process that holds the set ever loses it, and a call can fail if and
      only if the process is asleep waiting for the lock of a set that has been removed. */
  lemma NeverStranded(run: seq<State>, moves: seq<Move>, k: nat, p: nat)
    requires IsRun(run, moves) && Small(run[0]) && CreateOnly(moves) && k < |run| && p < |run[k].procs|
    ensures run[k].procs[p].pc == Using ==> Holds(run[k], run[k].procs[p])
    ensures CanFail(run[k], run[k].procs[p]) <==> run[k].procs[p].pc == CreateSleep && !Valid(run[k], run[k].procs[p])
  {
    RunAttached(run, moves, k);
    RunSafe(run, moves, k);
    Before(run[k], p);
    assert Attached(run[k], run[k].procs[p]);
  }

  // ----- two runs -----

  lemma Extend(run: seq<State>, moves: seq<Move>, m: Move, t: State) returns (run': seq<State>, moves': seq<Move>)
    requires |run| == |moves| + 1 && IsRun(run, moves) && IsStep(run[|moves|], m, t)
    ensures run' == run + [t] && moves' == moves + [m] && IsRun(run', moves')
  {
    hide IsStep;
    run', moves' := run + [t], moves + [m];
    forall i | 0 <= i < |moves'| ensures IsStep(run'[i], moves'[i], run'[i + 1]) {
      if i < |moves| {
        assert IsStep(run[i], moves[i], run[i + 1]);
      }
    }
  }

  lemma OneMoreMove(moves: seq<Move>, m: Move)
    requires CreateOnly(moves) && !m.a.Find? && !m.a.RemoveNow?
    ensures CreateOnly(moves + [m])
  {
  }

  /** A process that asks for the lock while another one closes the set for the last time
      is asleep when the set is removed, and its call fails. */
  lemma AsleepAtRemoval() returns (run: seq<State>, moves: seq<Move>)
    ensures |run| == |moves| + 1 && IsRun(run, moves) && Small(run[0]) && |run[0].procs| == 2 && CreateOnly(moves)
    ensures var s := run[|moves|]; |s.procs| == 2 && s.procs[1].pc == CreateSleep && CanFail(s, s.procs[1])
  {
    hide IsRun, IsStep, CreateOnly;
    var idle := Proc(Idle, 0, 0, 0, 0);
    run, moves := [State(false, 0, 0, 0, 0, [idle, idle])], [];
    run, moves := Opened(run, moves);
    CloseBegins();
    FallsAsleep();
    RemovedMeanwhile();
    OneMoreMove(moves, Move(0, Close));
    run, moves := Extend(run, moves, Move(0, Close), Alone(1, BIGCOUNT, 1, CloseRead, 0, -1));
    OneMoreMove(moves, Move(1, Get));
    run, moves := Extend(run, moves, Move(1, Get), Overtaken(true, BIGCOUNT, CloseRead, CreateLock, 0, -1));
    OneMoreMove(moves, Move(1, Sleep));
    run, moves := Extend(run, moves, Move(1, Sleep), Overtaken(true, BIGCOUNT, CloseRead, CreateSleep, 0, -1));
    OneMoreMove(moves, Move(0, ReadBack));
    run, moves := Extend(run, moves, Move(0, ReadBack), Overtaken(true, BIGCOUNT, CloseRemove, CreateSleep, 0, -1));
    OneMoreMove(moves, Move(0, Remove));
    run, moves := Extend(run, moves, Move(0, Remove), Overtaken(false, BIGCOUNT, Idle, CreateSleep, 0, 0));
  }

  lemma FallsAsleep()
    ensures IsStep(Alone(1, BIGCOUNT, 1, CloseRead, 0, -1), Move(1, Get),
                   Overtaken(true, BIGCOUNT, CloseRead, CreateLock, 0, -1))
    ensures IsStep(Overtaken(true, BIGCOUNT, CloseRead, CreateLock, 0, -1), Move(1, Sleep),
                   Overtaken(true, BIGCOUNT, CloseRead, CreateSleep, 0, -1))
  {
  }

  lemma RemovedMeanwhile()
    ensures IsStep(Overtaken(true, BIGCOUNT, CloseRead, CreateSleep, 0, -1), Move(0, ReadBack),
                   Overtaken(true, BIGCOUNT, CloseRemove, CreateSleep, 0, -1))
    ensures IsStep(Overtaken(true, BIGCOUNT, CloseRemove, CreateSleep, 0, -1), Move(0, Remove),
                   Overtaken(false, BIGCOUNT, Idle, CreateSleep, 0, 0))
  {
    var s := Overtaken(true, BIGCOUNT, CloseRemove, CreateSleep, 0, -1);
    assert Moved(Removed(s), 0, Idle).procs == [Proc(Idle, 1, 0, 0, 0), Proc(CreateSleep, 1, 0, 0, 0)];
  }

  /** With sem_open it is otherwise: a process that opens the set between the other's
      reading of the counter and its removal is left with a set that is gone. */
  lemma StrandedByOpen() returns (run: seq<State>, moves: seq<Move>)
    ensures |run| == |moves| + 1 && IsRun(run, moves) && Small(run[0]) && |run[0].procs| == 2
    ensures var s := run[|moves|]; |s.procs| == 2 && s.procs[1].pc == Using && !s.live
  {
    hide IsRun, IsStep;
    var idle := Proc(Idle, 0, 0, 0, 0);
    run, moves := [State(false, 0, 0, 0, 0, [idle, idle])], [];
    run, moves := Opened(run, moves);
    CloseBegins();
    OpenOvertakes();
    LastStep();
    run, moves := Extend(run, moves, Move(0, Close), Alone(1, BIGCOUNT, 1, CloseRead, 0, -1));
    run, moves := Extend(run, moves, Move(0, ReadBack), Alone(1, BIGCOUNT, 1, CloseRemove, 0, -1));
    run, moves := Extend(run, moves, Move(1, Find), Overtaken(true, BIGCOUNT, CloseRemove, OpenCount, 0, -1));
    run, moves := Extend(run, moves, Move(1, Open), Overtaken(true, BIGCOUNT - 1, CloseRemove, Using, 1, -1));
    run, moves := Extend(run, moves, Move(0, Remove), Overtaken(false, BIGCOUNT - 1, Idle, Using, 0, 0));
  }

  /** The first process is closing the set, the second is opening it. */
  function Overtaken(live: bool, v1: int, pc: Pc, pc': Pc, adj1: int, adj2: int): State {
    State(live, 1, 1, v1, 1, [Proc(pc, 1, 0, 0, adj2), Proc(pc', 1, 0, adj1, 0)])
  }

  lemma CloseBegins()
    ensures IsStep(Alone(1, BIGCOUNT - 1, 0, Using, 1, 0), Move(0, Close), Alone(1, BIGCOUNT, 1, CloseRead, 0, -1))
    ensures IsStep(Alone(1, BIGCOUNT, 1, CloseRead, 0, -1), Move(0, ReadBack),
                   Alone(1, BIGCOUNT, 1, CloseRemove, 0, -1))
  {
  }

  lemma OpenOvertakes()
    ensures IsStep(Alone(1, BIGCOUNT, 1, CloseRemove, 0, -1), Move(1, Find), Overtaken(true, BIGCOUNT, CloseRemove,
        OpenCount, 0, -1))
    ensures IsStep(Overtaken(true, BIGCOUNT, CloseRemove, OpenCount, 0, -1), Move(1, Open),
                   Overtaken(true, BIGCOUNT - 1, CloseRemove, Using, 1, -1))
  {
  }

  lemma LastStep()
    ensures IsStep(Overtaken(true, BIGCOUNT - 1, CloseRemove, Using, 1, -1), Move(0, Remove),
                   Overtaken(false, BIGCOUNT - 1, Idle, Using, 0, 0))
  {
    var s := Overtaken(true, BIGCOUNT - 1, CloseRemove, Using, 1, -1);
    assert Moved(Removed(s), 0, Idle).procs == [Proc(Idle, 1, 0, 0, 0), Proc(Using, 1, 0, 0, 0)];
  }

  lemma Beginning(run: seq<State>)
    requires |run| == 1 && Init(run[0])
    ensures IsRun(run, [])
  {
  }

  /** The first process has created the set and holds it. */
  lemma Opened(run0: seq<State>, moves0: seq<Move>) returns (run: seq<State>, moves: seq<Move>)
    requires run0 == [State(false, 0, 0, 0, 0, [Proc(Idle, 0, 0, 0, 0), Proc(Idle, 0, 0, 0, 0)])] && moves0 == []
    ensures IsRun(run, moves) && |run| == |moves| + 1 && run[0] == run0[0]
    ensures run[|moves|] == Alone(1, BIGCOUNT - 1, 0, Using, 1, 0) && CreateOnly(moves)
  {
    hide IsRun, IsStep;
    Beginning(run0);
    CreateBegins();
    CreateGoesOn();
    CreateEnds();
    run, moves := Extend(run0, moves0, Move(0, Get), Alone(0, 0, 0, CreateLock, 0, 0));
    run, moves := Extend(run, moves, Move(0, Lock), Alone(0, 0, 1, CreateRead, 0, -1));
    run, moves := Extend(run, moves, Move(0, Read), Alone(0, 0, 1, CreateSet0, 0, -1));
    run, moves := Extend(run, moves, Move(0, Set0(1)), Alone(1, 0, 1, CreateSet1, 0, -1));
    run, moves := Extend(run, moves, Move(0, Set1), Alone(1, BIGCOUNT, 1, CreateEnd, 0, -1));
    run, moves := Extend(run, moves, Move(0, End), Alone(1, BIGCOUNT - 1, 0, Using, 1, 0));
  }

  /** The first process is at work on the first set, the second has not begun. */
  function Alone(v0: int, v1: int, v2: int, pc: Pc, adj1: int, adj2: int): State {
    State(true, 1, v0, v1, v2, [Proc(pc, 1, 0, adj1, adj2), Proc(Idle, 0, 0, 0, 0)])
  }

  lemma CreateBegins()
    ensures IsStep(State(false, 0, 0, 0, 0, [Proc(Idle, 0, 0, 0, 0), Proc(Idle, 0, 0, 0, 0)]), Move(0, Get),
                   Alone(0, 0, 0, CreateLock, 0, 0))
    ensures IsStep(Alone(0, 0, 0, CreateLock, 0, 0), Move(0, Lock), Alone(0, 0, 1, CreateRead, 0, -1))
  {
  }

  lemma CreateGoesOn()
    ensures IsStep(Alone(0, 0, 1, CreateRead, 0, -1), Move(0, Read), Alone(0, 0, 1, CreateSet0, 0, -1))
    ensures IsStep(Alone(0, 0, 1, CreateSet0, 0, -1), Move(0, Set0(1)), Alone(1, 0, 1, CreateSet1, 0, -1))
  {
    var s := Alone(0, 0, 1, CreateSet0, 0, -1);
    assert Cleared0(s.procs) == s.procs;
  }

  lemma CreateEnds()
    ensures IsStep(Alone(1, 0, 1, CreateSet1, 0, -1), Move(0, Set1), Alone(1, BIGCOUNT, 1, CreateEnd, 0, -1))
    ensures IsStep(Alone(1, BIGCOUNT, 1, CreateEnd, 0, -1), Move(0, End), Alone(1, BIGCOUNT - 1, 0, Using, 1, 0))
  {
    var s := Alone(1, 0, 1, CreateSet1, 0, -1);
    assert Cleared1(s.procs) == s.procs;
  }
}
