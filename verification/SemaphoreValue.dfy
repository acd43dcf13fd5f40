/** The value of the semaphore over whole runs: what it was set to, and the operations that no
    exit has taken back. */
module SemaphoreValue {
  import opened Semaphore
  import opened SemaphoreSafe
  import opened SemaphoreRuns

  /** The value of the set is set, or the set is gone: what was done to it before no longer
      matters. */
  predicate Resets(a: Action) {
    a.Set0? || a.Remove? || a.RemoveNow?
  }

  predicate Leaves(a: Action) {
    a.Exit? || a.Fail?
  }

  /** The operations of process `p` since it came, or since the value was set. */
  ghost function Own(moves: seq<Move>, k: nat, p: nat): int
    requires k <= |moves|
  {
    if k == 0 then 0
    else
      var m := moves[k - 1];
      if Resets(m.a) || (Leaves(m.a) && m.p == p) then 0
      else Own(moves, k - 1, p) + if m.a.Op? && m.p == p then m.a.amount else 0
  }

  /** The operations of all processes that have not exited since. */
  ghost function Standing(moves: seq<Move>, k: nat): int
    requires k <= |moves|
  {
    if k == 0 then 0
    else
      var m := moves[k - 1];
      if Resets(m.a) then 0
      else if Leaves(m.a) then Standing(moves, k - 1) - Own(moves, k - 1, m.p)
      else Standing(moves, k - 1) + if m.a.Op? then m.a.amount else 0
  }

  /** What the value was last set to; zero in a new set. */
  ghost function Initial(moves: seq<Move>, k: nat): int
    requires k <= |moves|
  {
    if k == 0 then 0
    else match moves[k - 1].a
         case Set0(value) => value
         case Remove => 0
         case RemoveNow => 0
         case _ => Initial(moves, k - 1)
  }

  /** Since the value was set, a process has exited that had added more than was left. */
  ghost predicate CutShort(run: seq<State>, moves: seq<Move>, k: nat)
    requires k <= |moves| && k < |run|
  {
    k > 0 &&
    var m := moves[k - 1];
    && !Resets(m.a)
    && (CutShort(run, moves, k - 1) || (Leaves(m.a) && run[k - 1].live && Own(moves, k - 1, m.p) > run[k - 1].v0))
  }

  /** The adjust value of every process is what it has added, taken back, and the value is the
      one that was set and what stands, and more only if an exit was cut short. */
  ghost predicate Exact(s: State, moves: seq<Move>, k: nat, cut: bool)
    requires k <= |moves|
  {
    && (forall p: nat :: p < |s.procs| ==> s.procs[p].adj0 == -Own(moves, k, p))
    && var due := Initial(moves, k) + Standing(moves, k);
       if s.live then s.v0 >= 0 && s.v0 >= due && (s.v0 == due <==> !cut)
       else due == 0 && Initial(moves, k) == 0 && !cut && forall p: nat :: p < |s.procs| ==> s.procs[p].adj0 == 0
  }

  lemma {:induction false} RunExact(run: seq<State>, moves: seq<Move>, k: nat)
    requires IsRun(run, moves) && k < |run|
    ensures Exact(run[k], moves, k, CutShort(run, moves, k))
  {
    if k > 0 {
      RunExact(run, moves, k - 1);
      assert IsStep(run[k - 1], moves[k - 1], run[k - 1 + 1]);
      StepExact(run[k - 1], moves, k, run[k], CutShort(run, moves, k - 1), CutShort(run, moves, k));
    }
  }

  /** A step that does not touch the value, or makes a new set. */
  ghost predicate SameValue(s: State, t: State) {
    && |t.procs| == |s.procs| && (forall p :: 0 <= p < |s.procs| ==> t.procs[p].adj0 == s.procs[p].adj0)
    && (if s.live then t.live && t.v0 == s.v0 else t.live ==> t.v0 == 0)
  }

  lemma QuietStep(s: State, p: nat, a: Action)
    requires Enabled(s, p, a) && !Resets(a) && !Leaves(a) && !a.Op?
    ensures SameValue(s, Next(s, p, a))
  {
  }

  lemma QuietExact(s: State, moves: seq<Move>, k: nat, t: State, cut: bool)
    requires 0 < k <= |moves| && SameValue(s, t) && Exact(s, moves, k - 1, cut)
    requires var a := moves[k - 1].a; !Resets(a) && !Leaves(a) && !a.Op?
    ensures Exact(t, moves, k, cut)
  {
  }

  lemma OpExact(s: State, moves: seq<Move>, k: nat, t: State, cut: bool)
    requires 0 < k <= |moves| && IsStep(s, moves[k - 1], t) && Exact(s, moves, k - 1, cut) && moves[k - 1].a.Op?
    ensures Exact(t, moves, k, cut)
  {
  }

  lemma LeaveExact(s: State, moves: seq<Move>, k: nat, t: State, cut: bool)
    requires 0 < k <= |moves| && IsStep(s, moves[k - 1], t) && Exact(s, moves, k - 1, cut) && Leaves(moves[k - 1].a)
    ensures Exact(t, moves, k, cut || (s.live && Own(moves, k - 1, moves[k - 1].p) > s.v0))
  {
    hide CanFail;
  }

  lemma ResetExact(s: State, moves: seq<Move>, k: nat, t: State)
    requires 0 < k <= |moves| && IsStep(s, moves[k - 1], t) && Resets(moves[k - 1].a)
    ensures Exact(t, moves, k, false)
  {
  }

  lemma StepExact(s: State, moves: seq<Move>, k: nat, t: State, cut: bool, cut': bool)
    requires 0 < k <= |moves| && IsStep(s, moves[k - 1], t) && Exact(s, moves, k - 1, cut)
    requires var m := moves[k - 1];
             cut' == (!Resets(m.a) && (cut || (Leaves(m.a) && s.live && Own(moves, k - 1, m.p) > s.v0)))
    ensures Exact(t, moves, k, cut')
  {
    hide Exact, SameValue, Own;
    var m := moves[k - 1];
    if Resets(m.a) {
      ResetExact(s, moves, k, t);
    } else if Leaves(m.a) {
      LeaveExact(s, moves, k, t, cut);
    } else if m.a.Op? {
      OpExact(s, moves, k, t, cut);
    } else {
      QuietStep(s, m.p, m.a);
      QuietExact(s, moves, k, t, cut);
    }
  }

  /** In every state of every run, the value of the set is what it was set to plus all operations
      of processes that have not exited since, if and only if no exit has been cut short at zero
      since it was set; otherwise it is more. */
  lemma ValueExact(run: seq<State>, moves: seq<Move>, k: nat)
    requires IsRun(run, moves) && k < |run| && run[k].live
    ensures run[k].v0 >= 0 && run[k].v0 >= Initial(moves, k) + Standing(moves, k)
    ensures run[k].v0 == Initial(moves, k) + Standing(moves, k) <==> !CutShort(run, moves, k)
  {
    RunExact(run, moves, k);
  }

  /** The first process has created the set with value 1, the second has opened it. */
  function Both(v0: int, v1: int, first: Proc, second: Proc): State {
    State(true, 1, v0, v1, 0, [first, second])
  }

  /** A run in which the value is more than that: one process signals, another one waits twice,
      and then the first exits. */
  lemma ExitCutShort() returns (run: seq<State>, moves: seq<Move>)
    ensures |run| == |moves| + 1 && IsRun(run, moves) && run[|moves|].live && CutShort(run, moves, |moves|)
    ensures run[|moves|].v0 > Initial(moves, |moves|) + Standing(moves, |moves|)
  {
    hide IsRun, IsStep, CutShort, Standing, Initial, Own;
    run, moves := [State(false, 0, 0, 0, 0, [Proc(Idle, 0, 0, 0, 0), Proc(Idle, 0, 0, 0, 0)])], [];
    run, moves := Opened(run, moves);
    SecondOpens();
    BothOperate();
    run, moves := Extend(run, moves, Move(1, Find),
                         Both(1, 9999, Proc(Using, 1, 0, 1, 0), Proc(OpenCount, 1, 0, 0, 0)));
    run, moves := Extend(run, moves, Move(1, Open), Both(1, 9998, Proc(Using, 1, 0, 1, 0), Proc(Using, 1, 0, 1, 0)));
    run, moves := Extend(run, moves, Move(0, Op(1)), Both(2, 9998, Proc(Using, 1, -1, 1, 0), Proc(Using, 1, 0, 1, 0)));
    run, moves := Extend(run, moves, Move(1, Op(-2)), Both(0, 9998, Proc(Using, 1, -1, 1, 0), Proc(Using, 1, 2, 1, 0)));
    var before := |moves|;
    RunExact(run, moves, before);
    var run0, moves0 := run, moves;
    run, moves := Extend(run, moves, Move(0, Exit), Both(0, 9999, Proc(Idle, 1, 0, 0, 0), Proc(Using, 1, 2, 1, 0)));
    LastExit(run, moves, run0, moves0);
    ValueExact(run, moves, |moves|);
  }

  lemma LastExit(run: seq<State>, moves: seq<Move>, run0: seq<State>, moves0: seq<Move>)
    requires IsRun(run, moves) && |run0| == |moves0| + 1 && moves == moves0 + [Move(0, Exit)] && |run| == |moves| + 1
    requires run[..|run0|] == run0 && run0[|moves0|].live && run0[|moves0|].v0 == 0
    requires |run0[|moves0|].procs| == 2 && run0[|moves0|].procs[0].adj0 == -1
    ensures CutShort(run, moves, |moves|)
  {
    assert run[|moves0|] == run[..|run0|][|moves0|];
    RunExact(run, moves, |moves0|);
  }

  lemma SecondOpens()
    ensures IsStep(Alone(1, BIGCOUNT - 1, 0, Using, 1, 0), Move(1, Find),
                   Both(1, 9999, Proc(Using, 1, 0, 1, 0), Proc(OpenCount, 1, 0, 0, 0)))
    ensures IsStep(Both(1, 9999, Proc(Using, 1, 0, 1, 0), Proc(OpenCount, 1, 0, 0, 0)), Move(1, Open),
                   Both(1, 9998, Proc(Using, 1, 0, 1, 0), Proc(Using, 1, 0, 1, 0)))
    ensures IsStep(Both(1, 9998, Proc(Using, 1, 0, 1, 0), Proc(Using, 1, 0, 1, 0)), Move(0, Op(1)),
                   Both(2, 9998, Proc(Using, 1, -1, 1, 0), Proc(Using, 1, 0, 1, 0)))
  {
  }

  lemma BothOperate()
    ensures IsStep(Both(2, 9998, Proc(Using, 1, -1, 1, 0), Proc(Using, 1, 0, 1, 0)), Move(1, Op(-2)),
                   Both(0, 9998, Proc(Using, 1, -1, 1, 0), Proc(Using, 1, 2, 1, 0)))
    ensures IsStep(Both(0, 9998, Proc(Using, 1, -1, 1, 0), Proc(Using, 1, 2, 1, 0)), Move(0, Exit),
                   Both(0, 9999, Proc(Idle, 1, 0, 0, 0), Proc(Using, 1, 2, 1, 0)))
  {
  }
}
