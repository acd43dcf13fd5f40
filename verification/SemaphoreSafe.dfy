/** What holds in every run of the semaphore protocol, however the processes
    interleave and whichever of them exit. */
module SemaphoreSafe {
  import opened Semaphore

  predicate HasLock(s: State, q: Proc) {
    && Valid(s, q)
    && q.pc in {CreateRead, CreateSet0, CreateSet1, CreateEnd, CloseRead, CloseRemove, CloseUnlock}
  }

  /** The process is counted: it has created or opened the set and not closed it. */
  predicate Holds(s: State, q: Proc) {
    Valid(s, q) && q.pc == Using
  }

  ghost function Holders(s: State): set<nat> {
    set p: nat | p < |s.procs| && Holds(s, s.procs[p])
  }

  ghost function Lockers(s: State): set<nat> {
    set p: nat | p < |s.procs| && HasLock(s, s.procs[p])
  }

  /** A process's exit would take back exactly what it has done to the counter and to
      the lock, and what it has read of the counter is still so. */
  ghost predicate ProcOk(s: State, q: Proc) {
    && q.id <= s.id
    && q.adj1 == (if Holds(s, q) then 1 else 0)
    && q.adj2 == (if HasLock(s, q) then -1 else 0)
    && (Valid(s, q) && q.pc in {CreateSet0, CreateSet1} ==> s.v1 == 0)
    && (Valid(s, q) && q.pc in {CreateEnd, CloseRead, CloseRemove, CloseUnlock} ==> s.v1 > 0)
  }

  /** The lock member counts the processes with the lock, and there is at most one. */
  ghost predicate LockOk(s: State) {
    s.live ==> s.v2 == |Lockers(s)| <= 1
  }

  /** The counter of an initialised set is short of its start by the processes that hold
      it; a set that has not been initialised has no holders. */
  ghost predicate CountOk(s: State) {
    s.live ==> if s.v1 == 0 then Holders(s) == {} else s.v1 == BIGCOUNT - |Holders(s)|
  }

  ghost predicate ProcsOk(s: State) {
    forall p :: 0 <= p < |s.procs| ==> ProcOk(s, s.procs[p])
  }

  ghost predicate Safe(s: State) {
    ProcsOk(s) && LockOk(s) && CountOk(s)
  }

  lemma HoldersBound(s: State)
    ensures |Holders(s)| <= |s.procs|
  {
    Below(Holders(s), |s.procs|);
  }

  lemma {:induction false} Below(h: set<nat>, n: nat)
    requires forall p :: p in h ==> p < n
    ensures |h| <= n
  {
    if n == 0 {
      assert h == {};
    } else {
      Below(h - {n - 1}, n - 1);
    }
  }

  lemma OnlyOne(h: set<nat>, p: nat)
    requires |h| <= 1 && p in h
    ensures h == {p}
  {
    assert |h - {p}| == 0;
  }

  /** A step that keeps the set and changes one process changes who holds the set and
      who has the lock only in that process. */
  lemma OneChanged(s: State, t: State, p: nat)
    requires p < |s.procs| && t.live == s.live && t.id == s.id && |t.procs| == |s.procs|
    requires forall i :: 0 <= i < |s.procs| && i != p ==>
               t.procs[i].pc == s.procs[i].pc && t.procs[i].id == s.procs[i].id
    ensures Holders(t) == if Holds(t, t.procs[p]) then Holders(s) + {p} else Holders(s) - {p}
    ensures Lockers(t) == if HasLock(t, t.procs[p]) then Lockers(s) + {p} else Lockers(s) - {p}
  {
  }

  /** Only the process with the lock can find the counter changed by another process's
      step between zero and not zero; everything else about the others stays. */
  lemma OthersOk(s: State, t: State, p: nat)
    requires ProcsOk(s) && p < |s.procs| == |t.procs| && t.live == s.live && t.id == s.id
    requires forall i :: 0 <= i < |s.procs| && i != p ==>
               t.procs[i].pc == s.procs[i].pc && t.procs[i].id == s.procs[i].id
               && t.procs[i].adj1 == s.procs[i].adj1 && t.procs[i].adj2 == s.procs[i].adj2
    requires ((s.v1 == 0 <==> t.v1 == 0) && t.v1 >= 0) || Lockers(s) <= {p}
    requires ProcOk(t, t.procs[p])
    ensures ProcsOk(t)
  {
    forall i | 0 <= i < |t.procs| ensures ProcOk(t, t.procs[i]) {
      if i != p {
        assert ProcOk(s, s.procs[i]);
        assert i in Lockers(s) <==> HasLock(s, s.procs[i]);
      }
    }
  }

  ghost predicate Small(s: State) {
    |s.procs| < BIGCOUNT
  }

  ghost function One(b: bool): int {
    if b then 1 else 0
  }

  /** What the step of a process that keeps the set has to do to the counter and to the
      lock: account for itself. */
  ghost predicate Accounts(s: State, t: State, p: nat)
    requires p < |s.procs| == |t.procs|
  {
    var q, q' := s.procs[p], t.procs[p];
    && ProcOk(t, q')
    && (((s.v1 == 0 <==> t.v1 == 0) && t.v1 >= 0) || HasLock(s, q) || s.v2 == 0)
    && t.v2 == s.v2 + One(HasLock(t, q')) - One(HasLock(s, q))
    && (HasLock(t, q') && !HasLock(s, q) ==> s.v2 == 0)
    && if t.v1 == 0 then s.v1 == 0 && !Holds(t, q')
       else BIGCOUNT - t.v1 == (if s.v1 == 0 then 0 else BIGCOUNT - s.v1) + One(Holds(t, q')) - One(Holds(s, q))
  }

  ghost predicate SameOthers(s: State, t: State, p: nat)
    requires p < |s.procs|
  {
    && t.live == s.live && t.id == s.id && |t.procs| == |s.procs|
    && forall i :: 0 <= i < |s.procs| && i != p ==>
         t.procs[i].pc == s.procs[i].pc && t.procs[i].id == s.procs[i].id
         && t.procs[i].adj1 == s.procs[i].adj1 && t.procs[i].adj2 == s.procs[i].adj2
  }

  lemma Cardinality(h: set<nat>, h': set<nat>, p: nat, add: bool)
    requires h' == if add then h + {p} else h - {p}
    ensures |h'| == |h| + One(add) - One(p in h)
  {
    if add && p in h {
      assert h' == h;
    }
    if !add && p !in h {
      assert h' == h;
    }
  }

  lemma OneSafe(s: State, t: State, p: nat)
    requires Safe(s) && s.live && p < |s.procs| && SameOthers(s, t, p) && Accounts(s, t, p)
    ensures Safe(t)
  {
    var q, q' := s.procs[p], t.procs[p];
    Members(s, p);
    OneChanged(s, t, p);
    LockCount(s, t, p);
    HoldCount(s, t, p);
    if HasLock(s, q) {
      OnlyOne(Lockers(s), p);
    }
    OthersOk(s, t, p);
  }

  lemma Members(s: State, p: nat)
    requires p < |s.procs|
    ensures p in Holders(s) <==> Holds(s, s.procs[p])
    ensures p in Lockers(s) <==> HasLock(s, s.procs[p])
  {
  }

  lemma LockCount(s: State, t: State, p: nat)
    requires LockOk(s) && s.live && p < |s.procs| && SameOthers(s, t, p) && Accounts(s, t, p)
    ensures LockOk(t)
  {
    Members(s, p);
    OneChanged(s, t, p);
    hide Lockers, Holders;
    Cardinality(Lockers(s), Lockers(t), p, HasLock(t, t.procs[p]));
  }

  lemma HoldCount(s: State, t: State, p: nat)
    requires CountOk(s) && s.live && p < |s.procs| && SameOthers(s, t, p) && Accounts(s, t, p)
    ensures CountOk(t)
  {
    Members(s, p);
    OneChanged(s, t, p);
    hide Lockers, Holders;
    Cardinality(Holders(s), Holders(t), p, Holds(t, t.procs[p]));
  }

  /** What a process can rely on before its step. */
  lemma Before(s: State, p: nat)
    requires Safe(s) && Small(s) && p < |s.procs|
    ensures ProcOk(s, s.procs[p])
    ensures s.live ==> 0 <= s.v1 <= BIGCOUNT
    ensures s.live && s.v1 != 0 && !Holds(s, s.procs[p]) ==> s.v1 >= 2
    ensures Holds(s, s.procs[p]) ==> 0 < s.v1 < BIGCOUNT
    ensures HasLock(s, s.procs[p]) ==> s.v2 == 1
  {
    Members(s, p);
    HoldersBound(s);
    if s.live && !Holds(s, s.procs[p]) {
      OneFewer(s, p);
    }
    if HasLock(s, s.procs[p]) {
      OnlyOne(Lockers(s), p);
    }
    if Holds(s, s.procs[p]) {
      assert Holders(s) != {};
    }
  }

  lemma OneFewer(s: State, p: nat)
    requires p < |s.procs| && !Holds(s, s.procs[p])
    ensures |Holders(s)| < |s.procs|
  {
    var h := Holders(s) + {p};
    Below(h, |s.procs|);
  }

  // ----- the steps -----

  predicate Creating(a: Action) {
    a.Get? || a.Again? || a.Lock? || a.Sleep? || a.Read? || a.Set0? || a.End?
  }

  /** Every step that keeps the set accounts for itself. */
  lemma CreatingSafe(s: State, p: nat, a: Action)
    requires Safe(s) && Small(s) && Enabled(s, p, a) && s.live && Creating(a)
    ensures Safe(Next(s, p, a))
  {
    Before(s, p);
    hide Safe, Small;
    OneSafe(s, Next(s, p, a), p);
  }

  lemma ClosingSafe(s: State, p: nat, a: Action)
    requires Safe(s) && Small(s) && Enabled(s, p, a) && s.live && !Creating(a) && !a.Remove? && !a.RemoveNow? &&
             !a.Set1?
    ensures Safe(Next(s, p, a))
  {
    Before(s, p);
    hide Safe, Small;
    OneSafe(s, Next(s, p, a), p);
  }

  /** Nobody holds a set whose counter is zero, so that clearing the adjust values of
      the counter clears none. */
  lemma SetSafe(s: State, p: nat)
    requires Safe(s) && Small(s) && Enabled(s, p, Set1)
    ensures Safe(Next(s, p, Set1))
  {
    Before(s, p);
    forall i | 0 <= i < |s.procs| ensures s.procs[i].adj1 == 0 {
      Members(s, i);
      assert ProcOk(s, s.procs[i]);
    }
    OneSafe(s, Next(s, p, Set1), p);
  }

  /** A new set has an identifier that no process can have worked with. */
  lemma NewSafe(s: State, p: nat, a: Action)
    requires Safe(s) && Enabled(s, p, a) && !s.live && (a.Get? || a.Again?)
    ensures Safe(Next(s, p, a))
  {
    var t := Next(s, p, a);
    forall i | 0 <= i < |t.procs| ensures ProcOk(t, t.procs[i]) && !Holds(t, t.procs[i]) && !HasLock(t, t.procs[i]) {
      assert ProcOk(s, s.procs[i]);
    }
    assert Holders(t) == {} && Lockers(t) == {};
  }

  lemma GoneSafe(s: State, p: nat, a: Action)
    requires Safe(s) && Enabled(s, p, a) && (a.Remove? || a.RemoveNow? || ((a.Exit? || a.Fail?) && !s.live))
    ensures Safe(Next(s, p, a))
  {
    var t := Next(s, p, a);
    forall i | 0 <= i < |t.procs| ensures ProcOk(t, t.procs[i]) {
      assert ProcOk(s, s.procs[i]);
    }
  }

  lemma StepSafe(s: State, p: nat, a: Action)
    requires Safe(s) && Small(s) && Enabled(s, p, a)
    ensures Safe(Next(s, p, a))
  {
    hide Safe;
    if a.Set1? {
      SetSafe(s, p);
    } else if a.Remove? || a.RemoveNow? {
      GoneSafe(s, p, a);
    } else if s.live {
      if Creating(a) {
        CreatingSafe(s, p, a);
      } else {
        ClosingSafe(s, p, a);
      }
    } else if a.Get? || a.Again? {
      NewSafe(s, p, a);
    } else {
      GoneSafe(s, p, a);
    }
  }
}
