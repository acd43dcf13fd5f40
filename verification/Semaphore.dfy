/** The three-member semaphore set that several processes create, open, close and
    leave by exiting, as a state machine whose steps are the system calls.  Member 0
    is the value, member 1 counts the processes down from a large number, and member 2
    is a lock.  All processes use the same key. */
module Semaphore {

  /** What the process counter starts from. */
  const BIGCOUNT := 10000

  /** Where a process is: before which system call of which function. */
  datatype Pc =
    | Idle
    | CreateLock      // sem_create: has the identifier
    | CreateSleep     // sem_create: asleep in the call that locks
    | CreateRead      // sem_create: has the lock
    | CreateSet0      // sem_create: has read a zero counter
    | CreateSet1      // sem_create: has set the value
    | CreateEnd       // sem_create: the set is initialised
    | OpenCount       // sem_open: has the identifier
    | Using
    | CloseRead       // sem_close: has the lock and is no longer counted
    | CloseRemove     // sem_close: has read the full counter
    | CloseUnlock     // sem_close: has read less

  /** A process, the identifier it works with, and its adjust values: what its exit
      adds to the members of the set that exists. */
  datatype Proc = Proc(pc: Pc, id: nat, adj0: int, adj1: int, adj2: int)

  /** The set, if it exists, and the processes.  Identifiers are never used twice. */
  datatype State = State(live: bool, id: nat, v0: int, v1: int, v2: int, procs: seq<Proc>)

  datatype Action =
    | Get | Lock | Sleep | Again | Read | Set0(value: nat) | Set1 | End
    | Find | Open | Op(amount: int)
    | Close | ReadBack | Remove | Unlock
    | RemoveNow | Fail | Exit

  /** The process works on the set that exists. */
  predicate Valid(s: State, q: Proc) {
    s.live && q.id == s.id
  }

  /** The next system call of the process can return, and is this one. */
  predicate Enabled(s: State, p: nat, a: Action) {
    p < |s.procs| &&
    var q := s.procs[p];
    match a
    case Get => q.pc == Idle
    case Lock => q.pc in {CreateLock, CreateSleep} && Valid(s, q) && s.v2 == 0
    case Sleep => q.pc == CreateLock && Valid(s, q) && s.v2 != 0
    case Again => q.pc == CreateLock && !Valid(s, q)
    case Read => q.pc == CreateRead && Valid(s, q)
    case Set0(_) => q.pc == CreateSet0 && Valid(s, q)
    case Set1 => q.pc == CreateSet1 && Valid(s, q)
    case End => q.pc == CreateEnd && Valid(s, q) && s.v1 >= 1 && s.v2 >= 1
    case Find => q.pc == Idle && s.live
    case Open => q.pc == OpenCount && Valid(s, q) && s.v1 >= 1
    case Op(amount) => q.pc == Using && Valid(s, q) && amount != 0 && s.v0 + amount >= 0
    case Close => q.pc == Using && Valid(s, q) && s.v2 == 0
    case ReadBack => q.pc == CloseRead && Valid(s, q) && s.v1 <= BIGCOUNT
    case Remove => q.pc == CloseRemove && Valid(s, q)
    case Unlock => q.pc == CloseUnlock && Valid(s, q) && s.v2 >= 1
    case RemoveNow => (q.pc == Idle && s.live) || (q.pc == Using && Valid(s, q))
    case Fail => CanFail(s, q)
    case Exit => true
  }

  /** The call comes back with an error that makes the program stop: the set is gone, also
      while the process was asleep in the call, or the counter is too large. */
  predicate CanFail(s: State, q: Proc) {
    || (q.pc !in {Idle, CreateLock} && !Valid(s, q))
    || (q.pc == CloseRead && s.v1 > BIGCOUNT)
  }

  function Moved(s: State, p: nat, pc: Pc): State
    requires p < |s.procs|
  {
    s.(procs := s.procs[p := s.procs[p].(pc := pc)])
  }

  /** The identifier of the key, with a new set if there is none. */
  function Got(s: State, p: nat): State
    requires p < |s.procs|
  {
    var t := if s.live then s else s.(live := true, id := s.id + 1, v0 := 0, v1 := 0, v2 := 0);
    t.(procs := t.procs[p := t.procs[p].(pc := CreateLock, id := t.id)])
  }

  /** The set is removed, and with it every adjust value. */
  function Removed(s: State): State {
    s.(live := false, procs := seq(|s.procs|, i requires 0 <= i < |s.procs| =>
      s.procs[i].(adj0 := 0, adj1 := 0, adj2 := 0)))
  }

  /** Setting a member clears its adjust value in all processes. */
  function Cleared0(procs: seq<Proc>): seq<Proc> {
    seq(|procs|, i requires 0 <= i < |procs| => procs[i].(adj0 := 0))
  }

  function Cleared1(procs: seq<Proc>): seq<Proc> {
    seq(|procs|, i requires 0 <= i < |procs| => procs[i].(adj1 := 0))
  }

  function AtLeastZero(v: int): int {
    if v < 0 then 0 else v
  }

  /** The adjust values are applied and the process is gone; another one may take its
      place. */
  function Exited(s: State, p: nat): State
    requires p < |s.procs|
  {
    var q := s.procs[p];
    var t := s.(procs := s.procs[p := Proc(Idle, q.id, 0, 0, 0)]);
    if s.live then
      t.(v0 := AtLeastZero(s.v0 + q.adj0), v1 := AtLeastZero(s.v1 + q.adj1), v2 := AtLeastZero(s.v2 + q.adj2))
    else t
  }

  function Next(s: State, p: nat, a: Action): State
    requires Enabled(s, p, a)
  {
    var q := s.procs[p];
    match a
    case Get => Got(s, p)
    case Lock => s.(v2 := s.v2 + 1, procs := s.procs[p := q.(pc := CreateRead, adj2 := q.adj2 - 1)])
    case Sleep => Moved(s, p, CreateSleep)
    case Again => Got(s, p)
    case Read => Moved(s, p, if s.v1 == 0 then CreateSet0 else CreateEnd)
    case Set0(value) => Moved(s.(v0 := value, procs := Cleared0(s.procs)), p, CreateSet1)
    case Set1 => Moved(s.(v1 := BIGCOUNT, procs := Cleared1(s.procs)), p, CreateEnd)
    case End => s.(v1 := s.v1 - 1, v2 := s.v2 - 1,
                   procs := s.procs[p := q.(pc := Using, adj1 := q.adj1 + 1, adj2 := q.adj2 + 1)])
    case Find => s.(procs := s.procs[p := q.(pc := OpenCount, id := s.id)])
    case Open => s.(v1 := s.v1 - 1, procs := s.procs[p := q.(pc := Using, adj1 := q.adj1 + 1)])
    case Op(amount) => s.(v0 := s.v0 + amount, procs := s.procs[p := q.(adj0 := q.adj0 - amount)])
    case Close => s.(v1 := s.v1 + 1, v2 := s.v2 + 1, procs := s.procs[p := q.(pc := CloseRead, adj1 := q.adj1 - 1,
        adj2 := q.adj2 - 1)])
    case ReadBack => Moved(s, p, if s.v1 == BIGCOUNT then CloseRemove else CloseUnlock)
    case Remove => Moved(Removed(s), p, Idle)
    case Unlock => s.(v2 := s.v2 - 1, procs := s.procs[p := q.(pc := Idle, adj2 := q.adj2 + 1)])
    case RemoveNow => Moved(Removed(s), p, Idle)
    case Fail => Exited(s, p)
    case Exit => Exited(s, p)
  }

  ghost predicate Init(s: State) {
    !s.live && forall p :: 0 <= p < |s.procs| ==> s.procs[p].pc == Idle && s.procs[p].id <= s.id && NoAdjust(s.procs[p])
  }

  ghost predicate NoAdjust(q: Proc) {
    q.adj0 == 0 && q.adj1 == 0 && q.adj2 == 0
  }

  datatype Move = Move(p: nat, a: Action)

  /** A run: every state follows from the one before by a step of some process. */
  ghost predicate IsRun(run: seq<State>, moves: seq<Move>) {
    && |run| == |moves| + 1 && Init(run[0])
    && forall i :: 0 <= i < |moves| ==> IsStep(run[i], moves[i], run[i + 1])
  }

  ghost predicate IsStep(s: State, m: Move, t: State) {
    Enabled(s, m.p, m.a) && t == Next(s, m.p, m.a)
  }
}
