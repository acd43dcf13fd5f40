/** What every step of every process keeps: the invariant of the concurrent
    database, and the frame that confines a step to what its process controls. */
module DbConcurrentInv {
  import opened DbFormat
  import opened DbFile
  import opened DbState
  import opened DbDisk
  import opened Db
  import opened DbConcurrent

  function Ids(n: nat): seq<nat> {
    seq(n, i => i + 1)
  }

  // ----- lists, allowing for a deletion in progress -----

  /** Between taking a record out of the specification's chain and overwriting the
      pointer that leads to it, that one pointer is out of date. */
  predicate Pending(pc: Pc) {
    pc.ReadFree? || pc.BlankIdx? || pc.SetFree? || pc.Bypass?
  }

  predicate Deleting(s: S, k: nat) {
    k in s.writer && s.writer[k] in s.procs && Pending(s.procs[s.writer[k]].pc)
  }

  function Save(pc: Pc): nat
    requires Pending(pc)
  {
    pc.rec.ptr
  }

  /** The head of list `k` once a pending overwrite is done. */
  ghost function HeadOf(s: S, k: nat): nat
    requires k < |s.heads|
  {
    if Deleting(s, k) && s.procs[s.writer[k]].pc.prev == AtHead then Save(s.procs[s.writer[k]].pc) else s.heads[k]
  }

  ghost function PtrsOf(s: S, k: nat): seq<nat> {
    var ptrs := Ptrs(s.recs);
    if Deleting(s, k) && s.procs[s.writer[k]].pc.prev.InRec? && s.procs[s.writer[k]].pc.prev.i < |ptrs|
    then ptrs[s.procs[s.writer[k]].pc.prev.i := Save(s.procs[s.writer[k]].pc)]
    else ptrs
  }

  ghost predicate ListOk(s: S, k: nat)
    requires Sized(s) && k < NHEADS
  {
    && Linked(Ids(|s.recs|), PtrsOf(s, k), HeadOf(s, k), s.lists[k])
    && forall r: nat :: r in s.lists[k] <==> r < |s.home| && s.home[r] == On(k)
  }

  /** Chain `k` holds exactly the entries of `m` whose key belongs to it. */
  ghost predicate Holds(s: S, k: nat, m: map<string, string>)
    requires Sized(s)
  {
    && (forall key :: key in m && Bucket(key) == k ==> exists r: nat :: HasKey(s, k, key, r))
    && (forall key, r: nat :: HasKey(s, k, key, r) ==>
          key in m && s.recs[r].datoff < |s.pieces| && m[key] == s.pieces[s.recs[r].datoff])
  }

  ghost predicate HasKey(s: S, k: nat, key: string, r: nat)
    requires Sized(s)
  {
    r < |s.recs| && s.home[r] == On(k) && s.recs[r].key == key
  }

  ghost predicate RecsOk(s: S)
    requires Sized(s)
  {
    && (forall r :: 0 <= r < |s.recs| ==>
          && s.recs[r].datoff < |s.pieces| && s.pieceHome[s.recs[r].datoff] == OfRec(r)
          && |s.pieces[s.recs[r].datoff]| + 1 == s.recs[r].datlen)
    && (forall r :: 0 <= r < |s.recs| && s.home[r].On? ==> s.home[r].k < NHEADS)
    && (forall r :: 0 <= r < |s.recs| && s.home[r].On? && s.home[r].k >= 1 ==> Bucket(s.recs[r].key) == s.home[r].k)
    && (forall r, t :: 0 <= r < t < |s.recs| && s.home[r].On? && s.home[r].k >= 1 && s.home[t] == s.home[r] ==>
          s.recs[r].key != s.recs[t].key)
  }

  // ----- locks -----

  predicate Inside(pc: Pc) {
    !pc.Idle? && !pc.WantChain?
  }

  predicate UsesFree(pc: Pc) {
    pc.FreeHead? || pc.FreeWalk? || pc.FreeTake? || pc.FreeFail? || pc.FreeGot? || pc.BlankData? ||
    Pending(pc) || pc.DropFree?
  }

  predicate UsesDat(pc: Pc) {
    pc.AppendDat? || pc.DropDat?
  }

  predicate UsesIdx(pc: Pc) {
    pc.AppendIdx? || pc.DropIdx?
  }

  /** The locks are held by exactly the processes whose step needs them. */
  ghost predicate LocksOk(s: S) {
    && (forall k :: k in s.writer ==>
          s.writer[k] in s.procs && Inside(s.procs[s.writer[k]].pc) && !s.procs[s.writer[k]].call.FetchCall? &&
          Chain(s.procs[s.writer[k]].call) == k)
    && (forall k, p :: (k, p) in s.readers ==>
          p in s.procs && Inside(s.procs[p].pc) && s.procs[p].call.FetchCall? && Chain(s.procs[p].call) == k)
    && (forall k, p :: (k, p) in s.readers ==> k !in s.writer)
    && (forall p :: p in s.procs && Inside(s.procs[p].pc) ==> HasChain(s, p))
    && (s.freeLock.Some? ==> s.freeLock.value in s.procs && UsesFree(s.procs[s.freeLock.value].pc))
    && (forall p :: p in s.procs && UsesFree(s.procs[p].pc) ==> s.freeLock == Some(p))
    && (s.datLock.Some? ==> s.datLock.value in s.procs && UsesDat(s.procs[s.datLock.value].pc))
    && (forall p :: p in s.procs && UsesDat(s.procs[p].pc) ==> s.datLock == Some(p))
    && (s.idxLock.Some? ==> s.idxLock.value in s.procs && UsesIdx(s.procs[s.idxLock.value].pc))
    && (forall p :: p in s.procs && UsesIdx(s.procs[p].pc) ==> s.idxLock == Some(p))
  }

  ghost predicate HasChain(s: S, p: nat)
    requires p in s.procs
  {
    var call := s.procs[p].call;
    if call.FetchCall? then (Chain(call), p) in s.readers
    else Chain(call) in s.writer && s.writer[Chain(call)] == p
  }

  // ----- what a process knows -----

  ghost predicate PrevOk(s: S, k: nat, prev: Place, pos: nat)
    requires Sized(s) && k < NHEADS
  {
    match prev
    case AtHead => pos == 0
    case InRec(i) => 0 < pos <= |s.lists[k]| && s.lists[k][pos - 1] == i
  }

  ghost predicate OffOk(s: S, k: nat, off: nat, pos: nat)
    requires Sized(s) && k < NHEADS
  {
    pos <= |s.lists[k]| && off == if pos < |s.lists[k]| then s.lists[k][pos] + 1 else 0
  }

  ghost predicate At(s: S, k: nat, r: nat, rec: Rec, prev: Place, pos: nat)
    requires Sized(s) && k < NHEADS
  {
    pos < |s.lists[k]| && s.lists[k][pos] == r && r < |s.recs| && s.recs[r] == rec && PrevOk(s, k, prev, pos)
  }

  /** The record belongs to the process alone. */
  ghost predicate Private(s: S, p: nat, r: nat)
    requires Sized(s)
  {
    r < |s.recs| && s.home[r] == Own(p)
  }

  /** A store that has made room for its key and is going to add it. */
  ghost predicate Adding(s: S, call: Call)
    requires Sized(s)
  {
    call.StoreCall? && AnswerTo(s.abs, call) == Status(0) && Holds(s, Chain(call), s.abs - {call.key})
  }

  ghost predicate Removing(s: S, call: Call, r: nat, rec: Rec, prev: Place, pos: nat)
    requires Sized(s)
  {
    && !call.FetchCall? && AnswerTo(s.abs, call) == Status(0) && call.key in s.abs
    && Holds(s, Chain(call), s.abs) && At(s, Chain(call), r, rec, prev, pos) && rec.key == call.key
  }

  ghost predicate Removed(s: S, call: Call)
    requires Sized(s)
  {
    !call.FetchCall? && AnswerTo(s.abs, call) == Status(0) && Holds(s, Chain(call), s.abs - {call.key})
  }

  /** The pointer that is still to be overwritten lies in the process's own chain. */
  ghost predicate PrevInChain(s: S, k: nat, prev: Place)
    requires Sized(s)
  {
    prev.InRec? ==> prev.i < |s.recs| && s.home[prev.i] == On(k)
  }

  ghost predicate Fits(call: Call, rec: Rec) {
    |rec.key| == |call.key| && rec.datlen == |DataOf(call)| + 1
  }

  /** None of the first `n` records on the free list has the sizes that the call needs. */
  ghost predicate NoneFits(s: S, call: Call, n: nat)
    requires Sized(s)
  {
    n <= |s.lists[0]| && forall i :: 0 <= i < n ==> s.lists[0][i] < |s.recs| && !Fits(call, s.recs[s.lists[0][i]])
  }

  /** A private record that is ready to be put at the front of the chain. */
  ghost predicate Ready(s: S, p: nat, call: Call, r: nat)
    requires Sized(s)
  {
    && Private(s, p, r) && s.recs[r].key == call.key && s.recs[r].ptr == s.heads[Chain(call)]
    && s.recs[r].datoff < |s.pieces| && s.pieces[s.recs[r].datoff] == DataOf(call)
  }

  ghost predicate PrivatePiece(s: S, p: nat, call: Call, piece: nat)
    requires Sized(s)
  {
    piece < |s.pieces| && s.pieceHome[piece] == OfProc(p) && s.pieces[piece] == DataOf(call)
  }

  ghost predicate ProcOk(s: S, p: nat)
    requires Sized(s) && p in s.procs
  {
    var Proc(call, pc) := s.procs[p];
    var k := Chain(call);
    match pc
    case Idle => true
    case WantChain => call.StoreCall? ==> ValidFlag(call.flag)
    case GetHead => Holds(s, k, s.abs) && (call.StoreCall? ==> ValidFlag(call.flag))
    case Walk(off, prev, pos) =>
      && Holds(s, k, s.abs) && OffOk(s, k, off, pos) && PrevOk(s, k, prev, pos)
      && (call.StoreCall? ==> ValidFlag(call.flag))
      && (forall i :: 0 <= i < pos ==> s.lists[k][i] < |s.recs| && s.recs[s.lists[k][i]].key != call.key)
    case Missing => Holds(s, k, s.abs) && call.key !in s.abs && (call.StoreCall? ==> ValidFlag(call.flag))
    case Found(r, rec, prev, pos) =>
      && Holds(s, k, s.abs) && At(s, k, r, rec, prev, pos) && rec.key == call.key
      && (call.StoreCall? ==> ValidFlag(call.flag))
    case WantFree(ptr) => Adding(s, call) && ptr == s.heads[k]
    case FreeHead(ptr) => Adding(s, call) && ptr == s.heads[k]
    case FreeWalk(ptr, off, prev, pos) =>
      && Adding(s, call) && ptr == s.heads[k] && OffOk(s, 0, off, pos) && PrevOk(s, 0, prev, pos)
      && NoneFits(s, call, pos)
    case FreeTake(ptr, r, rec, prev, pos) =>
      Adding(s, call) && ptr == s.heads[k] && At(s, 0, r, rec, prev, pos) && Fits(call, rec)
    case FreeFail(ptr) => Adding(s, call) && ptr == s.heads[k] && NoneFits(s, call, |s.lists[0]|)
    case FreeGot(ptr, r, rec) =>
      Adding(s, call) && ptr == s.heads[k] && Private(s, p, r) && s.recs[r] == rec && Fits(call, rec)
    case FillData(ptr, r, rec) =>
      Adding(s, call) && ptr == s.heads[k] && Private(s, p, r) && s.recs[r] == rec && Fits(call, rec)
    case FillIdx(ptr, r, rec) =>
      && Adding(s, call) && ptr == s.heads[k] && Private(s, p, r) && s.recs[r] == rec && Fits(call, rec)
      && rec.datoff < |s.pieces| && s.pieces[rec.datoff] == DataOf(call)
    case WantDat(ptr) => Adding(s, call) && ptr == s.heads[k]
    case AppendDat(ptr) => Adding(s, call) && ptr == s.heads[k]
    case DropDat(ptr, piece) => Adding(s, call) && ptr == s.heads[k] && PrivatePiece(s, p, call, piece)
    case WantIdx(ptr, piece) => Adding(s, call) && ptr == s.heads[k] && PrivatePiece(s, p, call, piece)
    case AppendIdx(ptr, piece) => Adding(s, call) && ptr == s.heads[k] && PrivatePiece(s, p, call, piece)
    case DropIdx(r) => Adding(s, call) && Ready(s, p, call, r)
    case SetHead(r) => Adding(s, call) && Ready(s, p, call, r)
    case WantFreeDel(r, rec, prev, pos) => Removing(s, call, r, rec, prev, pos)
    case BlankData(r, rec, prev, pos) => Removing(s, call, r, rec, prev, pos)
    case ReadFree(r, rec, prev) => Removed(s, call) && Private(s, p, r) && s.recs[r] == rec && PrevInChain(s, k, prev)
    case BlankIdx(r, rec, prev, free) =>
      Removed(s, call) && Private(s, p, r) && s.recs[r] == rec && PrevInChain(s, k, prev) && free == s.heads[0]
    case SetFree(r, rec, prev) =>
      Removed(s, call) && Private(s, p, r) && s.recs[r].ptr == s.heads[0] && PrevInChain(s, k, prev)
    case Bypass(rec, prev) => Removed(s, call) && PrevInChain(s, k, prev)
    case DropFree => Removed(s, call)
    case Reread => Adding(s, call)
    case Unlock(answer) => answer == AnswerTo(s.abs, call) && Holds(s, k, AfterCall(s.abs, call))
  }

  /** The completed calls, in the order of their last steps, are a run of a finite
      map, and the map is where that run ends. */
  ghost predicate LogOk(s: S) {
    && s.abs == After(map[], Calls(s.log))
    && Answers(map[], Calls(s.log)) == Replies(s.log)
  }

  ghost function Calls(log: seq<(Call, Answer)>): seq<Call> {
    seq(|log|, i requires 0 <= i < |log| => log[i].0)
  }

  ghost function Replies(log: seq<(Call, Answer)>): seq<Answer> {
    seq(|log|, i requires 0 <= i < |log| => log[i].1)
  }

  ghost predicate ListsAllOk(s: S)
    requires Sized(s)
  {
    forall k :: 0 <= k < NHEADS ==> ListOk(s, k)
  }

  /** A chain that nobody is changing holds what the finite map says. */
  ghost predicate ChainsOk(s: S)
    requires Sized(s)
  {
    forall k :: 1 <= k < NHEADS && k !in s.writer ==> Holds(s, k, s.abs)
  }

  ghost predicate ProcsOk(s: S)
    requires Sized(s)
  {
    forall p :: p in s.procs ==> ProcOk(s, p)
  }

  ghost predicate Safe(s: S) {
    Sized(s) && ListsAllOk(s) && RecsOk(s) && LocksOk(s) && ChainsOk(s) && ProcsOk(s) && LogOk(s)
  }

  // ----- what a process controls -----

  ghost predicate ControlsList(s: S, p: nat, k: nat) {
    if k == 0 then s.freeLock == Some(p) else k in s.writer && s.writer[k] == p
  }

  ghost predicate Controls(s: S, p: nat, r: nat)
    requires Sized(s) && r < |s.recs|
  {
    match s.home[r]
    case On(k) => ControlsList(s, p, k)
    case Own(q) => q == p
  }

  ghost predicate ControlsPiece(s: S, p: nat, j: nat)
    requires Sized(s) && j < |s.pieces|
  {
    match s.pieceHome[j]
    case OfRec(r) => r < |s.recs| && Controls(s, p, r)
    case OfProc(q) => q == p
  }

  /** A step of `p` leaves alone every list it has not locked, every record that is
      neither on such a list nor its own, and all other processes; records and
      pieces never move and never change their size. */
  ghost predicate Frame(s: S, s': S, p: nat)
    requires Sized(s) && Sized(s')
  {
    && |s.recs| <= |s'.recs| && |s.pieces| <= |s'.pieces|
    && (forall k :: 0 <= k < NHEADS && !ControlsList(s, p, k) ==>
          s'.heads[k] == s.heads[k] && s'.lists[k] == s.lists[k])
    && (forall r :: 0 <= r < |s.recs| && !Controls(s, p, r) ==> s'.recs[r] == s.recs[r] && s'.home[r] == s.home[r])
    && (forall r :: 0 <= r < |s'.recs| && (r < |s.recs| ==> Controls(s, p, r)) ==>
          s'.home[r] == Own(p) || (s'.home[r].On? && ControlsList(s, p, s'.home[r].k)))
    && (forall j :: 0 <= j < |s.pieces| && !ControlsPiece(s, p, j) ==>
          s'.pieces[j] == s.pieces[j] && s'.pieceHome[j] == s.pieceHome[j])
    && (forall r :: 0 <= r < |s.recs| ==>
          |s'.recs[r].key| == |s.recs[r].key| && s'.recs[r].datoff == s.recs[r].datoff &&
          s'.recs[r].datlen == s.recs[r].datlen)
  }

  /** Locks and programs of the other processes, and their part of the map. */
  ghost predicate Others(s: S, s': S, p: nat) {
    && p in s.procs && s'.procs.Keys == s.procs.Keys &&
       (forall q :: q in s.procs && q != p ==> s'.procs[q] == s.procs[q])
    && (forall k :: k in s.writer && s.writer[k] != p ==> k in s'.writer && s'.writer[k] == s.writer[k])
    && (forall k :: k in s'.writer && s'.writer[k] != p ==> k in s.writer && s.writer[k] == s'.writer[k])
    && (forall k, q :: q != p ==> ((k, q) in s.readers <==> (k, q) in s'.readers))
    && (forall key :: !ControlsList(s, p, Bucket(key)) ==>
          (key in s.abs <==> key in s'.abs) && (key in s.abs ==> s'.abs[key] == s.abs[key]))
  }
}
