/** Several processes using one database at the same time.

    Every system call of the library is one step: taking or dropping a byte-range
    lock, reading or writing a pointer, an index record or a piece of data.  Records
    are numbered in file order and a pointer is a record number plus one, with zero
    as the null pointer.  `lists`, `home`, `pieceHome`, `abs` and `log` only exist
    for the specification: which list each record is on (or which process has it to
    itself), the finite map the database stands for, and the completed calls. */
module DbConcurrent {
  import opened DbFormat
  import opened DbFile
  import opened DbState
  import opened DbDisk
  import opened Db

  /** Where a pointer is kept: at the head of a list or inside a record. */
  datatype Place = AtHead | InRec(i: nat)

  /** The next step of a process inside a call, with what it has in its buffers.
      `pos` is the position in the list it is walking. */
  datatype Pc =
    | Idle
    | WantChain
    | GetHead
    | Walk(off: nat, prev: Place, pos: nat)
    | Missing
    | Found(r: nat, rec: Rec, prev: Place, pos: nat)
    | WantFree(ptr: nat)
    | FreeHead(ptr: nat)
    | FreeWalk(ptr: nat, off: nat, prev: Place, pos: nat)
    | FreeTake(ptr: nat, r: nat, rec: Rec, prev: Place, pos: nat)
    | FreeFail(ptr: nat)
    | FreeGot(ptr: nat, r: nat, rec: Rec)
    | FillData(ptr: nat, r: nat, rec: Rec)
    | FillIdx(ptr: nat, r: nat, rec: Rec)
    | WantDat(ptr: nat)
    | AppendDat(ptr: nat)
    | DropDat(ptr: nat, piece: nat)
    | WantIdx(ptr: nat, piece: nat)
    | AppendIdx(ptr: nat, piece: nat)
    | DropIdx(r: nat)
    | SetHead(r: nat)
    | WantFreeDel(r: nat, rec: Rec, prev: Place, pos: nat)
    | BlankData(r: nat, rec: Rec, prev: Place, pos: nat)
    | ReadFree(r: nat, rec: Rec, prev: Place)
    | BlankIdx(r: nat, rec: Rec, prev: Place, free: nat)
    | SetFree(r: nat, rec: Rec, prev: Place)
    | Bypass(rec: Rec, prev: Place)
    | DropFree
    | Reread
    | Unlock(answer: Answer)

  datatype Proc = Proc(call: Call, pc: Pc)
  datatype Home = On(k: nat) | Own(p: nat)
  datatype PieceHome = OfRec(r: nat) | OfProc(p: nat)

  datatype S = S(
    heads: seq<nat>, recs: seq<Rec>, pieces: seq<string>,
    writer: map<nat, nat>, readers: set<(nat, nat)>,
    freeLock: Option<nat>, datLock: Option<nat>, idxLock: Option<nat>,
    procs: map<nat, Proc>,
    lists: seq<seq<nat>>, home: seq<Home>, pieceHome: seq<PieceHome>,
    abs: map<string, string>, log: seq<(Call, Answer)>)

  /** The chain a call works on. */
  function Chain(call: Call): (k: nat)
    ensures 1 <= k < NHEADS
  {
    Bucket(call.key)
  }

  // ----- the steps -----

  /** Blocked only while waiting for a lock that another process holds. */
  predicate Enabled(s: S, p: nat)
    requires p in s.procs
  {
    var Proc(call, pc) := s.procs[p];
    match pc
    case Idle => false
    case WantChain =>
      Chain(call) !in s.writer && (call.FetchCall? || forall t :: t in s.readers ==> t.0 != Chain(call))
    case WantFree(_) => s.freeLock == None
    case WantFreeDel(_, _, _, _) => s.freeLock == None
    case WantDat(_) => s.datLock == None
    case WantIdx(_, _) => s.idxLock == None
    case _ => true
  }

  function To(s: S, p: nat, pc: Pc): S
    requires p in s.procs
  {
    s.(procs := s.procs[p := s.procs[p].(pc := pc)])
  }

  /** Overwrite a pointer of list `k`. */
  function SetPlace(s: S, k: nat, place: Place, ptr: nat): S
    requires k < |s.heads|
  {
    match place
    case AtHead => s.(heads := s.heads[k := ptr])
    case InRec(i) => if i < |s.recs| then s.(recs := s.recs[i := s.recs[i].(ptr := ptr)]) else s
  }

  /** Take the record at `pos` off list `k` and give it to process `p`. */
  function Detach(s: S, k: nat, pos: nat, p: nat): S
    requires k < |s.lists| && pos < |s.lists[k]| && s.lists[k][pos] < |s.home|
  {
    s.(lists := s.lists[k := RemoveAt(s.lists[k], pos)], home := s.home[s.lists[k][pos] := Own(p)])
  }

  /** Put record `r` at the front of list `k`, in the file and in the specification. */
  function Attach(s: S, k: nat, r: nat): S
    requires k < |s.lists| == |s.heads| && r < |s.home|
  {
    s.(heads := s.heads[k := r + 1], lists := s.lists[k := [r] + s.lists[k]], home := s.home[r := On(k)])
  }

  function AfterMissing(s: S, p: nat, call: Call): S
    requires p in s.procs && |s.heads| == NHEADS
  {
    match call
    case FetchCall(_) => To(s, p, Unlock(Fetched(None)))
    case DeleteCall(_) => To(s, p, Unlock(Status(-1)))
    case StoreCall(_, _, flag) =>
      if flag == DB_REPLACE then To(s, p, Unlock(Status(-1))) else To(s, p, WantFree(s.heads[Chain(call)]))
  }

  function AfterFound(s: S, p: nat, call: Call, r: nat, rec: Rec, prev: Place, pos: nat): S
    requires p in s.procs && rec.datoff < |s.pieces|
  {
    match call
    case FetchCall(_) => To(s, p, Unlock(Fetched(Some(s.pieces[rec.datoff]))))
    case DeleteCall(_) => To(s, p, WantFreeDel(r, rec, prev, pos))
    case StoreCall(_, data, flag) =>
      if flag == DB_INSERT then To(s, p, Unlock(Status(1)))
      else if |data| + 1 != rec.datlen then To(s, p, WantFreeDel(r, rec, prev, pos))
      else To(s.(pieces := s.pieces[rec.datoff := data]), p, Unlock(Status(0)))
  }

  function DataOf(call: Call): string {
    if call.StoreCall? then call.data else ""
  }

  predicate Sized(s: S) {
    |s.heads| == NHEADS == |s.lists| && |s.home| == |s.recs| && |s.pieceHome| == |s.pieces|
  }

  /** One step of process `p`. */
  function Next(s: S, p: nat): S
    requires p in s.procs && Sized(s)
  {
    var Proc(call, pc) := s.procs[p];
    var k := Chain(call);
    match pc
    case Idle => s
    case WantChain =>
      if call.FetchCall? then To(s.(readers := s.readers + {(k, p)}), p, GetHead)
      else To(s.(writer := s.writer[k := p]), p, GetHead)
    case GetHead => To(s, p, Walk(s.heads[k], AtHead, 0))
    case Walk(off, prev, pos) =>
      if off == 0 || off > |s.recs| then To(s, p, Missing)
      else if s.recs[off - 1].key == call.key then To(s, p, Found(off - 1, s.recs[off - 1], prev, pos))
      else To(s, p, Walk(s.recs[off - 1].ptr, InRec(off - 1), pos + 1))
    case Missing => AfterMissing(s, p, call)
    case Found(r, rec, prev, pos) => if rec.datoff < |s.pieces| then AfterFound(s, p, call, r, rec, prev, pos) else s
    case WantFree(ptr) => To(s.(freeLock := Some(p)), p, FreeHead(ptr))
    case FreeHead(ptr) => To(s, p, FreeWalk(ptr, s.heads[0], AtHead, 0))
    case FreeWalk(ptr, off, prev, pos) =>
      if off == 0 || off > |s.recs| then To(s, p, FreeFail(ptr))
      else if Matches(s.recs[off - 1], |call.key|, |DataOf(call)| + 1)
        then To(s, p, FreeTake(ptr, off - 1, s.recs[off - 1], prev, pos))
      else To(s, p, FreeWalk(ptr, s.recs[off - 1].ptr, InRec(off - 1), pos + 1))
    case FreeTake(ptr, r, rec, prev, pos) =>
      if pos < |s.lists[0]| && s.lists[0][pos] < |s.home|
        then To(Detach(SetPlace(s, 0, prev, rec.ptr), 0, pos, p), p, FreeGot(ptr, r, rec)) else s
    case FreeFail(ptr) => To(s.(freeLock := None), p, WantDat(ptr))
    case FreeGot(ptr, r, rec) => To(s.(freeLock := None), p, FillData(ptr, r, rec))
    case FillData(ptr, r, rec) =>
      if rec.datoff < |s.pieces|
        then To(s.(pieces := s.pieces[rec.datoff := DataOf(call)]), p, FillIdx(ptr, r, rec)) else s
    case FillIdx(ptr, r, rec) =>
      if r < |s.recs|
        then To(s.(recs := s.recs[r := Rec(ptr, call.key, rec.datoff, rec.datlen)]), p, SetHead(r)) else s
    case WantDat(ptr) => To(s.(datLock := Some(p)), p, AppendDat(ptr))
    case AppendDat(ptr) =>
      To(s.(pieces := s.pieces + [DataOf(call)], pieceHome := s.pieceHome + [OfProc(p)]), p, DropDat(ptr, |s.pieces|))
    case DropDat(ptr, piece) => To(s.(datLock := None), p, WantIdx(ptr, piece))
    case WantIdx(ptr, piece) => To(s.(idxLock := Some(p)), p, AppendIdx(ptr, piece))
    case AppendIdx(ptr, piece) =>
      if piece < |s.pieceHome|
        then To(s.(recs := s.recs + [Rec(ptr, call.key, piece, |DataOf(call)| + 1)], home := s.home + [Own(p)],
                   pieceHome := s.pieceHome[piece := OfRec(|s.recs|)]), p, DropIdx(|s.recs|)) else s
    case DropIdx(r) => To(s.(idxLock := None), p, SetHead(r))
    case SetHead(r) => if r < |s.home| then To(Attach(s, k, r), p, Unlock(Status(0))) else s
    case WantFreeDel(r, rec, prev, pos) => To(s.(freeLock := Some(p)), p, BlankData(r, rec, prev, pos))
    case BlankData(r, rec, prev, pos) =>
      if pos < |s.lists[k]| && s.lists[k][pos] < |s.home| && rec.datoff < |s.pieces| && rec.datlen > 0
        then To(Detach(s.(pieces := s.pieces[rec.datoff := Blanks(rec.datlen - 1)]), k, pos, p), p,
                ReadFree(r, rec, prev))
      else s
    case ReadFree(r, rec, prev) => To(s, p, BlankIdx(r, rec, prev, s.heads[0]))
    case BlankIdx(r, rec, prev, free) =>
      if r < |s.recs|
        then To(s.(recs := s.recs[r := Rec(free, Blanks(|rec.key|), rec.datoff, rec.datlen)]), p,
                SetFree(r, rec, prev)) else s
    case SetFree(r, rec, prev) => if r < |s.home| then To(Attach(s, 0, r), p, Bypass(rec, prev)) else s
    case Bypass(rec, prev) => To(SetPlace(s, k, prev, rec.ptr), p, DropFree)
    case DropFree =>
      To(s.(freeLock := None), p, if call.DeleteCall? then Unlock(Status(0)) else Reread)
    case Reread => To(s, p, WantDat(s.heads[k]))
    case Unlock(answer) =>
      To(s.(readers := s.readers - {(k, p)}, writer := if call.FetchCall? then s.writer else s.writer - {k},
            abs := AfterCall(s.abs, call), log := s.log + [(call, answer)]), p, Idle)
  }

  /** An idle process begins a call.  A store with a bad flag returns at once. */
  ghost predicate Starts(s: S, s': S, p: nat, call: Call) {
    && p in s.procs && s.procs[p].pc == Idle
    && s' == if call.StoreCall? && !ValidFlag(call.flag) then s.(log := s.log + [(call, Status(-1))])
             else s.(procs := s.procs[p := Proc(call, WantChain)])
  }

  ghost predicate Step(s: S, s': S) {
    || (exists p :: p in s.procs && Sized(s) && Enabled(s, p) && s' == Next(s, p))
    || (exists p, call :: Starts(s, s', p, call))
  }
}
