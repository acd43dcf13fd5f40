/** Whole calls, in every interleaving: how many records and pieces of data a call adds to the
    files and what it takes from or gives to the free list. */
module DbConcurrentCalls {
  import opened DbFormat
  import opened DbFile
  import opened DbState
  import opened DbDisk
  import opened Db
  import opened DbConcurrent
  import opened DbConcurrentInv
  import opened DbConcurrentSteps
  import opened DbConcurrentRuns
  import Frames = DbConcurrentFrame
  import Waits = DbConcurrentWaits

  /** Records added to the index file, records put on the free list less those taken off it,
      and pieces added to the data file. */
  datatype Tally = Tally(recs: int, free: int, pieces: int)

  const NOTHING := Tally(0, 0, 0)

  function Plus(a: Tally, b: Tally): Tally {
    Tally(a.recs + b.recs, a.free + b.free, a.pieces + b.pieces)
  }

  function FreeLength(s: S): nat {
    if s.lists == [] then 0 else |s.lists[0]|
  }

  function Difference(s: S, s': S): Tally {
    Tally(|s'.recs| - |s.recs|, FreeLength(s') - FreeLength(s), |s'.pieces| - |s.pieces|)
  }

  /** The step was one of process `p`. */
  predicate Moves(s: S, s': S, p: nat) {
    p in s.procs && p in s'.procs && s'.procs[p] != s.procs[p]
  }

  /** What the steps of process `p` between two states of a run come to. */
  function TallyOf(run: seq<S>, p: nat, i: nat, j: nat): Tally
    requires i <= j < |run|
  {
    if i == j then NOTHING
    else
      var t := TallyOf(run, p, i, j - 1);
      if Moves(run[j - 1], run[j], p) then Plus(t, Difference(run[j - 1], run[j])) else t
  }

  /** A record on the free list has the sizes that the call needs. */
  ghost predicate HasFit(s: S, call: Call) {
    s.lists != [] && exists i :: 0 <= i < |s.lists[0]| && FitsAt(s, call, s.lists[0][i])
  }

  predicate FitsAt(s: S, call: Call, r: nat) {
    r < |s.recs| && |s.recs[r].key| == |call.key| && s.recs[r].datlen == |DataOf(call)| + 1
  }

  function ValueOf(s: S, call: Call): Option<string> {
    if call.key in s.abs then Some(s.abs[call.key]) else None
  }

  /** What a call comes to if its key has value `v`, and a free record of the right sizes is
      there if `fits`. */
  function Due(call: Call, v: Option<string>, fits: bool): Tally {
    match call
    case FetchCall(_) => NOTHING
    case DeleteCall(_) => if v.Some? then Tally(0, 1, 0) else NOTHING
    case StoreCall(_, data, flag) =>
      if v.None? then
        if flag == DB_REPLACE then NOTHING else if fits then Tally(0, -1, 0) else Tally(1, 0, 1)
      else if flag == DB_INSERT || |data| == |v.value| then NOTHING
      else Tally(1, 1, 1)
  }

  /** The call stores a new key. */
  predicate IsNew(call: Call, v: Option<string>) {
    call.StoreCall? && call.flag != DB_REPLACE && v.None?
  }

  /** The call takes a record off its chain. */
  predicate Removes(call: Call, v: Option<string>) {
    v.Some? && (call.DeleteCall? || (call.StoreCall? && call.flag != DB_INSERT && |call.data| != |v.value|))
  }

  /** What has been added up when a store begins to append. */
  function Before(v: Option<string>): Tally {
    Tally(0, if v.Some? then 1 else 0, 0)
  }

  /** A store that is to append. */
  predicate Appends(call: Call, v: Option<string>, fits: bool) {
    call.StoreCall? && ((IsNew(call, v) && !fits) || Removes(call, v))
  }

  /** The parts of a call. */
  datatype Phase =
    | Outside
    | Searching
    | Missed
    | Hit
    | WantsRecord
    | WalksFree
    | Takes
    | Fills
    | NoneFree
    | AddsData
    | AddsRecord
    | Added
    | Links
    | Deletes
    | Freed
    | Again
    | Ends

  function PhaseOf(pc: Pc): Phase {
    match pc
    case Idle => Outside
    case WantChain => Outside
    case GetHead => Searching
    case Walk(_, _, _) => Searching
    case Missing => Missed
    case Found(_, _, _, _) => Hit
    case WantFree(_) => WantsRecord
    case FreeHead(_) => WalksFree
    case FreeWalk(_, _, _, _) => WalksFree
    case FreeTake(_, _, _, _, _) => Takes
    case FreeFail(_) => NoneFree
    case FreeGot(_, _, _) => Fills
    case FillData(_, _, _) => Fills
    case FillIdx(_, _, _) => Fills
    case WantDat(_) => AddsData
    case AppendDat(_) => AddsData
    case DropDat(_, _) => AddsRecord
    case WantIdx(_, _) => AddsRecord
    case AppendIdx(_, _) => AddsRecord
    case DropIdx(_) => Added
    case SetHead(_) => Links
    case WantFreeDel(_, _, _, _) => Deletes
    case BlankData(_, _, _, _) => Deletes
    case ReadFree(_, _, _) => Deletes
    case BlankIdx(_, _, _, _) => Deletes
    case SetFree(_, _, _) => Deletes
    case Bypass(_, _) => Freed
    case DropFree => Freed
    case Reread => Again
    case Unlock(_) => Ends
  }

  /** What a process has come to in each part of a call on a key with value `v`; `fits` tells
      what the free list was when it got its lock. */
  predicate Stands(call: Call, part: Phase, v: Option<string>, fits: bool, t: Tally) {
    match part
    case Outside => false
    case Searching => t == NOTHING
    case Missed => t == NOTHING && v.None?
    case Hit => t == NOTHING && v.Some?
    case WantsRecord => t == NOTHING && IsNew(call, v)
    case WalksFree => t == NOTHING && IsNew(call, v)
    case Takes => t == NOTHING && IsNew(call, v) && fits
    case NoneFree => t == NOTHING && IsNew(call, v) && !fits
    case Fills => t == Tally(0, -1, 0) && IsNew(call, v) && fits
    case AddsData => t == Before(v) && Appends(call, v, fits)
    case AddsRecord => t == Plus(Before(v), Tally(0, 0, 1)) && Appends(call, v, fits)
    case Added => t == Plus(Before(v), Tally(1, 0, 1)) && Appends(call, v, fits)
    case Links => t == Due(call, v, fits)
    case Deletes => t == NOTHING && Removes(call, v)
    case Freed => t == Tally(0, 1, 0) && Removes(call, v)
    case Again => t == Tally(0, 1, 0) && Removes(call, v) && call.StoreCall?
    case Ends => t == Due(call, v, fits)
  }

  /** How a step that adds `gain` leads from one part of a call to the next; `same` tells
      whether the data found has the length of the data to be stored. */
  predicate Leads(call: Call, part: Phase, part': Phase, gain: Tally, same: bool) {
    match part
    case Outside => false
    case Searching => gain == NOTHING && (part' == Searching || part' == Missed || part' == Hit)
    case Missed =>
      gain == NOTHING && part' == if call.StoreCall? && call.flag != DB_REPLACE then WantsRecord else Ends
    case Hit =>
      && gain == NOTHING
      && part' == if call.DeleteCall? || (call.StoreCall? && call.flag != DB_INSERT && !same) then Deletes else Ends
    case WantsRecord => gain == NOTHING && part' == WalksFree
    case WalksFree => gain == NOTHING && (part' == WalksFree || part' == Takes || part' == NoneFree)
    case Takes => gain == Tally(0, -1, 0) && part' == Fills
    case NoneFree => gain == NOTHING && part' == AddsData
    case Fills => gain == NOTHING && (part' == Fills || part' == Links)
    case AddsData => (gain == NOTHING && part' == AddsData) || (gain == Tally(0, 0, 1) && part' == AddsRecord)
    case AddsRecord => (gain == NOTHING && part' == AddsRecord) || (gain == Tally(1, 0, 0) && part' == Added)
    case Added => gain == NOTHING && part' == Links
    case Links => gain == NOTHING && part' == Ends
    case Deletes => (gain == NOTHING && part' == Deletes) || (gain == Tally(0, 1, 0) && part' == Freed)
    case Freed => gain == NOTHING && (part' == Freed || part' == if call.DeleteCall? then Ends else Again)
    case Again => gain == NOTHING && part' == AddsData
    case Ends => false
  }

  /** What is known where a step leads. */
  predicate Settles(call: Call, part: Phase, part': Phase, same: bool, v: Option<string>, fits: bool) {
    && (part == Hit && call.StoreCall? ==> v.Some? && same == (|call.data| == |v.value|))
    && (part' == Missed ==> v.None?) && (part' == Hit ==> v.Some?)
    && (part == WalksFree && part' == Takes ==> fits) && (part == WalksFree && part' == NoneFree ==> !fits)
  }

  lemma SearchLed(call: Call, part: Phase, part': Phase, gain: Tally, same: bool, v: Option<string>, fits: bool,
                  t: Tally)
    requires Stands(call, part, v, fits, t) && Leads(call, part, part', gain, same)
    requires Settles(call, part, part', same, v, fits) && (part == Searching || part == Missed || part == Hit)
    ensures Stands(call, part', v, fits, Plus(t, gain)) && part' != WalksFree
  {
  }

  lemma FreeLed(call: Call, part: Phase, part': Phase, gain: Tally, same: bool, v: Option<string>, fits: bool, t: Tally)
    requires Stands(call, part, v, fits, t) && Leads(call, part, part', gain, same)
    requires Settles(call, part, part', same, v, fits)
    requires part == WantsRecord || part == WalksFree || part == Takes || part == NoneFree || part == Fills
    ensures Stands(call, part', v, fits, Plus(t, gain))
    ensures part' == WalksFree ==> part == WantsRecord || part == WalksFree
  {
  }

  lemma AddLed(call: Call, part: Phase, part': Phase, gain: Tally, same: bool, v: Option<string>, fits: bool, t: Tally)
    requires Stands(call, part, v, fits, t) && Leads(call, part, part', gain, same)
    requires part == AddsData || part == AddsRecord
    ensures Stands(call, part', v, fits, Plus(t, gain)) && part' != WalksFree
  {
    hide Due, Appends, Plus, Before;
    PlusLaws(t, Before(v));
  }

  lemma PlusLaws(t: Tally, b: Tally)
    ensures Plus(t, NOTHING) == t && Plus(Plus(b, Tally(0, 0, 1)), Tally(1, 0, 0)) == Plus(b, Tally(1, 0, 1))
  {
  }

  lemma LinkLed(call: Call, part: Phase, part': Phase, gain: Tally, same: bool, v: Option<string>, fits: bool, t: Tally)
    requires Stands(call, part, v, fits, t) && Leads(call, part, part', gain, same)
    requires part == Added || part == Links
    ensures Stands(call, part', v, fits, Plus(t, gain)) && part' != WalksFree
  {
    hide Due, Appends, Plus, Before;
    PlusLaws(t, Before(v));
    if part == Added {
      AppendsDue(call, v, fits);
    }
  }

  lemma AppendsDue(call: Call, v: Option<string>, fits: bool)
    requires Appends(call, v, fits)
    ensures Plus(Before(v), Tally(1, 0, 1)) == Due(call, v, fits)
  {
  }

  lemma DeleteLed(call: Call, part: Phase, part': Phase, gain: Tally, same: bool, v: Option<string>, fits: bool,
                  t: Tally)
    requires Stands(call, part, v, fits, t) && Leads(call, part, part', gain, same)
    requires part == Deletes || part == Freed || part == Again
    ensures Stands(call, part', v, fits, Plus(t, gain)) && part' != WalksFree
  {
  }

  /** A step that leads on comes to what it should. */
  lemma LedOn(call: Call, part: Phase, part': Phase, gain: Tally, same: bool, v: Option<string>, fits: bool, t: Tally)
    requires Stands(call, part, v, fits, t) && Leads(call, part, part', gain, same)
    requires Settles(call, part, part', same, v, fits)
    ensures Stands(call, part', v, fits, Plus(t, gain))
    ensures part' == WalksFree ==> part == WantsRecord || part == WalksFree
  {
    assert part != Outside && part != Ends;
    hide Stands, Leads, Settles, Plus;
    if part == Searching || part == Missed || part == Hit {
      SearchLed(call, part, part', gain, same, v, fits, t);
    } else if part == Deletes || part == Freed || part == Again {
      DeleteLed(call, part, part', gain, same, v, fits, t);
    } else if part == AddsData || part == AddsRecord {
      AddLed(call, part, part', gain, same, v, fits, t);
    } else if part == Added || part == Links {
      LinkLed(call, part, part', gain, same, v, fits, t);
    } else {
      FreeLed(call, part, part', gain, same, v, fits, t);
    }
  }

  /** Process `p` is in the middle of a call and has come to `t`. */
  ghost predicate InCall(s: S, p: nat, v: Option<string>, fits: bool, t: Tally) {
    && p in s.procs && ValueOf(s, s.procs[p].call) == v
    && Stands(s.procs[p].call, PhaseOf(s.procs[p].pc), v, fits, t)
    && (PhaseOf(s.procs[p].pc) == WalksFree ==> fits == HasFit(s, s.procs[p].call))
  }

  // ----- what a step adds -----

  function Gain(pc: Pc): Tally {
    if pc.FreeTake? then Tally(0, -1, 0)
    else if pc.AppendDat? then Tally(0, 0, 1)
    else if pc.AppendIdx? then Tally(1, 0, 0)
    else if pc.SetFree? then Tally(0, 1, 0)
    else NOTHING
  }

  /** The step adds what it should, and neither the call nor the map changes. */
  ghost predicate Gains(s: S, s': S, p: nat)
    requires p in s.procs
  {
    && p in s'.procs && s'.procs[p].call == s.procs[p].call && s'.abs == s.abs
    && var Proc(call, pc) := s.procs[p];
    && Difference(s, s') == Gain(pc) && Leads(call, PhaseOf(pc), PhaseOf(s'.procs[p].pc), Gain(pc), Same(call, pc))
    && Deletion(pc, s'.procs[p].pc)
  }

  /** The steps of a deletion follow each other. */
  predicate Deletion(pc: Pc, pc': Pc) {
    (pc'.ReadFree? ==> pc.BlankData?) && (pc'.BlankIdx? ==> pc.ReadFree?) && (pc'.SetFree? ==> pc.BlankIdx?)
  }

  predicate Same(call: Call, pc: Pc) {
    pc.Found? && call.StoreCall? && |call.data| + 1 == pc.rec.datlen
  }

  lemma SearchGains(s: S, p: nat)
    requires Sized(s) && p in s.procs && Waits.Settled(s, p) && (s.procs[p].pc.GetHead? || s.procs[p].pc.Walk?)
    ensures Gains(s, Next(s, p), p)
  {
    hide Chain;
  }

  /** A step that only moves on. */
  lemma ToGains(s: S, p: nat, pc': Pc)
    requires p in s.procs && Gain(s.procs[p].pc) == NOTHING
    requires var Proc(call, pc) := s.procs[p];
             Deletion(pc, pc') && Leads(call, PhaseOf(pc), PhaseOf(pc'), NOTHING, Same(call, pc))
    ensures Gains(s, To(s, p, pc'), p)
  {
    hide PhaseOf, Leads, Same, Gain;
  }

  lemma MissingGains(s: S, p: nat)
    requires Sized(s) && p in s.procs && Waits.Settled(s, p) && s.procs[p].pc.Missing?
    ensures Gains(s, Next(s, p), p)
  {
    hide Next, Chain, Gains, Gain;
    NextMissing(s, p);
    var call := s.procs[p].call;
    var pc' := if call.FetchCall? then Unlock(Fetched(None))
               else if call.StoreCall? && call.flag != DB_REPLACE then WantFree(s.heads[Chain(call)])
               else Unlock(Status(-1));
    NoGain(s.procs[p].pc);
    ToGains(s, p, pc');
  }

  lemma NoGain(pc: Pc)
    requires pc.Missing? || pc.Found?
    ensures Gain(pc) == NOTHING
  {
  }

  lemma FoundGains(s: S, p: nat)
    requires Sized(s) && p in s.procs && Waits.Settled(s, p) && s.procs[p].pc.Found?
    ensures Gains(s, Next(s, p), p)
  {
    hide Next, Chain, Gains, Gain;
    NextFound(s, p);
    NoGain(s.procs[p].pc);
    var Proc(call, pc) := s.procs[p];
    if Overwrites(call, pc.rec) {
      OverwriteGains(s, p);
    } else {
      var pc' := match call
                 case FetchCall(_) => Unlock(Fetched(Some(s.pieces[pc.rec.datoff])))
                 case DeleteCall(_) => WantFreeDel(pc.r, pc.rec, pc.prev, pc.pos)
                 case StoreCall(_, _, flag) =>
                   if flag == DB_INSERT then Unlock(Status(1)) else WantFreeDel(pc.r, pc.rec, pc.prev, pc.pos);
      ToGains(s, p, pc');
    }
  }

  lemma OverwriteGains(s: S, p: nat)
    requires Sized(s) && p in s.procs && Waits.Settled(s, p) && s.procs[p].pc.Found?
    requires Overwrites(s.procs[p].call, s.procs[p].pc.rec)
    ensures Gains(s, Next(s, p), p)
  {
    hide Next, Chain;
    NextFound(s, p);
  }

  lemma FreeGains(s: S, p: nat)
    requires Sized(s) && p in s.procs && Waits.Settled(s, p)
    requires var pc := s.procs[p].pc; pc.WantFree? || pc.FreeHead? || pc.FreeFail? || pc.FreeGot?
    ensures Gains(s, Next(s, p), p)
  {
    hide Chain;
  }

  lemma FreeWalkGains(s: S, p: nat)
    requires Sized(s) && p in s.procs && Waits.Settled(s, p) && s.procs[p].pc.FreeWalk?
    ensures Gains(s, Next(s, p), p)
  {
    hide Chain;
  }

  lemma TakeGains(s: S, p: nat)
    requires Sized(s) && p in s.procs && Waits.Settled(s, p) && s.procs[p].pc.FreeTake?
    ensures Gains(s, Next(s, p), p)
  {
    hide Chain;
  }

  lemma FillGains(s: S, p: nat)
    requires Sized(s) && p in s.procs && Waits.Settled(s, p) && (s.procs[p].pc.FillData? || s.procs[p].pc.FillIdx?)
    ensures Gains(s, Next(s, p), p)
  {
    hide Chain;
  }

  lemma DataGains(s: S, p: nat)
    requires Sized(s) && p in s.procs && Waits.Settled(s, p)
    requires var pc := s.procs[p].pc; pc.WantDat? || pc.AppendDat? || pc.DropDat?
    ensures Gains(s, Next(s, p), p)
  {
    hide Chain;
  }

  lemma IndexLockGains(s: S, p: nat)
    requires Sized(s) && p in s.procs && Waits.Settled(s, p) && (s.procs[p].pc.WantIdx? || s.procs[p].pc.DropIdx?)
    ensures Gains(s, Next(s, p), p)
  {
    hide Chain;
  }

  lemma IndexGains(s: S, p: nat)
    requires Sized(s) && p in s.procs && Waits.Settled(s, p) && s.procs[p].pc.AppendIdx?
    ensures Gains(s, Next(s, p), p)
  {
    hide Chain;
  }

  lemma HeadGains(s: S, p: nat)
    requires Sized(s) && p in s.procs && Waits.Settled(s, p) && s.procs[p].pc.SetHead?
    ensures Gains(s, Next(s, p), p)
  {
    hide Bucket;
  }

  lemma BlankGains(s: S, p: nat)
    requires Sized(s) && p in s.procs && Waits.Settled(s, p) && s.procs[p].pc.BlankData?
    ensures Gains(s, Next(s, p), p)
  {
    hide Bucket;
  }

  lemma DeleteLockGains(s: S, p: nat)
    requires Sized(s) && p in s.procs && Waits.Settled(s, p) && (s.procs[p].pc.WantFreeDel? || s.procs[p].pc.ReadFree?)
    ensures Gains(s, Next(s, p), p)
  {
    hide Chain;
  }

  lemma BlankIdxGains(s: S, p: nat)
    requires Sized(s) && p in s.procs && Waits.Settled(s, p) && s.procs[p].pc.BlankIdx?
    ensures Gains(s, Next(s, p), p)
  {
    hide Chain;
  }

  lemma AttachGains(s: S, p: nat)
    requires Sized(s) && p in s.procs && Waits.Settled(s, p) && s.procs[p].pc.SetFree?
    ensures Gains(s, Next(s, p), p)
  {
    hide Chain;
  }

  lemma BypassGains(s: S, p: nat)
    requires Sized(s) && p in s.procs && Waits.Settled(s, p) && s.procs[p].pc.Bypass?
    ensures Gains(s, Next(s, p), p)
  {
    hide Chain;
  }

  lemma DropGains(s: S, p: nat)
    requires Sized(s) && p in s.procs && Waits.Settled(s, p) && s.procs[p].pc.DropFree?
    ensures Gains(s, Next(s, p), p)
  {
    hide Chain;
  }

  lemma RereadGains(s: S, p: nat)
    requires Sized(s) && p in s.procs && Waits.Settled(s, p) && s.procs[p].pc.Reread?
    ensures Gains(s, Next(s, p), p)
  {
    hide Chain;
  }

  lemma StepGains(s: S, p: nat)
    requires Sized(s) && p in s.procs && Waits.Settled(s, p)
    requires Inside(s.procs[p].pc) && !s.procs[p].pc.Unlock?
    ensures Gains(s, Next(s, p), p)
  {
    hide Next, Gains, Waits.Settled;
    var pc := s.procs[p].pc;
    if pc.GetHead? || pc.Walk? {
      SearchGains(s, p);
    } else if pc.Missing? {
      MissingGains(s, p);
    } else if pc.Found? {
      FoundGains(s, p);
    } else if pc.WantFree? || pc.FreeHead? || pc.FreeFail? || pc.FreeGot? {
      FreeGains(s, p);
    } else if pc.FreeWalk? {
      FreeWalkGains(s, p);
    } else if pc.FreeTake? {
      TakeGains(s, p);
    } else if pc.FillData? || pc.FillIdx? {
      FillGains(s, p);
    } else if pc.WantDat? || pc.AppendDat? || pc.DropDat? {
      DataGains(s, p);
    } else if pc.WantIdx? || pc.DropIdx? {
      IndexLockGains(s, p);
    } else if pc.AppendIdx? {
      IndexGains(s, p);
    } else if pc.SetHead? {
      HeadGains(s, p);
    } else if pc.BlankData? {
      BlankGains(s, p);
    } else if pc.WantFreeDel? || pc.ReadFree? {
      DeleteLockGains(s, p);
    } else if pc.BlankIdx? {
      BlankIdxGains(s, p);
    } else if pc.SetFree? {
      AttachGains(s, p);
    } else if pc.Bypass? {
      BypassGains(s, p);
    } else if pc.DropFree? {
      DropGains(s, p);
    } else {
      RereadGains(s, p);
    }
  }

  // ----- a step of the process itself -----

  lemma SameFit(s: S, s': S, call: Call)
    requires Sized(s) && Sized(s') && s'.lists == s.lists && s'.recs == s.recs
    ensures HasFit(s', call) == HasFit(s, call)
  {
  }

  /** Where the walk along the free list comes to its end, it is known whether a record fits. */
  lemma FreeWalkKnows(s: S, p: nat)
    requires Safe(s) && p in s.procs && (s.procs[p].pc.FreeWalk? || s.procs[p].pc.FreeHead?)
    ensures p in Next(s, p).procs && WalksOn(s, Next(s, p), p)
  {
    hide ListsAllOk, RecsOk, LocksOk, ChainsOk, LogOk, Next, Chain, Adding, PrevOk, HasFit;
    var Proc(call, pc) := s.procs[p];
    if pc.FreeHead? {
      FreeHeadKeeps(s, p);
    } else {
      assert ProcOk(s, p);
      Frames.ListsOf(s, 0);
      ListMembers(s, 0);
      NextFreeWalk(s, p);
      SameFit(s, Next(s, p), call);
      WalkedFit(s, call, pc.off, pc.pos);
    }
  }

  /** The walk is at a record that fits, or at the end with none. */
  lemma WalkedFit(s: S, call: Call, off: nat, pos: nat)
    requires Sized(s) && OffOk(s, 0, off, pos) && NoneFits(s, call, pos)
    ensures off == 0 ==> !HasFit(s, call)
    ensures 0 < off && FitsAt(s, call, off - 1) ==> HasFit(s, call)
  {
  }

  /** Where the walk along the chain comes to its end, it is known whether the key is there. */
  lemma SearchKnows(s: S, p: nat)
    requires Safe(s) && p in s.procs
    ensures Knows(s, p)
  {
    hide ListsAllOk, RecsOk, LocksOk, ChainsOk, LogOk;
    if s.procs[p].pc.Found? {
      hide ProcsOk;
      FoundIsInMap(s, p);
    } else {
      assert ProcOk(s, p);
      hide Chain, Holds;
    }
  }

  /** What is settled about the free list by the step. */
  ghost function FitsAfter(s: S, p: nat, fits: bool): bool
    requires p in s.procs && Sized(s)
  {
    if s.procs[p].pc.WantFree? then HasFit(Next(s, p), s.procs[p].call) else fits
  }

  /** What is known before and after the step. */
  ghost predicate Knows(s: S, p: nat) {
    && p in s.procs
    && var Proc(call, pc) := s.procs[p];
    && (pc.Missing? ==> call.key !in s.abs)
    && (pc.Found? ==> call.key in s.abs && |s.abs[call.key]| + 1 == pc.rec.datlen)
  }

  ghost predicate WalksOn(s: S, s': S, p: nat)
    requires p in s.procs && p in s'.procs
  {
    var call := s.procs[p].call;
    && HasFit(s', call) == HasFit(s, call)
    && (s'.procs[p].pc.FreeFail? ==> !HasFit(s, call))
    && (s'.procs[p].pc.FreeTake? ==> HasFit(s, call))
  }

  lemma OwnStep(s: S, p: nat, v: Option<string>, fits: bool, t: Tally)
    requires Safe(s) && InCall(s, p, v, fits, t) && Enabled(s, p) && !s.procs[p].pc.Unlock?
    ensures InCall(Next(s, p), p, v, FitsAfter(s, p, fits), Plus(t, Difference(s, Next(s, p))))
  {
    hide Safe, Next, Enabled, Gains, Knows, WalksOn, Stands, HasFit, Waits.Settled;
    InsideCall(s, p, v, fits, t);
    OwnGains(s, p);
    StepSafe(s, p);
    SearchKnows(s, p);
    SearchKnows(Next(s, p), p);
    if s.procs[p].pc.FreeWalk? || s.procs[p].pc.FreeHead? {
      FreeWalkKnows(s, p);
    }
    OwnTally(s, Next(s, p), p, v, fits, FitsAfter(s, p, fits), t);
  }

  lemma InsideCall(s: S, p: nat, v: Option<string>, fits: bool, t: Tally)
    requires InCall(s, p, v, fits, t)
    ensures Inside(s.procs[p].pc)
  {
    hide HasFit;
    Parts(s.procs[p].pc);
  }

  lemma OwnGains(s: S, p: nat)
    requires Safe(s) && p in s.procs && Inside(s.procs[p].pc) && !s.procs[p].pc.Unlock?
    ensures p in Next(s, p).procs && Gains(s, Next(s, p), p)
  {
    hide Next, ListsAllOk, LocksOk, ChainsOk, LogOk, ProcOk, RecsOk, Waits.Settled;
    Waits.IsSettled(s, p);
    StepGains(s, p);
  }

  lemma OwnTally(s: S, s': S, p: nat, v: Option<string>, fits: bool, fits': bool, t: Tally)
    requires InCall(s, p, v, fits, t) && Gains(s, s', p) && Knows(s, p) && Knows(s', p)
    requires s.procs[p].pc.FreeWalk? || s.procs[p].pc.FreeHead? ==> WalksOn(s, s', p)
    requires fits' == if s.procs[p].pc.WantFree? then HasFit(s', s.procs[p].call) else fits
    ensures InCall(s', p, v, fits', Plus(t, Difference(s, s')))
  {
    hide PhaseOf, HasFit, Leads, Stands, Gain, Difference, Plus, Inside;
    var Proc(call, pc) := s.procs[p];
    Parts(pc);
    Parts(s'.procs[p].pc);
    FitsOpen(call, PhaseOf(pc), v, fits, fits', t);
    LedOn(call, PhaseOf(pc), PhaseOf(s'.procs[p].pc), Gain(pc), Same(call, pc), v, fits', t);
  }

  /** Before the free list is locked nothing depends on it. */
  lemma FitsOpen(call: Call, part: Phase, v: Option<string>, fits: bool, fits': bool, t: Tally)
    requires Stands(call, part, v, fits, t) && (part == WantsRecord || fits' == fits)
    ensures Stands(call, part, v, fits', t)
  {
  }

  lemma Parts(pc: Pc)
    ensures PhaseOf(pc) == Hit <==> pc.Found?
    ensures PhaseOf(pc) == Missed <==> pc.Missing?
    ensures PhaseOf(pc) == WantsRecord <==> pc.WantFree?
    ensures PhaseOf(pc) == WalksFree <==> pc.FreeHead? || pc.FreeWalk?
    ensures PhaseOf(pc) == Takes <==> pc.FreeTake?
    ensures PhaseOf(pc) == NoneFree <==> pc.FreeFail?
    ensures PhaseOf(pc) == Ends <==> pc.Unlock?
    ensures PhaseOf(pc) != Outside <==> Inside(pc)
  {
  }

  lemma FreeHeadKeeps(s: S, p: nat)
    requires Sized(s) && p in s.procs && s.procs[p].pc.FreeHead?
    ensures p in Next(s, p).procs && Next(s, p).procs[p].pc.FreeWalk?
    ensures HasFit(Next(s, p), s.procs[p].call) == HasFit(s, s.procs[p].call)
  {
    hide Chain, HasFit;
    SameFit(s, Next(s, p), s.procs[p].call);
  }

  // ----- a step of another process -----

  /** A call that ends leaves alone the keys of the other calls. */
  lemma OtherValue(s: S, q: nat, p: nat)
    requires Safe(s) && p in s.procs && Inside(s.procs[p].pc) && q in s.procs && q != p && Enabled(s, q)
    ensures ValueOf(Next(s, q), s.procs[p].call) == ValueOf(s, s.procs[p].call)
  {
    hide ListsAllOk, RecsOk, ChainsOk, ProcsOk, LogOk, Next, Gains, AfterCall;
    if s.procs[q].pc.Unlock? {
      UnlockMap(s, q);
      OneKey(s, p, q);
      OtherKey(s.abs, s.procs[q].call, s.procs[p].call.key);
    } else if s.procs[q].pc.WantChain? {
      EnterMap(s, q);
    } else {
      OwnGains(s, q);
      GainsMap(s, Next(s, q), q);
    }
  }

  /** Two processes inside calls on the same key only read. */
  lemma OneKey(s: S, p: nat, q: nat)
    requires LocksOk(s) && p in s.procs && q in s.procs && p != q && Inside(s.procs[p].pc) && Inside(s.procs[q].pc)
    ensures s.procs[q].call.key != s.procs[p].call.key || s.procs[q].call.FetchCall?
  {
    assert HasChain(s, p) && HasChain(s, q);
  }

  lemma GainsMap(s: S, s': S, p: nat)
    requires p in s.procs && Gains(s, s', p)
    ensures s'.abs == s.abs
  {
  }

  lemma UnlockMap(s: S, p: nat)
    requires Sized(s) && p in s.procs && s.procs[p].pc.Unlock?
    ensures Next(s, p).abs == AfterCall(s.abs, s.procs[p].call)
  {
    hide Chain, AfterCall;
  }

  lemma EnterMap(s: S, p: nat)
    requires Sized(s) && p in s.procs && s.procs[p].pc.WantChain?
    ensures Next(s, p).abs == s.abs
  {
    hide Chain;
  }

  lemma OtherKey(m: map<string, string>, call: Call, key: string)
    requires call.key != key || call.FetchCall?
    ensures var m' := AfterCall(m, call); (key in m' <==> key in m) && (key in m ==> m'[key] == m[key])
  {
  }

  /** A process that has locked the free list sees it unchanged. */
  lemma OtherFit(s: S, q: nat, p: nat)
    requires Safe(s) && p in s.procs && UsesFree(s.procs[p].pc) && q in s.procs && q != p && Enabled(s, q)
    ensures HasFit(Next(s, q), s.procs[p].call) == HasFit(s, s.procs[p].call)
  {
    hide ListsAllOk, RecsOk, ChainsOk, ProcsOk, LogOk, Next, ListOk, Frame, HasFit;
    StepSafe(s, q);
    FreeUse(s, p);
    Frames.ListsOf(s, 0);
    Frames.ListKept(s, Next(s, q), q, 0);
    ListMembers(s, 0);
    FitKept(s, Next(s, q), s.procs[p].call);
  }

  lemma FitKept(s: S, s': S, call: Call)
    requires Sized(s) && Sized(s') && Frames.SameList(s, s', 0)
    requires forall i :: 0 <= i < |s.lists[0]| ==> s.lists[0][i] < |s.recs|
    ensures HasFit(s', call) == HasFit(s, call)
  {
    forall i | 0 <= i < |s.lists[0]| ensures FitsAt(s', call, s.lists[0][i]) == FitsAt(s, call, s.lists[0][i]) {
    }
  }

  lemma OtherStep(s: S, q: nat, p: nat, v: Option<string>, fits: bool, t: Tally)
    requires Safe(s) && InCall(s, p, v, fits, t) && q in s.procs && q != p && Enabled(s, q)
    ensures InCall(Next(s, q), p, v, fits, t) && Next(s, q).procs[p] == s.procs[p]
  {
    InsideCall(s, p, v, fits, t);
    hide Safe, Next, Stands, HasFit, Enabled, PhaseOf;
    Waits.StepMoves(s, q);
    OtherValue(s, q, p);
    Parts(s.procs[p].pc);
    if s.procs[p].pc.FreeHead? || s.procs[p].pc.FreeWalk? {
      OtherFit(s, q, p);
    }
  }

  lemma OtherStart(s: S, s': S, q: nat, call: Call, p: nat, v: Option<string>, fits: bool, t: Tally)
    requires Starts(s, s', q, call) && InCall(s, p, v, fits, t)
    ensures InCall(s', p, v, fits, t) && s'.procs[p] == s.procs[p]
  {
    InsideCall(s, p, v, fits, t);
    hide Stands, PhaseOf;
  }

  // ----- the whole call -----

  /** Process `p` has just got the lock of the free list, for a record to store a new key in. */
  ghost predicate GotFree(run: seq<S>, p: nat, g: nat) {
    && 0 < g < |run| && p in run[g - 1].procs && p in run[g].procs
    && run[g - 1].procs[p].pc.WantFree? && run[g].procs[p].pc.FreeHead?
  }

  /** The free list has been locked in this call, if a new key is to be stored. */
  predicate Past(call: Call, part: Phase, v: Option<string>) {
    match part
    case WalksFree => true
    case Takes => true
    case NoneFree => true
    case Fills => true
    case AddsData => IsNew(call, v)
    case AddsRecord => IsNew(call, v)
    case Added => IsNew(call, v)
    case Links => IsNew(call, v)
    case Ends => IsNew(call, v)
    case _ => false
  }

  lemma PastLed(call: Call, part: Phase, part': Phase, gain: Tally, same: bool, v: Option<string>, fits: bool, t: Tally)
    requires Stands(call, part, v, fits, t) && Leads(call, part, part', gain, same) && Past(call, part', v)
    ensures part == WantsRecord || Past(call, part, v)
  {
  }

  /** Process `p` is inside one call from state `i`, when it has just got the lock of its
      chain, to state `j`. */
  ghost predicate Within(run: seq<S>, p: nat, i: nat, j: nat) {
    && IsRun(run) && i <= j < |run|
    && (forall k :: i <= k <= j ==> p in run[k].procs && Inside(run[k].procs[p].pc))
    && (forall k :: i <= k < j ==> !run[k].procs[p].pc.Unlock?)
    && run[i].procs[p].pc.GetHead?
  }

  lemma PcChanges(s: S, p: nat)
    requires Safe(s) && p in s.procs && Enabled(s, p)
    ensures p in Next(s, p).procs && Next(s, p).procs[p].pc != s.procs[p].pc
    ensures s.procs[p].pc.WantFree? ==> Next(s, p).procs[p].pc.FreeHead?
  {
    hide ListsAllOk, RecsOk, LocksOk, ChainsOk, ProcsOk, LogOk, Next, Enabled;
    Waits.StepMoves(s, p);
    if s.procs[p].pc.Walk? {
      NextWalk(s, p);
    } else if s.procs[p].pc.FreeWalk? {
      NextFreeWalk(s, p);
    } else if s.procs[p].pc.WantFree? {
      ToFreeHead(s, p);
    }
  }

  lemma ToFreeHead(s: S, p: nat)
    requires Sized(s) && p in s.procs && s.procs[p].pc.WantFree?
    ensures p in Next(s, p).procs && Next(s, p).procs[p].pc.FreeHead?
  {
    hide Chain;
  }

  lemma OwnMoves(s: S, p: nat, v: Option<string>, fits: bool, t: Tally)
    requires Safe(s) && InCall(s, p, v, fits, t) && Enabled(s, p) && !s.procs[p].pc.Unlock?
    ensures var s' := Next(s, p);
            && p in s'.procs && s'.procs[p].call == s.procs[p].call && s'.procs[p].pc != s.procs[p].pc
            && InCall(s', p, v, FitsAfter(s, p, fits), Plus(t, Difference(s, s')))
            && (s.procs[p].pc.WantFree? ==> s'.procs[p].pc.FreeHead?)
            && (Past(s.procs[p].call, PhaseOf(s'.procs[p].pc), v) ==>
                  s.procs[p].pc.WantFree? || Past(s.procs[p].call, PhaseOf(s.procs[p].pc), v))
  {
    hide Safe, Next, Enabled, Gains, Knows, WalksOn, Stands, HasFit, PhaseOf, Difference, Past, Leads;
    SizedOf(s);
    InsideCall(s, p, v, fits, t);
    OwnStep(s, p, v, fits, t);
    OwnGains(s, p);
    PcChanges(s, p);
    Parts(s.procs[p].pc);
    PastStep(s, Next(s, p), p, v, fits, t);
  }

  lemma PastStep(s: S, s': S, p: nat, v: Option<string>, fits: bool, t: Tally)
    requires InCall(s, p, v, fits, t) && Gains(s, s', p)
    ensures s'.procs[p].call == s.procs[p].call
    ensures Past(s.procs[p].call, PhaseOf(s'.procs[p].pc), v) ==>
              PhaseOf(s.procs[p].pc) == WantsRecord || Past(s.procs[p].call, PhaseOf(s.procs[p].pc), v)
  {
    hide Stands, HasFit, PhaseOf, Difference, Past, Leads, Gain;
    var Proc(call, pc) := s.procs[p];
    if Past(call, PhaseOf(s'.procs[p].pc), v) {
      PastLed(call, PhaseOf(pc), PhaseOf(s'.procs[p].pc), Gain(pc), Same(call, pc), v, fits, t);
    }
  }

  lemma OneStep(s: S, s': S, p: nat, v: Option<string>, fits: bool, t: Tally)
    requires Safe(s) && Step(s, s') && InCall(s, p, v, fits, t) && !s.procs[p].pc.Unlock?
    requires p in s'.procs
    ensures var t' := if Moves(s, s', p) then Plus(t, Difference(s, s')) else t;
            var got := s.procs[p].pc.WantFree? && s'.procs[p].pc.FreeHead?;
            && s'.procs[p].call == s.procs[p].call
            && InCall(s', p, v, if got then HasFit(s', s.procs[p].call) else fits, t')
            && (Past(s.procs[p].call, PhaseOf(s'.procs[p].pc), v) ==>
                  got || Past(s.procs[p].call, PhaseOf(s.procs[p].pc), v))
  {
    hide Safe, Next, InCall, Difference, HasFit, PhaseOf, Past, Enabled, Starts;
    if q :| q in s.procs && Sized(s) && Enabled(s, q) && s' == Next(s, q) {
      if q == p {
        OwnMoves(s, p, v, fits, t);
      } else {
        OtherStep(s, q, p, v, fits, t);
      }
    } else {
      var q, call :| Starts(s, s', q, call);
      OtherStart(s, s', q, call, p, v, fits, t);
    }
  }

  /** What a process has come to at a point of a call, with the free list as it was in state `g`. */
  ghost predicate Reached(run: seq<S>, p: nat, i: nat, j: nat, g: nat) {
    && i <= j < |run| && g < |run| && p in run[i].procs && p in run[j].procs
    && var call := run[i].procs[p].call;
       var v := ValueOf(run[i], call);
    && run[j].procs[p].call == call && InCall(run[j], p, v, HasFit(run[g], call), TallyOf(run, p, i, j))
    && (Past(call, PhaseOf(run[j].procs[p].pc), v) ==> i < g <= j && GotFree(run, p, g))
  }

  lemma {:induction false} SoFar(run: seq<S>, p: nat, i: nat, j: nat) returns (g: nat)
    requires Within(run, p, i, j)
    ensures Reached(run, p, i, j, g)
  {
    hide Within, Reached, Step, IsRun;
    WithinBounds(run, p, i, j);
    if i == j {
      StartsCall(run, p, i);
      g := i;
    } else {
      WithinBefore(run, p, i, j);
      g := SoFar(run, p, i, j - 1);
      g := ReachedNext(run, p, i, j, g);
    }
  }

  lemma ReachedNext(run: seq<S>, p: nat, i: nat, j: nat, g: nat) returns (g': nat)
    requires IsRun(run) && i < j < |run| && Reached(run, p, i, j - 1, g)
    requires p in run[j].procs && p in run[j - 1].procs && !run[j - 1].procs[p].pc.Unlock?
    requires Step(run[j - 1], run[j])
    ensures Reached(run, p, i, j, g')
  {
    hide InCall, HasFit, Past, PhaseOf, Difference, Step, IsRun, Safe, ValueOf, GotFree, Plus, Moves;
    RunSafe(run, j - 1);
    var call := run[i].procs[p].call;
    OneStep(run[j - 1], run[j], p, ValueOf(run[i], call), HasFit(run[g], call), TallyOf(run, p, i, j - 1));
    g' := g;
    if run[j - 1].procs[p].pc.WantFree? && run[j].procs[p].pc.FreeHead? {
      g' := j;
      assert GotFree(run, p, j) by {
        JustGot(run, p, j);
      }
    }
  }

  lemma JustGot(run: seq<S>, p: nat, j: nat)
    requires 0 < j < |run| && p in run[j].procs && p in run[j - 1].procs
    requires run[j - 1].procs[p].pc.WantFree? && run[j].procs[p].pc.FreeHead?
    ensures GotFree(run, p, j)
  {
  }

  lemma StartsCall(run: seq<S>, p: nat, i: nat)
    requires Within(run, p, i, i)
    ensures Reached(run, p, i, i, i)
  {
    hide IsRun, HasFit;
  }

  lemma WithinBounds(run: seq<S>, p: nat, i: nat, j: nat)
    requires Within(run, p, i, j)
    ensures i <= j < |run|
  {
    hide IsRun;
  }

  lemma WithinBefore(run: seq<S>, p: nat, i: nat, j: nat)
    requires Within(run, p, i, j) && i < j
    ensures Within(run, p, i, j - 1) && IsRun(run) && j < |run| && p in run[j].procs && p in run[j - 1].procs
    ensures !run[j - 1].procs[p].pc.Unlock? && Step(run[j - 1], run[j])
  {
    hide Step, Init;
    assert Step(run[j - 1], run[j - 1 + 1]);
  }

  /** Over every interleaving: by the time a call is about to give back its chain, its own
      steps have come to exactly what it is due, going by the value its key had when it got
      the chain.  A store of a new key has taken a record off the free list and added none, if
      and only if a record of its sizes was on the list when it got the lock of the list;
      otherwise it has added one. */
  lemma CallComesTo(run: seq<S>, p: nat, i: nat, j: nat) returns (g: nat)
    requires Within(run, p, i, j) && run[j].procs[p].pc.Unlock?
    ensures var call := run[i].procs[p].call;
            var v := ValueOf(run[i], call);
            && g < |run| && TallyOf(run, p, i, j) == Due(call, v, HasFit(run[g], call))
            && (IsNew(call, v) ==> i < g <= j && GotFree(run, p, g))
  {
    hide IsRun, HasFit, Due, TallyOf;
    g := SoFar(run, p, i, j);
    Parts(run[j].procs[p].pc);
    hide PhaseOf;
  }

  /** In every state of every run, a process that has found no record to reuse faces a free list
      without one of the sizes that it needs. */
  lemma NoneWasFree(run: seq<S>, n: nat, p: nat)
    requires IsRun(run) && n < |run| && p in run[n].procs && run[n].procs[p].pc.FreeFail?
    ensures !HasFit(run[n], run[n].procs[p].call)
  {
    hide IsRun, ListsAllOk, RecsOk, LocksOk, ChainsOk, LogOk;
    RunSafe(run, n);
    assert ProcOk(run[n], p);
    hide Adding, Chain;
  }

  /** What a call is due is what the same call does to a database used by one process: to the
      number of free records, and to the number of all records. */
  lemma DueWhenAlone(d: Disk, call: Call)
    requires Reaction(d, call).Some? && (call.StoreCall? ==> ValidFlag(call.flag))
    ensures var v, d' := if call.key in d.m then Some(d.m[call.key]) else None, Performed(d, call);
            var due := Due(call, v, (|call.key|, |DataOf(call)| + 1) in d.free);
            && due.free == |d'.free| - |d.free| && due.recs == Records(d') - Records(d)
            && (due.recs == 0 <==> d'.idxlen == d.idxlen) && (due.pieces == 0 <==> d'.datlen == d.datlen)
  {
    hide Stored, Records, Erased, OverLimit, LegalData;
    if call.StoreCall? {
      StoreGrows(d, call.key, call.data, call.flag);
    } else if call.DeleteCall? && call.key in d.m {
      ErasedGrows(d, call.key);
    }
  }
}
