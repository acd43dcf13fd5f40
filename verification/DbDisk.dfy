/** What a caller sees of the database: the finite map, and the three numbers and sizes
    that decide whether a store finds room.  Every call is a function on these. */
module DbDisk {
  import opened DbFormat

  const DB_INSERT := 1
  const DB_REPLACE := 2
  const DB_STORE := 3

  /** A return code, or the end of the process in `err_dump`. */
  datatype Reply = Code(rc: int) | Stopped

  predicate ValidFlag(flag: int) {
    flag == DB_INSERT || flag == DB_REPLACE || flag == DB_STORE
  }

  // ----- the finite map that a run of calls behaves like -----

  datatype Call = StoreCall(key: string, data: string, flag: int) | FetchCall(key: string) | DeleteCall(key: string)
  datatype Answer = Status(rc: int) | Fetched(data: Option<string>)

  function AnswerTo(m: map<string, string>, call: Call): Answer {
    match call
    case StoreCall(key, data, flag) =>
      Status(if !ValidFlag(flag) || (key !in m && flag == DB_REPLACE) then -1
             else if key in m && flag == DB_INSERT then 1 else 0)
    case FetchCall(key) => Fetched(if key in m then Some(m[key]) else None)
    case DeleteCall(key) => Status(if key in m then 0 else -1)
  }

  function AfterCall(m: map<string, string>, call: Call): map<string, string> {
    match call
    case StoreCall(key, data, _) => if AnswerTo(m, call) == Status(0) then m[key := data] else m
    case FetchCall(_) => m
    case DeleteCall(key) => m - {key}
  }

  function After(m: map<string, string>, calls: seq<Call>): map<string, string> {
    if calls == [] then m else AfterCall(After(m, calls[..|calls| - 1]), calls[|calls| - 1])
  }

  function Answers(m: map<string, string>, calls: seq<Call>): seq<Answer> {
    if calls == [] then []
    else
      var n := |calls| - 1;
      Answers(m, calls[..n]) + [AnswerTo(After(m, calls[..n]), calls[n])]
  }

  /** What is left when a store stops the process: if it had begun to replace the
      record of its key, that record is gone. */
  function AfterStop(m: map<string, string>, call: Call): map<string, string> {
    match call
    case StoreCall(key, data, _) => if LegalData(data) then m - {key} else m
    case FetchCall(_) => m
    case DeleteCall(_) => m
  }

  /** What makes it a map: a store that is answered with 0 is what a fetch then finds, until the
      key is deleted; no call changes another key; an insertion is refused if and only if the
      key is there, a replacement if and only if it is not. */
  lemma MapLaws(m: map<string, string>, key: string, data: string, other: string)
    ensures forall flag :: AnswerTo(m, StoreCall(key, data, flag)) == Status(0) ==>
              AnswerTo(AfterCall(m, StoreCall(key, data, flag)), FetchCall(key)) == Fetched(Some(data))
    ensures AnswerTo(AfterCall(m, DeleteCall(key)), FetchCall(key)) == Fetched(None)
    ensures AnswerTo(m, DeleteCall(key)) == Status(0) <==> AnswerTo(m, FetchCall(key)) != Fetched(None)
    ensures AnswerTo(m, StoreCall(key, data, 1)) == Status(1) <==> AnswerTo(m, FetchCall(key)) != Fetched(None)
    ensures AnswerTo(m, StoreCall(key, data, 2)) == Status(-1) <==> AnswerTo(m, FetchCall(key)) == Fetched(None)
    ensures AnswerTo(m, StoreCall(key, data, 3)) == Status(0)
    ensures forall call: Call :: call.key != other ==>
              AnswerTo(AfterCall(m, call), FetchCall(other)) == AnswerTo(m, FetchCall(other))
  {
  }

  lemma AnswersSnoc(m: map<string, string>, calls: seq<Call>, n: nat)
    requires n < |calls|
    ensures After(m, calls[..n + 1]) == AfterCall(After(m, calls[..n]), calls[n])
    ensures Answers(m, calls[..n + 1]) == Answers(m, calls[..n]) + [AnswerTo(After(m, calls[..n]), calls[n])]
  {
    assert calls[..n + 1][..n] == calls[..n];
  }

  // ----- the map and the room in the files -----

  /** The map, the sizes of the free records (of key and data with newline), and the
      lengths of the two files. */
  datatype Disk = Disk(m: map<string, string>, free: multiset<(nat, nat)>, idxlen: nat, datlen: nat)

  predicate LegalData(data: string) {
    DATLEN_MIN <= |data| + 1 <= DATLEN_MAX
  }

  /** A record with this key and data has a legal length. */
  predicate FitsIndex(key: string, datlen: nat, n: nat) {
    IDXLEN_MIN <= |Body(Rec(0, key, datlen, n + 1))| <= IDXLEN_MAX
  }

  /** A new record cannot be appended: it is too short or too long, or it starts
      beyond the largest offset a pointer field can hold. */
  predicate OverLimit(d: Disk, key: string, n: nat) {
    !FitsIndex(key, d.datlen, n) || d.idxlen > PTR_MAX
  }

  /** The length of a record in the index file. */
  function RecSize(key: string, datlen: nat, n: nat): nat {
    PTR_SZ + IDXLEN_SZ + |Body(Rec(0, key, datlen, n + 1))|
  }

  /** The data is appended, then the record if its length is legal, and then it is linked
      unless it starts too far out. */
  function Appended(d: Disk, key: string, data: string): Disk {
    Disk(if OverLimit(d, key, |data|) then d.m else d.m[key := data], d.free,
         if FitsIndex(key, d.datlen, |data|) then d.idxlen + RecSize(key, d.datlen, |data|) else d.idxlen,
         d.datlen + |data| + 1)
  }

  /** The record of a key has become a free one. */
  function Erased(d: Disk, key: string): Disk
    requires key in d.m
  {
    d.(m := d.m - {key}, free := d.free + multiset{(|key|, |d.m[key]| + 1)})
  }

  /** A free record of the right sizes has been filled. */
  function Reused(d: Disk, key: string, data: string): Disk {
    d.(m := d.m[key := data], free := d.free - multiset{(|key|, |data| + 1)})
  }

  function AppendReply(d: Disk, key: string, data: string): Reply {
    if OverLimit(d, key, |data|) then Stopped else Code(0)
  }

  function StoreReply(d: Disk, key: string, data: string, flag: int): Reply {
    if !ValidFlag(flag) then Code(-1)
    else if !LegalData(data) then Stopped
    else if key !in d.m then
      if flag == DB_REPLACE then Code(-1)
      else if (|key|, |data| + 1) in d.free then Code(0)
      else AppendReply(d, key, data)
    else if flag == DB_INSERT then Code(1)
    else if |data| == |d.m[key]| then Code(0)
    else AppendReply(Erased(d, key), key, data)
  }

  function Stored(d: Disk, key: string, data: string, flag: int): Disk {
    if !ValidFlag(flag) || !LegalData(data) then d
    else if key !in d.m then
      if flag == DB_REPLACE then d
      else if (|key|, |data| + 1) in d.free then Reused(d, key, data)
      else Appended(d, key, data)
    else if flag == DB_INSERT then d
    else if |data| == |d.m[key]| then d.(m := d.m[key := data])
    else Appended(Erased(d, key), key, data)
  }

  /** The answer to a call, unless it stops the process. */
  function Reaction(d: Disk, call: Call): Option<Answer> {
    match call
    case StoreCall(key, data, flag) =>
      var reply := StoreReply(d, key, data, flag);
      if reply.Stopped? then None else Some(Status(reply.rc))
    case FetchCall(key) => Some(Fetched(if key in d.m then Some(d.m[key]) else None))
    case DeleteCall(key) => Some(Status(if key in d.m then 0 else -1))
  }

  function Performed(d: Disk, call: Call): Disk {
    match call
    case StoreCall(key, data, flag) => Stored(d, key, data, flag)
    case FetchCall(_) => d
    case DeleteCall(key) => if key in d.m then Erased(d, key) else d
  }

  /** The answers to a sequence of calls up to the first that stops the process. */
  function RunAnswers(d: Disk, calls: seq<Call>): (answers: seq<Answer>)
    ensures |answers| <= |calls|
    decreases |calls|
  {
    if calls == [] || Reaction(d, calls[0]).None? then []
    else [Reaction(d, calls[0]).value] + RunAnswers(Performed(d, calls[0]), calls[1..])
  }

  /** What the run leaves, the call that stops it included. */
  function RunEnd(d: Disk, calls: seq<Call>): Disk
    decreases |calls|
  {
    if calls == [] then d
    else if Reaction(d, calls[0]).None? then Performed(d, calls[0])
    else RunEnd(Performed(d, calls[0]), calls[1..])
  }

  /** The limits in numbers: a new key that finds no free record is stored if and only if the
      data has 1 to 1023 characters, the record without its pointer and length has 6 to 1024,
      and the index file has at most 999999; the record then takes 10 characters more. */
  lemma StoreLimits(d: Disk, key: string, data: string)
    requires key !in d.m && (|key|, |data| + 1) !in d.free
    ensures var len := |key| + |Decimal(d.datlen)| + |Decimal(|data| + 1)| + 3;
            && (StoreReply(d, key, data, DB_INSERT) == Code(0) <==>
                  1 <= |data| <= 1023 && 6 <= len <= 1024 && d.idxlen <= 999999)
            && (StoreReply(d, key, data, DB_INSERT) == Code(0) ==>
                  && Stored(d, key, data, DB_INSERT).idxlen == d.idxlen + len + 10
                  && Stored(d, key, data, DB_INSERT).datlen == d.datlen + |data| + 1)
  {
  }

  // ----- how the files grow -----

  /** The records in the index file, live and free. */
  function Records(d: Disk): nat {
    |d.m| + |d.free|
  }

  lemma Replaced(m: map<string, string>, key: string, data: string)
    ensures |m[key := data]| == |m| + (if key in m then 0 else 1)
    ensures key in m ==> |m - {key}| == |m| - 1
  {
    if key in m {
      assert m[key := data].Keys == m.Keys && (m - {key}).Keys == m.Keys - {key};
    } else {
      assert m[key := data].Keys == m.Keys + {key};
    }
  }

  /** A deletion neither adds nor removes a record: the one of the key becomes free. */
  lemma ErasedGrows(d: Disk, key: string)
    requires key in d.m
    ensures var d' := Erased(d, key);
            && Records(d') == Records(d) && |d'.free| == |d.free| + 1
            && d'.idxlen == d.idxlen && d'.datlen == d.datlen
  {
    Replaced(d.m, key, "");
  }

  /** What an answered store adds to the files: nothing if the data has the length of the data
      it replaces, or if the key is new and a free record has its sizes, which is then free no
      more; otherwise one record, while the record it replaces becomes free. */
  lemma StoreGrows(d: Disk, key: string, data: string, flag: int)
    requires StoreReply(d, key, data, flag).Code?
    ensures var d', done := Stored(d, key, data, flag), StoreReply(d, key, data, flag) == Code(0);
            var same := key in d.m && |d.m[key]| == |data|;
            var reuse := key !in d.m && (|key|, |data| + 1) in d.free;
            && Records(d') == Records(d) + (if done && !same && !reuse then 1 else 0)
            && |d'.free| == |d.free| + (if done && reuse then -1 else if done && key in d.m && !same then 1 else 0)
            && (d'.idxlen == d.idxlen <==> !done || same || reuse)
            && (d'.datlen == d.datlen <==> !done || same || reuse)
            && (!done ==> d' == d)
  {
    hide OverLimit, FitsIndex, RecSize, LegalData;
    Replaced(d.m, key, data);
    if key in d.m {
      ErasedGrows(d, key);
      Replaced(d.m - {key}, key, data);
      AppendGrows(Erased(d, key), key, data);
    }
    AppendGrows(d, key, data);
  }

  lemma AppendGrows(d: Disk, key: string, data: string)
    ensures !OverLimit(d, key, |data|) ==> Appended(d, key, data).idxlen > d.idxlen
  {
  }

  // ----- the run is that of a finite map -----

  /** A call that is answered is answered as by the map; one that is not is a store and may
      have lost its key. */
  lemma ReactionIsMap(d: Disk, call: Call)
    ensures match Reaction(d, call)
            case Some(answer) => answer == AnswerTo(d.m, call) && Performed(d, call).m == AfterCall(d.m, call)
            case None => call.StoreCall? && Performed(d, call).m == AfterStop(d.m, call)
  {
    hide Stored, StoreReply;
    if call.StoreCall? {
      StoreIsMap(d, call.key, call.data, call.flag);
    }
  }

  lemma StoreIsMap(d: Disk, key: string, data: string, flag: int)
    ensures var m, m', call := d.m, Stored(d, key, data, flag).m, StoreCall(key, data, flag);
            match StoreReply(d, key, data, flag)
            case Code(rc) => AnswerTo(m, call) == Status(rc) && m' == AfterCall(m, call)
            case Stopped => m' == AfterStop(m, call)
  {
    hide OverLimit, FitsIndex, RecSize;
    WithoutKey(d.m, key, data);
  }

  lemma WithoutKey(m: map<string, string>, key: string, data: string)
    ensures (m - {key})[key := data] == m[key := data] && (key !in m ==> m - {key} == m)
  {
  }

  lemma {:induction false} AfterCons(m: map<string, string>, call: Call, calls: seq<Call>)
    ensures After(m, [call] + calls) == After(AfterCall(m, call), calls)
    ensures Answers(m, [call] + calls) == [AnswerTo(m, call)] + Answers(AfterCall(m, call), calls)
  {
    hide AfterCall, AnswerTo;
    var all := [call] + calls;
    if calls == [] {
      assert all[..0] == [];
    } else {
      var n := |calls| - 1;
      AfterCons(m, call, calls[..n]);
      assert all[..n + 1] == [call] + calls[..n];
    }
  }

  /** Whatever the files look like: the answers are those of the finite map up to the end
      of the run, and if it ends early then at a store, with its key unchanged or lost. */
  lemma {:induction false} RunIsMap(d: Disk, calls: seq<Call>)
    ensures var n := |RunAnswers(d, calls)|;
            && RunAnswers(d, calls) == Answers(d.m, calls[..n])
            && (n == |calls| ==> RunEnd(d, calls).m == After(d.m, calls))
            && (n < |calls| ==>
                    calls[n].StoreCall? &&
                    RunEnd(d, calls).m == AfterStop(After(d.m, calls[..n]), calls[n]))
    decreases |calls|
  {
    hide Reaction, Performed, AfterStop;
    if calls != [] {
      ReactionIsMap(d, calls[0]);
      if Reaction(d, calls[0]).Some? {
        var rest, d' := calls[1..], Performed(d, calls[0]);
        RunIsMap(d', rest);
        var n := |RunAnswers(d', rest)|;
        AfterCons(d.m, calls[0], rest[..n]);
        assert calls[..n + 1] == [calls[0]] + rest[..n];
        assert n == |rest| ==> rest[..n] == rest && calls[..n + 1] == calls;
      }
    }
  }

  // ----- when a run comes to its end -----

  /** The stores among the calls. */
  function Stores(calls: seq<Call>): nat {
    if calls == [] then 0 else (if calls[0].StoreCall? then 1 else 0) + Stores(calls[1..])
  }

  /** The longest record and the longest data. */
  const REC_MAX := PTR_SZ + IDXLEN_SZ + IDXLEN_MAX

  /** A call that a caller can see to be legal while the data file has offsets of at most
      `digits` digits. */
  predicate Modest(call: Call, digits: nat) {
    call.StoreCall? ==> LegalData(call.data) && 1 <= |call.key| <= IDXLEN_MAX - digits - 7
  }

  /** Room for `n` stores. */
  predicate HasRoom(d: Disk, n: nat, digits: nat) {
    d.idxlen + n * REC_MAX <= PTR_MAX && d.datlen + n * DATLEN_MAX < Pow10(digits)
  }

  lemma ModestFits(d: Disk, call: Call, n: nat, digits: nat)
    requires call.StoreCall? && Modest(call, digits) && HasRoom(d, n + 1, digits) && digits >= 1
    ensures !OverLimit(d, call.key, |call.data|) && RecSize(call.key, d.datlen, |call.data|) <= REC_MAX
  {
    DecimalLength(d.datlen, digits);
    assert Pow10(4) == 10000;
    DecimalLength(|call.data| + 1, 4);
  }

  /** A store never stops and leaves room for one store less. */
  lemma RoomAfter(d: Disk, call: Call, n: nat, digits: nat)
    requires Modest(call, digits) && digits >= 1 && HasRoom(d, n + (if call.StoreCall? then 1 else 0), digits)
    ensures Reaction(d, call).Some? && HasRoom(Performed(d, call), n, digits)
  {
    if call.StoreCall? {
      ModestFits(d, call, n, digits);
      if call.key in d.m {
        ModestFits(Erased(d, call.key), call, n, digits);
      }
      hide OverLimit, FitsIndex, RecSize;
    }
  }

  /** If the stores have legal lengths and the files have room for all of them, every call
      is answered. */
  lemma {:induction false} RunsThrough(d: Disk, calls: seq<Call>, digits: nat)
    requires (forall i :: 0 <= i < |calls| ==> Modest(calls[i], digits)) && digits >= 1
    requires HasRoom(d, Stores(calls), digits)
    ensures |RunAnswers(d, calls)| == |calls|
    decreases |calls|
  {
    hide Reaction, Performed, Modest, HasRoom;
    if calls != [] {
      RoomAfter(d, calls[0], Stores(calls[1..]), digits);
      RunsThrough(Performed(d, calls[0]), calls[1..], digits);
    }
  }
}
