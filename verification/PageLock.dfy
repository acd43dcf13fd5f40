/** The page allocator on several processors: taking and giving back pages under a spin
    lock.  A step is one write to shared memory, with the reads that go into it: the check
    who holds the lock reads two words, and moving the head of the list on reads a link. */
module PageLock {
  import opened PageCounts

  datatype Pc =
    | Out
    | CheckRef   // page_free: its assertion about the count
    | Check      // page_free: its assertion about the link
    | Enter      // spin_lock: am I holding it already?
    | Spin       // spin_lock: exchange
    | Got        // spin_lock: record the owner
    | Test       // page_alloc: is the list empty?
    | Pop        // page_alloc: move the head on
    | Clear      // page_alloc: clear the link
    | CountDown
    | Link       // page_free: link to the head
    | Push       // page_free: move the head
    | CountUp
    | Leave      // spin_unlock: am I holding it? forget the owner
    | Drop       // spin_unlock: exchange
    | Panic

  /** A processor: where it is, whether it is giving a page back, the page it works on,
      and the pages it has taken. */
  datatype Cpu = Cpu(pc: Pc, freeing: bool, pp: int, owned: set<nat>)

  /** The lock and its owner, the free list, the counts, and the processors; `free` is what
      the list stands for, updated where its head moves. */
  datatype State = State(locked: bool, owner: int, link: seq<int>, head: int, num: int, free: seq<nat>, refs: seq<nat>,
                         cpus: seq<Cpu>)

  /** A processor changes the count of a page that it owns, and gives a page back only when
      the count is zero. */
  datatype Action = BeginAlloc | BeginFree(p: nat) | Count(p: nat, n: nat) | Go

  predicate Holding(s: State, c: nat) {
    s.locked && s.owner == c
  }

  predicate Enabled(s: State, c: nat, a: Action) {
    c < |s.cpus| &&
    match a
    case BeginAlloc => s.cpus[c].pc == Out
    case BeginFree(p) => s.cpus[c].pc == Out && p in s.cpus[c].owned && p < |s.refs| && s.refs[p] == 0
    case Count(p, _) => s.cpus[c].pc == Out && p in s.cpus[c].owned && p < |s.refs|
    case Go => CanGo(s, s.cpus[c])
  }

  /** The processor has something to do, and the page it is to work on exists. */
  predicate CanGo(s: State, q: Cpu) {
    match q.pc
    case Out | Panic => false
    case CheckRef => 0 <= q.pp < |s.refs|
    case Check | Clear | Link | Push => 0 <= q.pp < |s.link|
    case Pop => 0 <= q.pp < |s.link| && s.free != []
    case _ => true
  }

  function Moved(s: State, c: nat, q: Cpu): State
    requires c < |s.cpus|
  {
    s.(cpus := s.cpus[c := q])
  }

  function Next(s: State, c: nat, a: Action): State
    requires Enabled(s, c, a)
  {
    var q := s.cpus[c];
    match a
    case BeginAlloc => Moved(s, c, q.(pc := Enter, freeing := false, pp := NULL))
    case BeginFree(p) => Moved(s, c, Cpu(CheckRef, true, p, q.owned - {p}))
    case Count(p, n) => s.(refs := s.refs[p := n])
    case Go =>
      match q.pc
      case Out => s
      case Panic => s
      case CheckRef => Moved(s, c, q.(pc := if s.refs[q.pp] == 0 then Check else Panic))
      case Check => Moved(s, c, q.(pc := if s.link[q.pp] == NULL then Enter else Panic))
      case Enter => Moved(s, c, q.(pc := if Holding(s, c) then Panic else Spin))
      case Spin => if s.locked then s else Moved(s.(locked := true), c, q.(pc := Got))
      case Got => Moved(s.(owner := c), c, q.(pc := if q.freeing then Link else Test))
      case Test => Moved(s, c, if s.head == NULL then q.(pc := Leave, pp := NULL) else q.(pc := Pop, pp := s.head))
      case Pop => Moved(s.(head := s.link[q.pp], free := s.free[1..]), c, q.(pc := Clear))
      case Clear => Moved(s.(link := s.link[q.pp := NULL]), c, q.(pc := CountDown))
      case CountDown => Moved(s.(num := s.num - 1), c, q.(pc := Leave))
      case Link => Moved(s.(link := s.link[q.pp := s.head]), c, q.(pc := Push))
      case Push => Moved(s.(head := q.pp, free := [q.pp] + s.free), c, q.(pc := CountUp))
      case CountUp => Moved(s.(num := s.num + 1), c, q.(pc := Leave))
      case Leave => if Holding(s, c) then Moved(s.(owner := NULL), c, q.(pc := Drop)) else Moved(s, c, q.(pc := Panic))
      case Drop => Moved(s.(locked := false), c,
                         Cpu(Out, false, NULL, if !q.freeing && q.pp >= 0 then q.owned + {q.pp} else q.owned))
  }

  // ----- the invariant -----

  predicate HasLock(q: Cpu) {
    match q.pc
    case Out | CheckRef | Check | Enter | Spin | Panic => false
    case _ => true
  }

  /** On the way to giving a page back. */
  predicate Returning(q: Cpu) {
    q.freeing && (q.pc == CheckRef || q.pc == Check || q.pc == Enter || q.pc == Spin || q.pc == Got || q.pc == Link ||
                  q.pc == Push)
  }

  /** On the way from the list to keeping a page. */
  predicate Taking(q: Cpu) {
    !q.freeing && (q.pc == Clear || q.pc == CountDown || q.pc == Leave || q.pc == Drop)
  }

  /** The page is in the processor's hands. */
  predicate Claims(q: Cpu, p: nat) {
    p in q.owned || (q.pp == p && (Returning(q) || Taking(q)))
  }

  /** The right page number at every point. */
  predicate PageOk(q: Cpu, n: nat) {
    match q.pc
    case Panic => false
    case Out => true
    case CheckRef | Check | Link | Push | CountUp => q.freeing && 0 <= q.pp < n
    case Enter | Spin | Got => q.freeing ==> 0 <= q.pp < n
    case Test => !q.freeing
    case Pop | Clear | CountDown => !q.freeing && 0 <= q.pp < n
    case Leave | Drop => NULL <= q.pp < n
  }

  ghost predicate CpuOk(s: State, c: nat, h: int) {
    c < |s.cpus| &&
    var q := s.cpus[c];
    && PageOk(q, |s.link|)
    && (HasLock(q) <==> c == h)
    && (s.owner == c <==> HasLock(q) && q.pc != Got && q.pc != Drop)
    && (forall p :: p in q.owned ==> p < |s.link|)
    && (Returning(q) ==> q.pp !in q.owned)
  }

  /** The list as it will be once the processor with the lock has finished what it is in
      the middle of. */
  ghost predicate ListOk(s: State, h: int) {
    var pc, pp := if 0 <= h < |s.cpus| then s.cpus[h].pc else Out, if 0 <= h < |s.cpus| then s.cpus[h].pp else NULL;
    if pc == Pop then FreeList(s.link, s.head, s.free, s.num) && s.free != [] && pp == s.head
    else if pc == Clear then 0 <= pp < |s.link| && FreeList(s.link[pp := NULL], s.head, s.free, s.num - 1)
    else if pc == CountDown then FreeList(s.link, s.head, s.free, s.num - 1)
    else if pc == Push then
      0 <= pp < |s.link| && s.link[pp] == s.head && FreeList(s.link[pp := NULL], s.head, s.free, s.num)
    else if pc == CountUp then FreeList(s.link, s.head, s.free, s.num + 1)
    else FreeList(s.link, s.head, s.free, s.num)
  }

  /** No page is in two hands, and none that is in anyone's hands is on the list. */
  ghost predicate ClaimsOk(s: State) {
    && (forall c, p: nat :: 0 <= c < |s.cpus| && Claims(s.cpus[c], p) ==> p !in s.free)
    && (forall c, e, p: nat ::
          0 <= c < |s.cpus| && 0 <= e < |s.cpus| && Claims(s.cpus[c], p) && Claims(s.cpus[e], p) ==> c == e)
  }

  /** The count of a page that is about to be given back is still zero. */
  ghost predicate CountsOk(s: State) {
    && |s.refs| == |s.link|
    && forall c :: 0 <= c < |s.cpus| && s.cpus[c].pc == CheckRef && 0 <= s.cpus[c].pp < |s.refs| ==>
         s.refs[s.cpus[c].pp] == 0
  }

  /** Safe, with the lock in the hands of processor `h`, or of none if `h` is NULL. */
  ghost predicate Safe(s: State, h: int) {
    && NULL <= h < |s.cpus| && (s.locked <==> h != NULL) && NULL <= s.owner < |s.cpus|
    && (forall c :: 0 <= c < |s.cpus| ==> CpuOk(s, c, h))
    && ListOk(s, h) && ClaimsOk(s) && CountsOk(s)
  }

  // ----- every step keeps it -----

  /** Who has the lock after the step. */
  ghost function Holder(s: State, h: int, c: nat, a: Action): int
    requires Enabled(s, c, a)
  {
    if a == Go && s.cpus[c].pc == Spin && !s.locked then c
    else if a == Go && s.cpus[c].pc == Drop then NULL
    else h
  }

  /** A page in a processor's hands has no link when the processor is about to give it
      back: the assertion of page_free never fails. */
  lemma LinkClear(s: State, h: int, c: nat)
    requires Safe(s, h) && c < |s.cpus| && (s.cpus[c].pc == Check || s.cpus[c].pc == Link)
    ensures 0 <= s.cpus[c].pp < |s.link| && s.link[s.cpus[c].pp] == NULL && s.cpus[c].pp !in s.free
  {
    var q := s.cpus[c];
    assert CpuOk(s, c, h);
    var p: nat := q.pp;
    assert Claims(q, p);
    NotTheirs(s, h, c, p);
    LinkUnlisted(s, h, p);
  }

  /** The page that the processor with the lock has in its hands is not another's. */
  lemma NotTheirs(s: State, h: int, c: nat, p: nat)
    requires Safe(s, h) && c < |s.cpus| && Claims(s.cpus[c], p)
    ensures 0 <= h < |s.cpus| && h != c && (s.cpus[h].pc == Clear || s.cpus[h].pc == Push) ==> s.cpus[h].pp != p
  {
    if 0 <= h < |s.cpus| && h != c && (s.cpus[h].pc == Clear || s.cpus[h].pc == Push) {
      assert CpuOk(s, h, h);
      var r: nat := s.cpus[h].pp;
      assert Claims(s.cpus[h], r);
    }
  }

  lemma LinkUnlisted(s: State, h: int, p: nat)
    requires ListOk(s, h) && p < |s.link| && p !in s.free
    requires 0 <= h < |s.cpus| && (s.cpus[h].pc == Clear || s.cpus[h].pc == Push) ==> s.cpus[h].pp != p
    ensures s.link[p] == NULL
  {
  }

  lemma HeadBound(s: State, h: int)
    requires ListOk(s, h)
    ensures NULL <= s.head < |s.link|
  {
  }

  /** The processor itself. */
  lemma OwnStep(s: State, h: int, c: nat, a: Action)
    requires CpuOk(s, c, h) && Enabled(s, c, a) && (s.locked <==> h != NULL) && NULL <= s.head < |s.link|
    requires a == Go && s.cpus[c].pc == Check ==> CanGo(s, s.cpus[c]) && s.link[s.cpus[c].pp] == NULL
    requires a == Go && s.cpus[c].pc == CheckRef ==> CanGo(s, s.cpus[c]) && s.refs[s.cpus[c].pp] == 0
    ensures CpuOk(Next(s, c, a), c, Holder(s, h, c, a))
  {
  }

  /** The others: the owner is recorded and forgotten only by the processor with the lock. */
  lemma OtherStep(s: State, h: int, c: nat, a: Action, e: nat)
    requires CpuOk(s, c, h) && CpuOk(s, e, h) && Enabled(s, c, a) && (s.locked <==> h != NULL) && e != c
    ensures CpuOk(Next(s, c, a), e, Holder(s, h, c, a))
  {
  }

  lemma CpusStep(s: State, h: int, c: nat, a: Action)
    requires Safe(s, h) && Enabled(s, c, a)
    ensures forall e :: 0 <= e < |Next(s, c, a).cpus| ==> CpuOk(Next(s, c, a), e, Holder(s, h, c, a))
  {
    HeadBound(s, h);
    if a == Go && s.cpus[c].pc == Check {
      LinkClear(s, h, c);
    }
    OwnStep(s, h, c, a);
    hide CpuOk, ListOk, ClaimsOk;
    forall e | 0 <= e < |Next(s, c, a).cpus| ensures CpuOk(Next(s, c, a), e, Holder(s, h, c, a)) {
      if e != c {
        OtherStep(s, h, c, a, e);
      }
    }
  }

  lemma LockStep(s: State, h: int, c: nat, a: Action)
    requires Safe(s, h) && Enabled(s, c, a)
    ensures var t, h' := Next(s, c, a), Holder(s, h, c, a);
            NULL <= h' < |t.cpus| && (t.locked <==> h' != NULL) && NULL <= t.owner < |t.cpus|
  {
    assert CpuOk(s, c, h);
    hide ListOk, ClaimsOk;
  }

  // ----- the list -----

  /** Only the processor with the lock is in the middle of anything. */
  lemma ListStep(s: State, h: int, c: nat, a: Action)
    requires Safe(s, h) && Enabled(s, c, a)
    ensures ListOk(Next(s, c, a), Holder(s, h, c, a))
  {
    assert CpuOk(s, c, h);
    if c != h {
      hide FreeList, ClaimsOk;
      ListElsewhere(s, h, c, a);
    } else {
      var pc := s.cpus[c].pc;
      if pc == Pop || pc == Clear || pc == CountDown {
        PopStep(s, h, c);
      } else if pc == Link {
        LinkStep(s, h, c);
      } else if pc == Push || pc == CountUp {
        if pc == Push {
          PushedBack(s, h, c);
        }
        hide FreeList, ClaimsOk;
        PushStep(s, h, c);
      } else {
        QuietStep(s, h, c);
      }
    }
  }

  lemma ListElsewhere(s: State, h: int, c: nat, a: Action)
    requires CpuOk(s, c, h) && Enabled(s, c, a) && ListOk(s, h) && c != h && (s.locked <==> h != NULL)
    ensures ListOk(Next(s, c, a), Holder(s, h, c, a))
  {
    hide FreeList;
  }

  lemma PopStep(s: State, h: int, c: nat)
    requires c == h && CpuOk(s, c, h) && ListOk(s, h) && Enabled(s, c, Go)
    requires s.cpus[c].pc == Pop || s.cpus[c].pc == Clear || s.cpus[c].pc == CountDown
    ensures ListOk(Next(s, c, Go), h)
  {
    hide FreeList;
    if s.cpus[c].pc == Pop {
      Popped(s.link, s.head, s.free, s.num);
    }
  }

  lemma LinkStep(s: State, h: int, c: nat)
    requires Safe(s, h) && c == h && c < |s.cpus| && s.cpus[c].pc == Link && Enabled(s, c, Go)
    ensures ListOk(Next(s, c, Go), h)
  {
    LinkClear(s, h, c);
    hide FreeList, ClaimsOk, CpuOk;
    var p := s.cpus[c].pp;
    assert s.link[p := s.head][p := NULL] == s.link;
  }

  lemma QuietStep(s: State, h: int, c: nat)
    requires c == h && CpuOk(s, c, h) && ListOk(s, h) && Enabled(s, c, Go)
    requires var pc := s.cpus[c].pc; pc == Got || pc == Test || pc == Leave || pc == Drop
    ensures ListOk(Next(s, c, Go), Holder(s, h, c, Go))
  {
    hide FreeList;
    if s.cpus[c].pc == Test {
      TestStep(s, h, c);
    }
  }

  lemma TestStep(s: State, h: int, c: nat)
    requires c == h && c < |s.cpus| && s.cpus[c].pc == Test && ListOk(s, h) && Enabled(s, c, Go)
    ensures ListOk(Next(s, c, Go), h)
  {
    HeadNull(s.link, s.head, s.free, s.num);
    hide FreeList;
  }

  lemma HeadNull(link: seq<int>, head: int, free: seq<nat>, num: int)
    requires FreeList(link, head, free, num)
    ensures head == NULL <==> free == []
  {
  }

  lemma PushStep(s: State, h: int, c: nat)
    requires c == h && CpuOk(s, c, h) && ListOk(s, h) && Enabled(s, c, Go) &&
             (s.cpus[c].pc == Push || s.cpus[c].pc == CountUp)
    requires var p := s.cpus[c].pp; s.cpus[c].pc == Push ==> 0 <= p && FreeList(s.link, p, [p] + s.free, s.num + 1)
    ensures ListOk(Next(s, c, Go), h)
  {
    hide FreeList;
  }

  lemma PushedBack(s: State, h: int, c: nat)
    requires Safe(s, h) && c == h && c < |s.cpus| && s.cpus[c].pc == Push
    ensures FreeList(s.link, s.cpus[c].pp, [s.cpus[c].pp] + s.free, s.num + 1)
  {
    var q := s.cpus[c];
    assert CpuOk(s, c, h);
    var p: nat := q.pp;
    assert Claims(q, p);
    Pushed(s.link[p := NULL], s.head, s.free, s.num, p);
    assert s.link[p := NULL][p := s.head] == s.link;
  }

  // ----- the pages -----

  /** A step that takes no page into the processor's hands and puts none on the list. */
  lemma ClaimsKept(s: State, t: State, c: nat)
    requires ClaimsOk(s) && c < |s.cpus| == |t.cpus| && t.free == s.free && t.cpus == s.cpus[c := t.cpus[c]]
    requires forall p: nat :: Claims(t.cpus[c], p) ==> Claims(s.cpus[c], p)
    ensures ClaimsOk(t)
  {
    hide Claims;
    forall e, p: nat | 0 <= e < |t.cpus| && Claims(t.cpus[e], p) ensures Claims(s.cpus[e], p) {
    }
  }

  /** The first page of the list goes into the processor's hands. */
  lemma ClaimsPop(s: State, t: State, c: nat, p: nat)
    requires ClaimsOk(s) && c < |s.cpus| == |t.cpus| && t.cpus == s.cpus[c := t.cpus[c]]
    requires s.free != [] && p == s.free[0] && t.free == s.free[1..] && p !in t.free
    requires forall r: nat :: Claims(t.cpus[c], r) ==> Claims(s.cpus[c], r) || r == p
    ensures ClaimsOk(t)
  {
    hide Claims;
    assert p in s.free && forall r: nat :: r in t.free ==> r in s.free;
    forall e, r: nat | 0 <= e < |t.cpus| && Claims(t.cpus[e], r) ensures r !in t.free {
      assert Claims(s.cpus[e], r) || (e == c && r == p);
    }
    forall e, f, r: nat | 0 <= e < |t.cpus| && 0 <= f < |t.cpus| && Claims(t.cpus[e], r) && Claims(t.cpus[f], r)
      ensures e == f
    {
      assert Claims(s.cpus[e], r) || (e == c && r == p);
      assert Claims(s.cpus[f], r) || (f == c && r == p);
    }
  }

  /** A page goes from the processor's hands onto the list. */
  lemma ClaimsPush(s: State, t: State, c: nat, p: nat)
    requires ClaimsOk(s) && c < |s.cpus| == |t.cpus| && t.cpus == s.cpus[c := t.cpus[c]]
    requires t.free == [p] + s.free && Claims(s.cpus[c], p) && !Claims(t.cpus[c], p)
    requires forall r: nat :: Claims(t.cpus[c], r) ==> Claims(s.cpus[c], r)
    ensures ClaimsOk(t)
  {
    hide Claims;
    forall e, r: nat | 0 <= e < |t.cpus| && Claims(t.cpus[e], r) ensures Claims(s.cpus[e], r) && r != p {
    }
  }

  lemma NoNewClaim(s: State, h: int, c: nat, a: Action, p: nat)
    requires CpuOk(s, c, h) && Enabled(s, c, a)
    ensures var t := Next(s, c, a);
            && |t.cpus| == |s.cpus| && t.cpus == s.cpus[c := t.cpus[c]]
            && (Claims(t.cpus[c], p) ==> Claims(s.cpus[c], p) || (a == Go && s.cpus[c].pc == Pop && p == s.cpus[c].pp))
            && (a == Go && s.cpus[c].pc == Push && p == s.cpus[c].pp ==> Claims(s.cpus[c], p) && !Claims(t.cpus[c], p))
  {
  }

  lemma ClaimsStep(s: State, h: int, c: nat, a: Action)
    requires Safe(s, h) && Enabled(s, c, a)
    ensures ClaimsOk(Next(s, c, a))
  {
    assert CpuOk(s, c, h);
    var q, t := s.cpus[c], Next(s, c, a);
    if a == Go && q.pc == Pop {
      Popped(s.link, s.head, s.free, s.num);
    }
    hide ListOk, ClaimsOk, Claims, CpuOk;
    forall p: nat
      ensures |t.cpus| == |s.cpus| && t.cpus == s.cpus[c := t.cpus[c]]
      ensures Claims(t.cpus[c], p) ==> Claims(s.cpus[c], p) || (a == Go && q.pc == Pop && p == q.pp)
      ensures a == Go && q.pc == Push && p == q.pp ==> Claims(s.cpus[c], p) && !Claims(t.cpus[c], p)
    {
      NoNewClaim(s, h, c, a, p);
    }
    if a == Go && q.pc == Pop {
      ClaimsPop(s, t, c, q.pp);
    } else if a == Go && q.pc == Push {
      ClaimsPush(s, t, c, q.pp);
    } else {
      ClaimsKept(s, t, c);
    }
  }

  lemma OneHand(s: State, c: nat, e: nat, p: nat)
    requires ClaimsOk(s) && c < |s.cpus| && e < |s.cpus| && c != e && Claims(s.cpus[e], p)
    ensures !Claims(s.cpus[c], p)
  {
  }

  /** Nobody changes the count of a page that is in another's hands. */
  lemma CountsStep(s: State, h: int, c: nat, a: Action)
    requires Safe(s, h) && Enabled(s, c, a)
    ensures CountsOk(Next(s, c, a))
  {
    hide ListOk, FreeList;
    var t := Next(s, c, a);
    forall e | 0 <= e < |t.cpus| && t.cpus[e].pc == CheckRef && 0 <= t.cpus[e].pp < |t.refs|
      ensures t.refs[t.cpus[e].pp] == 0
    {
      assert CpuOk(s, c, h);
      if e != c {
        assert CpuOk(s, e, h);
        var p: nat := s.cpus[e].pp;
        OneHand(s, c, e, p);
      }
    }
  }

  lemma StepSafe(s: State, h: int, c: nat, a: Action)
    requires Safe(s, h) && Enabled(s, c, a)
    ensures Safe(Next(s, c, a), Holder(s, h, c, a))
  {
    LockStep(s, h, c, a);
    CpusStep(s, h, c, a);
    ListStep(s, h, c, a);
    ClaimsStep(s, h, c, a);
    CountsStep(s, h, c, a);
    hide CpuOk, ListOk, ClaimsOk, CountsOk;
  }

  // ----- runs -----

  datatype Move = Move(c: nat, a: Action)

  ghost predicate IsStep(s: State, m: Move, t: State) {
    Enabled(s, m.c, m.a) && t == Next(s, m.c, m.a)
  }

  /** At the start the lock is free, the list is sound, and the processors are outside and
      own different pages that are not on it. */
  ghost predicate Init(s: State) {
    && !s.locked && s.owner == NULL && FreeList(s.link, s.head, s.free, s.num) && ClaimsOk(s) && |s.refs| == |s.link|
    && forall c :: 0 <= c < |s.cpus| ==> s.cpus[c].pc == Out && forall p :: p in s.cpus[c].owned ==> p < |s.link|
  }

  ghost predicate IsRun(run: seq<State>, moves: seq<Move>) {
    && |run| == |moves| + 1 && Init(run[0])
    && forall i :: 0 <= i < |moves| ==> IsStep(run[i], moves[i], run[i + 1])
  }

  lemma InitSafe(s: State)
    requires Init(s)
    ensures Safe(s, NULL)
  {
    hide FreeList, ClaimsOk;
  }

  lemma {:induction false} RunSafe(run: seq<State>, moves: seq<Move>, k: nat) returns (h: int)
    requires IsRun(run, moves) && k < |run|
    ensures Safe(run[k], h)
  {
    hide Safe, Init, Next, Enabled, Holder;
    if k == 0 {
      InitSafe(run[0]);
      h := NULL;
    } else {
      var g := RunSafe(run, moves, k - 1);
      var m := moves[k - 1];
      assert IsStep(run[k - 1], m, run[k - 1 + 1]);
      StepSafe(run[k - 1], g, m.c, m.a);
      h := Holder(run[k - 1], g, m.c, m.a);
    }
  }

  /** At most one processor is inside the locked section. */
  lemma MutualExclusion(run: seq<State>, moves: seq<Move>, k: nat, c: nat, e: nat)
    requires IsRun(run, moves) && k < |run| && c < |run[k].cpus| && e < |run[k].cpus|
    requires HasLock(run[k].cpus[c]) && HasLock(run[k].cpus[e])
    ensures c == e
  {
    var h := RunSafe(run, moves, k);
    assert CpuOk(run[k], c, h) && CpuOk(run[k], e, h);
  }

  /** None of the checks that stop the kernel ever fails: neither those of the lock nor
      the assertions on the count and on the link. */
  lemma NoPanic(run: seq<State>, moves: seq<Move>, k: nat, c: nat)
    requires IsRun(run, moves) && k < |run| && c < |run[k].cpus|
    ensures run[k].cpus[c].pc != Panic
  {
    var h := RunSafe(run, moves, k);
    assert CpuOk(run[k], c, h);
  }

  /** A processor inside a call can always go on: the page it is to work on exists, and the
      list is not empty when its head is taken. */
  lemma NeverStuck(run: seq<State>, moves: seq<Move>, k: nat, c: nat)
    requires IsRun(run, moves) && k < |run| && c < |run[k].cpus| && run[k].cpus[c].pc != Out
    ensures Enabled(run[k], c, Go)
  {
    var h := RunSafe(run, moves, k);
    assert CpuOk(run[k], c, h);
  }

  /** While any processor is inside a call, some processor has a step that changes the
      state: the one with the lock, and if there is none, any. */
  lemma SomeoneMoves(run: seq<State>, moves: seq<Move>, k: nat, c: nat) returns (e: nat)
    requires IsRun(run, moves) && k < |run| && c < |run[k].cpus| && run[k].cpus[c].pc != Out
    ensures Enabled(run[k], e, Go) && Next(run[k], e, Go) != run[k]
    ensures run[k].locked ==> HasLock(run[k].cpus[e])
    ensures !run[k].locked ==> e == c
  {
    var h := RunSafe(run, moves, k);
    var s := run[k];
    e := if s.locked then h else c;
    hide FreeList, ClaimsOk, ListOk, IsRun;
    assert CpuOk(s, e, h);
    assert Next(s, e, Go).cpus[e].pc != s.cpus[e].pc;
  }

  /** Whenever the lock is free the list is sound: it has no repeats, its length is the
      number of free pages, and pages that are not on it have no link. */
  lemma ListSound(run: seq<State>, moves: seq<Move>, k: nat)
    requires IsRun(run, moves) && k < |run| && !run[k].locked
    ensures FreeList(run[k].link, run[k].head, run[k].free, run[k].num)
  {
    var h := RunSafe(run, moves, k);
  }

  /** At all times no page is both free and owned, or owned twice. */
  lemma OwnedOnce(run: seq<State>, moves: seq<Move>, k: nat, c: nat, e: nat, p: nat)
    requires IsRun(run, moves) && k < |run| && c < |run[k].cpus| && e < |run[k].cpus| && p in run[k].cpus[c].owned
    ensures p !in run[k].free && (p in run[k].cpus[e].owned ==> c == e)
  {
    var h := RunSafe(run, moves, k);
    assert Claims(run[k].cpus[c], p);
    if p in run[k].cpus[e].owned {
      assert Claims(run[k].cpus[e], p);
    }
  }

  // ----- nothing is lost -----

  ghost predicate Somewhere(s: State, p: nat) {
    p in s.free || exists c :: 0 <= c < |s.cpus| && Claims(s.cpus[c], p)
  }

  /** A step moves pages between the list and hands; it neither loses nor makes any. */
  lemma StepConserves(s: State, h: int, c: nat, a: Action, p: nat)
    requires Safe(s, h) && Enabled(s, c, a)
    ensures Somewhere(Next(s, c, a), p) <==> Somewhere(s, p)
  {
    assert CpuOk(s, c, h);
    if a == Go && s.cpus[c].pc == Pop {
      Popped(s.link, s.head, s.free, s.num);
      assert s.free == [s.cpus[c].pp] + s.free[1..];
    } else if a == Go && s.cpus[c].pc == Check {
      LinkClear(s, h, c);
    }
    HandOver(s, h, c, a, p);
    hide Next, Enabled, Claims, CpuOk, ListOk, ClaimsOk, Safe, Somewhere;
    SomewhereElse(s, Next(s, c, a), c, p);
  }

  lemma SomewhereElse(s: State, t: State, c: nat, p: nat)
    requires c < |s.cpus| == |t.cpus| && t.cpus == s.cpus[c := t.cpus[c]]
    requires p in t.free || Claims(t.cpus[c], p) <==> p in s.free || Claims(s.cpus[c], p)
    ensures Somewhere(t, p) <==> Somewhere(s, p)
  {
    hide Claims;
    if e :| 0 <= e < |s.cpus| && Claims(s.cpus[e], p) {
      assert e == c || t.cpus[e] == s.cpus[e];
    }
    if e :| 0 <= e < |t.cpus| && Claims(t.cpus[e], p) {
      assert e == c || t.cpus[e] == s.cpus[e];
    }
  }

  lemma HandOver(s: State, h: int, c: nat, a: Action, p: nat)
    requires CpuOk(s, c, h) && Enabled(s, c, a) && (s.locked <==> h != NULL)
    requires a == Go && s.cpus[c].pc == Check ==> CanGo(s, s.cpus[c]) && s.link[s.cpus[c].pp] == NULL
    requires a == Go && s.cpus[c].pc == CheckRef ==> CanGo(s, s.cpus[c]) && s.refs[s.cpus[c].pp] == 0
    requires a == Go && s.cpus[c].pc == Pop ==> s.free != [] && s.free == [s.cpus[c].pp] + s.free[1..]
    ensures var t := Next(s, c, a);
            && |t.cpus| == |s.cpus| && t.cpus == s.cpus[c := t.cpus[c]]
            && (p in t.free || Claims(t.cpus[c], p) <==> p in s.free || Claims(s.cpus[c], p))
  {
  }

  /** Over a whole run every page stays either free or in exactly the hands of someone. */
  lemma {:induction false} PagesConserved(run: seq<State>, moves: seq<Move>, k: nat, p: nat)
    requires IsRun(run, moves) && k < |run|
    ensures Somewhere(run[k], p) <==> Somewhere(run[0], p)
  {
    hide Safe, Init, Somewhere, Next, Enabled;
    if k > 0 {
      PagesConserved(run, moves, k - 1, p);
      var h := RunSafe(run, moves, k - 1);
      var m := moves[k - 1];
      assert IsStep(run[k - 1], m, run[k - 1 + 1]);
      StepConserves(run[k - 1], h, m.c, m.a, p);
    }
  }

  // ----- whole calls -----

  /** Processor `c` has just got the lock. */
  ghost predicate GotLock(run: seq<State>, c: nat, g: nat) {
    && 0 < g < |run| && c < |run[g - 1].cpus| && c < |run[g].cpus|
    && run[g - 1].cpus[c].pc == Spin && run[g].cpus[c].pc == Got
  }

  /** Processor `c` begins a call with move `i` and is outside again, for the first time, in
      state `j`. */
  ghost predicate IsCall(run: seq<State>, moves: seq<Move>, c: nat, a: Action, i: nat, j: nat) {
    && IsRun(run, moves) && i < j < |run| && moves[i] == Move(c, a) && c < |run[i].cpus|
    && (forall k :: i < k < j ==> c < |run[k].cpus| && run[k].cpus[c].pc != Out)
    && c < |run[j].cpus| && run[j].cpus[c].pc == Out
  }

  /** Inside page_alloc, with the pages `owned` before, and `list` on the list when the lock
      was taken. */
  ghost predicate InAlloc(s: State, c: nat, owned: set<nat>, list: seq<nat>) {
    && c < |s.cpus| && !s.cpus[c].freeing && s.cpus[c].owned == owned
    && var q := s.cpus[c];
    match q.pc
    case Enter | Spin => true
    case Got | Test => s.free == list
    case Pop => list != [] && q.pp == list[0] && s.free == list
    case Clear | CountDown => list != [] && q.pp == list[0] && s.free == list[1..]
    case Leave | Drop => if list == [] then q.pp == NULL && s.free == [] else q.pp == list[0] && s.free == list[1..]
    case _ => false
  }

  /** Inside page_free of page `p`. */
  ghost predicate InFree(s: State, c: nat, p: nat, owned: set<nat>, list: seq<nat>) {
    && c < |s.cpus| && s.cpus[c].freeing && s.cpus[c].owned == owned
    && var q := s.cpus[c];
    match q.pc
    case CheckRef | Check | Enter | Spin => q.pp == p
    case Got | Link | Push => q.pp == p && s.free == list
    case CountUp | Leave | Drop => s.free == [p] + list
    case _ => false
  }

  /** A step of another processor changes neither this one nor, if this one has the lock,
      the list. */
  lemma OthersKeep(s: State, h: int, c: nat, e: nat, a: Action)
    requires Safe(s, h) && Enabled(s, e, a) && e != c && c < |s.cpus|
    ensures var t := Next(s, e, a);
            |t.cpus| == |s.cpus| && t.cpus[c] == s.cpus[c] && (HasLock(s.cpus[c]) ==> t.free == s.free)
  {
    hide ListOk, ClaimsOk, CountsOk;
    assert CpuOk(s, c, h) && CpuOk(s, e, h);
  }

  /** The head of the list is the first free page, if there is one. */
  lemma HeadIsFirst(s: State, h: int)
    requires Safe(s, h) && 0 <= h && s.cpus[h].pc == Test
    ensures s.head == (if s.free == [] then NULL else s.free[0])
  {
  }

  lemma AllocStep(s: State, h: int, c: nat, owned: set<nat>, list: seq<nat>)
    requires Safe(s, h) && Enabled(s, c, Go) && InAlloc(s, c, owned, list)
    ensures var t := Next(s, c, Go);
            && c < |t.cpus|
            && (s.cpus[c].pc == Drop ==> t.cpus[c].pc == Out && TakenFirst(t.free, t.cpus[c].owned, list, owned))
            && (s.cpus[c].pc == Spin && t.cpus[c].pc == Got ==> InAlloc(t, c, owned, t.free))
            && (s.cpus[c].pc != Drop && t.cpus[c].pc != Got ==> InAlloc(t, c, owned, list))
  {
    assert CpuOk(s, c, h);
    if s.cpus[c].pc == Test {
      HeadIsFirst(s, h);
    }
    hide ListOk, ClaimsOk, CountsOk, FreeList;
  }

  /** The first page of the list has gone from the list to the pages owned, if there is one. */
  ghost predicate TakenFirst(free: seq<nat>, owned: set<nat>, list: seq<nat>, owned0: set<nat>) {
    if list == [] then free == [] && owned == owned0
    else list == [list[0]] + free && owned == owned0 + {list[0]}
  }

  lemma {:induction false} AllocSoFar(run: seq<State>, moves: seq<Move>, c: nat, i: nat, k: nat) returns (g: nat)
    requires IsRun(run, moves) && i < k < |run| && moves[i] == Move(c, BeginAlloc) && c < |run[i].cpus|
    requires forall l :: i < l <= k ==> c < |run[l].cpus| && run[l].cpus[c].pc != Out
    ensures g < |run| && InAlloc(run[k], c, run[i].cpus[c].owned, run[g].free)
    ensures HasLock(run[k].cpus[c]) ==> i < g <= k && GotLock(run, c, g)
  {
    hide Safe, InAlloc, Init;
    var owned := run[i].cpus[c].owned;
    assert IsStep(run[k - 1], moves[k - 1], run[k - 1 + 1]);
    if k == i + 1 {
      AllocStart(run[i], c);
      g := i;
    } else {
      g := AllocSoFar(run, moves, c, i, k - 1);
      var h := RunSafe(run, moves, k - 1);
      hide IsRun;
      AllocOn(run[k - 1], h, moves[k - 1], run[k], c, owned, run[g].free);
      if run[k - 1].cpus[c].pc == Spin && run[k].cpus[c].pc == Got {
        g := k;
      }
    }
  }

  lemma AllocStart(s: State, c: nat)
    requires Enabled(s, c, BeginAlloc)
    ensures InAlloc(Next(s, c, BeginAlloc), c, s.cpus[c].owned, s.free)
    ensures !HasLock(Next(s, c, BeginAlloc).cpus[c])
  {
  }

  lemma AllocOn(s: State, h: int, m: Move, t: State, c: nat, owned: set<nat>, list: seq<nat>)
    requires Safe(s, h) && IsStep(s, m, t) && InAlloc(s, c, owned, list) && c < |t.cpus| && t.cpus[c].pc != Out
    ensures var got := s.cpus[c].pc == Spin && t.cpus[c].pc == Got;
            && InAlloc(t, c, owned, if got then t.free else list)
            && (!got ==> (HasLock(t.cpus[c]) ==> HasLock(s.cpus[c])))
  {
    hide Safe;
    if m.c == c {
      AllocStep(s, h, c, owned, list);
    } else {
      OthersKeep(s, h, c, m.c, m.a);
    }
  }

  /** page_alloc, over every interleaving: a processor comes out of the call with exactly the
      page that was first on the list when it got the lock, and the list has lost exactly that
      page; it comes out with nothing if and only if the list was empty then. */
  lemma AllocCall(run: seq<State>, moves: seq<Move>, c: nat, i: nat, j: nat) returns (g: nat)
    requires IsCall(run, moves, c, BeginAlloc, i, j)
    ensures i < g < j && GotLock(run, c, g)
    ensures TakenFirst(run[j].free, run[j].cpus[c].owned, run[g].free, run[i].cpus[c].owned)
    ensures run[j].cpus[c].owned == run[i].cpus[c].owned <==> run[g].free == []
  {
    hide Safe, InAlloc, Init, TakenFirst;
    assert IsStep(run[i], moves[i], run[i + 1]);
    assert IsStep(run[j - 1], moves[j - 1], run[j - 1 + 1]);
    AllocStart(run[i], c);
    g := AllocSoFar(run, moves, c, i, j - 1);
    var h := RunSafe(run, moves, j - 1);
    var owned, list := run[i].cpus[c].owned, run[g].free;
    AllocEnd(run[j - 1], h, moves[j - 1], run[j], c, owned, list);
    if list != [] {
      var g' := AllocSoFar(run, moves, c, i, g);
      StillOwned(run[g], c, owned, run[g'].free);
      if list[0] in owned {
        OwnedOnce(run, moves, g, c, c, list[0]);
      }
    }
    ComesOut(run[j].free, run[j].cpus[c].owned, list, owned);
  }

  lemma AllocEnd(s: State, h: int, m: Move, t: State, c: nat, owned: set<nat>, list: seq<nat>)
    requires Safe(s, h) && IsStep(s, m, t) && InAlloc(s, c, owned, list) && c < |t.cpus| && t.cpus[c].pc == Out
    ensures HasLock(s.cpus[c]) && TakenFirst(t.free, t.cpus[c].owned, list, owned)
  {
    hide Safe;
    if m.c == c {
      AllocStep(s, h, c, owned, list);
    } else {
      OthersKeep(s, h, c, m.c, m.a);
    }
  }

  lemma StillOwned(s: State, c: nat, owned: set<nat>, list: seq<nat>)
    requires InAlloc(s, c, owned, list)
    ensures s.cpus[c].owned == owned
  {
  }

  lemma ComesOut(free: seq<nat>, owned: set<nat>, list: seq<nat>, owned0: set<nat>)
    requires TakenFirst(free, owned, list, owned0) && (list != [] ==> list[0] !in owned0)
    ensures owned == owned0 <==> list == []
  {
    if list != [] {
      assert list[0] in owned;
    }
  }

  // ----- page_free -----

  lemma FreeStep(s: State, h: int, c: nat, p: nat, owned: set<nat>, list: seq<nat>)
    requires Safe(s, h) && Enabled(s, c, Go) && InFree(s, c, p, owned, list)
    ensures var t := Next(s, c, Go);
            && c < |t.cpus|
            && (s.cpus[c].pc == Drop ==> t.cpus[c].pc == Out && t.free == [p] + list && t.cpus[c].owned == owned)
            && (s.cpus[c].pc == Spin && t.cpus[c].pc == Got ==> InFree(t, c, p, owned, t.free))
            && (s.cpus[c].pc != Drop && t.cpus[c].pc != Got ==> InFree(t, c, p, owned, list))
  {
    assert CpuOk(s, c, h);
    if s.cpus[c].pc == Check {
      LinkClear(s, h, c);
    }
    hide ListOk, ClaimsOk, FreeList;
    OwnStep(s, h, c, Go);
  }

  lemma FreeStart(s: State, c: nat, p: nat)
    requires Enabled(s, c, BeginFree(p))
    ensures InFree(Next(s, c, BeginFree(p)), c, p, s.cpus[c].owned - {p}, s.free)
    ensures !HasLock(Next(s, c, BeginFree(p)).cpus[c])
  {
  }

  lemma FreeOn(s: State, h: int, m: Move, t: State, c: nat, p: nat, owned: set<nat>, list: seq<nat>)
    requires Safe(s, h) && IsStep(s, m, t) && InFree(s, c, p, owned, list) && c < |t.cpus|
    ensures var got := s.cpus[c].pc == Spin && t.cpus[c].pc == Got;
            && (t.cpus[c].pc != Out ==> InFree(t, c, p, owned, if got then t.free else list))
            && (!got ==> (HasLock(t.cpus[c]) ==> HasLock(s.cpus[c])))
            && (t.cpus[c].pc == Out ==> HasLock(s.cpus[c]) && t.free == [p] + list && t.cpus[c].owned == owned)
  {
    hide Safe;
    if m.c == c {
      FreeStep(s, h, c, p, owned, list);
    } else {
      OthersKeep(s, h, c, m.c, m.a);
    }
  }

  lemma {:induction false} FreeSoFar(run: seq<State>, moves: seq<Move>, c: nat, p: nat, i: nat, k: nat) returns (g: nat)
    requires IsRun(run, moves) && i < k < |run| && moves[i] == Move(c, BeginFree(p)) && c < |run[i].cpus|
    requires forall l :: i < l <= k ==> c < |run[l].cpus| && run[l].cpus[c].pc != Out
    ensures g < |run| && InFree(run[k], c, p, run[i].cpus[c].owned - {p}, run[g].free)
    ensures HasLock(run[k].cpus[c]) ==> i < g <= k && GotLock(run, c, g)
  {
    hide Safe, InFree, Init;
    var owned := run[i].cpus[c].owned - {p};
    assert IsStep(run[k - 1], moves[k - 1], run[k - 1 + 1]);
    if k == i + 1 {
      FreeStart(run[i], c, p);
      g := i;
    } else {
      g := FreeSoFar(run, moves, c, p, i, k - 1);
      var h := RunSafe(run, moves, k - 1);
      hide IsRun;
      FreeOn(run[k - 1], h, moves[k - 1], run[k], c, p, owned, run[g].free);
      if run[k - 1].cpus[c].pc == Spin && run[k].cpus[c].pc == Got {
        g := k;
      }
    }
  }

  /** page_free, over every interleaving: the page is in front of the list as it was when the
      processor got the lock, and the processor does not own it any more. */
  lemma FreeCall(run: seq<State>, moves: seq<Move>, c: nat, p: nat, i: nat, j: nat) returns (g: nat)
    requires IsCall(run, moves, c, BeginFree(p), i, j)
    ensures i < g < j && GotLock(run, c, g)
    ensures run[j].free == [p] + run[g].free && run[j].cpus[c].owned == run[i].cpus[c].owned - {p}
    ensures p in run[i].cpus[c].owned
  {
    hide Safe, InFree, Init;
    assert IsStep(run[i], moves[i], run[i + 1]);
    assert IsStep(run[j - 1], moves[j - 1], run[j - 1 + 1]);
    FreeStart(run[i], c, p);
    g := FreeSoFar(run, moves, c, p, i, j - 1);
    var h := RunSafe(run, moves, j - 1);
    FreeOn(run[j - 1], h, moves[j - 1], run[j], c, p, run[i].cpus[c].owned - {p}, run[g].free);
  }
}
