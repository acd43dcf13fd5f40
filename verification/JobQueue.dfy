/** The print spooler's queue of jobs: a doubly linked list that client threads append to
    and the printer thread takes jobs from and puts deferred jobs back on.  Every method
    is one critical section under the queue's mutex, so that the threads' interleavings
    are the sequences of calls. */
module JobQueue {

  class Job {
    const jobid: int
    var next: Job?
    var prev: Job?

    constructor (jobid: int)
      ensures this.jobid == jobid && next == null && prev == null
    {
      this.jobid := jobid;
      next, prev := null, null;
    }
  }

  ghost function At(s: seq<Job>, i: int): Job? {
    if 0 <= i < |s| then s[i] else null
  }

  ghost predicate Distinct(s: seq<Job>) {
    forall i, j :: 0 <= i < j < |s| ==> s[i] != s[j]
  }

  /** The links of job `i` lead to its neighbours. */
  ghost predicate LinkedAt(s: seq<Job>, i: int)
    reads s
  {
    0 <= i < |s| && s[i].next == At(s, i + 1) && s[i].prev == At(s, i - 1)
  }

  ghost function Without(s: seq<Job>, k: nat): seq<Job>
    requires k < |s|
  {
    s[..k] + s[k + 1..]
  }

  lemma WithoutAt(s: seq<Job>, k: nat, i: int)
    requires k < |s|
    ensures At(Without(s, k), i) == if i < k then At(s, i) else At(s, i + 1)
  {
  }

  lemma WithoutDistinct(s: seq<Job>, k: nat)
    requires k < |s| && Distinct(s)
    ensures Distinct(Without(s, k)) && s[k] !in Without(s, k)
  {
    var t := Without(s, k);
    forall i | 0 <= i < |t| ensures t[i] == s[if i < k then i else i + 1] {
    }
  }

  /** The list itself. */
  class JobList {
    var jobhead: Job?
    var jobtail: Job?
    ghost var jobs: seq<Job>

    ghost predicate Valid()
      reads this, jobs
    {
      && jobhead == At(jobs, 0) && jobtail == At(jobs, |jobs| - 1) && Distinct(jobs)
      && forall i :: 0 <= i < |jobs| ==> LinkedAt(jobs, i)
    }

    constructor ()
      ensures Valid() && jobs == []
    {
      jobhead, jobtail, jobs := null, null, [];
    }

    /** A job goes to the end. */
    method AddJob(jp: Job)
      requires Valid() && jp !in jobs
      modifies this, jp`next, jp`prev, jobs
      ensures Valid() && jobs == old(jobs) + [jp]
    {
      ghost var was := jobs;
      ghost var n := |was|;
      assert n > 0 ==> LinkedAt(was, n - 1);
      jp.next := null;
      jp.prev := jobtail;
      if jobtail == null {
        jobhead := jp;
      } else {
        jobtail.next := jp;
      }
      jobtail := jp;
      jobs := was + [jp];
      forall i | 0 <= i < |jobs| ensures LinkedAt(jobs, i) {
        assert i < n ==> jobs[i] == was[i] && old(LinkedAt(was, i));
      }
    }

    /** A job goes back to the front. */
    method ReplaceJob(jp: Job)
      requires Valid() && jp !in jobs
      modifies this, jp`next, jp`prev, jobs
      ensures Valid() && jobs == [jp] + old(jobs)
    {
      ghost var was := jobs;
      assert was != [] ==> LinkedAt(was, 0);
      jp.prev := null;
      jp.next := jobhead;
      if jobhead == null {
        jobtail := jp;
      } else {
        jobhead.prev := jp;
      }
      jobhead := jp;
      jobs := [jp] + was;
      forall i | 0 <= i < |jobs| ensures LinkedAt(jobs, i) {
        assert i > 0 ==> jobs[i] == was[i - 1] && old(LinkedAt(was, i - 1));
      }
    }

    /** A job is taken out, wherever it is; the others keep their order. */
    method RemoveJob(target: Job, ghost k: nat)
      requires Valid() && k < |jobs| && jobs[k] == target
      modifies this, jobs
      ensures Valid() && jobs == Without(old(jobs), k)
    {
      ghost var was := jobs;
      assert LinkedAt(was, k);
      if target.next != null {
        target.next.prev := target.prev;
      } else {
        jobtail := target.prev;
      }
      if target.prev != null {
        target.prev.next := target.next;
      } else {
        jobhead := target.next;
      }
      WithoutDistinct(was, k);
      jobs := Without(was, k);
      WithoutAt(was, k, 0);
      WithoutAt(was, k, |jobs| - 1);
      forall i | 0 <= i < |jobs| ensures LinkedAt(jobs, i) {
        WithoutAt(was, k, i - 1);
        WithoutAt(was, k, i);
        WithoutAt(was, k, i + 1);
        assert old(LinkedAt(was, if i < k then i else i + 1));
      }
    }
  }

  ghost function Maybe(jp: Job?): seq<Job> {
    if jp == null then [] else [jp]
  }

  /** A job is at one place only. */
  lemma OnePlace(accepted: seq<Job>, done: seq<Job>, hand: seq<Job>, queue: seq<Job>)
    requires Distinct(accepted) && accepted == done + hand + queue
    ensures Distinct(queue) && forall i :: 0 <= i < |hand| ==> hand[i] !in queue && hand[i] !in done
  {
    var n := |done| + |hand|;
    forall i | 0 <= i < |queue| ensures queue[i] == accepted[n + i] {
    }
    forall i | 0 <= i < |hand| ensures hand[i] == accepted[|done| + i] {
    }
    forall i | 0 <= i < |done| ensures done[i] == accepted[i] {
    }
  }

  /** The threads: clients that submit jobs, and one printer thread with at most one job
      in hand. */
  class Spooler {
    const list: JobList
    var jp: Job?                    // the job in the printer thread's hand
    ghost var done: seq<Job>        // the jobs that were printed or cancelled
    ghost var accepted: seq<Job>    // all jobs, in the order they were accepted

    /** The jobs that are done, the one in hand and those on the queue are, in this order,
        the jobs that were accepted: none is lost, repeated or overtaken. */
    ghost predicate Valid()
      reads this, list, list.jobs
    {
      list.Valid() && Distinct(accepted) && accepted == done + Maybe(jp) + list.jobs
    }

    constructor ()
      ensures Valid() && accepted == [] && fresh(list)
    {
      list := new JobList();
      jp, done, accepted := null, [], [];
    }

    /** A client thread submits a job. */
    method Submit(jobid: int) returns (job: Job)
      requires Valid()
      modifies this`accepted, list, list.jobs
      ensures Valid() && fresh(job) && job.jobid == jobid && accepted == old(accepted) + [job]
      ensures jp == old(jp) && done == old(done) && list.jobs == old(list.jobs) + [job]
    {
      job := new Job(jobid);
      assert forall i :: 0 <= i < |list.jobs| ==> list.jobs[i] == accepted[|done + Maybe(jp)| + i];
      list.AddJob(job);
      accepted := accepted + [job];
    }

    /** The printer thread, with nothing in hand, picks up the first job, or goes on waiting
        if there is none. */
    method PickUp()
      requires Valid() && jp == null
      modifies this`jp, list, list.jobs
      ensures Valid() && done == old(done) && accepted == old(accepted)
      ensures jp == At(old(list.jobs), 0) && old(list.jobs) == Maybe(jp) + list.jobs
    {
      if list.jobhead != null {
        jp := list.jobhead;
        list.RemoveJob(jp, 0);
      }
    }

    /** The job has been printed, or cancelled because its file is not there. */
    method Finish()
      requires Valid() && jp != null
      modifies this`jp, this`done
      ensures Valid() && jp == null && done == old(done) + [old(jp)]
    {
      done := done + [jp];
      jp := null;
    }

    /** The printer could not be reached: the job goes back to the front of the queue, and
        everything is as it was before the job was picked up. */
    method Defer()
      requires Valid() && jp != null
      modifies this`jp, list, list.jobs, jp
      ensures Valid() && jp == null && done == old(done) && accepted == old(accepted)
      ensures list.jobs == [old(jp)] + old(list.jobs)
    {
      OnePlace(accepted, done, Maybe(jp), list.jobs);
      assert jp == Maybe(jp)[0];
      list.ReplaceJob(jp);
      jp := null;
    }

    /** The numbers of the jobs that are done, in hand and on the queue. */
    ghost function Numbers(): Places
      reads this, list
    {
      Places(Ids(done), Ids(Maybe(jp)), Ids(list.jobs))
    }

    /** One event; the printer thread picks up a job only with nothing in hand, and finishes
        or defers only what it has. */
    method Perform(e: Event)
      requires Valid()
      modifies this, list, list.jobs, if jp == null then {} else {jp}
      ensures Valid() && Numbers() == Happened(old(Numbers()), e)
      ensures fresh(Jobs() - old(Jobs()))
    {
      match e {
        case Submitted(jobid) =>
          var job := Submit(jobid);
          assert Ids(list.jobs) == Ids(old(list.jobs)) + [jobid];
        case PickedUp =>
          if jp == null {
            PickUp();
            assert old(list.jobs) == Maybe(jp) + list.jobs;
          }
        case Finished =>
          if jp != null {
            Finish();
          }
        case Deferred =>
          if jp != null {
            Defer();
          }
      }
    }

    ghost function Jobs(): set<object>
      reads this, list
    {
      (set j | j in list.jobs) + if jp == null then {} else {jp}
    }

    /** Any interleaving of the threads, event by event. */
    method Run(events: seq<Event>)
      requires Valid()
      modifies this, list, Jobs()
      ensures Valid() && Numbers() == AllHappened(old(Numbers()), events)
    {
      var i := 0;
      assert events[..0] == [];
      while i < |events|
        invariant 0 <= i <= |events| && Valid() && fresh(Jobs() - old(Jobs()))
        invariant Numbers() == AllHappened(old(Numbers()), events[..i])
      {
        assert events[..i + 1][..i] == events[..i];
        Perform(events[i]);
        i := i + 1;
      }
      assert events[..i] == events;
    }
  }

  // ----- what an interleaving does -----

  datatype Event = Submitted(jobid: int) | PickedUp | Finished | Deferred

  /** Job numbers by where the jobs are. */
  datatype Places = Places(done: seq<int>, hand: seq<int>, queue: seq<int>)

  ghost function Ids(jobs: seq<Job>): (ids: seq<int>)
    ensures |ids| == |jobs|
  {
    seq(|jobs|, i requires 0 <= i < |jobs| => jobs[i].jobid)
  }

  function Happened(s: Places, e: Event): Places {
    match e
    case Submitted(jobid) => s.(queue := s.queue + [jobid])
    case PickedUp => if s.hand == [] && s.queue != [] then s.(hand := [s.queue[0]], queue := s.queue[1..]) else s
    case Finished => s.(done := s.done + s.hand, hand := [])
    case Deferred => s.(hand := [], queue := s.hand + s.queue)
  }

  function AllHappened(s: Places, events: seq<Event>): Places {
    if events == [] then s else Happened(AllHappened(s, events[..|events| - 1]), events[|events| - 1])
  }

  /** The jobs submitted, in their order. */
  function SubmittedIn(events: seq<Event>): seq<int> {
    if events == [] then []
    else
      var last := events[|events| - 1];
      SubmittedIn(events[..|events| - 1]) + if last.Submitted? then [last.jobid] else []
  }

  /** Over every sequence of events no job is lost, repeated or overtaken: what is done,
      in hand and waiting is, in this order, what was there and what was submitted. */
  lemma {:induction false} NothingLost(s: Places, events: seq<Event>)
    ensures var t := AllHappened(s, events);
            t.done + t.hand + t.queue
            == s.done + s.hand + s.queue + SubmittedIn(events)
    ensures s.done <= AllHappened(s, events).done
  {
    if events != [] {
      var n := |events| - 1;
      NothingLost(s, events[..n]);
      OneEvent(AllHappened(s, events[..n]), events[n]);
    }
  }

  /** An event keeps the order of all jobs, and only moves the two borders between them: a
      submission moves none, picking up takes one job off the queue into an empty hand,
      finishing makes what is in hand done, and deferring puts it back. */
  lemma OneEvent(s: Places, e: Event)
    ensures var t := Happened(s, e);
            && t.done + t.hand + t.queue == s.done + s.hand + s.queue + (if e.Submitted? then [e.jobid] else [])
            && s.done <= t.done
            && |t.done| == |s.done| + (if e.Finished? then |s.hand| else 0)
            && |t.hand| == (match e
                            case Submitted(_) => |s.hand|
                            case PickedUp => if s.hand == [] && s.queue != [] then 1 else |s.hand|
                            case Finished => 0
                            case Deferred => 0)
  {
    if e.PickedUp? && s.hand == [] && s.queue != [] {
      assert s.queue == [s.queue[0]] + s.queue[1..];
    }
  }

  /** How many of the events finish a job: those that find one in hand. */
  function Printed(s: Places, events: seq<Event>): nat {
    if events == [] then 0
    else
      var n := |events| - 1;
      Printed(s, events[..n]) + if events[n].Finished? && AllHappened(s, events[..n]).hand != [] then 1 else 0
  }

  /** At most one job is in hand at any time, and the jobs that are done are those that were
      done before and as many more, in the order of submission, as were finished in hand. */
  lemma {:induction false} DoneInOrder(s: Places, events: seq<Event>)
    requires |s.hand| <= 1
    ensures var t, n := AllHappened(s, events), |s.done| + Printed(s, events);
            && |t.hand| <= 1 && |t.done| == n
            && n <= |s.done + s.hand + s.queue + SubmittedIn(events)|
            && t.done == (s.done + s.hand + s.queue + SubmittedIn(events))[..n]
  {
    NothingLost(s, events);
    if events != [] {
      var n := |events| - 1;
      DoneInOrder(s, events[..n]);
      OneEvent(AllHappened(s, events[..n]), events[n]);
    }
    var t := AllHappened(s, events);
    assert t.done == (t.done + t.hand + t.queue)[..|t.done|];
  }

  /** Deferring a job that has just been picked up leaves everything as it was. */
  lemma PickedUpAndDeferred(s: Places)
    requires s.hand == []
    ensures Happened(Happened(s, PickedUp), Deferred) == s
  {
    if s.queue != [] {
      assert s.queue == [s.queue[0]] + s.queue[1..];
    }
  }

  /** A job that is submitted to an idle printer, picked up and finished is done; deferred, it
      is on the queue again. */
  lemma SubmittedAlone(s: Places, jobid: int)
    requires s.hand == [] && s.queue == []
    ensures AllHappened(s, [Submitted(jobid), PickedUp, Finished]) == Places(s.done + [jobid], [], [])
    ensures AllHappened(s, [Submitted(jobid), PickedUp, Deferred]) == Places(s.done, [], [jobid])
  {
    var first, second := [Submitted(jobid)], [Submitted(jobid), PickedUp];
    assert first[..0] == [] && second[..1] == first;
    assert AllHappened(s, first) == Happened(s, Submitted(jobid));
    assert AllHappened(s, second) == Places(s.done, [jobid], []);
    assert (second + [Finished])[..2] == second && (second + [Deferred])[..2] == second;
    assert second + [Finished] == [Submitted(jobid), PickedUp, Finished];
    assert second + [Deferred] == [Submitted(jobid), PickedUp, Deferred];
  }
}
