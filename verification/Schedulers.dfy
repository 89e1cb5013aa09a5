/**
 The task queue of Scheduler: what is done under its mutex.
 */
module Schedulers {
  import opened Wrappers

  /** A function: the caller's own, or the closure of a sleep, which schedules the fiber that sleeps. */
  datatype Code = User(id: nat) | Wake(fiber: nat)

  /** What is scheduled: a fiber to resume or a function to call. */
  datatype Job = Fiber(id: nat) | Callback(code: Code)

  /** FiberAndThread: `thread` is the id of the only thread that may take the task, or -1. */
  datatype Task = Task(job: Job, thread: int)

  predicate MayRun(t: Task, self: int) { t.thread == -1 || t.thread == self }

  /** The index of the first task that thread `self` may take; |q| if there is none. */
  function FirstFor(q: seq<Task>, self: int): (i: nat)
    ensures i <= |q|
    ensures i < |q| ==> q[i].thread == -1 || q[i].thread == self
    ensures forall j :: 0 <= j < i ==> q[j].thread != -1 && q[j].thread != self
  {
    if q == [] || MayRun(q[0], self) then 0 else 1 + FirstFor(q[1..], self)
  }

  lemma {:induction false} FirstForIs(q: seq<Task>, self: int, i: nat)
    requires i <= |q| && (i < |q| ==> MayRun(q[i], self))
    requires forall j :: 0 <= j < i ==> !MayRun(q[j], self)
    ensures FirstFor(q, self) == i
  {
    if i > 0 {
      FirstForIs(q[1..], self, i - 1);
    }
  }

  function Without<T>(q: seq<T>, i: nat): seq<T>
    requires i < |q|
  {
    q[..i] + q[i + 1..]
  }

  /** scheduleNoLock: a null task is not queued. */
  function Enqueued(q: seq<Task>, job: Option<Job>, thread: int): seq<Task> {
    if job.Some? then q + [Task(job.value, thread)] else q
  }

  function AllEnqueued(q: seq<Task>, jobs: seq<Option<Job>>): seq<Task> {
    if jobs == [] then q else Enqueued(AllEnqueued(q, jobs[..|jobs| - 1]), jobs[|jobs| - 1], -1)
  }

  /** `at` lists the tasks of a range in its order, passing over the null ones; `ts` are these tasks for any thread. */
  ghost predicate AreTasks(jobs: seq<Option<Job>>, at: seq<nat>, ts: seq<Task>) {
    && |ts| == |at|
    && (forall k :: 0 <= k < |at| ==> at[k] < |jobs| && jobs[at[k]].Some? && ts[k] == Task(jobs[at[k]].value, -1))
    && (forall j, k :: 0 <= j < k < |at| ==> at[j] < at[k])
    && (forall i {:trigger i in at} :: 0 <= i < |jobs| && jobs[i].Some? ==> i in at)
  }

  lemma OneMoreTask(jobs: seq<Option<Job>>, at: seq<nat>, ts: seq<Task>, job: Job)
    requires AreTasks(jobs, at, ts)
    ensures AreTasks(jobs + [Some(job)], at + [|jobs|], ts + [Task(job, -1)])
  {
    var all, more := jobs + [Some(job)], at + [|jobs|];
    forall i | 0 <= i < |all| && all[i].Some?
      ensures i in more
    {
      assert i < |jobs| ==> i in at;
      assert more[|at|] == |jobs|;
    }
  }

  /** A range is queued behind what is there, in its order and for any thread. */
  lemma {:induction false} RangeIsQueued(q: seq<Task>, jobs: seq<Option<Job>>) returns (at: seq<nat>, ts: seq<Task>)
    ensures AreTasks(jobs, at, ts) && AllEnqueued(q, jobs) == q + ts
    decreases |jobs|
  {
    if jobs == [] {
      at, ts := [], [];
    } else {
      var last, init := jobs[|jobs| - 1], jobs[..|jobs| - 1];
      assert jobs == init + [last];
      at, ts := RangeIsQueued(q, init);
      if last.Some? {
        OneMoreTask(init, at, ts, last.value);
        assert q + (ts + [Task(last.value, -1)]) == (q + ts) + [Task(last.value, -1)];
        at, ts := at + [|init|], ts + [Task(last.value, -1)];
      } else {
        NoMoreTask(init, at, ts);
      }
    }
  }

  lemma NoMoreTask(jobs: seq<Option<Job>>, at: seq<nat>, ts: seq<Task>)
    requires AreTasks(jobs, at, ts)
    ensures AreTasks(jobs + [None], at, ts)
  {
    var all := jobs + [None];
    assert forall i :: 0 <= i < |jobs| ==> all[i] == jobs[i];
  }

  class Scheduler {
    var fibers: seq<Task>
    var active: nat

    constructor ()
      ensures fibers == [] && active == 0
    {
      fibers, active := [], 0;
    }

    method ScheduleNoLock(job: Option<Job>, thread: int) returns (needTickle: bool)
      modifies `fibers
      ensures fibers == old(fibers) + if job.Some? then [Task(job.value, thread)] else []
      ensures needTickle == (old(fibers) == [])
    {
      needTickle := fibers == [];
      if job.Some? {
        fibers := fibers + [Task(job.value, thread)];
      }
    }

    /** One lock for the whole range; the pool is woken exactly when the queue was empty before. */
    method ScheduleRange(jobs: seq<Option<Job>>) returns (needTickle: bool)
      modifies `fibers
      ensures fibers == AllEnqueued(old(fibers), jobs)
      ensures needTickle == (jobs != [] && old(fibers) == [])
    {
      needTickle := false;
      var i := 0;
      while i < |jobs|
        invariant 0 <= i <= |jobs|
        invariant fibers == AllEnqueued(old(fibers), jobs[..i])
        invariant old(fibers) != [] ==> fibers != []
        invariant needTickle == (i > 0 && old(fibers) == [])
      {
        var tickle := ScheduleNoLock(jobs[i], -1);
        needTickle := needTickle || tickle;
        assert jobs[..i + 1][..i] == jobs[..i];
        i := i + 1;
      }
      assert jobs[..i] == jobs;
    }

    /**
     The scan of run(): the first task this thread may take leaves the queue, and
     the others are woken exactly when tasks remain.
     */
    method Pick(self: int) returns (task: Option<Task>, tickleMe: bool)
      modifies `fibers, `active
      ensures FirstFor(old(fibers), self) == |old(fibers)| ==>
                task == None && fibers == old(fibers) && active == old(active)
      ensures var i := FirstFor(old(fibers), self);
              i < |old(fibers)| ==>
                && task == Some(old(fibers)[i]) && active == old(active) + 1
                && fibers == old(fibers)[..i] + old(fibers)[i + 1..]
      ensures tickleMe == (fibers != [])
    {
      task, tickleMe := None, false;
      var it := 0;
      while it < |fibers|
        invariant 0 <= it <= |fibers|
        invariant fibers == old(fibers) && active == old(active) && task == None
        invariant forall j :: 0 <= j < it ==> !MayRun(fibers[j], self)
        invariant tickleMe == (it > 0)
      {
        if fibers[it].thread != -1 && fibers[it].thread != self {
          it := it + 1;
          tickleMe := true;
          continue;
        }
        task := Some(fibers[it]);
        FirstForIs(fibers, self, it);
        fibers := Without(fibers, it);
        active := active + 1;
        break;
      }
      if task == None {
        FirstForIs(fibers, self, it);
      }
      tickleMe := tickleMe || it < |fibers|;
    }

    method Finish()
      requires active > 0
      modifies `active
      ensures active == old(active) - 1
    {
      active := active - 1;
    }
  }
}
