/**
 Any number of threads in Scheduler::run, each step one of the regions that
 happen atomically: a locked region, or a change of one counter or flag.
 */
module WorkerPool {
  import opened Wrappers
  import opened Schedulers

  datatype Phase =
    | Picking            // about to scan the queue
    | Running(task: Task)
    | Checking           // about to look at the state of its idle fiber
    | Idling             // in its idle fiber
    | Exited

  /** `idleDone`: the idle fiber has ended, that is, stopping() was true when it asked. */
  datatype Worker = Worker(phase: Phase, idleDone: bool)

  datatype Start = Start(worker: nat, task: Task)

  /** `enqueued` and `started` record what has happened so far. */
  datatype Pool = Pool(queue: seq<Task>, active: nat, stopping: bool, workers: seq<Worker>,
                       enqueued: seq<Task>, started: seq<Start>)

  datatype Step =
    | Schedule(job: Option<Job>, thread: int, caller: Option<nat>)   // by a worker's task, or from outside
    | Pick(w: nat)
    | Finish(w: nat)     // swapIn returns: the task ended or yielded
    | Check(w: nat)
    | Poll(w: nat)       // the idle fiber asks stopping() and ends or yields
    | SetStopping
    | Restart            // start() clears the flag

  predicate Stopping(p: Pool) { p.stopping && p.queue == [] && p.active == 0 }

  predicate InPhase(p: Pool, w: nat, phase: Phase) { w < |p.workers| && p.workers[w].phase == phase }

  predicate IsRunning(p: Pool, w: nat) { w < |p.workers| && p.workers[w].phase.Running? }

  predicate Enabled(p: Pool, s: Step) {
    match s
    case Schedule(_, _, caller) => caller.Some? ==> IsRunning(p, caller.value)
    case Pick(w) => InPhase(p, w, Picking)
    case Finish(w) => IsRunning(p, w) && p.active > 0
    case Check(w) => InPhase(p, w, Checking)
    case Poll(w) => InPhase(p, w, Idling)
    case SetStopping => true
    case Restart => true
  }

  function SetPhase(p: Pool, w: nat, phase: Phase): Pool
    requires w < |p.workers|
  {
    p.(workers := p.workers[w := p.workers[w].(phase := phase)])
  }

  function Next(p: Pool, s: Step): Pool
    requires Enabled(p, s)
  {
    match s
    case Schedule(job, thread, _) =>
      p.(queue := Enqueued(p.queue, job, thread), enqueued := Enqueued(p.enqueued, job, thread))
    case Pick(w) =>
      var i := FirstFor(p.queue, w);
      if i == |p.queue| then SetPhase(p, w, Checking)
      else SetPhase(p, w, Running(p.queue[i])).(queue := Without(p.queue, i), active := p.active + 1,
                                                started := p.started + [Start(w, p.queue[i])])
    case Finish(w) => SetPhase(p, w, Checking).(active := p.active - 1)
    case Check(w) => SetPhase(p, w, if p.workers[w].idleDone then Exited else Idling)
    case Poll(w) =>
      SetPhase(p, w, Picking).(workers := p.workers[w := Worker(Picking, Stopping(p))])
    case SetStopping => p.(stopping := true)
    case Restart => p.(stopping := false)
  }

  function Initial(n: nat): Pool {
    Pool([], 0, false, seq(n, _ => Worker(Picking, false)), [], [])
  }

  predicate Runnable(p: Pool, steps: seq<Step>)
    decreases |steps|
  {
    steps == [] || (Enabled(p, steps[0]) && Runnable(Next(p, steps[0]), steps[1..]))
  }

  function Run(p: Pool, steps: seq<Step>): Pool
    requires Runnable(p, steps)
    decreases |steps|
  {
    if steps == [] then p else Run(Next(p, steps[0]), steps[1..])
  }

  // ------------------------------------------------------------ active counter

  function Busy(workers: seq<Worker>): nat {
    if workers == [] then 0 else (if workers[0].phase.Running? then 1 else 0) + Busy(workers[1..])
  }

  lemma {:induction false} BusyAfter(workers: seq<Worker>, w: nat, worker: Worker)
    requires w < |workers|
    ensures Busy(workers[w := worker]) == Busy(workers)
              - (if workers[w].phase.Running? then 1 else 0) + (if worker.phase.Running? then 1 else 0)
  {
    if w == 0 {
      assert workers[0 := worker][1..] == workers[1..];
    } else {
      assert workers[w := worker][1..] == workers[1..][w - 1 := worker];
      BusyAfter(workers[1..], w - 1, worker);
    }
  }

  lemma {:induction false} NobodyBusy(workers: seq<Worker>)
    ensures Busy(workers) == 0 <==> forall w :: 0 <= w < |workers| ==> !workers[w].phase.Running?
  {
    if workers != [] {
      NobodyBusy(workers[1..]);
      assert forall w :: 0 < w < |workers| ==> workers[w] == workers[1..][w - 1];
    }
  }

  // -------------------------------------------------------- order and affinity

  function Pinned(ts: seq<Task>, pin: int): seq<Task> {
    if ts == [] then [] else (if ts[0].thread == pin then [ts[0]] else []) + Pinned(ts[1..], pin)
  }

  function Tasks(starts: seq<Start>): (ts: seq<Task>)
    ensures |ts| == |starts| && forall i :: 0 <= i < |ts| ==> ts[i] == starts[i].task
  {
    if starts == [] then [] else [starts[0].task] + Tasks(starts[1..])
  }

  lemma {:induction false} PinnedJoin(a: seq<Task>, b: seq<Task>, pin: int)
    ensures Pinned(a + b, pin) == Pinned(a, pin) + Pinned(b, pin)
  {
    if a == [] {
      assert a + b == b;
    } else {
      assert (a + b)[1..] == a[1..] + b && (a + b)[0] == a[0];
      PinnedJoin(a[1..], b, pin);
      Regroup(if a[0].thread == pin then [a[0]] else [], Pinned(a[1..], pin), Pinned(b, pin));
    }
  }

  lemma {:induction false} NonePinned(ts: seq<Task>, pin: int)
    requires forall j :: 0 <= j < |ts| ==> ts[j].thread != pin
    ensures Pinned(ts, pin) == []
  {
    if ts != [] { NonePinned(ts[1..], pin); }
  }

  /** The task that is picked is the first one queued with its pin. */
  lemma PickIsFirst(q: seq<Task>, self: int, pin: int)
    requires FirstFor(q, self) < |q|
    ensures var i := FirstFor(q, self);
            Pinned(q, pin) == Pinned([q[i]], pin) + Pinned(Without(q, i), pin)
  {
    var i := FirstFor(q, self);
    assert q == q[..i] + ([q[i]] + q[i + 1..]);
    PinnedJoin(q[..i], [q[i]] + q[i + 1..], pin);
    PinnedJoin([q[i]], q[i + 1..], pin);
    PinnedJoin(q[..i], q[i + 1..], pin);
    if q[i].thread == pin {
      assert forall j :: 0 <= j < i ==> !MayRun(q[j], self) && q[j].thread != pin;
      NonePinned(q[..i], pin);
    }
  }

  // ------------------------------------------------------------- the invariant

  ghost predicate InOrder(p: Pool, pin: int) {
    Pinned(Tasks(p.started), pin) + Pinned(p.queue, pin) == Pinned(p.enqueued, pin)
  }

  ghost predicate Conserved(p: Pool) {
    && (forall pin :: InOrder(p, pin))
    && multiset(Tasks(p.started)) + multiset(p.queue) == multiset(p.enqueued)
    && (forall s :: s in p.started ==> s.task.thread == -1 || s.task.thread == s.worker)
  }

  lemma TasksAppend(starts: seq<Start>, s: Start)
    ensures Tasks(starts + [s]) == Tasks(starts) + [s.task]
  {
  }

  lemma StepCounts(p: Pool, s: Step)
    requires Enabled(p, s) && p.active == Busy(p.workers)
    ensures Next(p, s).active == Busy(Next(p, s).workers)
  {
    match s
    case Schedule(_, _, _) =>
    case Pick(w) =>
      BusyAfter(p.workers, w, Next(p, s).workers[w]);
    case Finish(w) => BusyAfter(p.workers, w, Next(p, s).workers[w]);
    case Check(w) => BusyAfter(p.workers, w, Next(p, s).workers[w]);
    case Poll(w) => BusyAfter(p.workers, w, Next(p, s).workers[w]);
    case SetStopping =>
    case Restart =>
  }

  lemma EnqueuedInOrder(started: seq<Task>, queue: seq<Task>, enqueued: seq<Task>, t: Task, pin: int)
    requires Pinned(started, pin) + Pinned(queue, pin) == Pinned(enqueued, pin)
    ensures Pinned(started, pin) + Pinned(queue + [t], pin) == Pinned(enqueued + [t], pin)
  {
    hide Pinned;
    PinnedJoin(queue, [t], pin);
    PinnedJoin(enqueued, [t], pin);
    Regroup(Pinned(started, pin), Pinned(queue, pin), Pinned([t], pin));
  }

  lemma StartedInOrder(started: seq<Task>, queue: seq<Task>, w: nat, enqueued: seq<Task>, pin: int)
    requires FirstFor(queue, w) < |queue| && Pinned(started, pin) + Pinned(queue, pin) == Pinned(enqueued, pin)
    ensures var i := FirstFor(queue, w);
            Pinned(started + [queue[i]], pin) + Pinned(Without(queue, i), pin) == Pinned(enqueued, pin)
  {
    hide Pinned, Without;
    var i := FirstFor(queue, w);
    PinnedJoin(started, [queue[i]], pin);
    PickIsFirst(queue, w, pin);
    Regroup(Pinned(started, pin), Pinned([queue[i]], pin), Pinned(Without(queue, i), pin));
  }

  lemma Regroup<T>(a: seq<T>, b: seq<T>, c: seq<T>)
    ensures (a + b) + c == a + (b + c)
  {
  }

  lemma StepOrders(p: Pool, s: Step, pin: int)
    requires Enabled(p, s) && InOrder(p, pin)
    ensures InOrder(Next(p, s), pin)
  {
    hide Pinned, Tasks, Without;
    if s.Schedule? && s.job.Some? {
      EnqueuedInOrder(Tasks(p.started), p.queue, p.enqueued, Task(s.job.value, s.thread), pin);
    } else if s.Pick? && FirstFor(p.queue, s.w) < |p.queue| {
      TasksAppend(p.started, Start(s.w, p.queue[FirstFor(p.queue, s.w)]));
      StartedInOrder(Tasks(p.started), p.queue, s.w, p.enqueued, pin);
    }
  }

  lemma StartedOnce(started: seq<Start>, q: seq<Task>, w: nat, i: nat)
    requires i < |q|
    ensures multiset(Tasks(started + [Start(w, q[i])])) + multiset(Without(q, i))
         == multiset(Tasks(started)) + multiset(q)
  {
    TasksAppend(started, Start(w, q[i]));
    assert q == q[..i] + [q[i]] + q[i + 1..];
  }

  lemma StepConserves(p: Pool, s: Step)
    requires Enabled(p, s) && Conserved(p)
    ensures Conserved(Next(p, s))
  {
    hide InOrder, Tasks, Without;
    forall pin ensures InOrder(Next(p, s), pin) { StepOrders(p, s, pin); }
    if s.Pick? && FirstFor(p.queue, s.w) < |p.queue| {
      StartedOnce(p.started, p.queue, s.w, FirstFor(p.queue, s.w));
    }
  }

  /**
   At every point of every run: the counter is the number of workers holding a
   task; tasks with the same pin start in the order they were scheduled; no task
   is lost or started twice; and a pinned task starts only on its thread.
   */
  lemma {:induction false} RunIsFair(p: Pool, steps: seq<Step>)
    requires Runnable(p, steps) && p.active == Busy(p.workers) && Conserved(p)
    ensures Run(p, steps).active == Busy(Run(p, steps).workers) && Conserved(Run(p, steps))
    decreases |steps|
  {
    if steps != [] {
      StepCounts(p, steps[0]);
      StepConserves(p, steps[0]);
      RunIsFair(Next(p, steps[0]), steps[1..]);
    }
  }

  lemma InitiallyFair(n: nat)
    ensures var p := Initial(n); p.active == Busy(p.workers) && Conserved(p)
  {
    NobodyBusy(Initial(n).workers);
    forall pin ensures InOrder(Initial(n), pin) {}
  }

  // ------------------------------------------------- tasks and the calls that made them

  predicate AsksFor(s: Step, t: Task) { s.Schedule? && s.job == Some(t.job) && s.thread == t.thread }

  /** `at` lists the calls that schedule a task, in order, and `ts` are the tasks as they were asked for. */
  ghost predicate AreCalls(steps: seq<Step>, at: seq<nat>, ts: seq<Task>) {
    && |ts| == |at|
    && (forall k :: 0 <= k < |at| ==> at[k] < |steps| && AsksFor(steps[at[k]], ts[k]))
    && (forall j, k :: 0 <= j < k < |at| ==> at[j] < at[k])
    && (forall i {:trigger i in at} :: 0 <= i < |steps| && steps[i].Schedule? && steps[i].job.Some? ==> i in at)
  }

  function Shifted(at: seq<nat>): (later: seq<nat>)
    ensures |later| == |at| && forall k :: 0 <= k < |at| ==> later[k] == at[k] + 1
  {
    seq(|at|, k requires 0 <= k < |at| => at[k] + 1)
  }

  lemma CallsLater(s: Step, rest: seq<Step>, at: seq<nat>, ts: seq<Task>)
    requires AreCalls(rest, at, ts) && !(s.Schedule? && s.job.Some?)
    ensures AreCalls([s] + rest, Shifted(at), ts)
  {
    var all := [s] + rest;
    forall i | 0 <= i < |all| && all[i].Schedule? && all[i].job.Some?
      ensures i in Shifted(at)
    {
      assert rest[i - 1] == all[i] && i - 1 in at;
      var k :| 0 <= k < |at| && at[k] == i - 1;
      assert Shifted(at)[k] == i;
    }
  }

  lemma OneMoreCall(job: Job, thread: int, caller: Option<nat>, rest: seq<Step>, at: seq<nat>, ts: seq<Task>)
    requires AreCalls(rest, at, ts)
    ensures AreCalls([Schedule(Some(job), thread, caller)] + rest, [0] + Shifted(at), [Task(job, thread)] + ts)
  {
    var all, more := [Schedule(Some(job), thread, caller)] + rest, [0] + Shifted(at);
    forall i | 0 <= i < |all| && all[i].Schedule? && all[i].job.Some?
      ensures i in more
    {
      if i == 0 {
        assert more[0] == 0;
      } else {
        assert rest[i - 1] == all[i] && i - 1 in at;
        var k :| 0 <= k < |at| && at[k] == i - 1;
        assert more[k + 1] == i;
      }
    }
  }

  lemma {:induction false} CallsOfRun(p: Pool, steps: seq<Step>) returns (at: seq<nat>, ts: seq<Task>)
    requires Runnable(p, steps)
    ensures AreCalls(steps, at, ts) && Run(p, steps).enqueued == p.enqueued + ts
    decreases |steps|
  {
    if steps == [] {
      at, ts := [], [];
    } else {
      var s, rest := steps[0], steps[1..];
      assert steps == [s] + rest;
      at, ts := CallsOfRun(Next(p, s), rest);
      if s.Schedule? && s.job.Some? {
        OneMoreCall(s.job.value, s.thread, s.caller, rest, at, ts);
        Regroup(p.enqueued, [Task(s.job.value, s.thread)], ts);
        at, ts := [0] + Shifted(at), [Task(s.job.value, s.thread)] + ts;
      } else {
        CallsLater(s, rest, at, ts);
        at := Shifted(at);
      }
    }
  }

  lemma StartedWasAsked(p: Pool, steps: seq<Step>, at: seq<nat>, ts: seq<Task>, s: Start)
    requires AreCalls(steps, at, ts) && s in p.started && (s.task.thread == -1 || s.task.thread == s.worker)
    requires multiset(Tasks(p.started)) + multiset(p.queue) == multiset(ts)
    ensures exists i :: 0 <= i < |steps| && AsksFor(steps[i], s.task)
              && (steps[i].thread == -1 || steps[i].thread == s.worker)
  {
    var k :| 0 <= k < |p.started| && p.started[k] == s;
    assert Tasks(p.started)[k] == s.task;
    assert s.task in multiset(ts);
    var j :| 0 <= j < |ts| && ts[j] == s.task;
    assert AsksFor(steps[at[j]], ts[j]);
  }

  /**
   At every point of every run: the tasks started and those still queued are the
   tasks asked for by the calls made so far, each once; those asked for with the
   same thread start in the order of the calls; and one asked for on a thread
   starts on no other.
   */
  lemma TasksAreTheCalls(n: nat, steps: seq<Step>) returns (at: seq<nat>, ts: seq<Task>)
    requires Runnable(Initial(n), steps)
    ensures AreCalls(steps, at, ts)
    ensures var p := Run(Initial(n), steps);
            && multiset(Tasks(p.started)) + multiset(p.queue) == multiset(ts)
            && (forall pin :: Pinned(Tasks(p.started), pin) + Pinned(p.queue, pin) == Pinned(ts, pin))
            && (forall s :: s in p.started ==>
                  exists i :: 0 <= i < |steps| && AsksFor(steps[i], s.task)
                    && (steps[i].thread == -1 || steps[i].thread == s.worker))
  {
    hide Pinned, Run, Next, Runnable, Enabled;
    InitiallyFair(n);
    RunIsFair(Initial(n), steps);
    at, ts := CallsOfRun(Initial(n), steps);
    var p := Run(Initial(n), steps);
    assert [] + ts == ts;
    forall s | s in p.started
      ensures exists i :: 0 <= i < |steps| && AsksFor(steps[i], s.task)
                && (steps[i].thread == -1 || steps[i].thread == s.worker)
    {
      StartedWasAsked(p, steps, at, ts, s);
    }
    forall pin ensures Pinned(Tasks(p.started), pin) + Pinned(p.queue, pin) == Pinned(ts, pin) {
      assert InOrder(p, pin);
    }
  }

  /** A worker that scans takes the first of all tasks it may run, and the others keep their order. */
  lemma PickTakesTheFirst(p: Pool, w: nat) returns (i: nat)
    requires Enabled(p, Pick(w))
    ensures i <= |p.queue| && forall j :: 0 <= j < i ==> p.queue[j].thread != -1 && p.queue[j].thread != w
    ensures var q := Next(p, Pick(w));
            if i == |p.queue| then
              q.queue == p.queue && q.started == p.started && q.workers[w].phase == Checking
            else
              && (p.queue[i].thread == -1 || p.queue[i].thread == w)
              && q.queue == p.queue[..i] + p.queue[i + 1..] && q.started == p.started + [Start(w, p.queue[i])]
              && q.workers[w].phase == Running(p.queue[i])
  {
    i := FirstFor(p.queue, w);
  }

  // ---------------------------------------------------------------- quiescence

  /** Done by someone outside the pool. */
  predicate FromOutside(s: Step) { s.Restart? || (s.Schedule? && s.caller.None?) }

  lemma StaysStopped(p: Pool, s: Step)
    requires Enabled(p, s) && !FromOutside(s) && p.active == Busy(p.workers) && Stopping(p)
    ensures Stopping(Next(p, s))
  {
    NobodyBusy(p.workers);
  }

  /** Once stopping() is true and nobody outside interferes, it is true ever after. */
  lemma {:induction false} Quiescence(p: Pool, steps: seq<Step>)
    requires Runnable(p, steps) && p.active == Busy(p.workers) && Stopping(p)
    requires forall s :: s in steps ==> !FromOutside(s)
    ensures Stopping(Run(p, steps))
    decreases |steps|
  {
    if steps != [] {
      assert steps[0] in steps;
      StaysStopped(p, steps[0]);
      StepCounts(p, steps[0]);
      Quiescence(Next(p, steps[0]), steps[1..]);
    }
  }

  predicate SomeoneSawTheEnd(p: Pool) { exists w :: 0 <= w < |p.workers| && p.workers[w].idleDone }

  /** Nobody outside schedules or restarts once a worker has seen stopping() true. */
  predicate Calm(p: Pool, steps: seq<Step>)
    requires Runnable(p, steps)
    decreases |steps|
  {
    steps == [] || ((SomeoneSawTheEnd(p) ==> !FromOutside(steps[0])) && Calm(Next(p, steps[0]), steps[1..]))
  }

  ghost predicate EndIsFinal(p: Pool) {
    && (SomeoneSawTheEnd(p) ==> Stopping(p))
    && forall w :: 0 <= w < |p.workers| && p.workers[w].phase == Exited ==> p.workers[w].idleDone
  }

  lemma StepKeepsEnd(p: Pool, s: Step)
    requires Enabled(p, s) && p.active == Busy(p.workers) && EndIsFinal(p)
    requires SomeoneSawTheEnd(p) ==> !FromOutside(s)
    ensures EndIsFinal(Next(p, s))
  {
    if SomeoneSawTheEnd(p) {
      StaysStopped(p, s);
    } else if SomeoneSawTheEnd(Next(p, s)) {
      var w :| 0 <= w < |p.workers| && Next(p, s).workers[w].idleDone;
      assert !p.workers[w].idleDone;
    }
  }

  lemma {:induction false} EndIsFinalAlways(p: Pool, steps: seq<Step>)
    requires Runnable(p, steps) && Calm(p, steps) && p.active == Busy(p.workers) && EndIsFinal(p)
    ensures EndIsFinal(Run(p, steps)) && |Run(p, steps).workers| == |p.workers|
    decreases |steps|
  {
    if steps != [] {
      StepKeepsEnd(p, steps[0]);
      StepCounts(p, steps[0]);
      EndIsFinalAlways(Next(p, steps[0]), steps[1..]);
    }
  }

  /** Every thread has left run(), and nobody outside interfered since the first saw the end. */
  predicate Joined(n: nat, steps: seq<Step>)
    requires Runnable(Initial(n), steps)
  {
    Calm(Initial(n), steps) && forall w :: 0 <= w < n ==> InPhase(Run(Initial(n), steps), w, Exited)
  }

  lemma JoinedIsStopping(n: nat, steps: seq<Step>)
    requires n > 0 && Runnable(Initial(n), steps) && Joined(n, steps)
    ensures Stopping(Run(Initial(n), steps))
  {
    InitiallyFair(n);
    EndIsFinalAlways(Initial(n), steps);
    assert InPhase(Run(Initial(n), steps), 0, Exited);
  }

  /**
   stop() returns at once if stopping() is true, and otherwise when every thread
   has left run(): in both cases the queue is empty, no worker holds a task, and
   every task ever scheduled was started exactly once.
   */
  lemma StopReturnsDrained(n: nat, steps: seq<Step>)
    requires n > 0 && Runnable(Initial(n), steps) && (Joined(n, steps) || Stopping(Run(Initial(n), steps)))
    ensures var p := Run(Initial(n), steps);
            && p.queue == []
            && (forall w :: 0 <= w < n ==> !IsRunning(p, w))
            && multiset(Tasks(p.started)) == multiset(p.enqueued)
  {
    InitiallyFair(n);
    RunIsFair(Initial(n), steps);
    var p := Run(Initial(n), steps);
    if Joined(n, steps) { JoinedIsStopping(n, steps); }
    WorkersStay(Initial(n), steps);
    NobodyBusy(p.workers);
  }

  lemma {:induction false} WorkersStay(p: Pool, steps: seq<Step>)
    requires Runnable(p, steps)
    ensures |Run(p, steps).workers| == |p.workers|
    decreases |steps|
  {
    if steps != [] { WorkersStay(Next(p, steps[0]), steps[1..]); }
  }

  /** Without that restraint a task can be left behind: scheduled after the only worker's last scan. */
  lemma LateTaskIsStranded(job: Job)
    ensures var steps := [Pick(0), Check(0), SetStopping, Poll(0), Pick(0), Schedule(Some(job), -1, None), Check(0)];
            && Runnable(Initial(1), steps) && !Calm(Initial(1), steps)
            && InPhase(Run(Initial(1), steps), 0, Exited)
            && Run(Initial(1), steps).queue == [Task(job, -1)]
  {
    var late := Schedule(Some(job), -1, None);
    StrandedTail(job);
    var r3 := [Poll(0), Pick(0), late, Check(0)];
    RunCons(Solo(Idling, false, false, [], []), SetStopping, r3);
    assert Next(Solo(Checking, false, false, [], []), Check(0)) == Solo(Idling, false, false, [], []);
    RunCons(Solo(Checking, false, false, [], []), Check(0), [SetStopping] + r3);
    assert Next(Solo(Picking, false, false, [], []), Pick(0)) == Solo(Checking, false, false, [], []);
    RunCons(Solo(Picking, false, false, [], []), Pick(0), [Check(0)] + ([SetStopping] + r3));
    assert Initial(1) == Solo(Picking, false, false, [], []);
    assert [Pick(0)] + ([Check(0)] + ([SetStopping] + r3))
        == [Pick(0), Check(0), SetStopping, Poll(0), Pick(0), Schedule(Some(job), -1, None), Check(0)];
  }

  /** A pool with one worker. */
  function Solo(phase: Phase, idleDone: bool, stopping: bool, queue: seq<Task>, enqueued: seq<Task>): Pool {
    Pool(queue, 0, stopping, [Worker(phase, idleDone)], enqueued, [])
  }

  lemma StrandedTail(job: Job)
    ensures var p := Solo(Idling, false, true, [], []);
            var steps := [Poll(0), Pick(0), Schedule(Some(job), -1, None), Check(0)];
            var t := Task(job, -1);
            Runnable(p, steps) && !Calm(p, steps) && Run(p, steps) == Solo(Exited, true, true, [t], [t])
  {
    var late, t := Schedule(Some(job), -1, None), Task(job, -1);
    assert Next(Solo(Checking, true, true, [t], [t]), Check(0)) == Solo(Exited, true, true, [t], [t]);
    RunCons(Solo(Checking, true, true, [t], [t]), Check(0), []);
    assert Next(Solo(Checking, true, true, [], []), late) == Solo(Checking, true, true, [t], [t]);
    assert SomeoneSawTheEnd(Solo(Checking, true, true, [], [])) by {
      assert Solo(Checking, true, true, [], []).workers[0].idleDone;
    }
    RunCons(Solo(Checking, true, true, [], []), late, [Check(0)]);
    assert Next(Solo(Picking, true, true, [], []), Pick(0)) == Solo(Checking, true, true, [], []);
    RunCons(Solo(Picking, true, true, [], []), Pick(0), [late] + [Check(0)]);
    assert Next(Solo(Idling, false, true, [], []), Poll(0)) == Solo(Picking, true, true, [], []);
    RunCons(Solo(Idling, false, true, [], []), Poll(0), [Pick(0)] + ([late] + [Check(0)]));
    assert [Poll(0)] + ([Pick(0)] + ([late] + [Check(0)])) == [Poll(0), Pick(0), late, Check(0)];
  }

  lemma RunCons(p: Pool, s: Step, rest: seq<Step>)
    requires Enabled(p, s) && Runnable(Next(p, s), rest)
    ensures Runnable(p, [s] + rest) && Run(p, [s] + rest) == Run(Next(p, s), rest)
    ensures Calm(p, [s] + rest) <==> (SomeoneSawTheEnd(p) ==> !FromOutside(s)) && Calm(Next(p, s), rest)
  {
    assert ([s] + rest)[1..] == rest;
  }

  // ------------------------------------------------------------------ leaving

  /** A worker that has not left can always go on. */
  lemma WorkersGoOn(p: Pool, w: nat)
    requires p.active == Busy(p.workers) && w < |p.workers|
    ensures match p.workers[w].phase
            case Picking => Enabled(p, Pick(w))
            case Running(_) => Enabled(p, Finish(w))
            case Checking => Enabled(p, Check(w))
            case Idling => Enabled(p, Poll(w))
            case Exited => true
  {
    NobodyBusy(p.workers);
  }

  lemma StepStays(p: Pool, s: Step, w: nat)
    requires Enabled(p, s) && w < |p.workers| && !p.workers[w].idleDone && !p.workers[w].phase.Exited?
    requires s.Restart? || (!p.stopping && !s.SetStopping?)
    ensures var q := Next(p, s);
            !q.stopping && |q.workers| == |p.workers| && !q.workers[w].idleDone && !q.workers[w].phase.Exited?
  {
  }

  /** Nobody leaves a pool that is not told to stop. */
  lemma {:induction false} NobodyLeaves(p: Pool, steps: seq<Step>, w: nat)
    requires Runnable(p, steps) && w < |p.workers| && !p.workers[w].idleDone && !p.workers[w].phase.Exited?
    requires (!p.stopping || (steps != [] && steps[0].Restart?)) && forall s :: s in steps ==> !s.SetStopping?
    ensures |Run(p, steps).workers| == |p.workers| && !Run(p, steps).workers[w].phase.Exited?
    decreases |steps|
  {
    hide Next, Enabled;
    if steps != [] {
      assert steps[0] in steps;
      StepStays(p, steps[0], w);
      NobodyLeaves(Next(p, steps[0]), steps[1..], w);
    }
  }

  /** How many steps a worker is from leaving when there is nothing to do. */
  function Away(w: Worker): nat {
    match w.phase
    case Exited => 0
    case Checking => if w.idleDone then 1 else 5
    case Picking => if w.idleDone then 2 else 6
    case Idling => 4
    case Running(_) => 7
  }

  predicate Others(p: Pool, q: Pool, w: nat) {
    |q.workers| == |p.workers| && forall x :: 0 <= x < |p.workers| && x != w ==> q.workers[x] == p.workers[x]
  }

  /** The next step of a worker that has nothing to do brings it nearer to its end. */
  lemma StepLeaves(p: Pool, w: nat) returns (s: Step)
    requires p.active == Busy(p.workers) && Stopping(p) && EndIsFinal(p)
    requires w < |p.workers| && !p.workers[w].phase.Exited?
    ensures Enabled(p, s) && !FromOutside(s) && !s.SetStopping?
    ensures var q := Next(p, s);
            && Stopping(q) && q.active == Busy(q.workers) && EndIsFinal(q) && Others(p, q, w)
            && Away(q.workers[w]) < Away(p.workers[w])
  {
    NobodyBusy(p.workers);
    var phase := p.workers[w].phase;
    s := if phase.Picking? then Pick(w) else if phase.Checking? then Check(w) else Poll(w);
    StaysStopped(p, s);
    StepCounts(p, s);
    StepKeepsEnd(p, s);
  }

  lemma {:induction false} WorkerLeaves(p: Pool, w: nat) returns (steps: seq<Step>)
    requires p.active == Busy(p.workers) && Stopping(p) && EndIsFinal(p) && w < |p.workers|
    ensures Runnable(p, steps) && Calm(p, steps) && |steps| <= Away(p.workers[w])
    ensures var q := Run(p, steps);
            && Stopping(q) && q.active == Busy(q.workers) && EndIsFinal(q) && Others(p, q, w)
            && q.workers[w].phase.Exited?
    decreases Away(p.workers[w])
  {
    hide Next, Enabled, Away, FromOutside, Busy;
    if p.workers[w].phase.Exited? {
      steps := [];
    } else {
      var s := StepLeaves(p, w);
      var rest := WorkerLeaves(Next(p, s), w);
      steps := [s] + rest;
      RunCons(p, s, rest);
    }
  }

  lemma {:induction false} CalmJoin(p: Pool, a: seq<Step>, b: seq<Step>)
    requires Runnable(p, a) && Runnable(Run(p, a), b)
    ensures Runnable(p, a + b) && Run(p, a + b) == Run(Run(p, a), b)
    ensures Calm(p, a) && Calm(Run(p, a), b) ==> Calm(p, a + b)
    decreases |a|
  {
    hide Next, Enabled, FromOutside;
    if a == [] {
      assert a + b == b;
    } else {
      assert (a + b)[1..] == a[1..] + b && (a + b)[0] == a[0];
      CalmJoin(Next(p, a[0]), a[1..], b);
    }
  }

  /** The workers from `k` on leave one after the other. */
  lemma {:induction false} WorkersLeave(p: Pool, k: nat) returns (steps: seq<Step>)
    requires p.active == Busy(p.workers) && Stopping(p) && EndIsFinal(p) && k <= |p.workers|
    requires forall w :: 0 <= w < k ==> p.workers[w].phase.Exited?
    ensures Runnable(p, steps) && Calm(p, steps) && |Run(p, steps).workers| == |p.workers|
    ensures forall w :: 0 <= w < |p.workers| ==> Run(p, steps).workers[w].phase.Exited?
    decreases |p.workers| - k
  {
    hide Next, Enabled, Away, FromOutside, Busy, Runnable, Run, Calm;
    if k == |p.workers| {
      steps := NoSteps(p);
    } else {
      var first := WorkerLeaves(p, k);
      var rest := WorkersLeave(Run(p, first), k + 1);
      steps := first + rest;
      CalmJoin(p, first, rest);
    }
  }

  lemma NoSteps(p: Pool) returns (steps: seq<Step>)
    ensures Runnable(p, steps) && Calm(p, steps) && Run(p, steps) == p
  {
    steps := [];
  }

  /**
   After any run that ends with the pool stopped and nothing to do, all workers can
   leave, and stop() then returns.
   */
  lemma AllCanLeave(n: nat, before: seq<Step>) returns (steps: seq<Step>)
    requires Runnable(Initial(n), before) && Calm(Initial(n), before) && Stopping(Run(Initial(n), before))
    ensures Runnable(Initial(n), before + steps) && Joined(n, before + steps)
  {
    hide Runnable, Run, Calm, Busy;
    InitiallyFair(n);
    var p := Run(Initial(n), before);
    RunIsFair(Initial(n), before);
    assert EndIsFinal(Initial(n)) by { NobodyHasSeenIt(n); }
    EndIsFinalAlways(Initial(n), before);
    steps := WorkersLeave(p, 0);
    CalmJoin(Initial(n), before, steps);
    forall w | 0 <= w < n ensures InPhase(Run(Initial(n), before + steps), w, Exited) {}
  }

  lemma NobodyHasSeenIt(n: nat)
    ensures EndIsFinal(Initial(n)) && |Initial(n).workers| == n
  {
  }

  // ------------------------------------------------- what one worker leaves behind

  /** The task that a step hands to the scheduler. */
  function Given(s: Step): seq<Task> {
    if s.Schedule? && s.job.Some? then [Task(s.job.value, s.thread)] else []
  }

  /** The tasks that the steps hand to the scheduler, in order. */
  function Scheduled(steps: seq<Step>): seq<Task> {
    if steps == [] then [] else Given(steps[0]) + Scheduled(steps[1..])
  }

  /** The queue after a scan by thread w. */
  function Scanned(q: seq<Task>, w: nat): seq<Task> {
    var i := FirstFor(q, w);
    if i == |q| then q else Without(q, i)
  }

  predicate NoScan(steps: seq<Step>) { forall k :: 0 <= k < |steps| ==> !steps[k].Pick? && !steps[k].Poll? }

  predicate OneWorker(p: Pool, idleDone: bool) { |p.workers| == 1 && p.workers[0].idleDone == idleDone }

  lemma ScheduledCons(s: Step, q: seq<Task>, rest: seq<Step>)
    ensures var all := [s] + rest;
            all[1..] == rest && Scheduled(all) == Given(s) + Scheduled(rest)
    ensures s.Schedule? ==> Enqueued(q, s.job, s.thread) == q + Given(s)
  {
    assert ([s] + rest)[1..] == rest;
  }

  lemma SoloStep(p: Pool, s: Step)
    requires |p.workers| == 1 && Enabled(p, s)
    ensures var w, q := p.workers[0], Next(p, s);
            && |q.workers| == 1 && (w.idleDone || !q.workers[0].phase.Exited? || w.phase.Exited?)
            && (s.Poll? ==> s.w == 0) && (s.Pick? ==> s.w == 0 && q.queue == Scanned(p.queue, 0))
            && (!s.Pick? ==> q.queue == if s.Schedule? then Enqueued(p.queue, s.job, s.thread) else p.queue)
            && (!s.Poll? ==> q.workers[0].idleDone == w.idleDone)
            && (s.Poll? ==> q.workers[0] == Worker(Picking, Stopping(p)))
  {
  }

  /** With its idle fiber ended, a worker scans at most once more. */
  lemma LastSteps(p: Pool, s: Step)
    requires OneWorker(p, true) && !p.workers[0].phase.Idling? && Enabled(p, s)
    ensures var phase, after := p.workers[0].phase, Next(p, s).workers[0].phase;
            && !s.Poll? && (s.Pick? <==> phase.Picking? && !after.Picking?) && !after.Idling?
            && (after.Picking? ==> phase.Picking?)
  {
  }

  /** Its idle fiber has ended and the worker has scanned once more: it never scans again. */
  lemma {:induction false} BehindLastPick(p: Pool, steps: seq<Step>)
    requires OneWorker(p, true) && !p.workers[0].phase.Picking? && !p.workers[0].phase.Idling? && Runnable(p, steps)
    ensures NoScan(steps) && Run(p, steps).queue == p.queue + Scheduled(steps)
    decreases |steps|
  {
    hide Next, Enabled, Scanned;
    if steps != [] {
      var s, rest := steps[0], steps[1..];
      assert steps == [s] + rest;
      ScheduledCons(s, p.queue, rest);
      SoloStep(p, s);
      LastSteps(p, s);
      BehindLastPick(Next(p, s), rest);
      assert forall k :: 0 < k < |steps| ==> steps[k] == rest[k - 1];
    }
  }

  /** Its idle fiber has ended: what is scheduled before its last scan at j, and what is scheduled behind it. */
  lemma {:induction false} BehindLastPoll(p: Pool, steps: seq<Step>) returns (j: nat)
    requires OneWorker(p, true) && p.workers[0].phase.Picking? && Runnable(p, steps)
    requires InPhase(Run(p, steps), 0, Exited)
    ensures j < |steps| && steps[j] == Pick(0) && NoScan(steps[..j]) && NoScan(steps[j + 1..])
    ensures Run(p, steps).queue == Scanned(p.queue + Scheduled(steps[..j]), 0) + Scheduled(steps[j + 1..])
    decreases |steps|
  {
    hide Next, Enabled, Scanned, NoScan;
    var s, rest := steps[0], steps[1..];
    SoloStep(p, s);
    LastSteps(p, s);
    if s.Pick? {
      j := 0;
      assert p.queue + Scheduled(steps[..0]) == p.queue;
      assert NoScan(steps[..0]) by { NothingScans(); }
      BehindLastPick(Next(p, s), rest);
    } else {
      var k := BehindLastPoll(Next(p, s), rest);
      j := k + 1;
      assert steps[..j] == [s] + rest[..k];
      Behind(steps, k + 1, k + 1);
      ScheduledCons(s, p.queue, rest[..k]);
      ScansNot(s, rest[..k]);
      assert Next(p, s).queue + Scheduled(rest[..k]) == p.queue + Scheduled(steps[..j]);
    }
  }

  lemma Behind(steps: seq<Step>, a: nat, b: nat)
    requires a <= b < |steps|
    ensures steps[1..][a..b] == steps[a + 1..b + 1] && steps[1..][b..] == steps[b + 1..]
  {
  }

  lemma NothingScans()
    ensures NoScan([])
  {
  }

  lemma ScansNot(s: Step, rest: seq<Step>)
    requires NoScan(rest) && !s.Pick? && !s.Poll?
    ensures NoScan([s] + rest)
  {
  }

  /** The last poll of the steps is at i and the last scan at j, and `queue` is what these leave. */
  ghost predicate LeavesBehind(steps: seq<Step>, i: nat, j: nat, queue: seq<Task>) {
    && i < j < |steps| && steps[i] == Poll(0) && steps[j] == Pick(0)
    && NoScan(steps[i + 1..j]) && NoScan(steps[j + 1..])
    && queue == Scanned(Scheduled(steps[i + 1..j]), 0) + Scheduled(steps[j + 1..])
  }

  lemma LeavesBehindLater(steps: seq<Step>, i: nat, j: nat, queue: seq<Task>)
    requires steps != [] && LeavesBehind(steps[1..], i, j, queue)
    ensures LeavesBehind(steps, i + 1, j + 1, queue)
  {
    hide NoScan, Scanned, Scheduled;
    Behind(steps, i + 1, j);
    Behind(steps, j + 1, j + 1);
  }

  lemma LeavesBehindHere(steps: seq<Step>, k: nat, queue: seq<Task>)
    requires k + 1 < |steps| && steps[0] == Poll(0) && steps[1..][k] == Pick(0)
    requires NoScan(steps[1..][..k]) && NoScan(steps[1..][k + 1..])
    requires queue == Scanned([] + Scheduled(steps[1..][..k]), 0) + Scheduled(steps[1..][k + 1..])
    ensures LeavesBehind(steps, 0, k + 1, queue)
  {
    hide NoScan, Scanned, Scheduled;
    Behind(steps, 0, k);
    Behind(steps, k + 1, k + 1);
    assert steps[1..][0..k] == steps[1..][..k];
    assert [] + Scheduled(steps[1..][..k]) == Scheduled(steps[1..][..k]);
  }

  lemma {:induction false} FindLastPoll(p: Pool, steps: seq<Step>) returns (i: nat, j: nat)
    requires OneWorker(p, false) && !p.workers[0].phase.Exited? && Runnable(p, steps)
    requires InPhase(Run(p, steps), 0, Exited)
    ensures LeavesBehind(steps, i, j, Run(p, steps).queue)
    decreases |steps|
  {
    hide Next, Enabled, Scanned, NoScan, Scheduled, LeavesBehind;
    var s, rest := steps[0], steps[1..];
    SoloStep(p, s);
    if s.Poll? && Stopping(p) {
      var k := BehindLastPoll(Next(p, s), rest);
      LeavesBehindHere(steps, k, Run(p, steps).queue);
      i, j := 0, k + 1;
    } else {
      var a, b := FindLastPoll(Next(p, s), rest);
      LeavesBehindLater(steps, a, b, Run(p, steps).queue);
      i, j := a + 1, b + 1;
    }
  }

  /**
   What a pool of one worker leaves in its queue once the worker has exited, on
   every run: with its last poll at i and its last scan at j, what was scheduled
   in between less the one task that the scan takes, and all that was scheduled
   later.  So a task is left behind exactly if it was scheduled after the last
   scan, or before it but after the last poll without being the first that the
   worker may run; and none is left exactly if at most one such came in between.
   */
  lemma LeftBehind(steps: seq<Step>) returns (i: nat, j: nat)
    requires Runnable(Initial(1), steps) && InPhase(Run(Initial(1), steps), 0, Exited)
    ensures LeavesBehind(steps, i, j, Run(Initial(1), steps).queue)
    ensures var between, later := Scheduled(steps[i + 1..j]), Scheduled(steps[j + 1..]);
            Run(Initial(1), steps).queue == [] <==>
              (later == [] && (between == [] || (|between| == 1 && MayRun(between[0], 0))))
  {
    i, j := FindLastPoll(Initial(1), steps);
    var between := Scheduled(steps[i + 1..j]);
    if |between| == 1 { FirstForIs(between, 0, FirstFor(between, 0)); }
  }

  // ------------------------------------------------ what many workers leave behind

  /** The queue after the steps, as far as scheduling and scanning go. */
  function Leftover(q: seq<Task>, steps: seq<Step>): seq<Task>
    decreases |steps|
  {
    if steps == [] then q
    else
      var next := match steps[0]
                  case Schedule(job, thread, _) => Enqueued(q, job, thread)
                  case Pick(w) => Scanned(q, w)
                  case _ => q;
      Leftover(next, steps[1..])
  }

  predicate NoPoll(steps: seq<Step>) { forall k :: 0 <= k < |steps| ==> !steps[k].Poll? }

  /** How often worker `w` scans the queue. */
  function Scans(steps: seq<Step>, w: nat): nat {
    if steps == [] then 0 else (if steps[0] == Pick(w) then 1 else 0) + Scans(steps[1..], w)
  }

  function AllScans(steps: seq<Step>): nat {
    if steps == [] then 0 else (if steps[0].Pick? then 1 else 0) + AllScans(steps[1..])
  }

  function AboutToPick(workers: seq<Worker>): (k: nat)
    ensures k <= |workers|
  {
    if workers == [] then 0 else (if workers[0].phase.Picking? then 1 else 0) + AboutToPick(workers[1..])
  }

  lemma {:induction false} AboutToPickAfter(workers: seq<Worker>, w: nat, worker: Worker)
    requires w < |workers|
    ensures AboutToPick(workers[w := worker]) == AboutToPick(workers)
              - (if workers[w].phase.Picking? then 1 else 0) + (if worker.phase.Picking? then 1 else 0)
  {
    if w == 0 {
      assert workers[0 := worker][1..] == workers[1..];
    } else {
      assert workers[w := worker][1..] == workers[1..][w - 1 := worker];
      AboutToPickAfter(workers[1..], w - 1, worker);
    }
  }

  /** Without a poll nobody comes to scan, and nobody's idle fiber ends. */
  lemma StepWithoutPoll(p: Pool, s: Step)
    requires Enabled(p, s) && !s.Poll?
    ensures var q := Next(p, s);
            && AboutToPick(q.workers) == AboutToPick(p.workers) - (if s.Pick? then 1 else 0)
            && |q.workers| == |p.workers|
            && forall w :: 0 <= w < |p.workers| ==>
                 && q.workers[w].idleDone == p.workers[w].idleDone
                 && (q.workers[w].phase.Picking? ==> p.workers[w].phase.Picking?)
                 && (s == Pick(w) ==> p.workers[w].phase.Picking? && !q.workers[w].phase.Picking?)
  {
    if s.Pick? || s.Finish? || s.Check? { AboutToPickAfter(p.workers, s.w, Next(p, s).workers[s.w]); }
  }

  lemma QueueOfStep(p: Pool, s: Step)
    requires Enabled(p, s)
    ensures Leftover(p.queue, [s]) == Next(p, s).queue
  {
    assert [s][1..] == [];
  }

  lemma {:induction false} RunWithoutPoll(p: Pool, steps: seq<Step>, w: nat)
    requires Runnable(p, steps) && NoPoll(steps) && w < |p.workers|
    ensures Run(p, steps).queue == Leftover(p.queue, steps) && |Run(p, steps).workers| == |p.workers|
    ensures AllScans(steps) <= AboutToPick(p.workers)
    ensures Scans(steps, w) <= if p.workers[w].phase.Picking? then 1 else 0
    ensures Run(p, steps).workers[w].idleDone == p.workers[w].idleDone
    decreases |steps|
  {
    hide Next, Enabled, AboutToPick, Scanned;
    if steps != [] {
      var s, rest := steps[0], steps[1..];
      assert !steps[0].Poll? && NoPoll(rest) by { assert forall k :: 0 <= k < |rest| ==> rest[k] == steps[k + 1]; }
      StepWithoutPoll(p, s);
      QueueOfStep(p, s);
      assert [s][1..] == [];
      RunWithoutPoll(Next(p, s), rest, w);
    }
  }

  /** Scans take at most one task each. */
  lemma {:induction false} LeftoverLength(q: seq<Task>, steps: seq<Step>)
    ensures |q| + |Scheduled(steps)| - AllScans(steps) <= |Leftover(q, steps)| <= |q| + |Scheduled(steps)|
    decreases |steps|
  {
    if steps != [] {
      var next := match steps[0]
                  case Schedule(job, thread, _) => Enqueued(q, job, thread)
                  case Pick(w) => Scanned(q, w)
                  case _ => q;
      LeftoverLength(next, steps[1..]);
    }
  }

  /** A worker leaves only after its idle fiber has ended, and does not wait in it any more then. */
  ghost predicate Orderly(p: Pool) {
    forall w :: 0 <= w < |p.workers| ==>
      && (p.workers[w].phase.Exited? ==> p.workers[w].idleDone)
      && (p.workers[w].phase.Idling? ==> !p.workers[w].idleDone)
  }

  ghost predicate AllDone(p: Pool) { forall w :: 0 <= w < |p.workers| ==> p.workers[w].idleDone }

  lemma StepOrderly(p: Pool, s: Step)
    requires Enabled(p, s) && Orderly(p)
    ensures Orderly(Next(p, s)) && |Next(p, s).workers| == |p.workers|
    ensures AllDone(p) ==> !s.Poll? && AllDone(Next(p, s))
    ensures !AllDone(p) && AllDone(Next(p, s)) ==> s.Poll? && Next(p, s).queue == []
  {
    if !AllDone(p) && AllDone(Next(p, s)) {
      var w :| 0 <= w < |p.workers| && !p.workers[w].idleDone;
      assert Next(p, s).workers[w].idleDone;
    }
  }

  lemma {:induction false} DoneNeverPolls(p: Pool, steps: seq<Step>)
    requires Runnable(p, steps) && Orderly(p) && AllDone(p)
    ensures NoPoll(steps)
    decreases |steps|
  {
    hide Next, Enabled, AllDone, Orderly;
    if steps != [] {
      StepOrderly(p, steps[0]);
      DoneNeverPolls(Next(p, steps[0]), steps[1..]);
      assert forall k :: 0 < k < |steps| ==> steps[k] == steps[1..][k - 1];
    }
  }

  /** The last poll is the one after which every idle fiber has ended; the queue is empty then. */
  lemma {:induction false} LastPoll(p: Pool, steps: seq<Step>) returns (i: nat)
    requires Runnable(p, steps) && Orderly(p) && !AllDone(p) && AllDone(Run(p, steps))
    ensures i < |steps| && steps[i].Poll? && NoPoll(steps[i + 1..])
    ensures Runnable(p, steps[..i + 1]) && Runnable(Run(p, steps[..i + 1]), steps[i + 1..])
    ensures var after := Run(p, steps[..i + 1]);
            after.queue == [] && Run(after, steps[i + 1..]) == Run(p, steps) && |after.workers| == |p.workers|
    decreases |steps|
  {
    hide Next, Enabled, AllDone, Orderly, NoPoll;
    var s, rest := steps[0], steps[1..];
    var q := Next(p, s);
    StepOrderly(p, s);
    if AllDone(q) {
      DoneNeverPolls(q, rest);
      i := 0;
      assert steps[..1][1..] == [] && steps[..1][0] == s;
    } else {
      var k := LastPoll(q, rest);
      i := k + 1;
      assert steps[..i + 1][1..] == rest[..k + 1] && steps[i + 1..] == rest[k + 1..];
    }
  }

  /**
   What a pool of n workers leaves in its queue once all have exited, on every
   run: with the last poll of all at i, what was scheduled behind it less what
   the scans behind it take, and each worker scans at most once more.  So
   nothing scheduled before that poll is left, and of more than n tasks
   scheduled behind it some are.
   */
  lemma LeftBehindByMany(n: nat, steps: seq<Step>) returns (i: nat)
    requires n > 0 && Runnable(Initial(n), steps)
    requires forall w :: 0 <= w < n ==> InPhase(Run(Initial(n), steps), w, Exited)
    ensures i < |steps| && steps[i].Poll? && NoPoll(steps[i + 1..])
    ensures var late := steps[i + 1..];
            && Run(Initial(n), steps).queue == Leftover([], late)
            && (forall w :: 0 <= w < n ==> Scans(late, w) <= 1)
            && |Scheduled(late)| - n <= |Leftover([], late)| <= |Scheduled(late)|
  {
    hide Run, Runnable, Leftover, Scheduled, NoPoll;
    var p := Initial(n);
    assert !AllDone(p) by { assert !p.workers[0].idleDone; }
    AlwaysOrderly(p, steps);
    var end := Run(p, steps);
    forall w | 0 <= w < |end.workers| ensures end.workers[w].idleDone { assert InPhase(end, w, Exited); }
    i := LastPoll(p, steps);
    var after, late := Run(p, steps[..i + 1]), steps[i + 1..];
    forall w | 0 <= w < n ensures Scans(late, w) <= 1 { RunWithoutPoll(after, late, w); }
    RunWithoutPoll(after, late, 0);
    LeftoverLength([], late);
  }

  lemma {:induction false} AlwaysOrderly(p: Pool, steps: seq<Step>)
    requires Runnable(p, steps) && Orderly(p)
    ensures Orderly(Run(p, steps)) && |Run(p, steps).workers| == |p.workers|
    decreases |steps|
  {
    hide Next, Enabled, Orderly;
    if steps != [] {
      StepOrderly(p, steps[0]);
      AlwaysOrderly(Next(p, steps[0]), steps[1..]);
    }
  }
}
