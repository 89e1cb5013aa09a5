/**
 The order of turns with one worker: what is scheduled goes to the end of the
 queue, and the scan takes from its front.
 */
module Turns {
  import opened Wrappers
  import opened FiberStates
  import opened Schedulers
  import opened TimerOrder
  import opened IoEvents
  import opened Runtime
  import opened Shutdown
  import opened Wakeups

  /** Timers that fire queue their functions in the order in which they fire. */
  lemma {:induction false} FiredInOrder(q: seq<Task>, fired: seq<Entry>)
    ensures var r := AllEnqueued(q, JobsOf(fired));
            && |r| == |q| + |fired| && r[..|q|] == q
            && forall i :: 0 <= i < |fired| ==> r[|q| + i] == Task(Callback(fired[i].cb), -1)
    decreases |fired|
  {
    if fired != [] {
      var last, init := fired[|fired| - 1], fired[..|fired| - 1];
      assert fired == init + [last];
      JobsOfJoin(init, [last]);
      var js := JobsOf(fired);
      assert js[..|js| - 1] == JobsOf(init) && js[|js| - 1] == Some(Callback(last.cb));
      FiredInOrder(q, init);
    }
  }

  /** A round of the idle fiber queues the functions of the timers that are due, then the waiters that are woken. */
  lemma RoundQueue(rt: Rt, now: nat, reports: seq<Report>)
    requires Inv(rt) && Enabled(rt, Idle(now, reports)) && !Stopping(rt)
    ensures var fired, q := ListExpired(rt.timers, now).0, IdleRound(rt, now, reports).io.queue;
            && |q| == |rt.io.queue| + |fired| + |AllWoken(rt.io, reports)|
            && q[..|rt.io.queue|] == rt.io.queue && q[|rt.io.queue| + |fired|..] == AllWoken(rt.io, reports)
            && forall i :: 0 <= i < |fired| ==> q[|rt.io.queue| + i] == Task(Callback(fired[i].cb), -1)
  {
    hide Sound, OneTokenEach, Ledger, WaitersHold, IdleRound, AllWoken, ListExpired, JobsOf, AllEnqueued;
    assert WellFormed(rt.io) by { IsWellFormed(rt); }
    RoundWaits(rt, now, reports, 0, READ);
    FiredInOrder(rt.io.queue, ListExpired(rt.timers, now).0);
  }

  lemma DoQueuesBehind(rt: Rt, d: Do)
    requires Sound(rt) && Enabled(rt, Act(d))
    ensures rt.io.queue <= Done(rt, d).io.queue
  {
    hide Sound, WellFormed, Executes, TimerHistory.After, Added, Deleted, Cancelled, AllCancelled, Lookup, WaiterOf;
    IdleGoesOn(rt, d);
    match d
    case Await(x, y, id) => AddWaits(rt.io, x, y, Callback(User(id)));
    case Forget(x, y) => DeleteWaits(rt.io, x, y);
    case WakeUp(x, y) => CancelWakes(rt.io, x, y);
    case WakeAll(x) => CancelAllWakes(rt.io, x);
    case WaitFor(x, y) => AddWaits(rt.io, x, y, Fiber(rt.pc.f));
    case _ =>
  }

  /** Only the scan takes anything from the queue. */
  lemma OthersQueueBehind(rt: Rt, s: Step)
    requires Inv(rt) && Enabled(rt, s) && !s.Pick?
    ensures rt.io.queue <= Next(rt, s).io.queue
  {
    hide Sound, OneTokenEach, Ledger, WaitersHold, Done, IdleRound, Stopping;
    match s
    case Act(d) => DoQueuesBehind(rt, d);
    case Idle(now, reports) => RoundQueuesBehind(rt, now, reports);
    case Begin =>
    case Check =>
  }

  lemma RoundQueuesBehind(rt: Rt, now: nat, reports: seq<Report>)
    requires Inv(rt) && Enabled(rt, Idle(now, reports))
    ensures rt.io.queue <= IdleRound(rt, now, reports).io.queue
  {
    hide Inv, ListExpired, AllWoken, AllDispatched, Expired;
    if !Stopping(rt) {
      RoundQueue(rt, now, reports);
      var q := IdleRound(rt, now, reports).io.queue;
      assert q == q[..|rt.io.queue|] + q[|rt.io.queue|..];
    }
  }

  /** The scan takes the front of the queue: a fiber is resumed, a function gets a new fiber. */
  lemma PickTakesTheFront(rt: Rt)
    requires Inv(rt) && Unpinned(rt.io.queue) && Enabled(rt, Pick)
    ensures var after := Picked(rt);
            if rt.io.queue == [] then after == rt.(pc := AtCheck)
            else
              && after.io.queue == rt.io.queue[1..] && after.pc.InTask? && after.pc.f < |after.fibers|
              && after.fibers[after.pc.f].state == EXEC
              && match rt.io.queue[0].job
                 case Fiber(f) => after.pc.f == f && |after.fibers| == |rt.fibers|
                 case Callback(code) =>
                   && after.pc.f == |rt.fibers| && |after.fibers| == |rt.fibers| + 1
                   && after.fibers[after.pc.f].code == code
  {
    hide Sound, OneTokenEach, Ledger, WaitersHold, Waiting;
    PickResumes(rt);
    if rt.io.queue != [] { assert rt.io.queue[0] in rt.io.queue; }
  }

  function Picks(steps: seq<Step>): nat {
    if steps == [] then 0 else (if steps[0].Pick? then 1 else 0) + Picks(steps[1..])
  }

  /** A task is passed by nobody: with k tasks before it, it comes to the front of the queue with the k-th scan. */
  lemma {:induction false} TurnComes(rt: Rt, steps: seq<Step>, k: nat)
    requires Inv(rt) && Unpinned(rt.io.queue) && Runnable(rt, steps) && k < |rt.io.queue| && Picks(steps) <= k
    ensures var q := Runtime.Final(rt, steps).io.queue;
            k - Picks(steps) < |q| && q[k - Picks(steps)] == rt.io.queue[k]
    decreases |steps|
  {
    hide Inv, Unpinned, Next, Enabled;
    if steps != [] {
      var s, next := steps[0], Next(rt, steps[0]);
      StepKeepsInv(rt, s);
      StepUnpins(rt, s);
      FrontOrBehind(rt, s);
      TurnComes(next, steps[1..], if s.Pick? then k - 1 else k);
    }
  }

  lemma FrontOrBehind(rt: Rt, s: Step)
    requires Inv(rt) && Unpinned(rt.io.queue) && Enabled(rt, s)
    ensures if !s.Pick? then rt.io.queue <= Next(rt, s).io.queue
            else Next(rt, s).io.queue == if rt.io.queue == [] then [] else rt.io.queue[1..]
  {
    hide Inv, Unpinned, Done, IdleRound, Picked;
    if s.Pick? { PickTakesTheFront(rt); } else { OthersQueueBehind(rt, s); }
  }
}
