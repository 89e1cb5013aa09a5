/**
 How stop() comes to return: code that schedules nothing more, timers that come
 due and events that are reported lead the one-worker IOManager to its end.
 */
module Shutdown {
  import opened Wrappers
  import opened FiberStates
  import opened Schedulers
  import opened TimerOrder
  import opened TimerHistory
  import opened IoEvents
  import opened Runtime

  /** Code only ends; the closure of a sleep still does its duty. */
  predicate Quiet(s: Step) { s.Act? ==> s.d == Return || s.d == DoWake }

  /** When there is nothing to run, the idle fiber's wait brings a due timer or an event. */
  predicate Brings(rt: Rt, s: Step)
    requires Enabled(rt, s)
  {
    s.Idle? && !Stopping(rt) && rt.io.queue == [] ==>
      ExpiredCount(rt.timers, s.now) > 0 || AllDispatched(rt.io, s.reports).pending < rt.io.pending
  }

  predicate QuietRun(rt: Rt, steps: seq<Step>)
    decreases |steps|
  {
    steps == []
    || (Enabled(rt, steps[0]) && Quiet(steps[0]) && Brings(rt, steps[0]) && QuietRun(Next(rt, steps[0]), steps[1..]))
  }

  ghost predicate OneShots(es: seq<Entry>) { forall e :: e in es ==> !e.recurring }

  ghost predicate Unpinned(q: seq<Task>) { forall t :: t in q ==> t.thread == -1 }

  // ------------------------------------------------------------- what is to do

  function Weight(job: Job): nat { if job.Callback? && job.code.Wake? then 2 else 1 }

  function QueueWeight(q: seq<Task>): nat {
    if q == [] then 0 else Weight(q[0].job) + QueueWeight(q[1..])
  }

  function TimerWeight(es: seq<Entry>): nat {
    if es == [] then 0 else Weight(Callback(es[0].cb)) + TimerWeight(es[1..])
  }

  /** Turns still to be taken, and waits still to end. */
  function Load(rt: Rt): int {
    QueueWeight(rt.io.queue) + TimerWeight(rt.timers) + |rt.timers| + 3 * rt.io.pending + (if IsTodo(rt) then 1 else 0)
  }

  predicate IsTodo(rt: Rt) { rt.pc.InTask? && rt.pc.f < |rt.fibers| && rt.fibers[rt.pc.f].todo }

  /** Steps to the next turn of the loop. */
  function Rank(rt: Rt): nat {
    match rt.pc
    case Preparing => 6
    case InTask(_) => if IsTodo(rt) then 7 else 6
    case AtPick => if rt.idle != TERM && rt.io.queue == [] then 5 else 2
    case AtCheck => if rt.idle != TERM then 4 else 1
    case InIdle => 3
    case Returned => 0
  }

  function Measure(rt: Rt): int { 8 * Load(rt) + Rank(rt) }

  // ------------------------------------------------------------------- weights

  lemma WeightlessIsEmpty(q: seq<Task>)
    ensures QueueWeight(q) == 0 <==> q == []
  {
  }

  lemma {:induction false} QueueWeightAppend(q: seq<Task>, t: Task)
    ensures QueueWeight(q + [t]) == QueueWeight(q) + Weight(t.job)
  {
    if q == [] {
      assert q + [t] == [t];
    } else {
      assert (q + [t])[1..] == q[1..] + [t];
      QueueWeightAppend(q[1..], t);
    }
  }

  lemma {:induction false} QueueWeightWithout(q: seq<Task>, i: nat)
    requires i < |q|
    ensures QueueWeight(Without(q, i)) == QueueWeight(q) - Weight(q[i].job)
  {
    if i == 0 {
      assert Without(q, 0) == q[1..];
    } else {
      assert Without(q, i)[1..] == Without(q[1..], i - 1) && Without(q, i)[0] == q[0];
      QueueWeightWithout(q[1..], i - 1);
    }
  }

  lemma {:induction false} TimerWeightJoin(a: seq<Entry>, b: seq<Entry>)
    ensures TimerWeight(a + b) == TimerWeight(a) + TimerWeight(b)
  {
    if a == [] {
      assert a + b == b;
    } else {
      assert (a + b)[1..] == a[1..] + b;
      TimerWeightJoin(a[1..], b);
    }
  }

  /** One-shot timers go from the set to the queue. */
  lemma {:induction false} FiredWeight(q: seq<Task>, fired: seq<Entry>)
    ensures QueueWeight(AllEnqueued(q, JobsOf(fired))) == QueueWeight(q) + TimerWeight(fired)
    ensures Unpinned(q) ==> Unpinned(AllEnqueued(q, JobsOf(fired)))
    decreases |fired|
  {
    if fired != [] {
      var last, init := fired[|fired| - 1], fired[..|fired| - 1];
      assert fired == init + [last];
      JobsOfJoin(init, [last]);
      TimerWeightJoin(init, [last]);
      var js := JobsOf(fired);
      assert js[..|js| - 1] == JobsOf(init) && js[|js| - 1] == Some(Callback(last.cb));
      FiredWeight(q, init);
      QueueWeightAppend(AllEnqueued(q, JobsOf(init)), Task(Callback(last.cb), -1));
    }
  }

  lemma {:induction false} NothingReinserted(es: seq<Entry>, fired: seq<Entry>)
    requires OneShots(fired)
    ensures Reinsert(es, fired) == es
    decreases |fired|
  {
    if fired != [] {
      assert fired[0] in fired;
      NothingReinserted(es, fired[1..]);
    }
  }

  lemma ListedWeight(es: seq<Entry>, now: nat)
    requires OneShots(es)
    ensures var (fired, after) := ListExpired(es, now);
            && TimerWeight(after) == TimerWeight(es) - TimerWeight(fired)
            && |after| == |es| - ExpiredCount(es, now) && OneShots(after)
  {
    var k := ExpiredCount(es, now);
    assert es == es[..k] + es[k..];
    TimerWeightJoin(es[..k], es[k..]);
    NothingReinserted(es[k..], es[..k]);
  }

  /** A waiter that is woken goes to the queue, with at most the weight of two turns. */
  lemma TriggeredWeight(io: Io, fd: nat, e: Event)
    requires fd < |io.fds|
    ensures var after := Triggered(io, fd, e);
            && after.pending == io.pending - 1 && |after.fds| == |io.fds|
            && QueueWeight(io.queue) <= QueueWeight(after.queue) <= QueueWeight(io.queue) + 2
            && (Unpinned(io.queue) ==> Unpinned(after.queue))
  {
    var w := Waiter(io.fds[fd].Context(e));
    if w.Some? { QueueWeightAppend(io.queue, Task(w.value, -1)); }
  }

  lemma DispatchedWeight(io: Io, r: Report)
    ensures var after := Dispatched(io, r);
            && after.pending <= io.pending && QueueWeight(io.queue) <= QueueWeight(after.queue)
            && QueueWeight(after.queue) + 2 * after.pending <= QueueWeight(io.queue) + 2 * io.pending
            && (Unpinned(io.queue) ==> Unpinned(after.queue))
  {
    hide Forgotten, Triggered, Unpinned, QueueWeight;
    if r.fd < |io.fds| {
      var actual := Actual(r, io.fds[r.fd].events);
      var afterRead := if actual.read then Triggered(io, r.fd, READ) else io;
      if actual.read { TriggeredWeight(io, r.fd, READ); }
      if actual.write { TriggeredWeight(afterRead, r.fd, WRITE); }
    }
  }

  lemma {:induction false} BatchWeight(io: Io, rs: seq<Report>)
    ensures var after := AllDispatched(io, rs);
            && after.pending <= io.pending && QueueWeight(io.queue) <= QueueWeight(after.queue)
            && QueueWeight(after.queue) + 2 * after.pending <= QueueWeight(io.queue) + 2 * io.pending
            && (Unpinned(io.queue) ==> Unpinned(after.queue))
    decreases |rs|
  {
    hide Dispatched, Unpinned, QueueWeight;
    if rs != [] {
      DispatchedWeight(io, rs[0]);
      BatchWeight(Dispatched(io, rs[0]), rs[1..]);
    }
  }

  /** What reports trigger does not depend on the queue. */
  lemma {:induction false} PendingIgnoresQueue(io: Io, q: seq<Task>, rs: seq<Report>)
    ensures var after, other := AllDispatched(io, rs), AllDispatched(io.(queue := q), rs);
            after.pending == other.pending
    decreases |rs|
  {
    if rs != [] {
      var next, other := Dispatched(io, rs[0]), Dispatched(io.(queue := q), rs[0]);
      assert next.(queue := other.queue) == other;
      PendingIgnoresQueue(next, other.queue, rs[1..]);
    }
  }

  // -------------------------------------------------------------- every step

  /** Nothing recurs, and every task may run on the only thread. */
  ghost predicate Ending(rt: Rt) { Inv(rt) && OneShots(rt.timers) && Unpinned(rt.io.queue) }

  lemma IdleShrinks(rt: Rt, now: nat, reports: seq<Report>)
    requires Ending(rt) && Enabled(rt, Idle(now, reports)) && Brings(rt, Idle(now, reports))
    ensures var after := IdleRound(rt, now, reports);
            Measure(after) < Measure(rt) && OneShots(after.timers) && Unpinned(after.io.queue)
  {
    hide WellFormed, TimerSet, UserTimers, OneTokenEach, Ledger;
    hide WaitersHold, Unpinned, OneShots, QueueWeight, TimerWeight;
    if !Stopping(rt) {
      var expired := Expired(rt, now);
      ListedWeight(rt.timers, now);
      FiredWeight(rt.io.queue, ListExpired(rt.timers, now).0);
      BatchWeight(expired.io, reports);
      PendingIgnoresQueue(rt.io, expired.io.queue, reports);
      WeightlessIsEmpty(rt.io.queue);
      WeightlessIsEmpty(AllDispatched(expired.io, reports).queue);
    }
  }

  lemma PickShrinks(rt: Rt)
    requires Ending(rt) && Enabled(rt, Pick)
    ensures Measure(Picked(rt)) < Measure(rt) && OneShots(Picked(rt).timers) && Unpinned(Picked(rt).io.queue)
  {
    hide WellFormed, TimerSet, UserTimers, OneTokenEach, Ledger, WaitersHold, OneShots, QueueWeight, TimerWeight;
    PickResumes(rt);
    var i := FirstFor(rt.io.queue, SELF);
    if rt.io.queue != [] {
      assert rt.io.queue[0] in rt.io.queue && MayRun(rt.io.queue[0], SELF);
      QueueWeightWithout(rt.io.queue, i);
    }
  }

  lemma ActShrinks(rt: Rt, d: Do)
    requires Ending(rt) && Enabled(rt, Act(d)) && Quiet(Act(d))
    ensures Measure(Done(rt, d)) < Measure(rt) && OneShots(Done(rt, d).timers) && Unpinned(Done(rt, d).io.queue)
  {
    hide WellFormed, TimerSet, UserTimers, OneTokenEach, Ledger, WaitersHold, OneShots, QueueWeight, TimerWeight;
    if d == DoWake {
      QueueWeightAppend(rt.io.queue, Task(Fiber(rt.fibers[rt.pc.f].code.fiber), -1));
    }
  }

  /** Every step of a quiet run brings the end nearer. */
  lemma QuietStepShrinks(rt: Rt, s: Step)
    requires Ending(rt) && Enabled(rt, s) && Quiet(s) && Brings(rt, s)
    ensures Ending(Next(rt, s)) && Measure(Next(rt, s)) < Measure(rt)
  {
    hide Inv, Measure, Picked, Done, IdleRound;
    StepKeepsInv(rt, s);
    match s
    case Act(d) => ActShrinks(rt, d);
    case Pick => PickShrinks(rt);
    case Idle(now, reports) => IdleShrinks(rt, now, reports);
    case Begin => TurnShrinks(rt, s);
    case Check => TurnShrinks(rt, s);
  }

  lemma TurnShrinks(rt: Rt, s: Step)
    requires Ending(rt) && Enabled(rt, s) && (s.Begin? || s.Check?)
    ensures Measure(Next(rt, s)) < Measure(rt)
  {
    hide WellFormed, TimerSet, UserTimers, OneTokenEach, Ledger, WaitersHold, OneShots, QueueWeight, TimerWeight;
  }

  // ---------------------------------------------------------------------- runs

  lemma MeasureIsPositive(rt: Rt)
    requires Inv(rt)
    ensures Measure(rt) >= 0 && (Measure(rt) == 0 ==> rt.pc == Returned)
  {
    hide TimerSet, UserTimers, OneTokenEach, Ledger, WaitersHold, QueueWeight, TimerWeight, Chained;
  }

  /** A quiet run is no longer than what there was to do; one of that length has returned. */
  lemma {:induction false} QuietRunIsShort(rt: Rt, steps: seq<Step>)
    requires Ending(rt) && QuietRun(rt, steps)
    ensures Runnable(rt, steps) && Ending(Runtime.Final(rt, steps))
    ensures |steps| <= Measure(rt) - Measure(Runtime.Final(rt, steps))
    ensures |steps| == Measure(rt) ==> Runtime.Final(rt, steps).pc == Returned
    decreases |steps|
  {
    hide Ending, Measure, Next, Enabled, Brings, Quiet;
    EndingMeans(rt);
    if steps == [] {
      MeasureIsPositive(rt);
    } else {
      QuietStepShrinks(rt, steps[0]);
      QuietRunIsShort(Next(rt, steps[0]), steps[1..]);
    }
    EndingMeans(Runtime.Final(rt, steps));
    MeasureIsPositive(Runtime.Final(rt, steps));
  }

  lemma EndingMeans(rt: Rt)
    requires Ending(rt)
    ensures Inv(rt)
  {
  }

  lemma {:induction false} SomeoneWaits(fds: seq<Fd>) returns (fd: nat)
    requires Bits(fds) > 0
    ensures fd < |fds| && fds[fd].events != NONE
  {
    if fds[0].events != NONE {
      fd := 0;
    } else {
      var rest := SomeoneWaits(fds[1..]);
      fd := rest + 1;
    }
  }

  /** What the environment can bring when there is nothing to run. */
  lemma SomethingComes(rt: Rt) returns (s: Step)
    requires Inv(rt) && rt.pc == InIdle && !Stopping(rt) && rt.io.queue == []
    ensures s.Idle? && Enabled(rt, s) && Brings(rt, s)
  {
    hide UserTimers, OneTokenEach, Ledger, WaitersHold;
    if rt.timers != [] {
      assert rt.timers[0] in rt.timers;
      s := Idle(rt.timers[0].next, []);
    } else {
      var fd := SomeoneWaits(rt.io.fds);
      var r := Report(fd, rt.io.epoll[fd], false);
      s := Idle(0, [r]);
      assert Allowed(rt.io, Dispatch(r));
      OneReportCounts(rt.io, r);
    }
  }

  lemma OneReportCounts(io: Io, r: Report)
    requires r.fd < |io.fds| && io.fds[r.fd].events == r.ready != NONE
    ensures AllDispatched(io, [r]).pending < io.pending
  {
    var after := Dispatched(io, r);
    assert after.pending < io.pending;
    assert [r][1..] == [] && AllDispatched(after, []) == after;
  }

  /** Until stop() has returned there is a next step, whatever the code has left behind. */
  lemma QuietStepExists(rt: Rt) returns (s: Step)
    requires Inv(rt) && !Stopped(rt)
    ensures Enabled(rt, s) && Quiet(s) && Brings(rt, s)
  {
    hide WellFormed, TimerSet, UserTimers, OneTokenEach, Ledger, WaitersHold;
    match rt.pc
    case Preparing => s := Begin;
    case AtPick => s := Pick;
    case AtCheck => s := Check;
    case InTask(f) => s := Act(if rt.fibers[f].todo then DoWake else Return);
    case InIdle =>
      if Stopping(rt) || rt.io.queue != [] {
        s := Idle(0, []);
      } else {
        s := SomethingComes(rt);
      }
  }

  lemma {:induction false} StopCanReturn(rt: Rt) returns (steps: seq<Step>)
    requires Ending(rt)
    ensures QuietRun(rt, steps) && Runnable(rt, steps) && Stopped(Runtime.Final(rt, steps))
    decreases Measure(rt)
  {
    hide Ending, Measure, Next, Enabled, Brings, Quiet, Stopped;
    EndingMeans(rt);
    MeasureIsPositive(rt);
    steps := [];
    if !Stopped(rt) {
      var s := QuietStepExists(rt);
      QuietStepShrinks(rt, s);
      EndingMeans(Next(rt, s));
      MeasureIsPositive(Next(rt, s));
      var rest := StopCanReturn(Next(rt, s));
      steps := [s] + rest;
      assert steps[1..] == rest;
    }
  }

  // ----------------------------------------------------------- from the start

  lemma EventUnpins(io: Io, op: IoEvents.Op)
    requires Allowed(io, op) && Unpinned(io.queue) && WellFormed(io)
    ensures Unpinned(IoEvents.After(io, op).queue)
  {
    match op
    case Add(fd, e, job) =>
    case Delete(fd, e) =>
    case Cancel(fd, e) => if fd < |io.fds| { TriggeredWeight(io, fd, e); }
    case CancelAll(fd) => if fd < |io.fds| { AllTriggeredUnpinned(io, fd, io.fds[fd].events); }
    case Dispatch(r) => DispatchedWeight(io, r);
  }

  lemma AllTriggeredUnpinned(io: Io, fd: nat, m: Mask)
    requires fd < |io.fds| && Unpinned(io.queue)
    ensures Unpinned(TriggeredAll(io, fd, m).queue)
  {
    hide Triggered, Unpinned;
    var afterRead := if m.read then Triggered(io, fd, READ) else io;
    TriggeredWeight(io, fd, READ);
    TriggeredWeight(afterRead, fd, WRITE);
  }

  lemma DoneUnpins(rt: Rt, d: Do)
    requires Sound(rt) && Unpinned(rt.io.queue) && Enabled(rt, Act(d))
    ensures Unpinned(Done(rt, d).io.queue)
  {
    hide WellFormed, TimerSet, UserTimers, Chained, Allowed;
    hide Waited, IoEvents.After, TimerHistory.After, Lookup, Dropped, Legal;
    match d
    case Await(fd, e, id) => EventUnpins(rt.io, IoEvents.Add(fd, e, Callback(User(id))));
    case Forget(fd, e) => EventUnpins(rt.io, Delete(fd, e));
    case WakeUp(fd, e) => EventUnpins(rt.io, IoEvents.Cancel(fd, e));
    case WakeAll(fd) =>
      WakeAllIsAllowed(rt.io, fd);
      EventUnpins(rt.io, CancelAll(fd));
    case WaitFor(fd, e) =>
      WaitIsAllowed(rt.io, fd, e, rt.pc.f);
      EventUnpins(rt.io, IoEvents.Add(fd, e, Fiber(rt.pc.f)));
    case _ =>
  }

  lemma StepUnpins(rt: Rt, s: Step)
    requires Inv(rt) && Unpinned(rt.io.queue) && Enabled(rt, s)
    ensures Unpinned(Next(rt, s).io.queue)
  {
    hide WellFormed, TimerSet, UserTimers, Chained, OneTokenEach, Ledger, WaitersHold, Done;
    match s
    case Act(d) => DoneUnpins(rt, d);
    case Idle(now, reports) =>
      FiredWeight(rt.io.queue, ListExpired(rt.timers, now).0);
      BatchWeight(Expired(rt, now).io, reports);
    case _ =>
  }

  lemma {:induction false} AlwaysUnpinned(rt: Rt, steps: seq<Step>)
    requires Inv(rt) && Unpinned(rt.io.queue) && Runnable(rt, steps)
    ensures Inv(Runtime.Final(rt, steps)) && Unpinned(Runtime.Final(rt, steps).io.queue)
    decreases |steps|
  {
    hide Inv, Next, Enabled, Unpinned;
    if steps != [] {
      StepKeepsInv(rt, steps[0]);
      StepUnpins(rt, steps[0]);
      AlwaysUnpinned(Next(rt, steps[0]), steps[1..]);
    }
  }

  /** A recurring timer stays in the set, and keeps the loop going. */
  lemma {:induction false} RecurringKeepsGoing(rt: Rt, steps: seq<Step>, addr: nat)
    requires Inv(rt) && QuietRun(rt, steps)
    requires Lookup(rt.timers, addr).Some? && Lookup(rt.timers, addr).value.recurring
    ensures Runnable(rt, steps) && !Stopped(Runtime.Final(rt, steps))
    decreases |steps|
  {
    hide WellFormed, Chained, UserTimers, OneTokenEach, Ledger, WaitersHold, Done, Picked, IdleRound;
    if steps != [] {
      StepKeepsInv(rt, steps[0]);
      RecurringStays(rt, steps[0], addr);
      RecurringKeepsGoing(Next(rt, steps[0]), steps[1..], addr);
    }
  }

  lemma RecurringStays(rt: Rt, s: Step, addr: nat)
    requires Sound(rt) && Enabled(rt, s) && Quiet(s)
    requires Lookup(rt.timers, addr).Some? && Lookup(rt.timers, addr).value.recurring
    ensures var after := Next(rt, s).timers; Lookup(after, addr).Some? && Lookup(after, addr).value.recurring
  {
    hide WellFormed, Chained, UserTimers;
    if s.Idle? { ListedLookup(rt.timers, s.now, addr); }
  }

  ghost predicate CanReturn(rt: Rt) {
    exists steps :: QuietRun(rt, steps) && Runnable(rt, steps) && Stopped(Runtime.Final(rt, steps))
  }

  /** With code that schedules nothing more, stop() can return exactly if no timer recurs. */
  lemma StopReturnsIff(rt: Rt)
    requires Inv(rt) && Unpinned(rt.io.queue)
    ensures CanReturn(rt) <==> OneShots(rt.timers)
  {
    if OneShots(rt.timers) {
      var steps := StopCanReturn(rt);
    } else {
      var e :| e in rt.timers && e.recurring;
      LookupIsMembership(rt.timers, e.addr);
      forall steps | QuietRun(rt, steps) && Runnable(rt, steps)
        ensures !Stopped(Runtime.Final(rt, steps))
      {
        RecurringKeepsGoing(rt, steps, e.addr);
      }
    }
  }

  /**
   From any state of any run without recurring timers: once the code schedules
   nothing more and what is waited for comes, every run returns from stop()
   within Measure steps, and goes on until it does.
   */
  lemma StopReturns(n: nat, before: seq<Step>, quiet: seq<Step>)
    requires n >= 32 && Runnable(Initial(n), before) && OneShots(Runtime.Final(Initial(n), before).timers)
    requires QuietRun(Runtime.Final(Initial(n), before), quiet)
    ensures var rt := Runtime.Final(Initial(n), before);
            && |quiet| <= Measure(rt) && Runnable(rt, quiet)
            && (|quiet| == Measure(rt) ==> Runtime.Final(rt, quiet).pc == Returned)
            && (Stopped(Runtime.Final(rt, quiet))
                || exists s :: Enabled(Runtime.Final(rt, quiet), s) && Quiet(s) && Brings(Runtime.Final(rt, quiet), s))
  {
    hide Inv, Initial, Next, Enabled, Brings, Quiet, Measure, Stopped;
    InitiallyInv(n);
    assert Unpinned(Initial(n).io.queue) by { StartsEmpty(n); }
    AlwaysUnpinned(Initial(n), before);
    var rt := Runtime.Final(Initial(n), before);
    QuietRunIsShort(rt, quiet);
    var end := Runtime.Final(rt, quiet);
    EndingMeans(end);
    MeasureIsPositive(end);
    if !Stopped(end) {
      var s := QuietStepExists(end);
    }
  }

  lemma StartsEmpty(n: nat)
    ensures Initial(n).io.queue == []
  {
  }
}
