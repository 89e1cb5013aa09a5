/**
 When a suspended fiber is woken: a sleeper not before its time, and by the first
 round of the idle fiber at or after it; a fiber that waits for an event by the
 first report, cancelEvent or cancelAll for that event, and by nothing else.
 */
module Wakeups {
  import opened Wrappers
  import opened Schedulers
  import opened TimerOrder
  import opened TimerHistory
  import opened IoEvents
  import opened Runtime

  /**
   What a task's own code can do at any time: schedule functions and fibers, wake
   all waiters of a descriptor, give up its turn, end; sleep under any address that
   no timer has, and wait for any event that nobody waits for.
   */
  lemma CodeMay(rt: Rt, id: nat, fd: nat, e: Event, ms: nat, now: nat, addr: nat)
    requires Inv(rt) && rt.pc.InTask? && rt.fibers[rt.pc.f].code.User?
    ensures Enabled(rt, Act(Do.Schedule(id))) && Enabled(rt, Act(Spawn(id))) && Enabled(rt, Act(WakeAll(fd)))
    ensures Enabled(rt, Act(Requeue)) && Enabled(rt, Act(Return))
    ensures Enabled(rt, Act(Sleep(ms, now, addr))) <==> Lookup(rt.timers, addr) == None
    ensures Enabled(rt, Act(WaitFor(fd, e))) <==> WaiterOf(rt.io, fd, e) == None
  {
    hide OneTokenEach, Ledger, WaitersHold, TimerSet, UserTimers, Waiter;
    SomebodyWaits(rt.io, fd, e);
  }

  // ------------------------------------------------------------------- sleepers

  /** Fiber `f` sleeps: its one wake-up is the timer at `addr`, which is due at `due`. */
  ghost predicate Asleep(rt: Rt, f: nat, addr: nat, due: int) {
    && OnHold(rt, f) && f !in rt.lost
    && match Lookup(rt.timers, addr)
       case None => false
       case Some(e) => e.cb == Wake(f) && e.next == due && !e.recurring
  }

  /** A fiber that is on hold neither runs nor stands in the queue, and no closure is about to put it there. */
  ghost predicate OutOfReach(rt: Rt, f: nat) {
    && OnHold(rt, f) && rt.pc != InTask(f)
    && Queued(rt.io.queue, Fiber(f)) == 0 && Queued(rt.io.queue, Callback(Wake(f))) == 0
  }

  lemma {:induction false} TimerIsTimed(es: seq<Entry>, addr: nat)
    requires Lookup(es, addr).Some?
    ensures Timed(es, Callback(Lookup(es, addr).value.cb)) > 0
  {
    if es[0].addr != addr { TimerIsTimed(es[1..], addr); }
  }

  lemma SleeperIsOutOfReach(rt: Rt, f: nat, addr: nat, due: int)
    requires Inv(rt) && Asleep(rt, f, addr, due)
    ensures OutOfReach(rt, f) && Waiting(rt.io.fds, Fiber(f)) == 0
    ensures Held(rt, Callback(Wake(f))) == 0 && Timed(rt.timers, Callback(Wake(f))) == 1
  {
    hide WellFormed, TimerSet, UserTimers, Ledger, WaitersHold, Lookup, Timed, Queued, Waiting;
    TimerIsTimed(rt.timers, addr);
    assert Tokens(rt, f) == Resumable(rt, f);
  }

  /** The timer of a sleep stays as it is until it fires. */
  lemma DoLeavesTimer(rt: Rt, d: Do, addr: nat)
    requires Sound(rt) && Enabled(rt, Act(d)) && Lookup(rt.timers, addr).Some?
    requires !Lookup(rt.timers, addr).value.cb.User?
    ensures Lookup(Done(rt, d).timers, addr) == Lookup(rt.timers, addr)
  {
    hide Sound, WellFormed, Executes, TimerHistory.After, IoEvents.After, Allowed, Dropped, Lookup;
    IdleGoesOn(rt, d);
    assert TimerSet(rt.timers) by { TimersAreSet(rt); }
    match d
    case OnTimer(op) => StepLookup(rt.timers, op, addr);
    case Sleep(ms, now, a) => StepLookup(rt.timers, TimerHistory.Add(SleepTimer(rt.pc.f, ms, now, a)), addr);
    case _ =>
  }

  lemma TimersAreSet(rt: Rt)
    requires Sound(rt)
    ensures TimerSet(rt.timers)
  {
    hide WellFormed, TimerSet, UserTimers, Chained;
  }

  /** delEvent loses only a fiber that waited. */
  lemma NobodyElseIsLost(rt: Rt, d: Do, f: nat)
    requires Inv(rt) && Enabled(rt, Act(d)) && f !in rt.lost && f in Done(rt, d).lost
    ensures d.Forget? && WaiterOf(rt.io, d.fd, d.e) == Some(Fiber(f)) && Waiting(rt.io.fds, Fiber(f)) > 0
  {
    hide WellFormed, TimerSet, UserTimers, OneTokenEach, Ledger, Chained, Stopping, Waiting, Lookup, Legal;
    hide IoEvents.After, TimerHistory.After;
    OpWaits(rt.io, Delete(d.fd, d.e), Fiber(f));
    OpWaits(rt.io, Delete(d.fd, d.e), Callback(Wake(f)));
  }

  /** A fiber on hold whose turn has not come is not resumed by the scan. */
  lemma PickPassesBy(rt: Rt, f: nat)
    requires Inv(rt) && Enabled(rt, Pick) && OnHold(rt, f) && Queued(rt.io.queue, Fiber(f)) == 0
    ensures OnHold(Picked(rt), f) && Picked(rt).lost == rt.lost && Picked(rt).timers == rt.timers
    ensures Picked(rt).io.fds == rt.io.fds
  {
    hide Sound, OneTokenEach, Ledger, WaitersHold, Waiting, Stopping;
    PickResumes(rt);
    var i := FirstFor(rt.io.queue, SELF);
    if i < |rt.io.queue| { QueuedMember(rt.io.queue, i); }
  }

  /** Until its time has come, nothing that happens wakes a sleeper. */
  lemma StepLetsSleep(rt: Rt, s: Step, f: nat, addr: nat, due: int)
    requires Inv(rt) && Enabled(rt, s) && Asleep(rt, f, addr, due) && (s.Idle? ==> s.now < due)
    ensures Asleep(Next(rt, s), f, addr, due)
  {
    hide Inv, Sound, OneTokenEach, Ledger, WaitersHold, Done, Picked, OutOfReach, Waiting, Queued, Held, Timed;
    hide Lookup, ListExpired;
    SleeperIsOutOfReach(rt, f, addr, due);
    match s
    case Act(d) => SleepsThroughDo(rt, d, f, addr, due);
    case Pick => SleepsThroughPick(rt, f, addr, due);
    case Idle(now, reports) => SleepsThroughIdle(rt, now, reports, f, addr, due);
    case Begin =>
    case Check =>
  }

  lemma SleepsThroughDo(rt: Rt, d: Do, f: nat, addr: nat, due: int)
    requires Inv(rt) && Enabled(rt, Act(d)) && Asleep(rt, f, addr, due)
    ensures Asleep(Done(rt, d), f, addr, due)
  {
    hide Sound, OneTokenEach, Ledger, WaitersHold, Done, Waiting, Lookup, OnHold, Executes, MayDo;
    SleeperIsOutOfReach(rt, f, addr, due);
    DoStaysOnHold(rt, d, f);
    DoLeavesTimer(rt, d, addr);
    if f in Done(rt, d).lost { NobodyElseIsLost(rt, d, f); }
  }

  lemma SleepsThroughPick(rt: Rt, f: nat, addr: nat, due: int)
    requires Inv(rt) && Enabled(rt, Pick) && Asleep(rt, f, addr, due)
    ensures Asleep(Picked(rt), f, addr, due)
  {
    hide Sound, OneTokenEach, Ledger, WaitersHold, Picked, Waiting, Lookup, Enabled, OnHold;
    SleeperIsOutOfReach(rt, f, addr, due);
    PickPassesBy(rt, f);
  }

  lemma SleepsThroughIdle(rt: Rt, now: nat, reports: seq<Report>, f: nat, addr: nat, due: int)
    requires Inv(rt) && Enabled(rt, Idle(now, reports)) && Asleep(rt, f, addr, due) && now < due
    ensures Asleep(IdleRound(rt, now, reports), f, addr, due)
  {
    hide Sound, OneTokenEach, Ledger, WaitersHold, ListExpired, TimerSet;
    assert TimerSet(rt.timers) by { TimersAreSet(rt); }
    ListedLookup(rt.timers, now, addr);
  }

  /** A timer that is due leaves the set. */
  lemma DueTimerLeaves(rt: Rt, t: nat, f: nat, addr: nat, due: int)
    requires Sound(rt) && Asleep(rt, f, addr, due) && t >= due && Timed(rt.timers, Callback(Wake(f))) == 1
    ensures var (fired, after) := ListExpired(rt.timers, t);
            && Lookup(after, addr) == None
            && Timed(after, Callback(Wake(f))) == 0 && Recurring(fired, Callback(Wake(f))) == 0
  {
    hide ListExpired, TimerSet, UserTimers, WellFormed, Chained;
    var fired := ListExpired(rt.timers, t).0;
    ListedLookup(rt.timers, t, addr);
    TimerIsTimed(fired, addr);
    TimedListed(rt.timers, t, Callback(Wake(f)));
    FiredAreUsers(rt, t);
    NoRecurringWakes(fired, Callback(Wake(f)));
  }

  /** Once its time has come, the next round of the idle fiber takes the timer and queues its closure. */
  lemma RoundWakes(rt: Rt, t: nat, reports: seq<Report>, f: nat, addr: nat, due: int)
    requires Inv(rt) && Enabled(rt, Idle(t, reports)) && Asleep(rt, f, addr, due) && t >= due
    ensures var after := IdleRound(rt, t, reports);
            && Lookup(after.timers, addr) == None && OnHold(after, f)
            && Queued(after.io.queue, Callback(Wake(f))) == 1 && Queued(after.io.queue, Fiber(f)) == 0
  {
    hide Sound, Ledger, ListExpired, Timed, Waiting, Queued, AllDispatched, Lookup, Recurring;
    var s, job, after := Step.Idle(t, reports), Callback(Wake(f)), IdleRound(rt, t, reports);
    SleeperIsOutOfReach(rt, f, addr, due);
    DueTimerLeaves(rt, t, f, addr, due);
    SleeperKeepsGoing(rt, f, addr, due);
    StepKeepsInv(rt, s);
    StepCount(rt, s, job);
    StepCount(rt, s, Fiber(f));
    assert Tokens(rt, f) == Resumable(rt, f);
    assert Tokens(after, f) == Resumable(after, f);
  }

  /** While somebody sleeps the idle fiber does not end. */
  lemma SleeperKeepsGoing(rt: Rt, f: nat, addr: nat, due: int)
    requires Asleep(rt, f, addr, due)
    ensures !Stopping(rt)
  {
  }

  /** A task that calls sleep is put to sleep until the clock reading of the call plus the time asked for. */
  lemma GoesToSleep(rt: Rt, ms: nat, now: nat, addr: nat)
    requires Inv(rt) && Enabled(rt, Act(Sleep(ms, now, addr)))
    ensures rt.pc.InTask? && Asleep(Done(rt, Sleep(ms, now, addr)), rt.pc.f, addr, now + ms)
  {
    hide WellFormed, UserTimers, OneTokenEach, Ledger, Stopping, TimerSet, Lookup;
    RunningIsNotLost(rt);
    StepLookup(rt.timers, TimerHistory.Add(SleepTimer(rt.pc.f, ms, now, addr)), addr);
  }

  lemma {:induction false} SleepsOn(rt: Rt, steps: seq<Step>, f: nat, addr: nat, due: int)
    requires Inv(rt) && Runnable(rt, steps) && Asleep(rt, f, addr, due)
    requires forall s :: s in steps && s.Idle? ==> s.now < due
    ensures Inv(Runtime.Final(rt, steps)) && Asleep(Runtime.Final(rt, steps), f, addr, due)
    decreases |steps|
  {
    hide Inv, Asleep, Next, Enabled;
    if steps != [] {
      assert steps[0] in steps;
      StepLetsSleep(rt, steps[0], f, addr, due);
      StepKeepsInv(rt, steps[0]);
      SleepsOn(Next(rt, steps[0]), steps[1..], f, addr, due);
    }
  }

  lemma {:induction false} RunJoin(rt: Rt, a: seq<Step>, b: seq<Step>)
    requires Runnable(rt, a + b)
    ensures Runnable(rt, a) && Runnable(Runtime.Final(rt, a), b)
    ensures Runtime.Final(rt, a + b) == Runtime.Final(Runtime.Final(rt, a), b)
    decreases |a|
  {
    hide Next, Enabled;
    if a == [] {
      assert a + b == b;
    } else {
      assert (a + b)[1..] == a[1..] + b && (a + b)[0] == a[0];
      RunJoin(Next(rt, a[0]), a[1..], b);
    }
  }

  /**
   On every run in which a task sleeps `ms` milliseconds at clock reading `now`:
   as long as no round of the idle fiber has read the clock at now + ms or later,
   the task is on hold, is not executed, and neither it nor the closure that
   schedules it stands in the queue.  The first round that does read such a time
   puts the closure into the queue, once, and the timer is gone.
   */
  lemma SleeperWakesInTime(n: nat, before: seq<Step>, ms: nat, now: nat, addr: nat, steps: seq<Step>)
    requires n >= 32 && Runnable(Initial(n), before + ([Act(Sleep(ms, now, addr))] + steps))
    requires forall s :: s in steps && s.Idle? ==> s.now < now + ms
    ensures Runnable(Initial(n), before) && Runtime.Final(Initial(n), before).pc.InTask?
    ensures var f := Runtime.Final(Initial(n), before).pc.f;
            var rt := Runtime.Final(Initial(n), before + ([Act(Sleep(ms, now, addr))] + steps));
            && OnHold(rt, f) && rt.pc != InTask(f)
            && Queued(rt.io.queue, Fiber(f)) == 0 && Queued(rt.io.queue, Callback(Wake(f))) == 0
            && forall t, reports :: t >= now + ms && Enabled(rt, Idle(t, reports)) ==>
                 var woken := Next(rt, Idle(t, reports));
                 && Queued(woken.io.queue, Callback(Wake(f))) == 1 && Queued(woken.io.queue, Fiber(f)) == 0
                 && Lookup(woken.timers, addr) == None && OnHold(woken, f)
  {
    hide Inv, Asleep, Initial, Enabled, Done, IdleRound, OnHold, Queued, Lookup;
    var s := Act(Sleep(ms, now, addr));
    InitiallyInv(n);
    RunJoin(Initial(n), before, [s] + steps);
    AlwaysInv(Initial(n), before);
    var rt0 := Runtime.Final(Initial(n), before);
    assert ([s] + steps)[1..] == steps && Enabled(rt0, s);
    GoesToSleep(rt0, ms, now, addr);
    StepKeepsInv(rt0, s);
    var f := rt0.pc.f;
    SleepsOn(Next(rt0, s), steps, f, addr, now + ms);
    var rt := Runtime.Final(Next(rt0, s), steps);
    SleeperIsOutOfReach(rt, f, addr, now + ms);
    forall t, reports | t >= now + ms && Enabled(rt, Idle(t, reports))
      ensures Queued(Next(rt, Idle(t, reports)).io.queue, Callback(Wake(f))) == 1
      ensures Queued(Next(rt, Idle(t, reports)).io.queue, Fiber(f)) == 0
      ensures Lookup(Next(rt, Idle(t, reports)).timers, addr) == None && OnHold(Next(rt, Idle(t, reports)), f)
    {
      RoundWakes(rt, t, reports, f, addr, now + ms);
    }
  }

  // -------------------------------------------------------------------- waiters

  /** Fiber `f` waits for event `e` of `fd`. */
  ghost predicate Awaiting(rt: Rt, f: nat, fd: nat, e: Event) {
    OnHold(rt, f) && f !in rt.lost && WaiterOf(rt.io, fd, e) == Some(Fiber(f))
  }

  /** A report that the event is ready or the descriptor failed, cancelEvent, cancelAll, or delEvent. */
  predicate Frees(s: Step, fd: nat, e: Event) {
    match s
    case Act(Forget(x, y)) => x == fd && y == e
    case Act(WakeUp(x, y)) => x == fd && y == e
    case Act(WakeAll(x)) => x == fd
    case Idle(_, reports) => exists r :: r in reports && r.fd == fd && (r.ready.Has(e) || r.failed)
    case _ => false
  }

  lemma WaiterIsOutOfReach(rt: Rt, f: nat, fd: nat, e: Event)
    requires Inv(rt) && Awaiting(rt, f, fd, e)
    ensures OutOfReach(rt, f) && rt.io.pending > 0
  {
    hide TimerSet, UserTimers, Ledger, WaitersHold, Queued, Waiting, Consistent, Forgotten, Timed;
    ForgottenWaits(rt.io.fds, fd, e, Fiber(f));
    if rt.io.pending <= 0 { NobodyWaits(rt.io.fds, Fiber(f)); }
    assert Tokens(rt, f) == Resumable(rt, f);
  }

  /** What running code does to who waits for an event. */
  lemma DoWaits(rt: Rt, d: Do, fd: nat, e: Event)
    requires Sound(rt) && Enabled(rt, Act(d)) && WaiterOf(rt.io, fd, e).Some?
    ensures WaiterOf(Done(rt, d).io, fd, e) == if Frees(Act(d), fd, e) then None else WaiterOf(rt.io, fd, e)
  {
    hide Sound, WellFormed, Executes, TimerHistory.After, Added, Deleted, Cancelled, AllCancelled, Lookup, Waiter;
    IdleGoesOn(rt, d);
    match d
    case Await(x, y, id) => AddWaits(rt.io, x, y, Callback(User(id)));
    case Forget(x, y) => DeleteWaits(rt.io, x, y);
    case WakeUp(x, y) => CancelWakes(rt.io, x, y);
    case WakeAll(x) => CancelAllWakes(rt.io, x);
    case WaitFor(x, y) => AddWaits(rt.io, x, y, Fiber(rt.pc.f));
    case _ =>
  }

  lemma WaitsThroughDo(rt: Rt, d: Do, f: nat, fd: nat, e: Event)
    requires Inv(rt) && Enabled(rt, Act(d)) && Awaiting(rt, f, fd, e) && !Frees(Act(d), fd, e)
    ensures Awaiting(Done(rt, d), f, fd, e)
  {
    hide Sound, OneTokenEach, Ledger, Done, Waiting, OnHold, Executes, MayDo, WaiterOf;
    DoStaysOnHold(rt, d, f);
    DoWaits(rt, d, fd, e);
    if f in Done(rt, d).lost { LosesOnlyItsOwn(rt, d, f, fd, e); }
  }

  /** A fiber waits for one event only. */
  lemma LosesOnlyItsOwn(rt: Rt, d: Do, f: nat, fd: nat, e: Event)
    requires Inv(rt) && Enabled(rt, Act(d)) && Awaiting(rt, f, fd, e) && f in Done(rt, d).lost
    ensures Frees(Act(d), fd, e)
  {
    hide Sound, Ledger, Done, Waiting, OnHold, Executes, MayDo, Queued, Timed, Held;
    NobodyElseIsLost(rt, d, f);
    if d.fd != fd || d.e != e {
      assert Tokens(rt, f) == Resumable(rt, f);
      WaitsTwice(rt.io.fds, d.fd, d.e, fd, e, Fiber(f));
    }
  }

  lemma WaitsTwice(fds: seq<Fd>, x: nat, y: Event, fd: nat, e: Event, job: Job)
    requires x < |fds| && fd < |fds| && (x != fd || y != e)
    requires Waiter(fds[x].Context(y)) == Some(job) && Waiter(fds[fd].Context(e)) == Some(job)
    ensures Waiting(fds, job) >= 2
  {
    hide Waiting;
    var rest := fds[x := Forgotten(fds[x], y)];
    WaitingAfter(fds, x, Forgotten(fds[x], y), job);
    ForgottenWaits(rest, fd, e, job);
  }

  lemma WaitsThroughPick(rt: Rt, f: nat, fd: nat, e: Event)
    requires Inv(rt) && Enabled(rt, Pick) && Awaiting(rt, f, fd, e)
    ensures Awaiting(Picked(rt), f, fd, e)
  {
    hide Sound, OneTokenEach, Ledger, WaitersHold, Picked, Waiting, Enabled, OnHold, Waiter;
    WaiterIsOutOfReach(rt, f, fd, e);
    PickPassesBy(rt, f);
  }

  /** What a round of the idle fiber does to who waits for an event. */
  lemma RoundWaits(rt: Rt, now: nat, reports: seq<Report>, fd: nat, e: Event)
    requires WellFormed(rt.io) && Reports(rt.io, reports) && !Stopping(rt)
    ensures var io := IdleRound(rt, now, reports).io;
            && WaiterOf(io, fd, e) == (if Frees(Step.Idle(now, reports), fd, e) then None else WaiterOf(rt.io, fd, e))
            && io.queue == AllEnqueued(rt.io.queue, JobsOf(ListExpired(rt.timers, now).0)) + AllWoken(rt.io, reports)
  {
    hide WellFormed, AllDispatched, Waiter, AllWoken, Stopping, ListExpired, AllEnqueued;
    var expired := Expired(rt, now);
    ExpiredIsWellFormed(rt, now);
    assert Reportable(expired.io, reports);
    BatchWakes(expired.io, reports, fd, e);
    assert forall r, y :: r in reports ==> WaiterOf(expired.io, r.fd, y) == WaiterOf(rt.io, r.fd, y);
    AllWokenElsewhere(rt.io, expired.io, reports);
    assert Frees(Step.Idle(now, reports), fd, e) <==> exists r :: r in reports && Tells(r, fd, e);
  }

  lemma WaitsThroughIdle(rt: Rt, now: nat, reports: seq<Report>, f: nat, fd: nat, e: Event)
    requires Inv(rt) && Enabled(rt, Idle(now, reports)) && Awaiting(rt, f, fd, e)
    requires !Frees(Step.Idle(now, reports), fd, e)
    ensures Awaiting(IdleRound(rt, now, reports), f, fd, e)
  {
    hide OneTokenEach, Ledger, WaitersHold, AllDispatched, Frees, WaiterOf, WellFormed, TimerSet, UserTimers, Chained;
    WaiterIsOutOfReach(rt, f, fd, e);
    RoundWaits(rt, now, reports, fd, e);
  }

  /** Nothing but its event wakes a fiber that waits. */
  lemma StepLetsWait(rt: Rt, s: Step, f: nat, fd: nat, e: Event)
    requires Inv(rt) && Enabled(rt, s) && Awaiting(rt, f, fd, e) && !Frees(s, fd, e)
    ensures Awaiting(Next(rt, s), f, fd, e)
  {
    hide Inv, Done, Picked, IdleRound, Frees, WaiterOf;
    match s
    case Act(d) => WaitsThroughDo(rt, d, f, fd, e);
    case Pick => WaitsThroughPick(rt, f, fd, e);
    case Idle(now, reports) => WaitsThroughIdle(rt, now, reports, f, fd, e);
    case Begin =>
    case Check =>
  }

  lemma {:induction false} WokenIsQueued(io: Io, rs: seq<Report>, r: Report, e: Event)
    requires r in rs && Tells(r, r.fd, e) && WaiterOf(io, r.fd, e).Some?
    ensures Task(WaiterOf(io, r.fd, e).value, -1) in AllWoken(io, rs)
  {
    hide WaiterOf;
    if r == rs[0] {
      assert Task(WaiterOf(io, r.fd, e).value, -1) in Woken(io, r);
    } else {
      WokenIsQueued(io, rs[1..], r, e);
    }
  }

  lemma MemberIsQueued(q: seq<Task>, t: Task)
    requires t in q
    ensures Queued(q, t.job) > 0
  {
    var i :| 0 <= i < |q| && q[i] == t;
    QueuedMember(q, i);
  }

  lemma RoundQueues(rt: Rt, now: nat, reports: seq<Report>, f: nat, fd: nat, e: Event)
    requires WellFormed(rt.io) && Reports(rt.io, reports) && !Stopping(rt) && WaiterOf(rt.io, fd, e) == Some(Fiber(f))
    requires Frees(Step.Idle(now, reports), fd, e)
    ensures Queued(IdleRound(rt, now, reports).io.queue, Fiber(f)) > 0
  {
    hide WellFormed, Stopping, IdleRound, WaiterOf, Queued, AllWoken, ListExpired, AllEnqueued;
    RoundWaits(rt, now, reports, fd, e);
    var r :| r in reports && r.fd == fd && (r.ready.Has(e) || r.failed);
    WokenIsQueued(rt.io, reports, r, e);
    MemberIsQueued(IdleRound(rt, now, reports).io.queue, Task(Fiber(f), -1));
  }

  lemma DoQueues(rt: Rt, d: Do, f: nat, fd: nat, e: Event)
    requires Sound(rt) && Enabled(rt, Act(d)) && WaiterOf(rt.io, fd, e) == Some(Fiber(f))
    requires Frees(Act(d), fd, e) && !d.Forget?
    ensures Queued(Done(rt, d).io.queue, Fiber(f)) > 0
  {
    hide Sound, WellFormed, Executes, TimerHistory.After, Cancelled, AllCancelled, Lookup, WaiterOf, Queued;
    IdleGoesOn(rt, d);
    if d.WakeUp? {
      CancelWakes(rt.io, fd, e);
    } else {
      CancelAllWakes(rt.io, fd);
    }
    MemberIsQueued(Done(rt, d).io.queue, Task(Fiber(f), -1));
  }

  /** delEvent loses the fiber; every other end of its wait puts it into the queue, once. */
  lemma StepFrees(rt: Rt, s: Step, f: nat, fd: nat, e: Event)
    requires Inv(rt) && Enabled(rt, s) && Awaiting(rt, f, fd, e) && Frees(s, fd, e)
    ensures var after := Next(rt, s);
            && OnHold(after, f) && WaiterOf(after.io, fd, e) == None
            && (if s.Act? && s.d.Forget? then f in after.lost && Queued(after.io.queue, Fiber(f)) == 0
                else f !in after.lost && Queued(after.io.queue, Fiber(f)) == 1)
  {
    hide Sound, OneTokenEach, Ledger, WaitersHold, Done, IdleRound, Queued, WaiterOf, OnHold, Frees, Timed, Waiting;
    hide Resumable, Executes, MayDo, Stopping;
    WaiterIsOutOfReach(rt, f, fd, e);
    StepKeepsInv(rt, s);
    assert OneTokenEach(Next(rt, s)) && Sound(rt);
    TokensAre(Next(rt, s), f);
    assert WellFormed(rt.io) by { IsWellFormed(rt); }
    if s.Act? {
      DoStaysOnHold(rt, s.d, f);
      DoWaits(rt, s.d, fd, e);
      FreedOrLost(rt, s.d, f, fd, e);
    } else {
      assert s.Idle? by { OnlyTheseFree(s, fd, e); }
      PendingGoesOn(rt);
      RoundWaits(rt, s.now, s.reports, fd, e);
      RoundQueues(rt, s.now, s.reports, f, fd, e);
      IdleStaysOnHold(rt, s.now, s.reports, f);
    }
  }

  lemma OnlyTheseFree(s: Step, fd: nat, e: Event)
    requires Frees(s, fd, e)
    ensures s.Act? || s.Idle?
  {
  }

  lemma IsWellFormed(rt: Rt)
    requires Sound(rt)
    ensures WellFormed(rt.io)
  {
    hide WellFormed, TimerSet, UserTimers, Chained;
  }

  lemma PendingGoesOn(rt: Rt)
    requires rt.io.pending > 0
    ensures !Stopping(rt)
  {
  }

  /** A fiber that was lost has no turn, any other at most one. */
  lemma TokensAre(rt: Rt, f: nat)
    requires OneTokenEach(rt)
    ensures Queued(rt.io.queue, Fiber(f)) <= 1
    ensures f in rt.lost ==> Queued(rt.io.queue, Fiber(f)) == 0
  {
    hide Queued, Timed, Waiting;
    assert Tokens(rt, f) == Resumable(rt, f);
  }

  lemma FreedOrLost(rt: Rt, d: Do, f: nat, fd: nat, e: Event)
    requires Inv(rt) && Enabled(rt, Act(d)) && Awaiting(rt, f, fd, e) && Frees(Act(d), fd, e)
    ensures d.Forget? ==> f in Done(rt, d).lost
    ensures !d.Forget? ==> f !in Done(rt, d).lost && Queued(Done(rt, d).io.queue, Fiber(f)) > 0
  {
    hide Sound, OneTokenEach, Ledger, WaitersHold, Queued, IoEvents.After, TimerHistory.After;
    if !d.Forget? { DoQueues(rt, d, f, fd, e); }
  }

  /** A task that calls addEvent for itself waits from then on. */
  lemma BeginsToWait(rt: Rt, fd: nat, e: Event)
    requires Inv(rt) && Enabled(rt, Act(WaitFor(fd, e)))
    ensures rt.pc.InTask? && Awaiting(Done(rt, WaitFor(fd, e)), rt.pc.f, fd, e)
  {
    hide WellFormed, UserTimers, OneTokenEach, Ledger, Stopping, TimerSet, Lookup, Added, Waiter;
    RunningIsNotLost(rt);
    AddWaits(rt.io, fd, e, Fiber(rt.pc.f));
  }

  lemma {:induction false} WaitsOn(rt: Rt, steps: seq<Step>, f: nat, fd: nat, e: Event)
    requires Inv(rt) && Runnable(rt, steps) && Awaiting(rt, f, fd, e)
    requires forall s :: s in steps ==> !Frees(s, fd, e)
    ensures Inv(Runtime.Final(rt, steps)) && Awaiting(Runtime.Final(rt, steps), f, fd, e)
    decreases |steps|
  {
    hide Inv, Awaiting, Next, Enabled, Frees;
    if steps != [] {
      assert steps[0] in steps;
      StepLetsWait(rt, steps[0], f, fd, e);
      StepKeepsInv(rt, steps[0]);
      WaitsOn(Next(rt, steps[0]), steps[1..], f, fd, e);
    }
  }

  /**
   On every run in which a task waits for event `e` of `fd`: as long as no report
   tells of that event or of a failure of `fd`, and nobody cancels or deletes the
   event, the task is on hold, is not executed and does not stand in the queue.
   The first step that does so puts it into the queue, once; only delEvent
   leaves it on hold.
   */
  lemma WaiterWakesOnItsEvent(n: nat, before: seq<Step>, fd: nat, e: Event, steps: seq<Step>)
    requires n >= 32 && Runnable(Initial(n), before + ([Act(WaitFor(fd, e))] + steps))
    requires forall s :: s in steps ==> !Frees(s, fd, e)
    ensures Runnable(Initial(n), before) && Runtime.Final(Initial(n), before).pc.InTask?
    ensures var f := Runtime.Final(Initial(n), before).pc.f;
            var rt := Runtime.Final(Initial(n), before + ([Act(WaitFor(fd, e))] + steps));
            && OnHold(rt, f) && rt.pc != InTask(f)
            && Queued(rt.io.queue, Fiber(f)) == 0 && Queued(rt.io.queue, Callback(Wake(f))) == 0
            && forall s :: Enabled(rt, s) && Frees(s, fd, e) ==>
                 && OnHold(Next(rt, s), f)
                 && Queued(Next(rt, s).io.queue, Fiber(f)) == if s.Act? && s.d.Forget? then 0 else 1
  {
    hide Inv, Awaiting, Initial, Enabled, Done, IdleRound, Picked, OnHold, Queued, Frees;
    var s := Act(WaitFor(fd, e));
    InitiallyInv(n);
    RunJoin(Initial(n), before, [s] + steps);
    AlwaysInv(Initial(n), before);
    var rt0 := Runtime.Final(Initial(n), before);
    assert ([s] + steps)[1..] == steps && Enabled(rt0, s);
    BeginsToWait(rt0, fd, e);
    StepKeepsInv(rt0, s);
    var f := rt0.pc.f;
    WaitsOn(Next(rt0, s), steps, f, fd, e);
    var rt := Runtime.Final(Next(rt0, s), steps);
    WaiterIsOutOfReach(rt, f, fd, e);
    forall x | Enabled(rt, x) && Frees(x, fd, e)
      ensures OnHold(Next(rt, x), f)
      ensures Queued(Next(rt, x).io.queue, Fiber(f)) == if x.Act? && x.d.Forget? then 0 else 1
    {
      StepFrees(rt, x, f, fd, e);
    }
  }
}
