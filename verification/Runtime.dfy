/**
 An IOManager with one worker, the calling thread: fibers, the run loop of
 Scheduler, timers and events together.  The thread's main fiber prepares work,
 then stop() enters the root fiber, which runs the loop until nothing is left.
 */
module Runtime {
  import opened Wrappers
  import opened FiberStates
  import opened Schedulers
  import opened TimerOrder
  import opened TimerHistory
  import opened IoEvents

  /** A fiber made for a task; `todo` while the closure of a sleep has not scheduled its sleeper yet. */
  datatype TaskFiber = TaskFiber(state: FiberState, code: Code, todo: bool)

  datatype Ref = MainFiber | RootFiber | IdleFiber | TaskRef(f: nat)

  /** Where the thread is: before run(), in its loop, in a task, in the idle fiber, or after it. */
  datatype Pc = Preparing | AtPick | InTask(f: nat) | AtCheck | InIdle | Returned

  /**
   `current` is t_fiber; `accepted`, `ran` and `dropped` record the callbacks, and
   `lost` the fibers whose wait for an event was deleted.
   */
  datatype Rt = Rt(fibers: seq<TaskFiber>, root: FiberState, idle: FiberState, current: Ref, pc: Pc,
                   io: Io, timers: seq<Entry>, active: nat,
                   accepted: multiset<nat>, ran: multiset<nat>, dropped: multiset<nat>, lost: set<nat>)

  /** The id of the only worker thread. */
  const SELF := 0

  // ------------------------------------------------------------------ switching

  function SetState(rt: Rt, f: nat, s: FiberState): Rt
    requires f < |rt.fibers|
  {
    rt.(fibers := rt.fibers[f := rt.fibers[f].(state := s)])
  }

  /** The root fiber resumes a task. */
  function SwapIn(rt: Rt, f: nat): Rt
    requires f < |rt.fibers|
  {
    SetState(rt, f, EXEC).(current := TaskRef(f), pc := InTask(f), active := rt.active + 1)
  }

  /** The task gives the thread back to the root fiber. */
  function SwapOut(rt: Rt, f: nat, s: FiberState): Rt
    requires f < |rt.fibers| && rt.active > 0
  {
    SetState(rt, f, s).(current := RootFiber, pc := AtCheck, active := rt.active - 1)
  }

  // ---------------------------------------------------------------------- steps

  /** What running code can do. */
  datatype Do =
    | Schedule(id: nat)                                 // schedule(function)
    | Spawn(id: nat)                                    // schedule(new Fiber(function))
    | OnTimer(op: TimerHistory.Op)                      // addTimer, cancel, refresh, reset
    | Await(fd: nat, e: Event, id: nat)                 // addEvent with a function
    | Forget(fd: nat, e: Event)                         // delEvent
    | WakeUp(fd: nat, e: Event)                         // cancelEvent
    | WakeAll(fd: nat)                                  // cancelAll
    | Sleep(ms: nat, now: nat, addr: nat)               // sleep, usleep, nanosleep
    | WaitFor(fd: nat, e: Event)                        // addEvent for itself, then YieldToHold
    | Requeue                                           // schedule(itself), then YieldToHold
    | DoWake                                            // the closure of a sleep
    | Return                                            // the function ends

  predicate Suspends(d: Do) { d.Sleep? || d.WaitFor? || d.Requeue? || d.DoWake? || d.Return? }

  datatype Step =
    | Act(d: Do)
    | Begin                                             // stop() calls the root fiber
    | Pick
    | Check
    | Idle(now: nat, reports: seq<Report>)              // one round of the idle fiber

  function SleepTimer(f: nat, ms: nat, now: nat, addr: nat): Entry { Entry(addr, now + ms, ms, false, Wake(f)) }

  /** The contracts of the calls: the timer of a sleep is known to nobody, so none is cancelled, refreshed or reset. */
  predicate MayDo(rt: Rt, d: Do) {
    match d
    case Schedule(_) => true
    case Spawn(_) => true
    case OnTimer(op) =>
      && !op.List? && Legal(rt.timers, op)
      && (op.Add? ==> op.entry.cb.User?)
      && (!op.Add? && Lookup(rt.timers, op.addr).Some? ==> Lookup(rt.timers, op.addr).value.cb.User?)
    case Await(fd, e, id) => Allowed(rt.io, IoEvents.Add(fd, e, Callback(User(id))))
    case Forget(fd, e) => Allowed(rt.io, Delete(fd, e))
    case WakeUp(fd, e) => Allowed(rt.io, IoEvents.Cancel(fd, e))
    case WakeAll(_) => true
    case Sleep(ms, now, addr) => Lookup(rt.timers, addr) == None
    case WaitFor(fd, e) => |rt.io.fds| >= 32 && !Waited(rt.io, fd, e)
    case Requeue => true
    case DoWake => true
    case Return => true
  }

  /** The task that runs, if the thread is in one. */
  predicate Executes(rt: Rt, d: Do) {
    match rt.pc
    case Preparing => !Suspends(d)
    case InTask(f) =>
      && f < |rt.fibers| && rt.active > 0
      && (rt.fibers[f].todo ==> d.DoWake?)
      && (d.DoWake? ==> rt.fibers[f].todo && rt.fibers[f].code.Wake?)
      && (rt.fibers[f].code.Wake? ==> d.DoWake? || d.Return?)
    case _ => false
  }

  /** `IOManager::stopping` with the flag set, as it is once stop() was called. */
  predicate Stopping(rt: Rt) {
    rt.timers == [] && rt.io.pending == 0 && rt.io.queue == [] && rt.active == 0
  }

  predicate Enabled(rt: Rt, s: Step) {
    match s
    case Act(d) => Executes(rt, d) && MayDo(rt, d)
    case Begin => rt.pc == Preparing && !Stopping(rt)
    case Pick => rt.pc == AtPick
    case Check => rt.pc == AtCheck
    case Idle(_, reports) => rt.pc == InIdle && Reports(rt.io, reports)
  }

  /** The kernel reports each descriptor once, and only what it is registered for. */
  predicate Reports(io: Io, rs: seq<Report>) {
    (forall i, j :: 0 <= i < j < |rs| ==> rs[i].fd != rs[j].fd) && forall r :: r in rs ==> Allowed(io, Dispatch(r))
  }

  function Push(rt: Rt, job: Job): Rt {
    rt.(io := rt.io.(queue := Enqueued(rt.io.queue, Some(job), -1)))
  }

  function DropTimer(rt: Rt, op: TimerHistory.Op): multiset<nat> {
    if op.Cancel? && Lookup(rt.timers, op.addr).Some? && Lookup(rt.timers, op.addr).value.cb.User?
    then rt.dropped + multiset{Lookup(rt.timers, op.addr).value.cb.id}
    else rt.dropped
  }

  function DropEvent(rt: Rt, fd: nat, e: Event): multiset<nat> {
    match Dropped(rt.io, Delete(fd, e))
    case None => rt.dropped
    case Some(job) => if job.Callback? && job.code.User? then rt.dropped + multiset{job.code.id} else rt.dropped
  }

  /** Whether `job` wakes fiber `f`. */
  predicate Wakes(job: Job, f: nat) { job == Fiber(f) || job == Callback(Wake(f)) }

  /** delEvent says nothing to a fiber that waits. */
  function LoseEvent(rt: Rt, fd: nat, e: Event): set<nat> {
    match Dropped(rt.io, Delete(fd, e))
    case None => rt.lost
    case Some(job) =>
      match job
      case Fiber(f) => rt.lost + {f}
      case Callback(code) => if code.Wake? then rt.lost + {code.fiber} else rt.lost
  }

  function Done(rt: Rt, d: Do): Rt
    requires Executes(rt, d) && MayDo(rt, d)
  {
    match d
    case Schedule(id) => Push(rt, Callback(User(id))).(accepted := rt.accepted + multiset{id})
    case Spawn(id) => Push(rt.(fibers := rt.fibers + [TaskFiber(INIT, User(id), false)]), Fiber(|rt.fibers|))
    case OnTimer(op) =>
      rt.(timers := TimerHistory.After(rt.timers, op), dropped := DropTimer(rt, op),
          accepted := if op.Add? then rt.accepted + multiset{op.entry.cb.id} else rt.accepted)
    case Await(fd, e, id) =>
      rt.(io := IoEvents.After(rt.io, IoEvents.Add(fd, e, Callback(User(id)))), accepted := rt.accepted + multiset{id})
    case Forget(fd, e) => rt.(io := IoEvents.After(rt.io, Delete(fd, e)), dropped := DropEvent(rt, fd, e),
                           lost := LoseEvent(rt, fd, e))
    case WakeUp(fd, e) => rt.(io := IoEvents.After(rt.io, IoEvents.Cancel(fd, e)))
    case WakeAll(fd) => rt.(io := IoEvents.After(rt.io, CancelAll(fd)))
    case Sleep(ms, now, addr) =>
      SwapOut(rt.(timers := TimerHistory.After(rt.timers, TimerHistory.Add(SleepTimer(rt.pc.f, ms, now, addr)))),
          rt.pc.f, HOLD)
    case WaitFor(fd, e) => SwapOut(rt.(io := IoEvents.After(rt.io, IoEvents.Add(fd, e, Fiber(rt.pc.f)))), rt.pc.f, HOLD)
    case Requeue => SwapOut(Push(rt, Fiber(rt.pc.f)), rt.pc.f, HOLD)
    case DoWake =>
      Push(rt.(fibers := rt.fibers[rt.pc.f := rt.fibers[rt.pc.f].(todo := false)]),
          Fiber(rt.fibers[rt.pc.f].code.fiber))
    case Return => SwapOut(rt, rt.pc.f, TERM)
  }

  /** One round of the loop's scan: a fiber is resumed, a function gets a new fiber. */
  function Picked(rt: Rt): Rt
    requires Enabled(rt, Pick)
  {
    var i := FirstFor(rt.io.queue, SELF);
    if i == |rt.io.queue| then rt.(pc := AtCheck)
    else
      var job := rt.io.queue[i].job;
      var rest := rt.(io := rt.io.(queue := Without(rt.io.queue, i)));
      match job
      case Fiber(f) => if f < |rt.fibers| then SwapIn(rest, f) else rest
      case Callback(code) =>
        SwapIn(rest.(fibers := rt.fibers + [TaskFiber(INIT, code, code.Wake?)],
                     ran := if code.User? then rt.ran + multiset{code.id} else rt.ran), |rt.fibers|)
  }

  function JobsOf(es: seq<Entry>): seq<Option<Job>> {
    if es == [] then [] else [Some(Callback(es[0].cb))] + JobsOf(es[1..])
  }

  /** The functions of recurring timers, accepted once more by each firing. */
  function Again(es: seq<Entry>): multiset<nat> {
    if es == [] then multiset{}
    else if es[0].recurring && es[0].cb.User? then multiset{es[0].cb.id} + Again(es[1..])
    else Again(es[1..])
  }

  /** listExpiredCb, and schedule() of what it returns. */
  function Expired(rt: Rt, now: nat): Rt {
    var (fired, after) := ListExpired(rt.timers, now);
    rt.(timers := after, accepted := rt.accepted + Again(fired),
        io := rt.io.(queue := AllEnqueued(rt.io.queue, JobsOf(fired))))
  }

  function IdleRound(rt: Rt, now: nat, reports: seq<Report>): Rt {
    if Stopping(rt) then rt.(idle := TERM, current := RootFiber, pc := AtPick)
    else
      var expired := Expired(rt, now);
      expired.(io := AllDispatched(expired.io, reports), idle := HOLD, current := RootFiber, pc := AtPick)
  }

  function Next(rt: Rt, s: Step): Rt
    requires Enabled(rt, s)
  {
    match s
    case Act(d) => Done(rt, d)
    case Begin => rt.(pc := AtPick, root := EXEC, current := RootFiber)
    case Pick => Picked(rt)
    case Check =>
      if rt.idle == TERM then rt.(pc := Returned, root := TERM, current := MainFiber)
      else rt.(pc := InIdle, idle := EXEC, current := IdleFiber)
    case Idle(now, reports) => IdleRound(rt, now, reports)
  }

  function Initial(n: nat): Rt {
    Rt([], INIT, INIT, MainFiber, Preparing, Io(Unused(n), 0, map[], []), [], 0, multiset{}, multiset{}, multiset{}, {})
  }

  predicate Runnable(rt: Rt, steps: seq<Step>)
    decreases |steps|
  {
    steps == [] || (Enabled(rt, steps[0]) && Runnable(Next(rt, steps[0]), steps[1..]))
  }

  function Final(rt: Rt, steps: seq<Step>): Rt
    requires Runnable(rt, steps)
    decreases |steps|
  {
    if steps == [] then rt else Final(Next(rt, steps[0]), steps[1..])
  }

  // ---------------------------------------------------------------- wake tokens

  function Timed(es: seq<Entry>, job: Job): nat {
    if es == [] then 0 else (if Callback(es[0].cb) == job then 1 else 0) + Timed(es[1..], job)
  }

  /** The closure of a sleep that is running and has not scheduled its sleeper. */
  function Held(rt: Rt, job: Job): nat {
    if rt.pc.InTask? && rt.pc.f < |rt.fibers| && rt.fibers[rt.pc.f].todo && job == Callback(rt.fibers[rt.pc.f].code)
    then 1 else 0
  }

  /** How often `job` waits in the queue, for an event, for a timer, or in running code. */
  function Count(rt: Rt, job: Job): nat { Parked(rt.io, job) + Timed(rt.timers, job) + Held(rt, job) }

  /** The wake-ups on their way to fiber `f`. */
  function Tokens(rt: Rt, f: nat): nat { Count(rt, Fiber(f)) + Count(rt, Callback(Wake(f))) }

  function Resumable(rt: Rt, f: nat): nat {
    if f < |rt.fibers| && (rt.fibers[f].state == INIT || rt.fibers[f].state == HOLD) && f !in rt.lost then 1 else 0
  }

  // ------------------------------------------------------------------ invariant

  predicate OnHold(rt: Rt, f: nat) { f < |rt.fibers| && rt.fibers[f].state == HOLD }

  /** Who waits for an event is suspended, and so is who lost its wait. */
  ghost predicate WaitersHold(rt: Rt) {
    && (forall f: nat :: Waiting(rt.io.fds, Fiber(f)) > 0 ==> OnHold(rt, f))
    && (forall f: nat :: Waiting(rt.io.fds, Callback(Wake(f))) == 0)
    && (forall f: nat :: f in rt.lost ==> OnHold(rt, f))
  }

  /** A suspended or new fiber has exactly one wake-up on its way, unless it was deleted; any other one has none. */
  ghost predicate OneTokenEach(rt: Rt) { forall f: nat :: Tokens(rt, f) == Resumable(rt, f) }

  function Unsettled(rt: Rt, id: nat): int { rt.accepted[id] as int - (rt.ran[id] + rt.dropped[id]) }

  /** Every accepted function ran, was dropped, or is still on its way. */
  ghost predicate Ledger(rt: Rt) {
    forall id: nat :: Unsettled(rt, id) == Count(rt, Callback(User(id)))
  }

  function Chain(r: Ref): set<Ref> {
    match r
    case MainFiber => {MainFiber}
    case RootFiber => {MainFiber, RootFiber}
    case _ => {MainFiber, RootFiber, r}
  }

  function WhoRuns(pc: Pc): Ref {
    match pc
    case Preparing => MainFiber
    case InTask(f) => TaskRef(f)
    case InIdle => IdleFiber
    case Returned => MainFiber
    case _ => RootFiber
  }

  /** t_fiber is the fiber that runs, and the fibers in EXEC are the chain from the main fiber to it. */
  ghost predicate Chained(rt: Rt) {
    && rt.current == WhoRuns(rt.pc)
    && (rt.current.TaskRef? ==> rt.current.f < |rt.fibers|)
    && (rt.root == EXEC <==> RootFiber in Chain(rt.current))
    && (rt.idle == EXEC <==> IdleFiber in Chain(rt.current))
    && (forall f: nat :: f < |rt.fibers| ==> (rt.fibers[f].state == EXEC <==> rt.current == TaskRef(f)))
  }

  /** Only functions are called again and again; a sleep is a one-shot timer. */
  ghost predicate UserTimers(es: seq<Entry>) { forall e :: e in es && e.recurring ==> e.cb.User? }

  ghost predicate Sound(rt: Rt) {
    && WellFormed(rt.io) && TimerSet(rt.timers)
    && UserTimers(rt.timers)
    && Chained(rt)
    && rt.active == (if rt.pc.InTask? then 1 else 0)
    && (forall f: nat :: f < |rt.fibers| && rt.fibers[f].todo ==> rt.pc == InTask(f) && rt.fibers[f].code.Wake?)
    && (rt.idle == TERM ==> rt.pc != InIdle && Stopping(rt))
    && (rt.pc == Preparing ==> rt.idle == INIT && rt.root == INIT)
    && (rt.pc == Returned ==> rt.idle == TERM && rt.root == TERM)
  }

  ghost predicate Inv(rt: Rt) { Sound(rt) && OneTokenEach(rt) && Ledger(rt) && WaitersHold(rt) }

  // --------------------------------------------------------- what a step counts

  function If(b: bool): int { if b then 1 else 0 }

  /** Recurring timers among `es` with this function. */
  function Recurring(es: seq<Entry>, job: Job): nat {
    if es == [] then 0 else (if es[0].recurring && Callback(es[0].cb) == job then 1 else 0) + Recurring(es[1..], job)
  }

  /** By how much `Count(_, job)` changes. */
  function Delta(rt: Rt, s: Step, job: Job): int
    requires Enabled(rt, s)
  {
    match s
    case Act(Schedule(id)) => If(job == Callback(User(id)))
    case Act(Spawn(_)) => If(job == Fiber(|rt.fibers|))
    case Act(OnTimer(op)) =>
      if op.Add? then If(job == Callback(op.entry.cb))
      else if op.Cancel? && Lookup(rt.timers, op.addr).Some? then
        -If(job == Callback(Lookup(rt.timers, op.addr).value.cb))
      else 0
    case Act(Await(_, _, id)) => If(job == Callback(User(id)))
    case Act(Forget(fd, e)) => -If(Dropped(rt.io, Delete(fd, e)) == Some(job))
    case Act(Sleep(_, _, _)) => If(job == Callback(Wake(rt.pc.f)))
    case Act(WaitFor(_, _)) => If(job == Fiber(rt.pc.f))
    case Act(Requeue) => If(job == Fiber(rt.pc.f))
    case Act(DoWake) =>
      var code := rt.fibers[rt.pc.f].code;
      If(job == Fiber(code.fiber)) - If(job == Callback(code))
    case Act(_) => 0
    case Pick =>
      var i := FirstFor(rt.io.queue, SELF);
      if i == |rt.io.queue| || rt.io.queue[i].job != job then 0
      else if job.Callback? && job.code.Wake? then 0   // now running code holds it
      else -1
    case Idle(now, _) => if Stopping(rt) then 0 else Recurring(ListExpired(rt.timers, now).0, job)
    case _ => 0
  }

  lemma {:induction false} TimedInsert(es: seq<Entry>, e: Entry, job: Job)
    requires Lookup(es, e.addr) == None
    ensures Timed(Insert(es, e), job) == Timed(es, job) + If(job == Callback(e.cb))
  {
    if es != [] && !Before(e, es[0]) {
      TimedInsert(es[1..], e, job);
      assert Before(es[0], e);
    }
  }

  lemma {:induction false} TimedRemove(es: seq<Entry>, addr: nat, job: Job)
    ensures Timed(Remove(es, addr), job)
         == Timed(es, job) - If(Lookup(es, addr).Some? && job == Callback(Lookup(es, addr).value.cb))
  {
    if es != [] && es[0].addr != addr {
      TimedRemove(es[1..], addr, job);
    }
  }

  lemma TimedRescheduled(es: seq<Entry>, e: Entry, ms: nat, next: int, job: Job)
    requires TimerSet(es) && Lookup(es, e.addr) == Some(e)
    ensures Timed(Rescheduled(es, e, ms, next), job) == Timed(es, job)
  {
    TimedRemove(es, e.addr, job);
    CancelLookup(es, e.addr, e.addr);
    TimedInsert(Remove(es, e.addr), e.(ms := ms, next := next), job);
  }

  lemma TimedAfter(es: seq<Entry>, op: TimerHistory.Op, job: Job)
    requires TimerSet(es) && Legal(es, op) && !op.List?
    ensures Timed(TimerHistory.After(es, op), job) == Timed(es, job)
              + (if op.Add? then If(job == Callback(op.entry.cb)) else 0)
              - If(op.Cancel? && Lookup(es, op.addr).Some? && job == Callback(Lookup(es, op.addr).value.cb))
  {
    hide Rescheduled, TimerSet, Timed;
    match op
    case Add(e) => TimedInsert(es, e, job);
    case Cancel(addr) => TimedRemove(es, addr, job);
    case Refresh(addr, now) =>
      if Lookup(es, addr).Some? {
        var e := Lookup(es, addr).value;
        PeriodIsPast(es, addr);
        TimedRescheduled(es, e, e.ms, now + e.ms, job);
      }
    case Reset(addr, ms, fromNow, now) =>
      if Lookup(es, addr).Some? {
        var e := Lookup(es, addr).value;
        PeriodIsPast(es, addr);
        TimedRescheduled(es, e, ms, (if fromNow then now else e.next - e.ms) + ms, job);
      }
  }

  lemma {:induction false} TimedJoin(a: seq<Entry>, b: seq<Entry>, job: Job)
    ensures Timed(a + b, job) == Timed(a, job) + Timed(b, job)
  {
    if a == [] {
      assert a + b == b;
    } else {
      assert (a + b)[1..] == a[1..] + b;
      TimedJoin(a[1..], b, job);
    }
  }

  lemma {:induction false} TimedReinsert(es: seq<Entry>, fired: seq<Entry>, job: Job)
    requires Sorted(es) && OneEach(es) && OneEach(fired)
    requires forall x, y :: x in es && y in fired ==> x.addr != y.addr
    ensures Timed(Reinsert(es, fired), job) == Timed(es, job) + Recurring(fired, job)
    decreases |fired|
  {
    if fired != [] {
      var e, rest := fired[0], fired[1..];
      assert e in fired && forall y :: y in rest ==> y in fired && y.addr != e.addr;
      var next := if e.recurring then Insert(es, Bump(e)) else es;
      if e.recurring {
        LookupIsMembership(es, e.addr);
        TimedInsert(es, Bump(e), job);
        InsertKeepsOrder(es, Bump(e));
        InsertOneEach(es, Bump(e));
      }
      TimedReinsert(next, rest, job);
    }
  }

  lemma FrontAndRest(es: seq<Entry>, k: nat)
    requires TimerSet(es) && k <= |es|
    ensures Sorted(es[k..]) && OneEach(es[k..]) && OneEach(es[..k])
    ensures forall x, y :: x in es[k..] && y in es[..k] ==> x.addr != y.addr
  {
    forall x, y | x in es[k..] && y in es[..k]
      ensures x.addr != y.addr
    {
      var i :| k <= i < |es| && es[i] == x;
      var j :| 0 <= j < k && es[j] == y;
    }
  }

  /** Fired timers leave for the queue; recurring ones are back at once. */
  lemma TimedListed(es: seq<Entry>, now: nat, job: Job)
    requires TimerSet(es)
    ensures var (fired, after) := ListExpired(es, now);
            Timed(after, job) == Timed(es, job) - Timed(fired, job) + Recurring(fired, job)
  {
    hide TimerSet, Sorted, OneEach, Timed, Recurring, Reinsert;
    var k := ExpiredCount(es, now);
    assert es == es[..k] + es[k..];
    TimedJoin(es[..k], es[k..], job);
    FrontAndRest(es, k);
    TimedReinsert(es[k..], es[..k], job);
  }

  lemma {:induction false} QueuedFired(q: seq<Task>, fired: seq<Entry>, job: Job)
    ensures Queued(AllEnqueued(q, JobsOf(fired)), job) == Queued(q, job) + Timed(fired, job)
    decreases |fired|
  {
    if fired != [] {
      var last, init := fired[|fired| - 1], fired[..|fired| - 1];
      assert fired == init + [last];
      JobsOfJoin(init, [last]);
      TimedJoin(init, [last], job);
      var js := JobsOf(fired);
      assert js[..|js| - 1] == JobsOf(init) && js[|js| - 1] == Some(Callback(last.cb));
      QueuedFired(q, init, job);
      QueuedAppend(AllEnqueued(q, JobsOf(init)), Task(Callback(last.cb), -1), job);
    }
  }

  lemma {:induction false} JobsOfJoin(a: seq<Entry>, b: seq<Entry>)
    ensures JobsOf(a + b) == JobsOf(a) + JobsOf(b) && |JobsOf(a)| == |a|
  {
    if a == [] {
      assert a + b == b;
    } else {
      assert (a + b)[1..] == a[1..] + b;
      JobsOfJoin(a[1..], b);
    }
  }

  lemma {:induction false} QueuedWithout(q: seq<Task>, i: nat, job: Job)
    requires i < |q|
    ensures Queued(Without(q, i), job) == Queued(q, job) - If(q[i].job == job)
  {
    if i == 0 {
      assert Without(q, 0) == q[1..];
    } else {
      assert Without(q, i)[1..] == Without(q[1..], i - 1);
      QueuedWithout(q[1..], i - 1, job);
    }
  }

  lemma PushCount(rt: Rt, new_: Job, job: Job)
    ensures Parked(Push(rt, new_).io, job) == Parked(rt.io, job) + If(job == new_)
  {
    QueuedAppend(rt.io.queue, Task(new_, -1), job);
  }

  lemma DoneCount(rt: Rt, d: Do, job: Job)
    requires Sound(rt) && Enabled(rt, Act(d))
    ensures Count(Done(rt, d), job) == Count(rt, job) + Delta(rt, Act(d), job)
  {
    hide WellFormed, TimerSet, Parked, Timed, Chained, TimerHistory.After, IoEvents.After;
    match d
    case Schedule(id) => PushCount(rt, Callback(User(id)), job);
    case Spawn(id) =>
      var more := rt.(fibers := rt.fibers + [TaskFiber(INIT, User(id), false)]);
      assert rt.pc.InTask? ==> more.fibers[rt.pc.f] == rt.fibers[rt.pc.f];
      PushCount(more, Fiber(|rt.fibers|), job);
    case OnTimer(op) => TimedAfter(rt.timers, op, job);
    case Await(fd, e, id) => IoEvents.StepKeeps(rt.io, IoEvents.Add(fd, e, Callback(User(id))), job);
    case Forget(fd, e) => IoEvents.StepKeeps(rt.io, Delete(fd, e), job);
    case WakeUp(fd, e) => IoEvents.StepKeeps(rt.io, IoEvents.Cancel(fd, e), job);
    case WakeAll(fd) => IoEvents.StepKeeps(rt.io, CancelAll(fd), job);
    case Sleep(ms, now, addr) => TimedAfter(rt.timers, TimerHistory.Add(SleepTimer(rt.pc.f, ms, now, addr)), job);
    case WaitFor(fd, e) => IoEvents.StepKeeps(rt.io, IoEvents.Add(fd, e, Fiber(rt.pc.f)), job);
    case Requeue => PushCount(rt, Fiber(rt.pc.f), job);
    case DoWake =>
      var f := rt.pc.f;
      PushCount(rt.(fibers := rt.fibers[f := rt.fibers[f].(todo := false)]), Fiber(rt.fibers[f].code.fiber), job);
    case Return =>
  }

  lemma PickedCount(rt: Rt, job: Job)
    requires Sound(rt) && Enabled(rt, Pick)
    ensures Count(Picked(rt), job) == Count(rt, job) + Delta(rt, Pick, job)
  {
    var i := FirstFor(rt.io.queue, SELF);
    if i < |rt.io.queue| {
      QueuedWithout(rt.io.queue, i, job);
    }
  }

  lemma IdleCount(rt: Rt, now: nat, reports: seq<Report>, job: Job)
    requires Sound(rt) && Enabled(rt, Idle(now, reports))
    ensures Count(IdleRound(rt, now, reports), job) == Count(rt, job) + Delta(rt, Idle(now, reports), job)
    ensures !Stopping(rt) ==> WellFormed(IdleRound(rt, now, reports).io)
  {
    if !Stopping(rt) {
      var expired := Expired(rt, now);
      TimedListed(rt.timers, now, job);
      QueuedFired(rt.io.queue, ListExpired(rt.timers, now).0, job);
      assert Reportable(expired.io, reports);
      BatchKeeps(expired.io, reports, job);
    }
  }

  lemma StepCount(rt: Rt, s: Step, job: Job)
    requires Sound(rt) && Enabled(rt, s)
    ensures Count(Next(rt, s), job) == Count(rt, job) + Delta(rt, s, job)
  {
    match s
    case Act(d) => DoneCount(rt, d, job);
    case Pick => PickedCount(rt, job);
    case Idle(now, reports) => IdleCount(rt, now, reports, job);
    case Begin =>
    case Check =>
  }

  // ---------------------------------------------------------- what a step keeps

  lemma UserTimersAfter(es: seq<Entry>, op: TimerHistory.Op)
    requires TimerSet(es) && Legal(es, op) && UserTimers(es) && (op.Add? && op.entry.recurring ==> op.entry.cb.User?)
    ensures UserTimers(TimerHistory.After(es, op))
  {
    match op
    case Add(e) => LookupIsMembership(es, e.addr); InsertKeepsOrder(es, e);
    case Cancel(addr) => RemoveEntries(es, addr);
    case Refresh(addr, now) =>
      if Lookup(es, addr).Some? {
        var e := Lookup(es, addr).value;
        PeriodIsPast(es, addr);
        UserTimersRescheduled(es, e, e.ms, now + e.ms);
      }
    case Reset(addr, ms, fromNow, now) =>
      if Lookup(es, addr).Some? {
        var e := Lookup(es, addr).value;
        PeriodIsPast(es, addr);
        UserTimersRescheduled(es, e, ms, (if fromNow then now else e.next - e.ms) + ms);
      }
    case List(now) => ListExpiredIsRight(es, now);
  }

  lemma UserTimersRescheduled(es: seq<Entry>, e: Entry, ms: nat, next: int)
    requires TimerSet(es) && UserTimers(es) && Lookup(es, e.addr) == Some(e)
    ensures UserTimers(Rescheduled(es, e, ms, next))
  {
    LookupIsMembership(es, e.addr);
    RemoveEntries(es, e.addr);
    InsertKeepsOrder(Remove(es, e.addr), e.(ms := ms, next := next));
  }

  lemma TimersKept(es: seq<Entry>, op: TimerHistory.Op)
    requires TimerSet(es) && Legal(es, op) && UserTimers(es) && (op.Add? && op.entry.recurring ==> op.entry.cb.User?)
    ensures TimerSet(TimerHistory.After(es, op)) && UserTimers(TimerHistory.After(es, op))
  {
    StepLookup(es, op, 0);
    UserTimersAfter(es, op);
  }

  /** The records of what happened play no part in Sound. */
  lemma RecordsSound(rt: Rt, accepted: multiset<nat>, dropped: multiset<nat>, lost: set<nat>)
    requires Sound(rt)
    ensures Sound(rt.(accepted := accepted, dropped := dropped, lost := lost))
  {
    hide WellFormed, TimerSet, UserTimers;
  }

  lemma IoSound(rt: Rt, io: Io)
    requires Sound(rt) && rt.idle != TERM && WellFormed(io)
    ensures Sound(rt.(io := io))
  {
    hide WellFormed, TimerSet, UserTimers;
  }

  lemma TimersSound(rt: Rt, op: TimerHistory.Op)
    requires Sound(rt) && rt.idle != TERM && Legal(rt.timers, op)
    requires op.Add? && op.entry.recurring ==> op.entry.cb.User?
    ensures Sound(rt.(timers := TimerHistory.After(rt.timers, op)))
  {
    hide WellFormed, TimerSet, UserTimers, TimerHistory.After;
    TimersKept(rt.timers, op);
  }

  lemma SpawnSound(rt: Rt, id: nat)
    requires Sound(rt) && rt.idle != TERM
    ensures Sound(rt.(fibers := rt.fibers + [TaskFiber(INIT, User(id), false)]))
  {
    hide WellFormed, TimerSet, UserTimers;
  }

  lemma SwapOutSound(rt: Rt, s: FiberState)
    requires Sound(rt) && rt.pc.InTask? && !rt.fibers[rt.pc.f].todo && (s == HOLD || s == TERM)
    ensures Sound(SwapOut(rt, rt.pc.f, s))
  {
    hide WellFormed, TimerSet, UserTimers;
  }

  lemma WokenSound(rt: Rt)
    requires Sound(rt) && rt.pc.InTask?
    ensures Sound(rt.(fibers := rt.fibers[rt.pc.f := rt.fibers[rt.pc.f].(todo := false)]))
  {
    hide WellFormed, TimerSet, UserTimers;
  }

  /** While code runs the idle fiber has not ended. */
  lemma IdleGoesOn(rt: Rt, d: Do)
    requires Sound(rt) && Executes(rt, d)
    ensures rt.idle != TERM && WellFormed(rt.io)
    ensures Suspends(d) ==> rt.pc.InTask? && rt.pc.f < |rt.fibers|
                            && (if d == DoWake then rt.fibers[rt.pc.f].code.Wake? else !rt.fibers[rt.pc.f].todo)
  {
    hide WellFormed, TimerSet, UserTimers;
  }

  lemma DoneSound(rt: Rt, d: Do)
    requires Sound(rt) && Enabled(rt, Act(d))
    ensures Sound(Done(rt, d))
  {
    hide Sound, WellFormed, Executes, TimerHistory.After, IoEvents.After, Allowed, Waited, Lookup, Dropped, SwapOut;
    IdleGoesOn(rt, d);
    match d
    case Schedule(id) =>
      PushSound(rt, Callback(User(id)));
      RecordsSound(Push(rt, Callback(User(id))), rt.accepted + multiset{id}, rt.dropped, rt.lost);
    case Spawn(id) =>
      SpawnSound(rt, id);
      PushSound(rt.(fibers := rt.fibers + [TaskFiber(INIT, User(id), false)]), Fiber(|rt.fibers|));
    case OnTimer(op) =>
      TimersSound(rt, op);
      RecordsSound(rt.(timers := TimerHistory.After(rt.timers, op)),
                   if op.Add? then rt.accepted + multiset{op.entry.cb.id} else rt.accepted, DropTimer(rt, op), rt.lost);
    case Await(fd, e, id) =>
      var op := IoEvents.Add(fd, e, Callback(User(id)));
      EventSound(rt, op);
      RecordsSound(rt.(io := IoEvents.After(rt.io, op)), rt.accepted + multiset{id}, rt.dropped, rt.lost);
    case Forget(fd, e) =>
      EventSound(rt, Delete(fd, e));
      RecordsSound(rt.(io := IoEvents.After(rt.io, Delete(fd, e))), rt.accepted, DropEvent(rt, fd, e),
          LoseEvent(rt, fd, e));
    case WakeUp(fd, e) => EventSound(rt, IoEvents.Cancel(fd, e));
    case WakeAll(fd) =>
      assert Allowed(rt.io, CancelAll(fd)) by { WakeAllIsAllowed(rt.io, fd); }
      EventSound(rt, CancelAll(fd));
    case Sleep(ms, now, addr) =>
      var op := TimerHistory.Add(SleepTimer(rt.pc.f, ms, now, addr));
      TimersSound(rt, op);
      SwapOutSound(rt.(timers := TimerHistory.After(rt.timers, op)), HOLD);
    case WaitFor(fd, e) =>
      var op := IoEvents.Add(fd, e, Fiber(rt.pc.f));
      assert Allowed(rt.io, op) by { WaitIsAllowed(rt.io, fd, e, rt.pc.f); }
      EventSound(rt, op);
      SwapOutSound(rt.(io := IoEvents.After(rt.io, op)), HOLD);
    case Requeue =>
      PushSound(rt, Fiber(rt.pc.f));
      SwapOutSound(Push(rt, Fiber(rt.pc.f)), HOLD);
    case DoWake =>
      WokenSound(rt);
      PushSound(rt.(fibers := rt.fibers[rt.pc.f := rt.fibers[rt.pc.f].(todo := false)]),
          Fiber(rt.fibers[rt.pc.f].code.fiber));
    case Return => SwapOutSound(rt, TERM);
  }

  lemma WakeAllIsAllowed(io: Io, fd: nat)
    ensures Allowed(io, CancelAll(fd))
  {
  }

  lemma WaitIsAllowed(io: Io, fd: nat, e: Event, f: nat)
    requires |io.fds| >= 32 && !Waited(io, fd, e)
    ensures Allowed(io, IoEvents.Add(fd, e, Fiber(f)))
  {
  }

  lemma EventSound(rt: Rt, op: IoEvents.Op)
    requires Sound(rt) && rt.idle != TERM && WellFormed(rt.io) && Allowed(rt.io, op)
    ensures Sound(rt.(io := IoEvents.After(rt.io, op)))
  {
    hide Sound, WellFormed, IoEvents.After, Allowed;
    IoEvents.StepKeeps(rt.io, op, Fiber(0));
    IoSound(rt, IoEvents.After(rt.io, op));
  }

  lemma PushSound(rt: Rt, job: Job)
    requires Sound(rt) && rt.idle != TERM && WellFormed(rt.io)
    ensures Sound(Push(rt, job))
  {
    hide Sound, WellFormed;
    PushKeeps(rt.io, job);
    IoSound(rt, Push(rt, job).io);
  }

  lemma PushKeeps(io: Io, job: Job)
    requires WellFormed(io)
    ensures WellFormed(io.(queue := Enqueued(io.queue, Some(job), -1)))
  {
  }

  lemma {:induction false} QueuedMember(q: seq<Task>, i: nat)
    requires i < |q|
    ensures Queued(q, q[i].job) > 0
  {
    if i > 0 { QueuedMember(q[1..], i - 1); }
  }

  /** swapIn is applied only to fibers that are new or suspended: never to one in EXEC or TERM. */
  lemma PickResumes(rt: Rt)
    requires Inv(rt) && Enabled(rt, Pick)
    ensures var i := FirstFor(rt.io.queue, SELF);
            i < |rt.io.queue| && rt.io.queue[i].job.Fiber? ==>
              var f := rt.io.queue[i].job.id;
              f < |rt.fibers| && (rt.fibers[f].state == INIT || rt.fibers[f].state == HOLD)
              && f !in rt.lost && Waiting(rt.io.fds, Fiber(f)) == 0
  {
    var i := FirstFor(rt.io.queue, SELF);
    if i < |rt.io.queue| && rt.io.queue[i].job.Fiber? {
      QueuedMember(rt.io.queue, i);
      assert Tokens(rt, rt.io.queue[i].job.id) > 0;
    }
  }

  lemma PickedSound(rt: Rt)
    requires Inv(rt) && Enabled(rt, Pick)
    ensures Sound(Picked(rt))
  {
    hide TimerSet, UserTimers, OneTokenEach, Ledger;
    PickResumes(rt);
  }

  lemma IdleSound(rt: Rt, now: nat, reports: seq<Report>)
    requires Sound(rt) && Enabled(rt, Idle(now, reports))
    ensures Sound(IdleRound(rt, now, reports))
  {
    hide WellFormed, TimerSet, UserTimers, AllDispatched;
    IdleCount(rt, now, reports, Fiber(0));
    TimersKept(rt.timers, List(now));
  }

  lemma StepSound(rt: Rt, s: Step)
    requires Inv(rt) && Enabled(rt, s)
    ensures Sound(Next(rt, s))
  {
    match s
    case Act(d) => DoneSound(rt, d);
    case Pick => PickedSound(rt);
    case Idle(now, reports) => IdleSound(rt, now, reports);
    case Begin =>
    case Check =>
  }

  lemma {:induction false} NoRecurringWakes(es: seq<Entry>, job: Job)
    requires UserTimers(es) && (job.Fiber? || job.code.Wake?)
    ensures Recurring(es, job) == 0
  {
    if es != [] {
      assert es[0] in es;
      NoRecurringWakes(es[1..], job);
    }
  }

  lemma {:induction false} AgainCounts(es: seq<Entry>, id: nat)
    ensures Again(es)[id] == Recurring(es, Callback(User(id)))
  {
    if es != [] { AgainCounts(es[1..], id); }
  }

  lemma FiredAreUsers(rt: Rt, now: nat)
    requires Sound(rt)
    ensures UserTimers(ListExpired(rt.timers, now).0)
  {
    ListExpiredIsRight(rt.timers, now);
  }

  lemma TokensOfDo(rt: Rt, d: Do, f: nat)
    requires Inv(rt) && Enabled(rt, Act(d))
    ensures Delta(rt, Act(d), Fiber(f))
              + Delta(rt, Act(d), Callback(Wake(f))) == Resumable(Done(rt, d), f) - Resumable(rt, f)
  {
    hide Sound, OneTokenEach, Ledger, Done, Delta, Resumable, WaitersHold;
    if d.Forget? {
      TokensOfForget(rt, d.fd, d.e, f);
    } else {
      RunningIsNotLost(rt);
      TokensOfOther(rt, d, f);
    }
  }

  lemma TokensOfOther(rt: Rt, d: Do, f: nat)
    requires Sound(rt) && Enabled(rt, Act(d)) && !d.Forget?
    requires |rt.fibers| !in rt.lost && (rt.pc.InTask? ==> rt.pc.f !in rt.lost)
    ensures Delta(rt, Act(d), Fiber(f))
              + Delta(rt, Act(d), Callback(Wake(f))) == Resumable(Done(rt, d), f) - Resumable(rt, f)
  {
    hide WellFormed, TimerSet, UserTimers, Stopping, IoEvents.After;
    hide TimerHistory.After, Lookup, Allowed, Dropped, Legal;
  }

  lemma TokensOfForget(rt: Rt, fd: nat, e: Event, f: nat)
    requires Inv(rt) && Enabled(rt, Act(Forget(fd, e)))
    ensures var d := Forget(fd, e);
            Delta(rt, Act(d), Fiber(f))
              + Delta(rt, Act(d), Callback(Wake(f))) == Resumable(Done(rt, d), f) - Resumable(rt, f)
  {
    hide Sound, OneTokenEach, Ledger, WaitersHold, IoEvents.After, Allowed, Dropped;
    DeletedHadToken(rt, fd, e, f);
  }

  lemma RunningIsNotLost(rt: Rt)
    requires WaitersHold(rt) && Sound(rt)
    ensures |rt.fibers| !in rt.lost && (rt.pc.InTask? ==> rt.pc.f !in rt.lost)
  {
    hide WellFormed, TimerSet, UserTimers, Waiting;
  }

  /** A wait that is deleted was the only wake-up of its fiber. */
  lemma DeletedHadToken(rt: Rt, fd: nat, e: Event, f: nat)
    requires Inv(rt) && Allowed(rt.io, Delete(fd, e))
    ensures match Dropped(rt.io, Delete(fd, e))
            case None => true
            case Some(job) => Wakes(job, f) ==> Resumable(rt, f) == 1
  {
    hide WellFormed, Chained, TimerSet, UserTimers, Allowed, Dropped;
    match Dropped(rt.io, Delete(fd, e))
    case None =>
    case Some(job) =>
      if Wakes(job, f) {
        OpWaits(rt.io, Delete(fd, e), job);
        assert Tokens(rt, f) == Resumable(rt, f);
      }
  }

  lemma TokensOfPick(rt: Rt, f: nat)
    requires Inv(rt) && Enabled(rt, Pick)
    ensures Delta(rt, Pick, Fiber(f))
            + Delta(rt, Pick, Callback(Wake(f))) == Resumable(Picked(rt), f) - Resumable(rt, f)
  {
    hide WellFormed, TimerSet, UserTimers, OneTokenEach, Ledger, WaitersHold, Stopping;
    PickResumes(rt);
    RunningIsNotLost(rt);
  }

  lemma TokensOfIdle(rt: Rt, now: nat, reports: seq<Report>, f: nat)
    requires Sound(rt) && Enabled(rt, Idle(now, reports))
    ensures Delta(rt, Idle(now, reports), Fiber(f)) + Delta(rt, Idle(now, reports), Callback(Wake(f))) == 0
    ensures Resumable(IdleRound(rt, now, reports), f) == Resumable(rt, f)
  {
    FiredAreUsers(rt, now);
    NoRecurringWakes(ListExpired(rt.timers, now).0, Fiber(f));
    NoRecurringWakes(ListExpired(rt.timers, now).0, Callback(Wake(f)));
  }

  /** A resumed fiber spends its token; a suspended one gets a new one; a wake-up that moves on stays one. */
  lemma TokensOfStep(rt: Rt, s: Step, f: nat)
    requires Inv(rt) && Enabled(rt, s)
    ensures Delta(rt, s, Fiber(f)) + Delta(rt, s, Callback(Wake(f))) == Resumable(Next(rt, s), f) - Resumable(rt, f)
  {
    hide Sound, Ledger, OneTokenEach, Done, Picked, IdleRound, Stopping;
    match s
    case Act(d) => TokensOfDo(rt, d, f);
    case Pick => TokensOfPick(rt, f);
    case Idle(now, reports) => TokensOfIdle(rt, now, reports, f);
    case Begin =>
    case Check =>
  }

  lemma TokensStep(rt: Rt, s: Step, f: nat)
    requires Inv(rt) && Enabled(rt, s)
    ensures Tokens(Next(rt, s), f) == Resumable(Next(rt, s), f)
  {
    hide Sound, Ledger, Count, Resumable, Next, Delta;
    StepCount(rt, s, Fiber(f));
    StepCount(rt, s, Callback(Wake(f)));
    assert Tokens(rt, f) == Resumable(rt, f);
    TokensOfStep(rt, s, f);
  }

  lemma LedgerOfDo(rt: Rt, d: Do, id: nat)
    requires Sound(rt) && Enabled(rt, Act(d))
    ensures Delta(rt, Act(d), Callback(User(id))) == Unsettled(Done(rt, d), id) - Unsettled(rt, id)
  {
    hide WellFormed, TimerSet, UserTimers, Stopping, IoEvents.After;
    hide TimerHistory.After, Lookup, Allowed, Dropped, Legal;
  }

  lemma LedgerOfPick(rt: Rt, id: nat)
    requires Inv(rt) && Enabled(rt, Pick)
    ensures Delta(rt, Pick, Callback(User(id))) == Unsettled(Picked(rt), id) - Unsettled(rt, id)
  {
    hide WellFormed, TimerSet, UserTimers, OneTokenEach, Ledger, WaitersHold, Stopping;
    PickResumes(rt);
  }

  lemma LedgerOfStep(rt: Rt, s: Step, id: nat)
    requires Inv(rt) && Enabled(rt, s)
    ensures Delta(rt, s, Callback(User(id))) == Unsettled(Next(rt, s), id) - Unsettled(rt, id)
  {
    hide Sound, Ledger, OneTokenEach, Done, Picked, Stopping;
    match s
    case Act(d) => LedgerOfDo(rt, d, id);
    case Pick => LedgerOfPick(rt, id);
    case Idle(now, _) => AgainCounts(ListExpired(rt.timers, now).0, id);
    case Begin =>
    case Check =>
  }

  lemma LedgerStep(rt: Rt, s: Step, id: nat)
    requires Inv(rt) && Enabled(rt, s)
    ensures Unsettled(Next(rt, s), id) == Count(Next(rt, s), Callback(User(id)))
  {
    hide Sound, OneTokenEach, Count, Next, Delta;
    StepCount(rt, s, Callback(User(id)));
    LedgerOfStep(rt, s, id);
    assert Unsettled(rt, id) == Count(rt, Callback(User(id)));
  }

  // ------------------------------------------------------------- who is on hold

  lemma DoneWaits(rt: Rt, d: Do, job: Job)
    requires Sound(rt) && Enabled(rt, Act(d)) && (job.Fiber? || job.code.Wake?)
    ensures Waiting(Done(rt, d).io.fds, job) <= Waiting(rt.io.fds, job) + If(d.WaitFor? && job == Fiber(rt.pc.f))
  {
    hide WellFormed, TimerSet, UserTimers, Stopping, Chained;
    hide IoEvents.After, TimerHistory.After, Lookup, Dropped, Legal, Waiting;
    match d
    case Await(fd, e, id) => OpWaits(rt.io, IoEvents.Add(fd, e, Callback(User(id))), job);
    case Forget(fd, e) => OpWaits(rt.io, Delete(fd, e), job);
    case WakeUp(fd, e) => OpWaits(rt.io, IoEvents.Cancel(fd, e), job);
    case WakeAll(fd) => OpWaits(rt.io, CancelAll(fd), job);
    case WaitFor(fd, e) => OpWaits(rt.io, IoEvents.Add(fd, e, Fiber(rt.pc.f)), job);
    case _ =>
  }

  lemma StepWaits(rt: Rt, s: Step, job: Job)
    requires Sound(rt) && Enabled(rt, s) && (job.Fiber? || job.code.Wake?)
    ensures Waiting(Next(rt, s).io.fds, job)
         <= Waiting(rt.io.fds, job) + If(s.Act? && s.d.WaitFor? && job == Fiber(rt.pc.f))
  {
    hide Waiting, WellFormed, Done, AllDispatched;
    match s
    case Act(d) => DoneWaits(rt, d, job);
    case Idle(now, reports) =>
      if !Stopping(rt) {
        assert Reportable(Expired(rt, now).io, reports);
        ExpiredIsWellFormed(rt, now);
        BatchWaits(Expired(rt, now).io, reports, job);
      }
    case _ =>
  }

  lemma ExpiredIsWellFormed(rt: Rt, now: nat)
    requires WellFormed(rt.io)
    ensures WellFormed(Expired(rt, now).io) && Expired(rt, now).io.fds == rt.io.fds
  {
  }

  /** Who is on hold without a turn in the queue stays on hold. */
  lemma StaysOnHold(rt: Rt, s: Step, f: nat)
    requires Inv(rt) && Enabled(rt, s) && OnHold(rt, f) && (Waiting(rt.io.fds, Fiber(f)) > 0 || f in rt.lost)
    ensures OnHold(Next(rt, s), f)
  {
    hide Sound, OneTokenEach, Ledger, WaitersHold, Done, Picked, IdleRound, OnHold, Waiting;
    match s
    case Act(d) => DoStaysOnHold(rt, d, f);
    case Pick => PickStaysOnHold(rt, f);
    case Idle(now, reports) => IdleStaysOnHold(rt, now, reports, f);
    case Begin => SameFibers(rt, Next(rt, s), f);
    case Check => SameFibers(rt, Next(rt, s), f);
  }

  lemma SameFibers(rt: Rt, after: Rt, f: nat)
    requires after.fibers == rt.fibers && OnHold(rt, f)
    ensures OnHold(after, f)
  {
  }

  lemma DoStaysOnHold(rt: Rt, d: Do, f: nat)
    requires Sound(rt) && Enabled(rt, Act(d)) && OnHold(rt, f)
    ensures OnHold(Done(rt, d), f)
  {
    hide WellFormed, TimerSet, UserTimers, Stopping, Allowed, Dropped, Lookup, Legal;
    hide IoEvents.After, TimerHistory.After;
  }

  lemma PickStaysOnHold(rt: Rt, f: nat)
    requires Inv(rt) && Enabled(rt, Pick) && OnHold(rt, f) && (Waiting(rt.io.fds, Fiber(f)) > 0 || f in rt.lost)
    ensures OnHold(Picked(rt), f)
  {
    hide Sound, OneTokenEach, Ledger, WaitersHold, Waiting;
    PickResumes(rt);
  }

  lemma IdleStaysOnHold(rt: Rt, now: nat, reports: seq<Report>, f: nat)
    requires OnHold(rt, f)
    ensures OnHold(IdleRound(rt, now, reports), f)
  {
    hide Stopping;
  }

  /** Who begins to wait, or loses its wait, is on hold. */
  lemma ComesOnHold(rt: Rt, s: Step, f: nat)
    requires Inv(rt) && Enabled(rt, s)
    ensures s.Act? && s.d.WaitFor? && f == rt.pc.f ==> OnHold(Next(rt, s), f)
    ensures f in Next(rt, s).lost && f !in rt.lost ==> Waiting(rt.io.fds, Fiber(f)) > 0 && OnHold(rt, f)
  {
    hide WellFormed, TimerSet, UserTimers, OneTokenEach, Ledger, Stopping, Waiting, Lookup, Legal;
    hide IoEvents.After, TimerHistory.After, Allowed, Dropped;
    if s.Act? && s.d.Forget? {
      OpWaits(rt.io, Delete(s.d.fd, s.d.e), Fiber(f));
      OpWaits(rt.io, Delete(s.d.fd, s.d.e), Callback(Wake(f)));
    }
  }

  lemma WaitersStep(rt: Rt, s: Step, f: nat)
    requires Inv(rt) && Enabled(rt, s)
    ensures Waiting(Next(rt, s).io.fds, Fiber(f)) > 0 ==> OnHold(Next(rt, s), f)
    ensures Waiting(Next(rt, s).io.fds, Callback(Wake(f))) == 0
    ensures f in Next(rt, s).lost ==> OnHold(Next(rt, s), f)
  {
    hide Sound, OneTokenEach, Ledger, Next, OnHold, Waiting;
    StepWaits(rt, s, Fiber(f));
    StepWaits(rt, s, Callback(Wake(f)));
    ComesOnHold(rt, s, f);
    if OnHold(rt, f) && (Waiting(rt.io.fds, Fiber(f)) > 0 || f in rt.lost) { StaysOnHold(rt, s, f); }
  }

  lemma StepKeepsInv(rt: Rt, s: Step)
    requires Inv(rt) && Enabled(rt, s)
    ensures Inv(Next(rt, s))
  {
    hide Sound, Tokens, Resumable, Count, Next, OnHold, Waiting;
    StepSound(rt, s);
    forall f: nat
      ensures Waiting(Next(rt, s).io.fds, Fiber(f)) > 0 ==> OnHold(Next(rt, s), f)
      ensures Waiting(Next(rt, s).io.fds, Callback(Wake(f))) == 0
      ensures f in Next(rt, s).lost ==> OnHold(Next(rt, s), f)
    {
      WaitersStep(rt, s, f);
    }
    forall f: nat ensures Tokens(Next(rt, s), f) == Resumable(Next(rt, s), f) { TokensStep(rt, s, f); }
    forall id: nat
      ensures Unsettled(Next(rt, s), id) == Count(Next(rt, s), Callback(User(id)))
    {
      LedgerStep(rt, s, id);
    }
  }

  // ---------------------------------------------------------------------- runs

  lemma InitiallyInv(n: nat)
    requires n >= 32
    ensures Inv(Initial(n))
  {
    var rt := Initial(n);
    forall job: Job ensures Count(rt, job) == 0 && Waiting(rt.io.fds, job) == 0 {
      InitiallyWellFormed(n, [], job);
    }
    InitiallyWellFormed(n, [], Fiber(0));
  }

  /** In every reachable state: one wake-up per suspended fiber, the chain of running fibers, the ledger. */
  lemma {:induction false} AlwaysInv(rt: Rt, steps: seq<Step>)
    requires Inv(rt) && Runnable(rt, steps)
    ensures Inv(Final(rt, steps))
    decreases |steps|
  {
    if steps != [] {
      StepKeepsInv(rt, steps[0]);
      AlwaysInv(Next(rt, steps[0]), steps[1..]);
    }
  }

  /** stop() has returned: at once, or because run() has. */
  predicate Stopped(rt: Rt) { rt.pc == Returned || (rt.pc == Preparing && Stopping(rt)) }

  /**
   When stop() returns, the fibers in HOLD are exactly those whose wait was
   deleted, all others are in TERM, nothing waits for a timer, an event or a
   turn, and every accepted function has run or was dropped by the caller.
   */
  lemma NothingIsLeft(n: nat, steps: seq<Step>)
    requires n >= 32 && Runnable(Initial(n), steps) && Stopped(Final(Initial(n), steps))
    ensures var rt := Final(Initial(n), steps);
            && (forall f: nat :: f < |rt.fibers| ==> rt.fibers[f].state == if f in rt.lost then HOLD else TERM)
            && rt.timers == [] && rt.io.queue == [] && (forall job :: Waiting(rt.io.fds, job) == 0)
            && rt.accepted == rt.ran + rt.dropped
            && rt.root == rt.idle == (if rt.pc == Returned then TERM else INIT) && rt.current == MainFiber
  {
    hide Inv, Initial, Next, Waiting;
    InitiallyInv(n);
    AlwaysInv(Initial(n), steps);
    Drained(Final(Initial(n), steps));
  }

  lemma NothingParked(rt: Rt, job: Job)
    requires Inv(rt) && Stopped(rt)
    ensures Waiting(rt.io.fds, job) == 0 && Count(rt, job) == 0
  {
    NobodyWaits(rt.io.fds, job);
  }

  lemma Drained(rt: Rt)
    requires Inv(rt) && Stopped(rt)
    ensures forall f: nat :: f < |rt.fibers| ==> rt.fibers[f].state == if f in rt.lost then HOLD else TERM
    ensures rt.timers == [] && rt.io.queue == [] && rt.current == MainFiber
    ensures rt.root == rt.idle == if rt.pc == Returned then TERM else INIT
    ensures forall job :: Waiting(rt.io.fds, job) == 0
    ensures rt.accepted == rt.ran + rt.dropped
  {
    hide WellFormed, TimerSet, UserTimers, Count, Waiting;
    forall job: Job ensures Waiting(rt.io.fds, job) == 0 && Count(rt, job) == 0 { NothingParked(rt, job); }
    forall f: nat | f < |rt.fibers| ensures rt.fibers[f].state == if f in rt.lost then HOLD else TERM {
      assert Tokens(rt, f) == Resumable(rt, f);
    }
    forall id: nat ensures rt.accepted[id] == (rt.ran + rt.dropped)[id] {
      assert Count(rt, Callback(User(id))) == 0;
    }
  }
}
