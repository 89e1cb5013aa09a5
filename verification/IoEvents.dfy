/**
 What IOManager knows about file descriptors, as values: the events each one
 waits for, who waits, the kernel's interest table, the count of pending events
 and the task queue that woken waiters go to.  A mask of event bits is a pair of
 flags, EPOLLIN (READ) and EPOLLOUT (WRITE).
 */
module IoEvents {
  import opened Wrappers
  import opened Schedulers

  datatype Event = READ | WRITE

  datatype Mask = Mask(read: bool, write: bool) {
    predicate Has(e: Event) { if e.READ? then read else write }
    function With(e: Event): Mask { if e.READ? then this.(read := true) else this.(write := true) }
    function Without(e: Event): Mask { if e.READ? then this.(read := false) else this.(write := false) }
    function Minus(m: Mask): Mask { Mask(read && !m.read, write && !m.write) }
    predicate Overlaps(m: Mask) { (read && m.read) || (write && m.write) }
    predicate Within(m: Mask) { (read ==> m.read) && (write ==> m.write) }
  }

  const NONE := Mask(false, false)

  datatype EventContext = EventContext(fiber: Option<nat>, cb: Option<Code>)

  const EMPTY := EventContext(None, None)

  /** FdContext. */
  datatype Fd = Fd(events: Mask, read: EventContext, write: EventContext) {
    function Context(e: Event): EventContext { if e.READ? then read else write }
    function SetContext(e: Event, c: EventContext): Fd { if e.READ? then this.(read := c) else this.(write := c) }
  }

  const UNUSED := Fd(NONE, EMPTY, EMPTY)

  datatype Io = Io(fds: seq<Fd>, pending: int, epoll: map<nat, Mask>, queue: seq<Task>)

  /** What triggerEvent schedules: the callback if there is one, else the fiber. */
  function Waiter(c: EventContext): Option<Job> {
    if c.cb.Some? then Some(Callback(c.cb.value))
    else if c.fiber.Some? then Some(Fiber(c.fiber.value))
    else None
  }

  // ---------------------------------------------------------------- operations

  datatype Ctl = ADD | MOD | DEL

  /** epoll_ctl succeeds: ADD of an absent descriptor, MOD and DEL of a present one. */
  predicate CtlLegal(epoll: map<nat, Mask>, op: Ctl, fd: nat) { op.ADD? <==> fd !in epoll }

  function CtlDone(epoll: map<nat, Mask>, op: Ctl, fd: nat, mask: Mask): map<nat, Mask> {
    if op.DEL? then epoll - {fd} else epoll[fd := mask]
  }

  /** DEL when nothing is left to wait for, else MOD. */
  function Shrink(left: Mask): Ctl { if left == NONE then DEL else MOD }

  function Grow(events: Mask): Ctl { if events == NONE then ADD else MOD }

  function Unused(n: nat): (s: seq<Fd>)
    ensures |s| == n && forall i :: 0 <= i < n ==> s[i] == UNUSED
  {
    seq(n, _ => UNUSED)
  }

  /** contextResize to a larger table. */
  function Resized(fds: seq<Fd>, n: nat): seq<Fd> {
    if n <= |fds| then fds else fds + Unused(n - |fds|)
  }

  /** addEvent makes room for a descriptor beyond the table: half as much again as needed. */
  function WithRoom(fds: seq<Fd>, fd: nat): seq<Fd> {
    if fd < |fds| then fds else Resized(fds, fd * 3 / 2)
  }

  function Registered(f: Fd, e: Event, job: Job): Fd {
    var c := f.Context(e);
    var filled := match job
                  case Fiber(id) => c.(fiber := Some(id))
                  case Callback(code) => c.(cb := Some(code));
    f.(events := f.events.With(e)).SetContext(e, filled)
  }

  function Added(io: Io, fd: nat, e: Event, job: Job): Io
    requires fd < |WithRoom(io.fds, fd)|
  {
    var fds := WithRoom(io.fds, fd);
    var f := fds[fd];
    io.(fds := fds[fd := Registered(f, e, job)],
        pending := io.pending + 1,
        epoll := CtlDone(io.epoll, Grow(f.events), fd, f.events.With(e)))
  }

  function Forgotten(f: Fd, e: Event): Fd {
    f.(events := f.events.Without(e)).SetContext(e, EMPTY)
  }

  function Deleted(io: Io, fd: nat, e: Event): Io {
    if fd >= |io.fds| then io
    else
      var left := io.fds[fd].events.Without(e);
      io.(fds := io.fds[fd := Forgotten(io.fds[fd], e)],
          pending := io.pending - 1,
          epoll := CtlDone(io.epoll, Shrink(left), fd, left))
  }

  /** triggerEvent, and one pending event less. */
  function Triggered(io: Io, fd: nat, e: Event): Io
    requires fd < |io.fds|
  {
    io.(fds := io.fds[fd := Forgotten(io.fds[fd], e)],
        pending := io.pending - 1,
        queue := Enqueued(io.queue, Waiter(io.fds[fd].Context(e)), -1))
  }

  function Cancelled(io: Io, fd: nat, e: Event): Io {
    if fd >= |io.fds| then io
    else
      var left := io.fds[fd].events.Without(e);
      Triggered(io, fd, e).(epoll := CtlDone(io.epoll, Shrink(left), fd, left))
  }

  /** READ first, then WRITE, each if its bit is in `m`. */
  function TriggeredAll(io: Io, fd: nat, m: Mask): Io
    requires fd < |io.fds|
  {
    var afterRead := if m.read then Triggered(io, fd, READ) else io;
    if m.write then Triggered(afterRead, fd, WRITE) else afterRead
  }

  lemma TriggersLeaveEpoll(io: Io, fd: nat, m: Mask, epoll: map<nat, Mask>)
    requires fd < |io.fds|
    ensures TriggeredAll(io.(epoll := epoll), fd, m) == TriggeredAll(io, fd, m).(epoll := epoll)
  {
  }

  function AllCancelled(io: Io, fd: nat): Io {
    if fd >= |io.fds| || io.fds[fd].events == NONE then io
    else TriggeredAll(io, fd, io.fds[fd].events).(epoll := CtlDone(io.epoll, DEL, fd, NONE))
  }

  /** One entry of epoll_wait; `failed` stands for EPOLLERR or EPOLLHUP. */
  datatype Report = Report(fd: nat, ready: Mask, failed: bool)

  /** A failed descriptor counts as ready for everything it waits for. */
  function Actual(r: Report, events: Mask): Mask {
    Mask(r.ready.read || (r.failed && events.read), r.ready.write || (r.failed && events.write))
  }

  /** The dispatch of one report by idle(). */
  function Dispatched(io: Io, r: Report): Io {
    if r.fd >= |io.fds| then io
    else
      var events := io.fds[r.fd].events;
      var actual := Actual(r, events);
      if !events.Overlaps(actual) then io
      else
        var left := events.Minus(actual);
        TriggeredAll(io, r.fd, actual).(epoll := CtlDone(io.epoll, Shrink(left), r.fd, left))
  }

  function AllDispatched(io: Io, rs: seq<Report>): Io
    decreases |rs|
  {
    if rs == [] then io else AllDispatched(Dispatched(io, rs[0]), rs[1..])
  }

  // ----------------------------------------------------------------- invariant

  ghost predicate Matches(set_: bool, c: EventContext) {
    if set_ then c.fiber.Some? != c.cb.Some? else c == EMPTY
  }

  /** A bit is set exactly when its context holds one of fiber and callback; otherwise the context is empty. */
  ghost predicate Consistent(f: Fd) {
    Matches(f.events.read, f.read) && Matches(f.events.write, f.write)
  }

  /** The kernel's table holds exactly what each descriptor waits for. */
  ghost predicate Mirrors(epoll: map<nat, Mask>, fds: seq<Fd>) {
    && (forall fd: nat :: fd in epoll <==> fd < |fds| && fds[fd].events != NONE)
    && (forall fd: nat :: fd in epoll ==> epoll[fd] == fds[fd].events)
  }

  function Bits(fds: seq<Fd>): nat {
    if fds == [] then 0
    else (if fds[0].events.read then 1 else 0) + (if fds[0].events.write then 1 else 0) + Bits(fds[1..])
  }

  ghost predicate WellFormed(io: Io) {
    && |io.fds| >= 32
    && (forall i :: 0 <= i < |io.fds| ==> Consistent(io.fds[i]))
    && Mirrors(io.epoll, io.fds)
    && io.pending == Bits(io.fds)
  }

  // ------------------------------------------------------- who waits, who runs

  /** How often `job` waits in a context, in the table, in a queue. */
  function Waits(c: EventContext, job: Job): nat { if Waiter(c) == Some(job) then 1 else 0 }

  function Waiting(fds: seq<Fd>, job: Job): nat {
    if fds == [] then 0 else Waits(fds[0].read, job) + Waits(fds[0].write, job) + Waiting(fds[1..], job)
  }

  function Queued(q: seq<Task>, job: Job): nat {
    if q == [] then 0 else (if q[0].job == job then 1 else 0) + Queued(q[1..], job)
  }

  /** How often `job` waits for an event or stands in the queue. */
  function Parked(io: Io, job: Job): nat { Waiting(io.fds, job) + Queued(io.queue, job) }

  lemma {:induction false} WaitingAfter(fds: seq<Fd>, i: nat, f: Fd, job: Job)
    requires i < |fds|
    ensures Waiting(fds[i := f], job) == Waiting(fds, job) - Waits(fds[i].read, job) - Waits(fds[i].write, job)
                                       + Waits(f.read, job) + Waits(f.write, job)
  {
    if i == 0 {
      assert fds[0 := f][1..] == fds[1..];
    } else {
      assert fds[i := f][1..] == fds[1..][i - 1 := f];
      WaitingAfter(fds[1..], i - 1, f, job);
    }
  }

  lemma {:induction false} UnusedWait(fds: seq<Fd>, n: nat, job: Job)
    ensures Waiting(fds + Unused(n), job) == Waiting(fds, job) && Bits(fds + Unused(n)) == Bits(fds)
    decreases |fds|, n
  {
    if fds == [] {
      assert fds + Unused(n) == Unused(n);
      if n > 0 {
        assert Unused(n)[1..] == [] + Unused(n - 1);
        UnusedWait([], n - 1, job);
      }
    } else {
      assert (fds + Unused(n))[1..] == fds[1..] + Unused(n);
      UnusedWait(fds[1..], n, job);
    }
  }

  lemma {:induction false} QueuedAppend(q: seq<Task>, t: Task, job: Job)
    ensures Queued(q + [t], job) == Queued(q, job) + if t.job == job then 1 else 0
  {
    if q == [] {
      assert q + [t] == [t];
    } else {
      assert (q + [t])[1..] == q[1..] + [t];
      QueuedAppend(q[1..], t, job);
    }
  }

  /** If no bit is set, nobody waits. */
  lemma {:induction false} NobodyWaits(fds: seq<Fd>, job: Job)
    requires Bits(fds) == 0 && forall i :: 0 <= i < |fds| ==> Consistent(fds[i])
    ensures Waiting(fds, job) == 0
  {
    if fds != [] {
      assert Consistent(fds[0]);
      NobodyWaits(fds[1..], job);
    }
  }

  // ----------------------------------------------------- what every step keeps

  datatype Op =
    | Add(fd: nat, event: Event, job: Job)
    | Delete(fd: nat, event: Event)
    | Cancel(fd: nat, event: Event)
    | CancelAll(fd: nat)
    | Dispatch(report: Report)

  function After(io: Io, op: Op): Io
    requires Allowed(io, op)
  {
    match op
    case Add(fd, e, job) => Added(io, fd, e, job)
    case Delete(fd, e) => Deleted(io, fd, e)
    case Cancel(fd, e) => Cancelled(io, fd, e)
    case CancelAll(fd) => AllCancelled(io, fd)
    case Dispatch(r) => Dispatched(io, r)
  }

  predicate Waited(io: Io, fd: nat, e: Event) { fd < |io.fds| && io.fds[fd].events.Has(e) }

  /** What the code asserts of its callers, and of the kernel: only registered events are reported as ready. */
  predicate Allowed(io: Io, op: Op) {
    match op
    case Add(fd, e, _) => |io.fds| >= 32 && !Waited(io, fd, e)
    case Delete(fd, e) => fd < |io.fds| ==> io.fds[fd].events.Has(e)
    case Cancel(fd, e) => fd < |io.fds| ==> io.fds[fd].events.Has(e)
    case CancelAll(_) => true
    case Dispatch(r) => r.fd in io.epoll && r.ready.Within(io.epoll[r.fd])
  }

  /** A descriptor whose own record and kernel entry change together. */
  lemma UpdateKeeps(io: Io, fd: nat, f: Fd, op: Ctl, after: Io)
    requires WellFormed(io) && fd < |io.fds| && Consistent(f)
    requires after.fds == io.fds[fd := f] && after.epoll == CtlDone(io.epoll, op, fd, f.events)
    requires op.DEL? <==> f.events == NONE
    requires after.pending - io.pending == Bits([f]) - Bits([io.fds[fd]])
    ensures WellFormed(after)
  {
    BitsAfter(io.fds, fd, f);
    MirrorsAfter(io.epoll, io.fds, fd, f, op);
  }

  lemma MirrorsAfter(epoll: map<nat, Mask>, fds: seq<Fd>, fd: nat, f: Fd, op: Ctl)
    requires Mirrors(epoll, fds) && fd < |fds| && (op.DEL? <==> f.events == NONE)
    ensures Mirrors(CtlDone(epoll, op, fd, f.events), fds[fd := f])
  {
    var after := CtlDone(epoll, op, fd, f.events);
    forall x: nat
      ensures x in after <==> x < |fds| && fds[fd := f][x].events != NONE
      ensures x in after ==> after[x] == fds[fd := f][x].events
    {
      assert x != fd ==> (x in after <==> x in epoll);
    }
  }

  lemma {:induction false} BitsAfter(fds: seq<Fd>, i: nat, f: Fd)
    requires i < |fds|
    ensures Bits(fds[i := f]) == Bits(fds) - Bits([fds[i]]) + Bits([f])
  {
    if i == 0 {
      assert fds[0 := f][1..] == fds[1..];
    } else {
      assert fds[i := f][1..] == fds[1..][i - 1 := f];
      BitsAfter(fds[1..], i - 1, f);
    }
  }

  lemma RoomKeeps(io: Io, fd: nat, job: Job)
    requires WellFormed(io)
    ensures var fds := WithRoom(io.fds, fd);
            && fd < |fds| && WellFormed(io.(fds := fds)) && Waiting(fds, job) == Waiting(io.fds, job)
            && (forall i :: |io.fds| <= i < |fds| ==> fds[i] == UNUSED)
            && (forall i :: 0 <= i < |io.fds| ==> fds[i] == io.fds[i])
  {
    if fd >= |io.fds| {
      UnusedWait(io.fds, fd * 3 / 2 - |io.fds|, job);
    }
  }

  lemma AddKeeps(io: Io, fd: nat, e: Event, new_: Job, job: Job)
    requires WellFormed(io) && !Waited(io, fd, e)
    ensures fd < |WithRoom(io.fds, fd)|
    ensures CtlLegal(io.epoll, Grow(WithRoom(io.fds, fd)[fd].events), fd)
    ensures WellFormed(Added(io, fd, e, new_))
    ensures Parked(Added(io, fd, e, new_), job) == Parked(io, job) + if job == new_ then 1 else 0
  {
    RoomKeeps(io, fd, job);
    hide WithRoom;
    var big := io.(fds := WithRoom(io.fds, fd));
    var f := big.fds[fd];
    assert Consistent(f);
    RegisteredIsConsistent(f, e, new_, job);
    UpdateKeeps(big, fd, Registered(f, e, new_), Grow(f.events), Added(io, fd, e, new_));
    WaitingAfter(big.fds, fd, Registered(f, e, new_), job);
  }

  lemma RegisteredIsConsistent(f: Fd, e: Event, new_: Job, job: Job)
    requires Consistent(f) && !f.events.Has(e)
    ensures var g := Registered(f, e, new_);
            && Consistent(g) && g.events == f.events.With(e) && Bits([g]) == Bits([f]) + 1
            && Waits(g.read, job) + Waits(g.write, job)
               == Waits(f.read, job) + Waits(f.write, job) + if job == new_ then 1 else 0
  {
  }

  lemma ForgottenIsConsistent(f: Fd, e: Event, job: Job)
    requires Consistent(f) && f.events.Has(e)
    ensures var g := Forgotten(f, e);
            && Consistent(g) && g.events == f.events.Without(e) && Bits([g]) == Bits([f]) - 1
            && Waiter(f.Context(e)).Some?
            && Waits(f.read, job) + Waits(f.write, job)
               == Waits(g.read, job) + Waits(g.write, job) + if Waiter(f.Context(e)) == Some(job) then 1 else 0
  {
  }

  lemma DeleteKeeps(io: Io, fd: nat, e: Event, job: Job)
    requires WellFormed(io) && Waited(io, fd, e)
    ensures CtlLegal(io.epoll, Shrink(io.fds[fd].events.Without(e)), fd)
    ensures WellFormed(Deleted(io, fd, e))
    ensures Waiter(io.fds[fd].Context(e)).Some?
    ensures Parked(Deleted(io, fd, e), job)
         == Parked(io, job) - if Waiter(io.fds[fd].Context(e)) == Some(job) then 1 else 0
  {
    var f := io.fds[fd];
    assert Consistent(f);
    ForgottenIsConsistent(f, e, job);
    UpdateKeeps(io, fd, Forgotten(f, e), Shrink(f.events.Without(e)), Deleted(io, fd, e));
    WaitingAfter(io.fds, fd, Forgotten(f, e), job);
  }

  /** A triggered waiter moves from its descriptor to the queue. */
  lemma TriggerMoves(io: Io, fd: nat, e: Event, job: Job)
    requires fd < |io.fds| && Consistent(io.fds[fd]) && io.fds[fd].events.Has(e)
    ensures var after := Triggered(io, fd, e);
            && after.fds == io.fds[fd := after.fds[fd]] && Consistent(after.fds[fd])
            && after.fds[fd].events == io.fds[fd].events.Without(e)
            && Bits([after.fds[fd]]) == Bits([io.fds[fd]]) - 1
            && |after.queue| == |io.queue| + 1
            && Parked(after, job) == Parked(io, job)
  {
    var f := io.fds[fd];
    ForgottenIsConsistent(f, e, job);
    WaitingAfter(io.fds, fd, Forgotten(f, e), job);
    QueuedAppend(io.queue, Task(Waiter(f.Context(e)).value, -1), job);
  }

  lemma TriggerAllMoves(io: Io, fd: nat, m: Mask, job: Job)
    requires fd < |io.fds| && Consistent(io.fds[fd]) && m.Within(io.fds[fd].events)
    ensures var after := TriggeredAll(io, fd, m);
            && after.fds == io.fds[fd := after.fds[fd]]
            && Consistent(after.fds[fd]) && after.fds[fd].events == io.fds[fd].events.Minus(m)
            && Parked(after, job) == Parked(io, job)
            && |after.queue| - |io.queue| == io.pending - after.pending
            && after.pending - io.pending == Bits([after.fds[fd]]) - Bits([io.fds[fd]])
  {
    hide Parked, Bits, Consistent, Forgotten;
    var afterRead := if m.read then Triggered(io, fd, READ) else io;
    if m.read { TriggerMoves(io, fd, READ, job); }
    if m.write { TriggerMoves(afterRead, fd, WRITE, job); }
  }

  lemma CancelKeeps(io: Io, fd: nat, e: Event, job: Job)
    requires WellFormed(io) && Waited(io, fd, e)
    ensures CtlLegal(io.epoll, Shrink(io.fds[fd].events.Without(e)), fd)
    ensures WellFormed(Cancelled(io, fd, e))
    ensures Parked(Cancelled(io, fd, e), job) == Parked(io, job)
    ensures |Cancelled(io, fd, e).queue| == |io.queue| + 1
  {
    var f := io.fds[fd];
    TriggerMoves(io, fd, e, job);
    UpdateKeeps(io, fd, Forgotten(f, e), Shrink(f.events.Without(e)), Cancelled(io, fd, e));
  }

  lemma CancelAllKeeps(io: Io, fd: nat, job: Job)
    requires WellFormed(io)
    ensures fd < |io.fds| && io.fds[fd].events != NONE ==> CtlLegal(io.epoll, DEL, fd)
    ensures WellFormed(AllCancelled(io, fd))
    ensures Parked(AllCancelled(io, fd), job) == Parked(io, job)
    ensures |AllCancelled(io, fd).queue| - |io.queue| == io.pending - AllCancelled(io, fd).pending
  {
    if fd < |io.fds| && io.fds[fd].events != NONE {
      TriggerAllMoves(io, fd, io.fds[fd].events, job);
      UpdateKeeps(io, fd, TriggeredAll(io, fd, io.fds[fd].events).fds[fd], DEL, AllCancelled(io, fd));
    }
  }

  lemma DispatchKeeps(io: Io, r: Report, job: Job)
    requires WellFormed(io) && Allowed(io, Dispatch(r))
    ensures r.fd < |io.fds| && Actual(r, io.fds[r.fd].events).Within(io.fds[r.fd].events)
    ensures var events := io.fds[r.fd].events;
            events.Overlaps(Actual(r, events)) ==> CtlLegal(io.epoll, Shrink(events.Minus(Actual(r, events))), r.fd)
    ensures WellFormed(Dispatched(io, r))
    ensures Parked(Dispatched(io, r), job) == Parked(io, job)
    ensures |Dispatched(io, r).queue| - |io.queue| == io.pending - Dispatched(io, r).pending
  {
    var events := io.fds[r.fd].events;
    var actual := Actual(r, events);
    if events.Overlaps(actual) {
      TriggerAllMoves(io, r.fd, actual, job);
      UpdateKeeps(io, r.fd, TriggeredAll(io, r.fd, actual).fds[r.fd], Shrink(events.Minus(actual)), Dispatched(io, r));
    }
  }

  // ------------------------------------------------------------ who still waits

  lemma ForgottenWaits(fds: seq<Fd>, fd: nat, e: Event, job: Job)
    requires fd < |fds|
    ensures Waiting(fds[fd := Forgotten(fds[fd], e)], job) <= Waiting(fds, job)
    ensures Waiter(fds[fd].Context(e)) == Some(job) ==> Waiting(fds, job) > 0
  {
    WaitingAfter(fds, fd, Forgotten(fds[fd], e), job);
  }

  lemma TriggeredAllWaits(io: Io, fd: nat, m: Mask, job: Job)
    requires fd < |io.fds|
    ensures Waiting(TriggeredAll(io, fd, m).fds, job) <= Waiting(io.fds, job)
  {
    hide Forgotten, Waiting;
    ForgottenWaits(io.fds, fd, READ, job);
    ForgottenWaits((if m.read then Triggered(io, fd, READ) else io).fds, fd, WRITE, job);
  }

  /** Only a registration makes anyone wait, and what is deleted was waiting. */
  lemma OpWaits(io: Io, op: Op, job: Job)
    requires WellFormed(io) && Allowed(io, op)
    ensures Waiting(After(io, op).fds, job) <= Waiting(io.fds, job) + (if op.Add? && op.job == job then 1 else 0)
    ensures Dropped(io, op) == Some(job) ==> Waiting(io.fds, job) > 0
  {
    hide Forgotten, Waiting, Parked;
    match op
    case Add(fd, e, new_) =>
      AddKeeps(io, fd, e, new_, job);
      ParkedIs(Added(io, fd, e, new_), job);
      ParkedIs(io, job);
    case Delete(fd, e) => if fd < |io.fds| { ForgottenWaits(io.fds, fd, e, job); }
    case Cancel(fd, e) => if fd < |io.fds| { ForgottenWaits(io.fds, fd, e, job); }
    case CancelAll(fd) => if fd < |io.fds| { TriggeredAllWaits(io, fd, io.fds[fd].events, job); }
    case Dispatch(r) => if r.fd < |io.fds| { TriggeredAllWaits(io, r.fd, Actual(r, io.fds[r.fd].events), job); }
  }

  lemma ParkedIs(io: Io, job: Job)
    ensures Parked(io, job) == Waiting(io.fds, job) + Queued(io.queue, job)
  {
  }

  // ------------------------------------------------- who waits, event by event

  /** Who waits for event `e` of descriptor `fd`. */
  function WaiterOf(io: Io, fd: nat, e: Event): Option<Job> {
    if Waited(io, fd, e) then Waiter(io.fds[fd].Context(e)) else None
  }

  /** Every wait is somebody's. */
  lemma SomebodyWaits(io: Io, fd: nat, e: Event)
    requires WellFormed(io)
    ensures WaiterOf(io, fd, e).Some? <==>
              fd < |io.fds| && if e.READ? then io.fds[fd].events.read else io.fds[fd].events.write
  {
    assert fd < |io.fds| ==> Consistent(io.fds[fd]);
  }

  /** addEvent makes the job the one waiter of its event and wakes nobody. */
  lemma AddWaits(io: Io, fd: nat, e: Event, job: Job)
    requires WellFormed(io) && Allowed(io, Add(fd, e, job))
    ensures var after := Added(io, fd, e, job);
            && WaiterOf(after, fd, e) == Some(job) && after.queue == io.queue
            && |after.fds| == (if fd < |io.fds| then |io.fds| else fd * 3 / 2)
            && forall x: nat, y :: x != fd || y != e ==> WaiterOf(after, x, y) == WaiterOf(io, x, y)
  {
    RoomKeeps(io, fd, job);
    assert Consistent(WithRoom(io.fds, fd)[fd]);
  }

  /** delEvent drops the one waiter and wakes nobody. */
  lemma DeleteWaits(io: Io, fd: nat, e: Event)
    requires WellFormed(io) && Allowed(io, Delete(fd, e))
    ensures var after := Deleted(io, fd, e);
            && WaiterOf(after, fd, e) == None && after.queue == io.queue && |after.fds| == |io.fds|
            && forall x: nat, y :: x != fd || y != e ==> WaiterOf(after, x, y) == WaiterOf(io, x, y)
  {
  }

  /** cancelEvent wakes the one waiter, behind what is queued. */
  lemma CancelWakes(io: Io, fd: nat, e: Event)
    requires WellFormed(io) && Allowed(io, Cancel(fd, e))
    ensures var after := Cancelled(io, fd, e);
            && WaiterOf(after, fd, e) == None && |after.fds| == |io.fds|
            && after.queue == io.queue + (match WaiterOf(io, fd, e) case None => [] case Some(job) => [Task(job, -1)])
            && forall x: nat, y :: x != fd || y != e ==> WaiterOf(after, x, y) == WaiterOf(io, x, y)
  {
    if fd < |io.fds| { assert Consistent(io.fds[fd]); }
  }

  /** cancelAll wakes the waiter for READ and then the one for WRITE. */
  lemma CancelAllWakes(io: Io, fd: nat)
    requires WellFormed(io)
    ensures var after := AllCancelled(io, fd);
            && |after.fds| == |io.fds|
            && after.queue == io.queue
                 + (match WaiterOf(io, fd, READ) case None => [] case Some(job) => [Task(job, -1)])
                 + (match WaiterOf(io, fd, WRITE) case None => [] case Some(job) => [Task(job, -1)])
            && forall x: nat, y :: WaiterOf(after, x, y) == if x == fd then None else WaiterOf(io, x, y)
  {
    if fd < |io.fds| { assert Consistent(io.fds[fd]); }
  }

  /**
   A report wakes the waiters of the events that are ready, and of all events if
   the descriptor failed: READ before WRITE, behind what is queued.  Nobody else
   stops waiting.
   */
  lemma DispatchWakes(io: Io, r: Report)
    requires WellFormed(io) && Allowed(io, Dispatch(r))
    ensures var after := Dispatched(io, r);
            && |after.fds| == |io.fds|
            && WaiterOf(after, r.fd, READ) == (if r.ready.read || r.failed then None else WaiterOf(io, r.fd, READ))
            && WaiterOf(after, r.fd, WRITE) == (if r.ready.write || r.failed then None else WaiterOf(io, r.fd, WRITE))
            && (forall x: nat, y :: x != r.fd ==> WaiterOf(after, x, y) == WaiterOf(io, x, y))
            && after.queue == io.queue
                 + (match WaiterOf(io, r.fd, READ)
                    case None => []
                    case Some(job) => if r.ready.read || r.failed then [Task(job, -1)] else [])
                 + (match WaiterOf(io, r.fd, WRITE)
                    case None => []
                    case Some(job) => if r.ready.write || r.failed then [Task(job, -1)] else [])
  {
    assert Consistent(io.fds[r.fd]);
  }

  // ---------------------------------------------------------------------- runs

  predicate AllAllowed(io: Io, ops: seq<Op>)
    decreases |ops|
  {
    ops == [] || (Allowed(io, ops[0]) && AllAllowed(After(io, ops[0]), ops[1..]))
  }

  function Final(io: Io, ops: seq<Op>): Io
    requires AllAllowed(io, ops)
    decreases |ops|
  {
    if ops == [] then io else Final(After(io, ops[0]), ops[1..])
  }

  /** The job that leaves without being woken, if `op` deletes one. */
  function Dropped(io: Io, op: Op): Option<Job> {
    if op.Delete? && op.fd < |io.fds| then Waiter(io.fds[op.fd].Context(op.event)) else None
  }

  function Registrations(ops: seq<Op>): nat {
    if ops == [] then 0 else (if ops[0].Add? then 1 else 0) + Registrations(ops[1..])
  }

  function Deletions(io: Io, ops: seq<Op>): nat
    requires AllAllowed(io, ops)
    decreases |ops|
  {
    if ops == [] then 0
    else (if Dropped(io, ops[0]).Some? then 1 else 0) + Deletions(After(io, ops[0]), ops[1..])
  }

  /** How often `job` is registered, less how often it is deleted. */
  function Net(io: Io, ops: seq<Op>, job: Job): int
    requires AllAllowed(io, ops)
    decreases |ops|
  {
    if ops == [] then 0
    else
      var gained := if ops[0].Add? && ops[0].job == job then 1 else 0;
      var lost := if Dropped(io, ops[0]) == Some(job) then 1 else 0;
      gained - lost + Net(After(io, ops[0]), ops[1..], job)
  }

  lemma StepKeeps(io: Io, op: Op, job: Job)
    requires WellFormed(io) && Allowed(io, op)
    ensures var after := After(io, op);
            && WellFormed(after)
            && Parked(after, job) == Parked(io, job)
                 + (if op.Add? && op.job == job then 1 else 0) - (if Dropped(io, op) == Some(job) then 1 else 0)
            && after.pending - io.pending + |after.queue| - |io.queue|
                 == (if op.Add? then 1 else 0) - (if Dropped(io, op).Some? then 1 else 0)
  {
    hide Parked, WellFormed, Consistent;
    match op
    case Add(fd, e, new_) => AddKeeps(io, fd, e, new_, job);
    case Delete(fd, e) => if fd < |io.fds| { DeleteKeeps(io, fd, e, job); }
    case Cancel(fd, e) => if fd < |io.fds| { CancelKeeps(io, fd, e, job); }
    case CancelAll(fd) => CancelAllKeeps(io, fd, job);
    case Dispatch(r) => DispatchKeeps(io, r, job);
  }

  /**
   Along every sequential run: the count of pending events is the number of
   bits set, the kernel's table holds exactly those bits, every registration is
   still pending, was triggered or was deleted, and no waiter is lost or woken
   twice.
   */
  lemma {:induction false} Bookkeeping(io: Io, ops: seq<Op>, job: Job)
    requires WellFormed(io) && AllAllowed(io, ops)
    ensures var after := Final(io, ops);
            && WellFormed(after)
            && Registrations(ops) == (after.pending - io.pending) + (|after.queue| - |io.queue|) + Deletions(io, ops)
            && Parked(after, job) == Parked(io, job) + Net(io, ops, job)
    decreases |ops|
  {
    if ops != [] {
      hide Parked, WellFormed, After, Allowed;
      StepKeeps(io, ops[0], job);
      Bookkeeping(After(io, ops[0]), ops[1..], job);
    }
  }

  lemma InitiallyWellFormed(n: nat, queue: seq<Task>, job: Job)
    requires n >= 32
    ensures WellFormed(Io(Unused(n), 0, map[], queue)) && Waiting(Unused(n), job) == 0
  {
    UnusedWait([], n, job);
    assert Unused(n) == [] + Unused(n);
  }

  // ------------------------------------------------------------------- batches

  ghost predicate OnePerFd(rs: seq<Report>) {
    forall i, j :: 0 <= i < j < |rs| ==> rs[i].fd != rs[j].fd
  }

  ghost predicate Reportable(io: Io, rs: seq<Report>) {
    OnePerFd(rs) && forall r :: r in rs ==> Allowed(io, Dispatch(r))
  }

  lemma DispatchElsewhere(io: Io, r: Report, fd: nat)
    requires fd != r.fd
    ensures |Dispatched(io, r).fds| == |io.fds|
    ensures fd in Dispatched(io, r).epoll <==> fd in io.epoll
    ensures fd in io.epoll ==> Dispatched(io, r).epoll[fd] == io.epoll[fd]
  {
  }

  lemma RestIsReportable(io: Io, rs: seq<Report>)
    requires rs != [] && WellFormed(io) && Reportable(io, rs)
    ensures Allowed(io, Dispatch(rs[0])) && Reportable(Dispatched(io, rs[0]), rs[1..])
  {
    forall x | x in rs[1..]
      ensures Allowed(Dispatched(io, rs[0]), Dispatch(x))
    {
      var i :| 0 <= i < |rs[1..]| && rs[1..][i] == x;
      assert rs[i + 1] == x && x in rs;
      DispatchElsewhere(io, rs[0], x.fd);
    }
  }

  /**
   One epoll_wait answer can be dispatched report by report: each stays within what
   is registered when its turn comes.
   */
  lemma {:induction false} BatchKeeps(io: Io, rs: seq<Report>, job: Job)
    requires WellFormed(io) && Reportable(io, rs)
    ensures WellFormed(AllDispatched(io, rs)) && Parked(AllDispatched(io, rs), job) == Parked(io, job)
    decreases |rs|
  {
    if rs != [] {
      var r, next := rs[0], Dispatched(io, rs[0]);
      DispatchKeeps(io, r, job);
      RestIsReportable(io, rs);
      hide WellFormed, Parked, Allowed, Dispatched;
      BatchKeeps(next, rs[1..], job);
    }
  }

  lemma {:induction false} BatchWaits(io: Io, rs: seq<Report>, job: Job)
    requires WellFormed(io) && Reportable(io, rs)
    ensures Waiting(AllDispatched(io, rs).fds, job) <= Waiting(io.fds, job)
    decreases |rs|
  {
    hide WellFormed, Waiting, Allowed, Dispatched;
    if rs != [] {
      RestIsReportable(io, rs);
      DispatchKeeps(io, rs[0], job);
      OpWaits(io, Dispatch(rs[0]), job);
      BatchWaits(Dispatched(io, rs[0]), rs[1..], job);
    }
  }

  /** Whether a report is about event `e` of `fd`. */
  predicate Tells(r: Report, fd: nat, e: Event) { r.fd == fd && (r.ready.Has(e) || r.failed) }

  /** The waiters that one report wakes. */
  function Woken(io: Io, r: Report): seq<Task> {
    (if WaiterOf(io, r.fd, READ).Some? && Tells(r, r.fd, READ) then [Task(WaiterOf(io, r.fd, READ).value, -1)] else [])
    + (if WaiterOf(io, r.fd, WRITE).Some? && Tells(r, r.fd, WRITE) then [Task(WaiterOf(io, r.fd, WRITE).value, -1)]
       else [])
  }

  function AllWoken(io: Io, rs: seq<Report>): seq<Task> {
    if rs == [] then [] else Woken(io, rs[0]) + AllWoken(io, rs[1..])
  }

  lemma WokenIs(io: Io, r: Report, fd: nat, e: Event)
    requires WellFormed(io) && Allowed(io, Dispatch(r))
    ensures Dispatched(io, r).queue == io.queue + Woken(io, r)
    ensures WaiterOf(Dispatched(io, r), fd, e) == if Tells(r, fd, e) then None else WaiterOf(io, fd, e)
  {
    hide WellFormed, Allowed, Dispatched, WaiterOf;
    DispatchWakes(io, r);
  }

  lemma {:induction false} AllWokenElsewhere(io: Io, after: Io, rs: seq<Report>)
    requires forall r, e :: r in rs ==> WaiterOf(after, r.fd, e) == WaiterOf(io, r.fd, e)
    ensures AllWoken(after, rs) == AllWoken(io, rs)
  {
    hide WaiterOf;
    if rs != [] {
      assert rs[0] in rs && forall r :: r in rs[1..] ==> r in rs;
      AllWokenElsewhere(io, after, rs[1..]);
    }
  }

  /**
   Report by report, a batch wakes exactly the waiters that its reports are about,
   as they were before the batch, in the order of the reports.
   */
  lemma {:induction false} BatchWakes(io: Io, rs: seq<Report>, fd: nat, e: Event)
    requires WellFormed(io) && Reportable(io, rs)
    ensures AllDispatched(io, rs).queue == io.queue + AllWoken(io, rs)
    ensures WaiterOf(AllDispatched(io, rs), fd, e)
         == if exists r :: r in rs && Tells(r, fd, e) then None else WaiterOf(io, fd, e)
    decreases |rs|
  {
    hide WellFormed, Allowed, Dispatched, WaiterOf, Woken;
    if rs != [] {
      var r, rest, next := rs[0], rs[1..], Dispatched(io, rs[0]);
      assert r in rs;
      RestIsReportable(io, rs);
      DispatchKeeps(io, r, Fiber(0));
      WokenIs(io, r, fd, e);
      forall x, y | x in rest ensures WaiterOf(next, x.fd, y) == WaiterOf(io, x.fd, y) {
        WokenIs(io, r, x.fd, y);
        FdsDiffer(rs, x);
      }
      AllWokenElsewhere(io, next, rest);
      BatchWakes(next, rest, fd, e);
      assert forall x :: x in rs <==> x == r || x in rest;
    }
  }

  lemma FdsDiffer(rs: seq<Report>, x: Report)
    requires rs != [] && OnePerFd(rs) && x in rs[1..]
    ensures x.fd != rs[0].fd
  {
    var i :| 0 <= i < |rs[1..]| && rs[1..][i] == x;
    assert rs[i + 1] == x;
  }

  // ---------------------------------------------------------------- assertions

  /** triggerEvent with its assertion: None when the bit is not set. */
  function TriggeredChecked(io: Io, fd: nat, e: Event): Option<Io>
    requires fd < |io.fds|
  {
    if io.fds[fd].events.Has(e) then Some(Triggered(io, fd, e)) else None
  }

  /** The dispatch of any report at all, with the assertions of triggerEvent. */
  function DispatchedChecked(io: Io, r: Report): Option<Io>
    requires r.fd < |io.fds|
  {
    var events := io.fds[r.fd].events;
    var actual := Actual(r, events);
    if !events.Overlaps(actual) then Some(io)
    else
      var left := events.Minus(actual);
      var afterRead := if actual.read then TriggeredChecked(io, r.fd, READ) else Some(io);
      if afterRead.None? then None
      else
        var afterWrite := if actual.write then TriggeredChecked(afterRead.value, r.fd, WRITE) else afterRead;
        if afterWrite.None? then None
        else Some(afterWrite.value.(epoll := CtlDone(io.epoll, Shrink(left), r.fd, left)))
  }

  /**
   The assertions hold exactly for reports that say nothing beyond what is
   registered, or nothing that is registered; then they change nothing.
   */
  lemma DispatchIsSafeIff(io: Io, r: Report)
    requires r.fd < |io.fds|
    ensures var events := io.fds[r.fd].events;
            DispatchedChecked(io, r).Some? <==>
                || ((r.ready.read ==> events.read) && (r.ready.write ==> events.write))
                || (!(r.ready.read && events.read) && !(r.ready.write && events.write)
                    && (r.failed ==> !events.read && !events.write))
    ensures DispatchedChecked(io, r).Some? ==> DispatchedChecked(io, r).value == Dispatched(io, r)
  {
    var events := io.fds[r.fd].events;
    assert Triggered(io, r.fd, READ).fds[r.fd].events == events.Without(READ);
  }
}
