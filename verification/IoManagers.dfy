/**
 The event half of IOManager: its table of FdContext objects and the calls that
 keep it, the kernel's interest table and the task queue in step.  The kernel is
 a map from descriptors to the events they are registered for.
 */
module IoManagers {
  import opened Wrappers
  import opened Schedulers
  import opened IoEvents

  class FdContext {
    const fd: nat
    var events: Mask
    var read: EventContext
    var write: EventContext

    constructor (fd: nat)
      ensures this.fd == fd && Shows(UNUSED)
    {
      this.fd := fd;
      events, read, write := NONE, EMPTY, EMPTY;
    }

    ghost predicate Shows(f: Fd)
      reads this
    {
      events == f.events && read == f.read && write == f.write
    }

    method SetEventContext(e: Event, c: EventContext)
      modifies `read, `write
      ensures read == (if e.READ? then c else old(read)) && write == (if e.READ? then old(write) else c)
    {
      match e {
        case READ => read := c;
        case WRITE => write := c;
      }
    }

    function GetEventContext(e: Event): EventContext
      reads this
    {
      match e case READ => read case WRITE => write
    }

    method TriggerEvent(e: Event, scheduler: Scheduler, ghost f: Fd)
      requires Shows(f) && f.events.Has(e)
      modifies this, scheduler`fibers
      ensures Shows(Forgotten(f, e))
      ensures scheduler.fibers == Enqueued(old(scheduler.fibers), Waiter(f.Context(e)), -1)
      ensures var c := if e.READ? then f.read else f.write;
              scheduler.fibers == old(scheduler.fibers)
                + (if c.cb.Some? then [Task(Callback(c.cb.value), -1)]
                   else if c.fiber.Some? then [Task(Fiber(c.fiber.value), -1)] else [])
    {
      events := events.Without(e);
      var context := GetEventContext(e);
      if context.cb.Some? {
        var _ := scheduler.ScheduleNoLock(Some(Callback(context.cb.value)), -1);
      } else {
        var fiber := if context.fiber.Some? then Some(Fiber(context.fiber.value)) else None;
        var _ := scheduler.ScheduleNoLock(fiber, -1);
      }
      SetEventContext(e, EMPTY);
    }
  }

  class IOManager {
    const tasks: Scheduler
    var fdContexts: seq<FdContext?>
    var pendingEventCount: int
    var epoll: map<nat, Mask>
    ghost var view: seq<Fd>   // what the contexts show

    /** Slot i holds the context of descriptor i, from the first slot to the last. */
    ghost predicate Slots()
      reads `fdContexts, `view, fdContexts
    {
      && |fdContexts| == |view|
      && forall i :: 0 <= i < |fdContexts| ==>
           fdContexts[i] != null && fdContexts[i].fd == i && fdContexts[i].Shows(view[i])
    }

    ghost function State(): Io
      reads this, tasks
    {
      Io(view, pendingEventCount, epoll, tasks.fibers)
    }

    ghost predicate Valid()
      reads this, tasks, fdContexts
    {
      Slots() && WellFormed(State())
    }

    constructor (tasks: Scheduler)
      ensures Valid() && this.tasks == tasks && fresh(fdContexts)
      ensures State() == Io(Unused(32), 0, map[], tasks.fibers)
    {
      this.tasks := tasks;
      fdContexts, view := [], [];
      pendingEventCount, epoll := 0, map[];
      new;
      ContextResize(32);
      InitiallyWellFormed(32, tasks.fibers, Fiber(0));
      assert Resized([], 32) == Unused(32);
    }

    /** The table grows to `size`; old slots stay, new ones get a context. */
    method ContextResize(size: nat)
      requires Slots() && size >= |fdContexts|
      modifies `fdContexts, `view
      ensures Slots() && view == Resized(old(view), size)
      ensures |fdContexts| == size && old(fdContexts) <= fdContexts
      ensures forall i :: |old(fdContexts)| <= i < size ==> fresh(fdContexts[i])
    {
      ghost var known := |fdContexts|;
      fdContexts := fdContexts + seq(size - |fdContexts|, _ => null);
      view := Resized(view, size);
      var i := 0;
      while i < |fdContexts|
        invariant 0 <= i <= |fdContexts| == size == |view|
        invariant known == |old(fdContexts)| && old(fdContexts) <= fdContexts && view == Resized(old(view), size)
        invariant forall j :: 0 <= j < known || 0 <= j < i ==>
                    fdContexts[j] != null && fdContexts[j].fd == j && fdContexts[j].Shows(view[j])
        invariant forall j :: known <= j < i ==> fresh(fdContexts[j])
        invariant forall j :: i <= j < size && known <= j ==> fdContexts[j] == null
      {
        if fdContexts[i] == null {
          var context := new FdContext(i);
          fdContexts := fdContexts[i := context];
        }
        i := i + 1;
      }
    }

    /** epoll_ctl. */
    method EpollCtl(op: Ctl, fd: nat, mask: Mask) returns (rt: int)
      modifies `epoll
      ensures rt == 0 <==> CtlLegal(old(epoll), op, fd)
      ensures epoll == if rt == 0 then CtlDone(old(epoll), op, fd, mask) else old(epoll)
    {
      if (op == ADD) != (fd !in epoll) {
        return -1;
      }
      if op == DEL {
        epoll := epoll - {fd};
      } else {
        epoll := epoll[fd := mask];
      }
      rt := 0;
    }

    /** What addEvent does once there is a context. */
    method Register(fd: nat, e: Event, cb: Option<Code>, self: nat)
      requires Slots() && fd < |view|
      requires CtlLegal(epoll, Grow(view[fd].events), fd)
      modifies `pendingEventCount, `epoll, `view, fdContexts[fd]
      ensures Slots()
      ensures var job := if cb.Some? then Callback(cb.value) else Fiber(self);
              && view == old(view)[fd := Registered(old(view)[fd], e, job)]
              && epoll == CtlDone(old(epoll), Grow(old(view)[fd].events), fd, old(view)[fd].events.With(e))
      ensures pendingEventCount == old(pendingEventCount) + 1
    {
      var context := fdContexts[fd];
      var op := if context.events == NONE then ADD else MOD;
      var rt := EpollCtl(op, fd, context.events.With(e));
      assert rt == 0;
      pendingEventCount := pendingEventCount + 1;
      context.events := context.events.With(e);
      var c := context.GetEventContext(e);
      if cb.Some? {
        context.SetEventContext(e, c.(cb := cb));
      } else {
        context.SetEventContext(e, c.(fiber := Some(self)));
      }
      view := view[fd := Registered(view[fd], e, if cb.Some? then Callback(cb.value) else Fiber(self))];
    }

    /** Without a callback, the calling fiber `self` is registered as the waiter. */
    method AddEvent(fd: nat, e: Event, cb: Option<Code>, self: nat)
      requires Valid() && !Waited(State(), fd, e)
      modifies this, fdContexts
      ensures Valid() && old(fdContexts) <= fdContexts
      ensures forall i :: |old(fdContexts)| <= i < |fdContexts| ==> fresh(fdContexts[i])
      ensures State() == After(old(State()), Add(fd, e, if cb.Some? then Callback(cb.value) else Fiber(self)))
    {
      hide WellFormed, Parked, Registered, Resized;
      ghost var job := if cb.Some? then Callback(cb.value) else Fiber(self);
      AddKeeps(State(), fd, e, job, job);
      if |fdContexts| <= fd {
        assert fd * 3 / 2 >= |fdContexts| by { RoomIsEnough(State(), fd); }
        ContextResize(fd * 3 / 2);
      }
      Register(fd, e, cb, self);
    }

    lemma RoomIsEnough(io: Io, fd: nat)
      requires WellFormed(io) && fd >= |io.fds|
      ensures fd * 3 / 2 > fd
    {
    }

    method Unregister(fd: nat, left: Mask)
      requires Slots() && fd < |view| && CtlLegal(epoll, Shrink(left), fd)
      modifies `pendingEventCount, `epoll
      ensures epoll == CtlDone(old(epoll), Shrink(left), fd, left)
      ensures pendingEventCount == old(pendingEventCount) - 1
    {
      var op := if left == NONE then DEL else MOD;
      var rt := EpollCtl(op, fd, left);
      assert rt == 0;
      pendingEventCount := pendingEventCount - 1;
    }

    method Forget(fd: nat, e: Event, left: Mask)
      requires Slots() && fd < |view| && left == view[fd].events.Without(e)
      modifies `view, fdContexts[fd]
      ensures Slots() && view == old(view)[fd := Forgotten(old(view)[fd], e)]
    {
      fdContexts[fd].SetEventContext(e, EMPTY);
      fdContexts[fd].events := left;
      view := view[fd := Forgotten(view[fd], e)];
    }

    /** The waiter is dropped without being woken. */
    method DelEvent(fd: nat, e: Event) returns (ok: bool)
      requires Valid() && Allowed(State(), Delete(fd, e))
      modifies this, fdContexts
      ensures Valid() && fdContexts == old(fdContexts)
      ensures ok == (fd < |fdContexts|)
      ensures State() == After(old(State()), Delete(fd, e))
    {
      hide WellFormed, Parked, Forgotten, CtlDone, Waiter;
      if |fdContexts| <= fd {
        return false;
      }
      DeleteKeeps(State(), fd, e, Fiber(0));
      var context := fdContexts[fd];
      var left := context.events.Without(e);
      Unregister(fd, left);
      Forget(fd, e, left);
      return true;
    }

    method Trigger(fd: nat, e: Event)
      requires Slots() && fd < |view| && view[fd].events.Has(e)
      modifies `view, fdContexts[fd], tasks`fibers
      ensures Slots()
      ensures view == old(view)[fd := Forgotten(old(view)[fd], e)]
      ensures tasks.fibers == Enqueued(old(tasks.fibers), Waiter(old(view)[fd].Context(e)), -1)
    {
      fdContexts[fd].TriggerEvent(e, tasks, view[fd]);
      view := view[fd := Forgotten(view[fd], e)];
    }

    /** The waiter is woken early. */
    method CancelEvent(fd: nat, e: Event) returns (ok: bool)
      requires Valid() && Allowed(State(), Cancel(fd, e))
      modifies this, fdContexts, tasks`fibers
      ensures Valid() && fdContexts == old(fdContexts)
      ensures ok == (fd < |fdContexts|)
      ensures State() == After(old(State()), Cancel(fd, e))
    {
      hide WellFormed, Parked, Forgotten, CtlDone, Enqueued, Waiter;
      if |fdContexts| <= fd {
        return false;
      }
      CancelKeeps(State(), fd, e, Fiber(0));
      Unregister(fd, fdContexts[fd].events.Without(e));
      Trigger(fd, e);
      return true;
    }

    /** triggerEvent for each bit of `m`, READ first. */
    method TriggerEach(fd: nat, m: Mask)
      requires Slots() && fd < |view| && m.Within(view[fd].events)
      modifies `view, `pendingEventCount, fdContexts[fd], tasks`fibers
      ensures Slots()
      ensures State() == TriggeredAll(old(State()), fd, m)
    {
      if m.read {
        Trigger(fd, READ);
        pendingEventCount := pendingEventCount - 1;
      }
      if m.write {
        Trigger(fd, WRITE);
        pendingEventCount := pendingEventCount - 1;
      }
    }

    method CancelAll(fd: nat) returns (ok: bool)
      requires Valid()
      modifies this, fdContexts, tasks`fibers
      ensures Valid() && fdContexts == old(fdContexts)
      ensures ok == (fd < |old(view)| && old(view)[fd].events != NONE)
      ensures State() == After(old(State()), IoEvents.CancelAll(fd))
    {
      hide WellFormed, Parked, TriggeredAll, CtlDone;
      if |fdContexts| <= fd {
        return false;
      }
      if fdContexts[fd].events == NONE {
        return false;
      }
      CancelAllKeeps(State(), fd, Fiber(0));
      var rt := EpollCtl(DEL, fd, NONE);
      assert rt == 0;
      TriggersLeaveEpoll(old(State()), fd, fdContexts[fd].events, epoll);
      TriggerEach(fd, fdContexts[fd].events);
      return true;
    }

    /** One report of epoll_wait, as idle() handles it. */
    method DispatchOne(r: Report)
      requires Valid() && Allowed(State(), Dispatch(r))
      modifies this, fdContexts, tasks`fibers
      ensures Valid() && fdContexts == old(fdContexts)
      ensures State() == After(old(State()), Dispatch(r))
    {
      hide WellFormed, Parked, TriggeredAll, Allowed, CtlDone;
      DispatchKeeps(State(), r, Fiber(0));
      var context := fdContexts[r.fd];
      var ready := r.ready;
      if r.failed {
        ready := Mask(ready.read || context.events.read, ready.write || context.events.write);
      }
      if !context.events.Overlaps(ready) {
        return;
      }
      var left := context.events.Minus(ready);
      var op := if left == NONE then DEL else MOD;
      var rt := EpollCtl(op, r.fd, left);
      assert rt == 0;
      TriggersLeaveEpoll(old(State()), r.fd, ready, epoll);
      TriggerEach(r.fd, ready);
    }

    /** All reports of one epoll_wait. */
    method DispatchAll(rs: seq<Report>)
      requires Valid() && Reportable(State(), rs)
      modifies this, fdContexts, tasks`fibers
      ensures Valid() && fdContexts == old(fdContexts)
      ensures State() == AllDispatched(old(State()), rs)
    {
      hide WellFormed, Parked, Dispatched, Allowed;
      var i := 0;
      while i < |rs|
        invariant 0 <= i <= |rs|
        invariant Valid() && fdContexts == old(fdContexts)
        invariant Reportable(State(), rs[i..])
        invariant AllDispatched(State(), rs[i..]) == AllDispatched(old(State()), rs)
      {
        assert rs[i..][0] == rs[i] && rs[i..][1..] == rs[i + 1..];
        RestIsReportable(State(), rs[i..]);
        DispatchOne(rs[i]);
        i := i + 1;
      }
    }
  }
}
