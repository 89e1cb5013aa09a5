/**
 Fiber objects and the thread-local pointers around every context switch.
 `cpu` stands for the context that really executes; the other pointers are the
 program's own records of it.
 */
module Fibers {
  import opened Wrappers
  import opened FiberStates
  import opened Schedulers

  class Fiber {
    const hasStack: bool     // false only for the main fiber of a thread
    const useCaller: bool    // the root fiber, which switches with the main fiber
    var state: FiberState
    var cb: Option<Code>

    constructor OfThread()
      ensures state == EXEC && !hasStack && !useCaller && cb == None
    {
      hasStack, useCaller, state, cb := false, false, EXEC, None;
    }

    constructor (code: Code, useCaller: bool)
      ensures state == INIT && hasStack && this.useCaller == useCaller && cb == Some(code)
    {
      hasStack, this.useCaller, state, cb := true, useCaller, INIT, Some(code);
    }

    method Reset(code: Code)
      requires hasStack && (state == TERM || state == INIT)
      modifies this
      ensures state == INIT && cb == Some(code)
    {
      cb := Some(code);
      state := INIT;
    }
  }

  class Thread {
    var current: Fiber?          // t_fiber
    var threadFiber: Fiber?      // t_threadFiber
    var schedulerFiber: Fiber?   // t_scheduler_fiber
    var cpu: Fiber?
    ghost var chain: seq<Fiber>  // who switched to whom, from the main fiber on

    /** The fibers in the chain are in EXEC, and the last of them executes and is the recorded one. */
    ghost predicate Valid()
      reads this, chain
    {
      && |chain| > 0 && threadFiber == chain[0] && cpu == current == chain[|chain| - 1]
      && (forall i :: 0 <= i < |chain| ==> chain[i].state == EXEC)
      && (forall i, j :: 0 <= i < j < |chain| ==> chain[i] != chain[j])
    }

    /** Where the running fiber returns to when it gives up the thread. */
    ghost predicate CanLeave()
      reads this, chain
    {
      && Valid() && |chain| >= 2
      && (if chain[|chain| - 1].useCaller then |chain| == 2 else schedulerFiber == chain[|chain| - 2])
    }

    constructor ()
      ensures current == null && threadFiber == null && schedulerFiber == null
    {
      current, threadFiber, schedulerFiber, cpu, chain := null, null, null, null, [];
    }

    /** The first call makes the main fiber. */
    method GetThis() returns (f: Fiber)
      requires current == null || Valid()
      modifies this
      ensures Valid() && f == current && schedulerFiber == old(schedulerFiber)
      ensures old(current) != null ==> f == old(current) && chain == old(chain) && threadFiber == old(threadFiber)
      ensures old(current) == null ==> fresh(f) && chain == [f]
    {
      if current == null {
        threadFiber := new Fiber.OfThread();
        current := threadFiber;
        cpu := threadFiber;
        chain := [threadFiber];
      }
      f := current;
    }

    /** swapcontext: `from` must be the context that executes, for it is the one that is saved. */
    method SwapContext(from: Fiber, to: Fiber)
      requires cpu == from
      modifies `cpu
      ensures cpu == to
    {
      cpu := to;
    }

    /** The scheduler's fiber resumes `f`. */
    method SwapIn(f: Fiber)
      requires Valid() && schedulerFiber == current && f.state != EXEC
      modifies `current, `cpu, `chain, f`state
      ensures Valid() && chain == old(chain) + [f]
    {
      current := f;
      f.state := EXEC;
      SwapContext(schedulerFiber, f);
      chain := chain + [f];
    }

    /** `f`, already marked HOLD or TERM, gives the thread back to the scheduler's fiber. */
    method SwapOut(f: Fiber)
      requires |chain| >= 2 && f == chain[|chain| - 1] == cpu && threadFiber == chain[0]
      requires schedulerFiber == chain[|chain| - 2]
      requires forall i :: 0 <= i < |chain| - 1 ==> chain[i].state == EXEC
      requires forall i, j :: 0 <= i < j < |chain| ==> chain[i] != chain[j]
      modifies `current, `cpu, `chain
      ensures Valid() && chain == old(chain)[..|old(chain)| - 1]
    {
      current := schedulerFiber;
      SwapContext(f, schedulerFiber);
      chain := chain[..|chain| - 1];
    }

    /** The main fiber enters the root fiber. */
    method Call(f: Fiber)
      requires Valid() && |chain| == 1 && f.state != EXEC
      modifies `current, `cpu, `chain, f`state
      ensures Valid() && chain == old(chain) + [f]
    {
      current := f;
      f.state := EXEC;
      SwapContext(threadFiber, f);
      chain := chain + [f];
    }

    method Back(f: Fiber)
      requires |chain| == 2 && f == chain[1] == cpu && threadFiber == chain[0] && chain[0].state == EXEC
      requires chain[0] != f
      modifies `current, `cpu, `chain
      ensures Valid() && chain == old(chain)[..1]
    {
      current := threadFiber;
      SwapContext(f, threadFiber);
      chain := chain[..1];
    }

    /** The running fiber is suspended, and the one that resumed it goes on. */
    method YieldToHold()
      requires CanLeave()
      modifies this, current`state
      ensures Valid() && chain == old(chain)[..|old(chain)| - 1] && old(current).state == HOLD
      ensures schedulerFiber == old(schedulerFiber) && threadFiber == old(threadFiber)
    {
      var cur := GetThis();
      cur.state := HOLD;
      if !cur.useCaller {
        SwapOut(cur);
      } else {
        Back(cur);
      }
    }

    /** MainFunc and CallMainFunc after the function has returned. */
    method Finish()
      requires CanLeave()
      modifies this, current
      ensures Valid() && chain == old(chain)[..|old(chain)| - 1]
      ensures old(current).state == TERM && old(current).cb == None
      ensures schedulerFiber == old(schedulerFiber) && threadFiber == old(threadFiber)
    {
      var cur := GetThis();
      cur.cb := None;
      cur.state := TERM;
      if !cur.useCaller {
        SwapOut(cur);
      } else {
        Back(cur);
      }
    }

    /** A task that is resumed and yields leaves the thread as it was; only its own state has changed. */
    method ResumeUntilYield(f: Fiber)
      requires Valid() && schedulerFiber == current && f.state != EXEC && !f.useCaller
      modifies this, f`state
      ensures Valid() && chain == old(chain) && current == old(current) && cpu == old(cpu) && f.state == HOLD
    {
      SwapIn(f);
      YieldToHold();
      assert chain == old(chain);
    }
  }
}
