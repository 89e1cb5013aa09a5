# yxtweb-cpp, modelled and proved in Dafny

This project models three parts of yxtweb-cpp, a C++ coroutine server framework,
and proves what they keep. Paths below are those of the repository.

**The coroutine runtime.** `TimerOrder`, `TimerHistory` and `Timers` model the
timer set; `Schedulers` the task queue; `WorkerPool` any number of threads in
`Scheduler::run`, as a step system over its locked regions; `IoEvents` and
`IoManagers` the event table of `IOManager` beside the kernel's interest table;
`FiberStates` and `Fibers` the context switches of one thread; `Runtime` puts
fibers, run loop, timers and events of a one-worker `IOManager` together, and
`Shutdown` says when its `stop()` returns, `Wakeups` when a sleeping or waiting
fiber is resumed, and `Turns` in which order. The main results are `Runtime.NothingIsLeft`, what is left
when `stop()` has returned, and `Shutdown.StopReturns`.

**ByteArray.** `Bytes`, `FlatBuffer`, `ByteCodec` and `BytePrograms` say what a
flat buffer with a position does and what the codecs write; `ByteArrays` is the
linked list of blocks with its cursor, proved to behave like that buffer.

**HTTP requests.** `UrlCodec` and `Forms` model percent-encoding, form data and
cookies; `HttpRequests` the request and what `dump` prints; `HttpMachine` the
control states of the generated parser and `HttpParsers` its marks and
callbacks; `HttpRoundTrip` proves that the parser reads back what `dump` prints,
`HttpGrammar` which texts it reads at all, and `HttpLegality` which requests
survive; `HttpCuts` and `HttpInnerCuts` say
what it does to the request where the stream is cut, with `HttpCutExamples`;
`HttpStreams` receives a request from a stream cut in any way.

Classes whose methods change fields are Dafny classes, each method proved
against a function on values; the properties are lemmas about those functions.

What the environment supplies is a parameter: clock readings, the addresses of
new timers, the size of the request buffer, the reports of `epoll_wait` (each
descriptor once, only registered events, plus error flags), the sizes of reads
and writes, the byte order of the host and its longest string, and the
transitions of parser states that are not spelled out. The kernel's interest
table is a map, and `epoll_ctl` fails as documented for it.

Where the code and its comments or intentions differ, the code is followed:

- `uri_chars` marks '=' as unreserved although the comment above `UrlEncode`
  (util.cpp:150) does not list it, so '=' is not encoded.
- `detectClockRollover` never reports a rollover (timer.cpp:194 compares instead
  of assigning), so expiry depends on the clock reading alone.
- A read of no bytes at the end of the capacity dereferences the null current
  node (bytearray.cpp:382-383); it is the outcome `NullCursor`, and the exact
  condition of the program round trip speaks of it.
- The positional read starts at the current node, whatever position is asked for
  (bytearray.cpp:406-434); `FlatBuffer.ReadAtIsRightIff` says when that is right.
- `reset` with an unchanged period and start answers true even for a timer that
  was cancelled (timer.cpp:55-57).
- `uri_relaxed` is never initialised, so it is a parameter, and the text that is
  proved to be read back avoids '{', '}' and '^'.
- The grammar's token class contains control characters, line ends included.
- `http_parser_execute` resets its marks in every call, all but `query_start`
  (http11_parser.cpp:94-97).  So a read that ends inside a part of the head makes
  the next call report only the rest of that part, or fail, and one that ends
  inside a query can end in std::length_error, which nothing in `recvRequest`
  catches (http11_parser.cpp:266 and 727, http_parser.cpp:113).
- Unless it is inside the version of an HTTP/1.1 request and a later read ends
  right behind it: the last call then compares no characters (http_parser.cpp:119)
  and takes the version for HTTP/1.1.
- `delEvent` on a fiber that waits for the event leaves it suspended for good
  (iomanager.cpp:127-153): `stop()` returns with such fibers in HOLD.
- A string is made before it is read (bytearray.cpp:297-327), so a prefix beyond
  the longest string ends in the exception of resize; the outcome is `TooLong`.
- lexical_cast reads a content length with a sign; '-' negates it modulo 2^64, and
  `recvRequest` takes the result as a signed number.
- `readFixSize` and `writeFixSize` return a size_t length as an int
  (stream.cpp:24 and 51), so `recvRequest` refuses a body of which 2^31 bytes are
  missing after the head, although they arrive.
- `Timer::cancel` on a one-shot timer that has fired erases the end iterator of
  the set (timer.cpp:30-33); the outcome is `EndErased`.
- The positional forms of `read` and `getReadBuffers` do not check a position
  behind the size (bytearray.cpp:407 and 586); what they then hand out, or that
  they run behind the last node, is part of their contracts.
- The parser drops blanks at the start of a header value; M-SEARCH is in the
  method table but its hyphen is not in the grammar (section 3.1.1 of RFC 7230
  would allow it).

## Model

| member | source | states |
|---|---|---|
| TimerOrder.InsertKeepsOrder | yxtwebcpp/timer.cpp:82-101 | inserting a timer by the comparator keeps the set strictly sorted by (next, address) and adds just that timer |
| TimerOrder.RemoveEntries | yxtwebcpp/timer.cpp:32-33 | erasing a timer keeps the order and removes exactly the timer at that address |
| TimerOrder.ExpiredIsPrefix | yxtwebcpp/timer.cpp:161-168 | the timers with next <= now are exactly the prefix cut off by lower_bound and the loop behind it |
| TimerOrder.SortedIsUnique | yxtwebcpp/timer.cpp:82-101 | two strictly sorted sets with the same timers are equal, so the order and the contents determine the set |
| TimerOrder.ListExpiredIsRight | yxtwebcpp/timer.cpp:142-177 | listExpiredCb(now) fires exactly the timers with next <= now, once each, in (next, address) order; one-shots leave, recurring ones return with next + ms, all others are untouched, and the set stays strictly sorted |
| TimerOrder.FiresInOrder | yxtwebcpp/timer.cpp:82-101 | the timers that one call delivers come by time, and those due at the same time by address |
| TimerHistory.StepLookup | yxtwebcpp/timer.cpp:28-79 | what each call does to each timer: add puts it in under its time, cancel removes it, refresh moves it to now + ms, reset to the new period from now or from its old start, other timers stay; neither refresh nor reset brings back an absent timer; next - ms never underflows |
| TimerHistory.ListedLookup | yxtwebcpp/timer.cpp:142-177 | what one listExpiredCb call does to one timer: absent, not due, due one-shot, due recurring |
| TimerHistory.RunKeepsTimerSet | yxtwebcpp/timer.cpp:28-79 | along every sequence of add, cancel, refresh, reset and list calls, at any clock readings, the set stays strictly sorted without duplicates |
| TimerHistory.GoneForGood | yxtwebcpp/timer.cpp:39-68 | a timer that has left the set never fires again and is not revived by refresh or reset |
| TimerHistory.CancelledNeverFires | yxtwebcpp/timer.cpp:28-37 | after cancel no later listExpiredCb delivers the timer's callback |
| TimerHistory.OneShotFiresOnce | yxtwebcpp/timer.cpp:170-176 | a one-shot timer fires at most once whatever is called on it, and is gone once it has |
| TimerHistory.RecurringKeepsItsSchedule | yxtwebcpp/timer.cpp:170-176 | an untouched recurring timer has next = first + k*ms after k firings, and firing j (from 0) never comes before first + j*ms |
| TimerHistory.DueIsQuotient | yxtwebcpp/timer.cpp:157-176 | how often a recurring timer is due at a clock reading, as a quotient |
| TimerHistory.CatchesUpAtFixedClock | yxtwebcpp/timer.cpp:142-177 | n calls at one clock reading fire a due recurring timer min(n, (now - next)/ms + 1) times; with ms = 0 every call fires it |
| Timers.Timer.Cancel | yxtwebcpp/timer.cpp:28-37 | true exactly if the timer was in the set, which then loses just that timer; false for a timer without a callback; and an erase of the end iterator exactly for a timer that has left the set with its callback, that is, fired for the last time |
| Timers.Timer.Refresh | yxtwebcpp/timer.cpp:39-52 | refresh moves the timer to now + ms exactly if it is in the set |
| Timers.Timer.Reset | yxtwebcpp/timer.cpp:54-79 | reset changes period and start; without a change it answers true even for a timer that is gone |
| Timers.Timer.MoveTo | yxtwebcpp/timer.cpp:48-50 | the key is changed only while the timer is outside the set, and the set ends as remove followed by insert |
| Timers.Timer.Found | yxtwebcpp/timer.cpp:44-47 | the set holds an entry for the timer's address exactly if the timer itself is in the set |
| Timers.TimerManager.LowerBound | yxtwebcpp/timer.cpp:161-163 | lower_bound: everything before the result is below the key, nothing from it on is |
| Timers.TimerManager.Find | yxtwebcpp/timer.cpp:32-44 | find by key agrees with object identity |
| Timers.TimerManager.Erase | yxtwebcpp/timer.cpp:33-48 | erase removes exactly that timer |
| Timers.TimerManager.InsertTimer | yxtwebcpp/timer.cpp:180-189 | insert of a new timer; it is reported at the front exactly if it is the first of the set |
| Timers.TimerManager.AddTimer | yxtwebcpp/timer.cpp:110-114 | a new timer object is in the set under now + ms, and onTimerInsertedAtFront is due exactly if it is the first |
| Timers.TimerManager.GetNextTimer | yxtwebcpp/timer.cpp:127-140 | all ones for an empty set; 0 exactly if some timer is due; else the least remaining time |
| Timers.TimerManager.CountExpired | yxtwebcpp/timer.cpp:161-166 | lower_bound of the temporary timer and the loop over equal times stop behind the last expired timer |
| Timers.TimerManager.ListExpiredCb | yxtwebcpp/timer.cpp:142-177 | the in-place erase and re-insert give the specified callbacks and set; fired timers keep their callback and period |
| Schedulers.FirstFor | yxtwebcpp/scheduler.cpp:100-107 | the least index of a task scheduled for any thread or for this one, or the length of the queue |
| Schedulers.Scheduler.ScheduleNoLock | yxtwebcpp/scheduler.hpp:63-71 | a non-null task goes to the end of the queue with the thread asked for, a null one nowhere; the answer is whether the queue was empty before, even for a null task |
| Schedulers.Scheduler.ScheduleRange | yxtwebcpp/scheduler.hpp:48-61 | the range is queued in order, and the pool is woken exactly if the range is non-empty and the queue was empty |
| Schedulers.RangeIsQueued | yxtwebcpp/scheduler.hpp:48-61 | what the range adds to the queue: its non-null tasks, all of them, in its order and for any thread |
| Schedulers.Scheduler.Pick | yxtwebcpp/scheduler.cpp:95-115 | the first task this thread may run leaves the queue and the active count grows; the others are woken exactly if tasks remain |
| WorkerPool.StepCounts | yxtwebcpp/scheduler.cpp:111-127 | every step keeps the active count equal to the number of workers holding a task |
| WorkerPool.PickIsFirst | yxtwebcpp/scheduler.cpp:101-113 | the task picked is the first queued with its pin, for every pin |
| WorkerPool.StepOrders | yxtwebcpp/scheduler.cpp:97-129 | every step keeps, for each pin, started ++ queued = enqueued in order |
| WorkerPool.StepConserves | yxtwebcpp/scheduler.cpp:97-129 | every step keeps order per pin, loses or repeats no task, and starts pinned tasks only on their thread |
| WorkerPool.RunIsFair | yxtwebcpp/scheduler.cpp:83-138 | at every point of every run of any number of workers: the active count, FIFO order per pin, conservation of tasks and affinity |
| WorkerPool.TasksAreTheCalls | yxtwebcpp/scheduler.hpp:36-71 | at every point of every run the tasks started and queued are those of the schedule calls made so far, each with the thread it was asked for and once; those for one thread start in the order of the calls; a task asked for on a thread starts on no other |
| WorkerPool.PickTakesTheFirst | yxtwebcpp/scheduler.cpp:95-129 | a worker that scans takes the first of all tasks it may run and leaves the others in their order; with none it goes on to its idle fiber |
| WorkerPool.InitiallyFair | yxtwebcpp/scheduler.cpp:45-57 | the invariant holds when the pool starts |
| WorkerPool.Quiescence | yxtwebcpp/scheduler.cpp:147-150 | once stopping() is true and nothing outside schedules or restarts, it is true in every later state |
| WorkerPool.StepKeepsEnd | yxtwebcpp/scheduler.cpp:130-150 | once an idle fiber has ended, stopping() stays true as long as nothing outside schedules or restarts |
| WorkerPool.StopReturnsDrained | yxtwebcpp/scheduler.cpp:59-81 | on both returns of stop(), at once when stopping() is true already or once all threads have left run(): the queue is empty, no worker holds a task and every task ever enqueued was started exactly once, if nobody outside schedules after a worker saw the end |
| WorkerPool.LateTaskIsStranded | yxtwebcpp/scheduler.cpp:97-132 | without that restraint a task can stay in the queue of a pool whose only worker has left |
| WorkerPool.WorkersGoOn | yxtwebcpp/scheduler.cpp:83-138 | a worker that has not left has a step: no worker waits for another |
| WorkerPool.NobodyLeaves | yxtwebcpp/scheduler.cpp:83-150 | on every run from a state that is not stopping, or after start() has cleared the flag, no worker leaves until the flag is set |
| WorkerPool.AllCanLeave | yxtwebcpp/scheduler.cpp:59-138 | once a run has stopping() true, all workers can leave without a step from outside, and stop() then returns as StopReturnsDrained says |
| WorkerPool.LeftBehind | yxtwebcpp/scheduler.cpp:97-150 | one worker, every run that ends with its exit: what stays in the queue is what was scheduled between its last poll and its last scan, less the one task that the scan takes, and all that was scheduled after the last scan; so nothing stays exactly if nothing came after the scan and at most one task, which it may run, in between |
| WorkerPool.LeftBehindByMany | yxtwebcpp/scheduler.cpp:97-150 | n workers, every run that ends with all of them gone: what stays in the queue is what was scheduled behind the last poll of all less what the scans behind it take, and each worker scans at most once more; so nothing scheduled before it stays, and of more than n tasks scheduled behind it some do |
| IoEvents.AddKeeps | yxtwebcpp/iomanager.cpp:88-125 | addEvent finds room for any descriptor, its epoll_ctl is legal, the invariant stays, and exactly one waiter is added |
| IoEvents.DeleteKeeps | yxtwebcpp/iomanager.cpp:127-153 | delEvent: legal epoll_ctl, invariant kept, exactly the registered waiter dropped |
| IoEvents.TriggerMoves | yxtwebcpp/iomanager.cpp:37-48 | triggerEvent clears bit and context and moves the waiter to the queue: no waiter is lost or doubled |
| IoEvents.CancelKeeps | yxtwebcpp/iomanager.cpp:155-178 | cancelEvent: legal epoll_ctl, invariant kept, the waiter woken |
| IoEvents.CancelAllKeeps | yxtwebcpp/iomanager.cpp:180-211 | cancelAll: legal DEL, invariant kept, every waiter of the descriptor woken |
| IoEvents.DispatchKeeps | yxtwebcpp/iomanager.cpp:261-303 | dispatching a report within what is registered: assertions hold, legal epoll_ctl, invariant kept, triggered waiters moved to the queue |
| IoEvents.SomebodyWaits | yxtwebcpp/iomanager.cpp:37-48 | an event has a waiter exactly if its bit is set |
| IoEvents.AddWaits | yxtwebcpp/iomanager.cpp:88-125 | addEvent makes its job the waiter of that event, changes no other waiter and wakes nobody; the table grows to one and a half times a descriptor beyond it |
| IoEvents.DeleteWaits | yxtwebcpp/iomanager.cpp:127-153 | delEvent leaves that event without a waiter, changes no other and wakes nobody |
| IoEvents.CancelWakes | yxtwebcpp/iomanager.cpp:155-178 | cancelEvent puts the one waiter at the end of the queue and changes no other |
| IoEvents.CancelAllWakes | yxtwebcpp/iomanager.cpp:180-211 | cancelAll puts the waiter for READ and then the one for WRITE at the end of the queue and changes no other descriptor |
| IoEvents.DispatchWakes | yxtwebcpp/iomanager.cpp:261-303 | after a report exactly the events that are ready are waited for no more, all events of the descriptor if it failed; their waiters stand at the end of the queue, READ before WRITE; other descriptors keep theirs |
| IoEvents.StepKeeps | yxtwebcpp/iomanager.cpp:88-211 | every call keeps the invariant and accounts for each waiter and each pending event |
| IoEvents.Bookkeeping | yxtwebcpp/iomanager.cpp:37-211 | along every sequential run: pending count = bits set, kernel table = bits set, bit set iff context holds exactly one of fiber and callback, registrations = pending + triggered + deleted, and per job nothing lost or woken twice |
| IoEvents.BatchKeeps | yxtwebcpp/iomanager.cpp:261-303 | all reports of one epoll_wait can be dispatched one after the other |
| IoEvents.BatchWakes | yxtwebcpp/iomanager.cpp:261-303 | report by report a batch wakes exactly the waiters its reports are about, as they were before the batch, in the order of the reports |
| IoEvents.DispatchIsSafeIff | yxtwebcpp/iomanager.cpp:269-301 | for any report at all, the assertions of triggerEvent hold exactly if the report says nothing beyond what is registered or nothing that is registered |
| IoEvents.InitiallyWellFormed | yxtwebcpp/iomanager.cpp:51-72 | the table made by the constructor satisfies the invariant |
| IoManagers.FdContext.TriggerEvent | yxtwebcpp/iomanager.cpp:37-48 | bit and context are cleared, and the callback, or else the fiber, goes to the end of the queue for any thread |
| IoManagers.IOManager.constructor | yxtwebcpp/iomanager.cpp:51-72 | 32 unused slots, nothing pending, empty kernel table |
| IoManagers.IOManager.ContextResize | yxtwebcpp/iomanager.cpp:312-320 | old slots stay, new ones get a context, and slot i holds descriptor i |
| IoManagers.IOManager.AddEvent | yxtwebcpp/iomanager.cpp:88-125 | the new state is the specified one; the assertion on epoll_ctl's result holds |
| IoManagers.IOManager.Register | yxtwebcpp/iomanager.cpp:101-124 | bit, context, pending count and kernel entry change together |
| IoManagers.IOManager.DelEvent | yxtwebcpp/iomanager.cpp:127-153 | false beyond the table; else the waiter is dropped and the assertion on epoll_ctl's result holds |
| IoManagers.IOManager.CancelEvent | yxtwebcpp/iomanager.cpp:155-178 | false beyond the table; else the waiter is scheduled |
| IoManagers.IOManager.CancelAll | yxtwebcpp/iomanager.cpp:180-211 | false beyond the table or when nothing is registered; else READ, then WRITE is triggered and the kernel entry deleted |
| IoManagers.IOManager.TriggerEach | yxtwebcpp/iomanager.cpp:294-301 | READ is triggered before WRITE, each once |
| IoManagers.IOManager.DispatchOne | yxtwebcpp/iomanager.cpp:267-301 | one report, with ERR or HUP counted as ready for all that is registered |
| IoManagers.IOManager.DispatchAll | yxtwebcpp/iomanager.cpp:261-303 | the loop over all reports of one epoll_wait |
| Runtime.StepCount | yxtwebcpp/iomanager.cpp:226-306 | how every step of the loop, of a task and of the idle fiber changes the number of times a job waits in queue, events, timers and running code |
| Runtime.TimedListed | yxtwebcpp/timer.cpp:142-177 | fired timers leave the set for the queue; recurring ones are back in it |
| Runtime.PickResumes | yxtwebcpp/fiber.cpp:106-113 | swapIn is applied only to a fiber in INIT or HOLD, never in EXEC or TERM |
| Runtime.TokensOfStep | yxtwebcpp/hook.cpp:154-166 | a suspended fiber gets its one wake-up when it is suspended and spends it when it is resumed; a sleep's closure passes it on; delEvent takes it away |
| Runtime.StepSound | yxtwebcpp/scheduler.cpp:94-137 | every step keeps: t_fiber is the fiber that runs, the fibers in EXEC are the chain main, root, task or idle; the active count; the idle fiber ends only when nothing is left |
| Runtime.StepKeepsInv | yxtwebcpp/iomanager.cpp:226-328 | every step keeps the whole invariant: one wake-up per fiber in INIT or HOLD unless delEvent removed it, none for EXEC or TERM, waiters and those that lost their wait in HOLD, and every accepted function run, dropped or on its way |
| Runtime.AlwaysInv | yxtwebcpp/iomanager.cpp:226-328 | the invariant holds in every reachable state of the one-worker IOManager |
| Runtime.NothingIsLeft | yxtwebcpp/scheduler.cpp:59-138 | when stop() returns, the fibers in HOLD are exactly those whose wait delEvent removed, all others are TERM, the root and the idle fiber have ended too (or never begun), no timer, waiter or task is left, and every accepted function has run or was dropped by its caller |
| Runtime.StaysOnHold | yxtwebcpp/iomanager.cpp:127-153 | a fiber that waits for an event, or whose wait was deleted, is resumed by nothing but its event |
| Wakeups.CodeMay | yxtwebcpp/iomanager.cpp:88-211 | what running code can always do, and that it can wait for an event exactly if nobody waits for it |
| Wakeups.SleeperWakesInTime | yxtwebcpp/hook.cpp:154-199 | on every run: a task that sleeps ms at clock reading now is on hold, not executed and not queued until a round of the idle fiber reads the clock at now + ms or later; the first round that does queues its wake-up, once, and its timer is gone |
| Wakeups.WaiterWakesOnItsEvent | yxtwebcpp/iomanager.cpp:88-303 | on every run: a task that waits for an event is on hold, not executed and not queued until a report tells of that event or a failure of its descriptor, or the event is cancelled or deleted; the first of these queues it, once, only delEvent leaves it on hold |
| Wakeups.StepLetsSleep | yxtwebcpp/hook.cpp:154-199 | no step of the loop, of a task or of the idle fiber changes the timer of a sleeper or wakes it before its time |
| Wakeups.StepFrees | yxtwebcpp/iomanager.cpp:127-303 | the step that ends a wait: delEvent loses the fiber, every other one puts it into the queue once |
| Turns.RoundQueue | yxtwebcpp/iomanager.cpp:254-303 | a round of the idle fiber adds to the end of the queue the functions of the timers that are due, in their order, and then the waiters that its reports wake |
| Turns.PickTakesTheFront | yxtwebcpp/scheduler.cpp:94-129 | with one worker the scan takes the front of the queue: a fiber is resumed, a function gets a new fiber, and either is in EXEC |
| Turns.TurnComes | yxtwebcpp/scheduler.cpp:83-138 | on every run of one worker a task with k tasks before it comes to the front of the queue with the k-th scan |
| Shutdown.QuietStepShrinks | yxtwebcpp/iomanager.cpp:226-328 | once code only ends, every step of the loop with something to run, a due timer or an event brings the number of turns and waits left nearer to zero |
| Shutdown.QuietRunIsShort | yxtwebcpp/scheduler.cpp:83-138 | so such a run has at most Measure steps, and one of that many has returned |
| Shutdown.RecurringKeepsGoing | yxtwebcpp/iomanager.cpp:226-328 | a recurring timer that nobody cancels keeps stop() from returning |
| Shutdown.StopReturnsIff | yxtwebcpp/scheduler.cpp:59-138 | from any state kept by the invariant: with code that schedules nothing more, stop() can return exactly if no timer recurs |
| Shutdown.StopReturns | yxtwebcpp/scheduler.cpp:59-138 | from any state of any run without recurring timers: once code only ends and what is waited for comes, the run ends in the return of stop() within Measure steps, and has a next step until then |
| Fibers.Thread.GetThis | yxtwebcpp/fiber.cpp:144-150 | the first call makes the main fiber in EXEC; later calls answer the running fiber |
| Fibers.Thread.SwapIn | yxtwebcpp/fiber.cpp:106-113 | the fiber is in EXEC, runs, and is recorded as running, on top of the one that resumed it |
| Fibers.Thread.SwapOut | yxtwebcpp/fiber.cpp:115-120 | the scheduler's fiber runs again and is recorded as running |
| Fibers.Thread.Call | yxtwebcpp/fiber.cpp:123-130 | the main fiber enters the root fiber |
| Fibers.Thread.Back | yxtwebcpp/fiber.cpp:132-137 | the root fiber gives the thread back to the main fiber |
| Fibers.Thread.YieldToHold | yxtwebcpp/fiber.cpp:152-160 | the running fiber is HOLD and the one that resumed it runs, on either kind of fiber |
| Fibers.Thread.Finish | yxtwebcpp/fiber.cpp:162-182 | the running fiber is TERM without its function and the one that resumed it runs |
| Fibers.Thread.ResumeUntilYield | yxtwebcpp/fiber.cpp:106-160 | resuming a fiber until it yields leaves the thread's records as they were |
| Bytes.FlattenSplice | yxtwebcpp/bytearray.cpp:355-371 | writing inside one block is writing at the same offset of the flat sequence |
| FlatBuffer.CeilDivIsCeiling | yxtwebcpp/bytearray.cpp:508-509 | the number of blocks added is the ceiling of the quotient |
| FlatBuffer.GrowthIsMinimal | yxtwebcpp/bytearray.cpp:496-525 | when blocks are added the capacity suffices and exceeds the need by less than one block |
| FlatBuffer.GrowthInBlocks | yxtwebcpp/bytearray.cpp:496-525 | adding that many blocks reaches exactly the specified capacity |
| FlatBuffer.WrittenTwice | yxtwebcpp/bytearray.cpp:342-375 | two writes are one write of the joined bytes |
| FlatBuffer.WrittenIs | yxtwebcpp/bytearray.cpp:342-375 | byte by byte: a write replaces the bytes from the position on and keeps all others, also those behind it; the size grows only if it ends behind it, the capacity only to the next multiple of the node size |
| FlatBuffer.ReadFromIs | yxtwebcpp/bytearray.cpp:377-404 | byte by byte: a read fails exactly if fewer bytes are unread, or for no bytes at the end of the capacity, and changes nothing then; else it yields the next bytes and moves by their number |
| FlatBuffer.ReadAtIs | yxtwebcpp/bytearray.cpp:406-434 | the positional read by position and size: when it throws, with the 64-bit difference behind the size, when it runs behind the last node, and else which bytes it yields |
| FlatBuffer.ReadAtIsRightIff | yxtwebcpp/bytearray.cpp:406-434 | the positional read starts in the current node; exactly when that is right |
| ByteArrays.ByteArray.constructor | yxtwebcpp/bytearray.cpp:38-46 | an empty array with one node, big-endian |
| ByteArrays.ByteArray.AddCapacity | yxtwebcpp/bytearray.cpp:496-525 | the list grows to the specified capacity; data, position and cursor stay, and a null cursor comes to point at the first new node |
| ByteArrays.ByteArray.Write | yxtwebcpp/bytearray.cpp:342-375 | write overwrites or extends the flat sequence at the position and moves it |
| ByteArrays.ByteArray.Read | yxtwebcpp/bytearray.cpp:377-404 | read throws exactly if more bytes are asked for than are unread, meets the null cursor exactly for no bytes at the end of the capacity, and changes nothing in both cases; else it yields the next bytes and moves by their number |
| ByteArrays.ByteArray.ReadAtPosition | yxtwebcpp/bytearray.cpp:406-434 | the positional read as the code does it for every position, with the 64-bit difference of size and position |
| ByteArrays.ByteArray.ToString | yxtwebcpp/bytearray.cpp:527-535 | toString is the unread rest, read from the current node |
| ByteArrays.ByteArray.SetPosition | yxtwebcpp/bytearray.cpp:436-452 | false and no change behind the capacity; else the position moves, the size only grows, to the position if that is behind it, and the cursor lands on node position / base |
| ByteArrays.ByteArray.Clear | yxtwebcpp/bytearray.cpp:329-340 | one empty node is left |
| ByteArrays.ByteArray.CursorIsQuotient | yxtwebcpp/bytearray.cpp:436-452 | the cursor is the node position / base |
| ByteArrays.ByteArray.NullAtEnd | yxtwebcpp/bytearray.cpp:372-374 | the cursor is null exactly if the position is the capacity |
| ByteArrays.PiecesDisjoint | yxtwebcpp/bytearray.cpp:553-582 | the slices handed out lie in different nodes, are not empty and sum to the length asked for |
| ByteArrays.ByteArray.GetReadBuffers | yxtwebcpp/bytearray.cpp:553-582 | the slices hold, in order, the next bytes from the position on |
| ByteArrays.ByteArray.GetReadBuffersFrom | yxtwebcpp/bytearray.cpp:584-619 | from any position: the slices hold the bytes from there on, as many as are unread behind the current position, and the walk runs behind the last node exactly if these do not fit the capacity |
| ByteArrays.ByteArray.GetWriteBuffers | yxtwebcpp/bytearray.cpp:621-649 | room is made and the slices cover exactly the next len bytes of memory; the data is unchanged |
| ByteArrays.ByteArray.Receive | yxtwebcpp/streams/socket_stream.cpp:21-29 | taking write buffers, filling n bytes of them and moving the position is write of those n bytes |
| ByteArrays.ByteArray.WriteFixed | yxtwebcpp/bytearray.cpp:69-117 | a fixed-width value goes in with the array's byte order on either kind of host |
| ByteArrays.ByteArray.ReadFixed | yxtwebcpp/bytearray.cpp:201-245 | and comes out with it |
| ByteArrays.ByteArray.WriteVarint | yxtwebcpp/bytearray.cpp:139-163 | the loop over seven-bit groups writes the varint |
| ByteArrays.ByteArray.ReadVarint | yxtwebcpp/bytearray.cpp:251-281 | the loop with shifts and masks reads it, with the width's truncation |
| ByteArrays.ByteArray.WriteText | yxtwebcpp/bytearray.cpp:177-199 | strings with each kind of length prefix |
| ByteArrays.ByteArray.ReadText | yxtwebcpp/bytearray.cpp:297-327 | the prefix is read, a string of that length is made, or that throws, and then that many bytes are read |
| ByteArrays.ByteArray.WriteAll | yxtwebcpp/bytearray.cpp:69-199 | a list of typed writes is the specified sequence of flat writes |
| ByteArrays.ByteArray.ReadAll | yxtwebcpp/bytearray.cpp:201-327 | a list of typed reads is the specified sequence of flat reads, also when one fails |
| ByteArrays.ByteArray.WriteThenRead | yxtwebcpp/bytearray.cpp:69-327 | writing a program, going back and reading it with the same kinds, on the linked list |
| ByteCodec.HostOrderIrrelevant | yxtwebcpp/endian.hpp:20-71 | swapping when the orders differ stores the array's order whatever the host's order is |
| ByteCodec.HostOrderIrrelevantForReading | yxtwebcpp/endian.hpp:20-71 | the same for loading |
| ByteCodec.FixedRoundTrip | yxtwebcpp/bytearray.cpp:69-117 | a fixed-width value is recovered from its bytes in either order |
| ByteCodec.FixedByteIs | yxtwebcpp/bytearray.cpp:69-117 | which byte of a fixed-width value stands where, in either order |
| ByteCodec.SignedIsResidue | yxtwebcpp/bytearray.cpp:69-117 | the bit pattern of a signed value is its residue modulo 256^w, and is read back as the value |
| ByteCodec.VarintLength | yxtwebcpp/bytearray.cpp:139-163 | a varint has at most k bytes exactly if the value is below 2^(7k) |
| ByteCodec.VarintByteIs | yxtwebcpp/bytearray.cpp:139-163 | byte i of a varint holds bits 7i to 7i + 6 of the value, and its top bit says whether more follow |
| ByteCodec.VarintFitsScratch | yxtwebcpp/bytearray.cpp:139-163 | 32-bit values never need more than 5 bytes and 64-bit values never more than 10 |
| ByteCodec.VarintPrefixFree | yxtwebcpp/bytearray.cpp:139-163 | no varint begins another |
| ByteCodec.VarintCanonical | yxtwebcpp/bytearray.cpp:139-163 | the encoding has no superfluous last group |
| ByteCodec.ZigzagRoundTrip | yxtwebcpp/bytearray.cpp:118-132 | decoding zigzag undoes encoding, in both widths |
| ByteCodec.ZigzagOnto | yxtwebcpp/bytearray.cpp:118-132 | every unsigned value is the zigzag of one signed value |
| ByteCodec.ZigzagVarintLength | yxtwebcpp/bytearray.cpp:135-163 | a signed value takes at most k bytes exactly if -2^(7k-1) <= v < 2^(7k-1) |
| BytePrograms.ReadVarintFits | yxtwebcpp/bytearray.cpp:251-281 | whatever the bytes, a read varint stays within its width |
| BytePrograms.ReadVarintIs | yxtwebcpp/bytearray.cpp:251-281 | on any bytes, also superfluous or overlong groups: the loop takes bytes until one is below 128 or the type is full and yields their groups modulo 2^bits, or takes all that is left and fails |
| BytePrograms.FailedVarintLeaves | yxtwebcpp/bytearray.cpp:251-281 | a varint fails exactly if all bytes left are continued and do not fill the type; then they are all taken |
| BytePrograms.ReadFixedIs | yxtwebcpp/bytearray.cpp:201-245 | a fixed-width read fails exactly if too few bytes are left, and takes none then |
| BytePrograms.ReadPrefixIs | yxtwebcpp/bytearray.cpp:297-327 | the length in front of a string is read from two, four or eight bytes, or as a varint |
| BytePrograms.ReadTextIs | yxtwebcpp/bytearray.cpp:297-327 | a string behind its prefix: cannot be made, is not there, is empty at the end of the capacity, or is read; in the first three cases the prefix has been taken |
| BytePrograms.FailedItemLeaves | yxtwebcpp/bytearray.cpp:201-327 | what a read that fails leaves behind: the contents always; a fixed-width value the position too; a varint has taken all that was left; a string its prefix, unless that is what failed |
| BytePrograms.ReadProgramIs | yxtwebcpp/bytearray.cpp:201-327 | a program of reads yields what its items yield one after the other; at the first that fails it stops, fails in the same way and leaves what that one leaves |
| BytePrograms.TextBytes | yxtwebcpp/bytearray.cpp:177-199 | a string is written behind its length in two, four or eight bytes or as a varint, a longer length cut off |
| BytePrograms.ReadItemBack | yxtwebcpp/bytearray.cpp:69-327 | one typed value is read back from its encoding, unless it is a string too long for its prefix, longer than the host can make, or an empty one at the end of the capacity |
| BytePrograms.ProgramIsOneWrite | yxtwebcpp/bytearray.cpp:69-199 | a program of writes is one write of its encoding |
| BytePrograms.ProgramRoundTrip | yxtwebcpp/bytearray.cpp:69-327 | writing any typed program and reading it back from its start gives the same values and uses exactly the bytes written, exactly if every string fits its prefix and can be made, and the program does not end on an empty string at the end of the capacity |
| BytePrograms.EmptyTextAtEnd | yxtwebcpp/bytearray.cpp:297-327 | reading back a program with that ending meets the null cursor |
| UrlCodec.RoundTripIff | yxtwebcpp/util.cpp:151-211 | decoding undoes encoding in every pair of space modes, exactly if no blank was written as a '+' that is not read back |
| UrlCodec.EncodedIsSafe | yxtwebcpp/util.cpp:105-180 | encoded text holds only unreserved characters, '+' and '%' |
| UrlCodec.EncodedCharIs | yxtwebcpp/util.cpp:104-180 | by their codes: which characters are written as they are, and that all others become a percent sign and two capital digits, a blank perhaps a plus sign |
| UrlCodec.EscapeIsRead | yxtwebcpp/util.cpp:182-211 | an escape is read as its byte, its digits in either case |
| UrlCodec.OtherCharStays | yxtwebcpp/util.cpp:182-211 | everything else stays, also a percent sign without two digits behind it, and a plus sign unless it stands for a blank |
| UrlCodec.HexDigits | yxtwebcpp/util.cpp:128-152 | the digit written for a value, and the values of capital and small digits |
| UrlCodec.DecodedIsShorter | yxtwebcpp/util.cpp:182-211 | decoding never lengthens |
| UrlCodec.UrlEncode | yxtwebcpp/util.cpp:151-180 | the loop with the lazily made buffer is the one-pass encoding |
| UrlCodec.UrlDecode | yxtwebcpp/util.cpp:182-211 | the loop with the lazily made buffer is the one-pass decoding |
| UrlCodec.Trim | yxtwebcpp/util.cpp:213-220 | Trim removes the blanks at both ends |
| UrlCodec.TrimUndoesPadding | yxtwebcpp/util.cpp:213-220 | padding with blanks is undone exactly |
| Forms.ParseParam | yxtwebcpp/http/http.cpp:223-240 | the loop gives the specified map and ends because its position grows |
| Forms.PieceParsed | yxtwebcpp/http/http.cpp:223-240 | any text: up to the first equals sign is a key, up to the next flag its encoded value; the key is bound unless it is already, and parsing goes on behind the flag |
| Forms.NothingParsed | yxtwebcpp/http/http.cpp:223-240 | text without another equals sign binds nothing |
| Forms.FoldsAlike | yxtwebcpp/http/http.cpp:64-66 | keys are the same exactly if up to their first NUL they have one length and differ at most in the case of letters |
| Forms.FirstWinsIs | yxtwebcpp/http/http.cpp:64-66 | bindings inserted in turn leave every key with its first binding, keys compared without case |
| Forms.FirstOfIsFirst | yxtwebcpp/http/http.cpp:64-66 | the first binding of a key is the one at the least index whose key is the same without case, if there is one |
| Forms.FormRoundTrip | yxtwebcpp/http/http.cpp:218-243 | parsing the '&'-join of key=UrlEncode(value) gives the map in which the first binding of each key wins, with its value |
| Forms.CookieRoundTrip | yxtwebcpp/http/http.cpp:258-269 | the same for cookies joined by "; " with trimmed keys |
| Forms.ParsedKeeps | yxtwebcpp/http/http.cpp:230-232 | parsing never changes what is bound already |
| HttpRequests.HttpRequest.Init | yxtwebcpp/http/http.cpp:201-210 | the connection header decides the close flag, case ignored |
| HttpRequests.ClosesUnlessKeepAlive | yxtwebcpp/http/http.cpp:201-210 | the close flag after init: as before without a connection header or with an empty one, else set unless the value is keep-alive in any case |
| HttpRequests.HttpRequest.InitQueryParam | yxtwebcpp/http/http.cpp:218-243 | the query is parsed once |
| HttpRequests.HttpRequest.InitBodyParam | yxtwebcpp/http/http.cpp:245-256 | the body is parsed once, and only if its type is a form |
| HttpRequests.HttpRequest.InitCookies | yxtwebcpp/http/http.cpp:258-269 | the cookie header is parsed once |
| HttpRequests.HttpRequest.GetParam | yxtwebcpp/http/http.cpp:89-95 | a parameter is looked up in what query and then body bind |
| HttpRequests.HttpRequest.GetCookie | yxtwebcpp/http/http.cpp:97-102 | a cookie is looked up in what the cookie header binds |
| HttpRequests.QueryParamWins | yxtwebcpp/http/http.cpp:89-95 | a key of the query answers with its first value there, whatever the body says |
| HttpRequests.ParamIsRead | yxtwebcpp/http/http.cpp:89-95 | any key: the first value in the query, else the first in the body if the content type contains the form type in any case, else the default |
| HttpRequests.MentionsIs | yxtwebcpp/http/http.cpp:245-256 | strcasestr: the text contains the needle in front of its first NUL, letters in any case |
| HttpRequests.CookieIsRead | yxtwebcpp/http/http.cpp:97-102 | a cookie answers with the first value it was written with |
| HttpRequests.MethodSpelling | yxtwebcpp/http/http.hpp:89-131 | the name of each method, spelled out |
| HttpRequests.MethodRoundTrip | yxtwebcpp/http/http.cpp:28-50 | text that begins with a method's name is recognised as that method: no name in the table begins another |
| HttpRequests.DumpIsText | yxtwebcpp/http/http.cpp:170-199 | what dump prints, line by line, also for a websocket: request line, connection line unless a websocket, headers, content length for a body, empty line, body |
| HttpRequests.NumberRoundTrip | yxtwebcpp/http/http.cpp:192-194 | a printed body length is read back |
| HttpRequests.LeadingZero | yxtwebcpp/http/http.hpp:170-182 | leading zeros do not change a number |
| HttpRequests.NotANumber | yxtwebcpp/http/http.hpp:170-182 | a character that is neither a digit nor a sign at the start makes lexical_cast fail |
| HttpRequests.SignedNumber | yxtwebcpp/http/http.hpp:170-182 | lexical_cast reads a number with '+' as without it, and with '-' as the number that adds up to 2^64 with it, or as 0 |
| HttpMachine.ScanJoin | yxtwebcpp/http/http11_parser.cpp:91-113 | going on with the rest from the state reached is the same as one call on the whole |
| HttpMachine.CuttingDoesNotMatter | yxtwebcpp/http/http11_parser.cpp:91-113 | control states only: non-empty pieces lead to the same state after the same number of characters as their concatenation in one call, and every call before the parser finishes or fails uses its whole piece |
| HttpMachine.NameCharIs | yxtwebcpp/http/http11_parser.rl:226-237 | the characters of header names by their codes: all below 127 but NUL, TAB, blank and the separators |
| HttpMachine.PlainCharIs | yxtwebcpp/http/http11_parser.rl:130-149 | the characters of paths by their codes |
| HttpMachine.OtherCharsAre | yxtwebcpp/http/http11_parser.rl:130-240 | the characters that uri_relaxed adds to paths, those of queries, and those of header values, by their codes |
| HttpParsers.ConsumedIsExecuted | yxtwebcpp/http/http11_parser.cpp:91-6671 | a call that returns goes through the same control states and uses its whole buffer unless it finishes or fails |
| HttpParsers.ThrowsIff | yxtwebcpp/http/http11_parser.cpp:91-273 | a call throws exactly if it begins inside a query and ends it at an index below the query_start recorded in an earlier call |
| HttpParsers.FeedIsOneCall | yxtwebcpp/http/http11_parser.cpp:91-113 | unless a call throws, pieces fed to the parser with its marks and callbacks lead to the state and total of one call on the concatenation |
| HttpParsers.CutOutsideQueriesNeverThrows | yxtwebcpp/http/http11_parser.cpp:91-273 | pieces cut outside a query never make a call throw; one piece from the start is a case of it |
| HttpParsers.HttpRequestParser.HttpParserExecute | yxtwebcpp/http/http11_parser.cpp:91-6671 | the loop over the buffer is the specified run: all marks but query_start reset on entry, nothing used after an error, and the exception of the query callback leaves the stored state as it was |
| HttpParsers.HttpRequestParser.Execute | yxtwebcpp/http/http_parser.cpp:169-173 | the unused characters move to the front of the buffer and nothing behind them changes; after the exception nothing moves |
| HttpRoundTrip.PathSegment | yxtwebcpp/http/http11_parser.cpp:158-1190 | the path states read any path of the grammar and report it whole |
| HttpRoundTrip.TargetSegment | yxtwebcpp/http/http11_parser.cpp:158-1190 | path, query and fragment are read back up to the blank before the version |
| HttpRoundTrip.MethodSegment | yxtwebcpp/http/http11_parser.cpp:117-157 | every table method but M-SEARCH is read and recognised |
| HttpRoundTrip.VersionSegment | yxtwebcpp/http/http11_parser.cpp:277-372 | HTTP/1.0 and HTTP/1.1 are read back |
| HttpRoundTrip.LineSegment | yxtwebcpp/http/http11_parser.cpp:373-520 | a header line as dump prints it is stored under its name, its value without leading blanks, a later one overwriting an earlier one |
| HttpRoundTrip.EndSegment | yxtwebcpp/http/http11_parser.cpp:522-640 | the empty line, LF or CR LF, finishes the parser just behind it |
| HttpRoundTrip.DumpIs | yxtwebcpp/http/http.cpp:170-199 | what dump prints is the head followed by the body |
| HttpRoundTrip.HeadIsReadBack | yxtwebcpp/http/http.cpp:170-199 | whatever follows, parsing a printed head finishes at state 348 exactly behind it with method, target, version and header map recovered |
| HttpRoundTrip.HeadersAreReadBack | yxtwebcpp/http/http.cpp:182-194 | the header map after the round trip, key by key: connection and, with a body, content-length overridden, values without leading blanks |
| HttpRoundTrip.ValueIsExactIff | yxtwebcpp/http/http11_parser.cpp:458-490 | a value is recovered exactly if it does not begin with a blank |
| HttpRoundTrip.CloseAndLengthAreReadBack | yxtwebcpp/http/http.cpp:201-210 | after init the close flag is the printed one, and the content length is the body's |
| HttpRoundTrip.DumpIsReadBack | yxtwebcpp/http/http.cpp:170-210 | the whole round trip of dump and parser, body included |
| HttpRoundTrip.SearchIsNotReadBack | yxtwebcpp/http/http11_parser.cpp:138-148 | a printed M-SEARCH request stops the parser at its second character |
| HttpGrammar.HeadIsRead | yxtwebcpp/http/http11_parser.cpp:91-640 | every head of the grammar, with lines ended by LF or CR LF, blanks before values, empty queries and fragments and text for either value of uri_relaxed: one call stops exactly behind it with every part reported, and an error exactly for a word that is no method |
| HttpGrammar.ReadIsHead | yxtwebcpp/http/http11_parser.cpp:91-640 | every origin-form text that is read to the end of a head begins with a head of the grammar |
| HttpGrammar.ReadsExactlyHeads | yxtwebcpp/http/http11_parser.cpp:91-640 | an origin-form text is read to the end exactly if it begins with a head of the grammar, and then that head is what is used |
| HttpGrammar.LastFieldWins | yxtwebcpp/http/http_parser.cpp:135-150 | of several fields with one name the last gives the value, and other names are untouched |
| HttpLegality.ReportedIsLegal | yxtwebcpp/http/http11_parser.cpp:158-640 | whatever text a strict parser reads from the target on, the path, query, fragment, header names and values that it reports are legal text |
| HttpLegality.ReadIsLegal | yxtwebcpp/http/http11_parser.cpp:91-640 | one call on a request in origin form never throws and reports legal parts only |
| HttpLegality.ReadBackIff | yxtwebcpp/http/http.cpp:170-199 | printed and parsed, a request in origin form comes back with the same method, version, path, query, fragment, header names and values exactly if these are legal text, with no blank before a value and a method other than M-SEARCH |
| HttpLegality.HeadIsOrigin | yxtwebcpp/http/http.cpp:170-199 | a printed head keeps to the states of origin-form requests |
| HttpCuts.AlikeRun | yxtwebcpp/http/http11_parser.cpp:91-640 | one call on a piece goes on as one call on the whole text would, callbacks and their texts included, when no mark set before the piece is still needed |
| HttpCuts.CutBetweenPartsDoesNotMatter | yxtwebcpp/http/httpstream.cpp:28-48 | any number of cuts between the parts of a head in origin form: no call throws, and state, characters used, request and error are those of one call |
| HttpInnerCuts.DamageRest | yxtwebcpp/http/http11_parser.cpp:91-640 | once a part has lost its beginning for good, no way of cutting the rest gives the outcome of one call: the call throws, or the request or the error differs |
| HttpInnerCuts.VersionEnds | yxtwebcpp/http/http_parser.cpp:115-133 | a version without its beginning: the callback with no text at all takes it for HTTP/1.1, with any text it is an error |
| HttpInnerCuts.CutsMatterIff | yxtwebcpp/http/httpstream.cpp:28-48 | for every list of pieces of a head that one call reads without an error: same state, characters used, request and error as that call exactly if every cut is between two parts, or lies in the version of an HTTP/1.1 request that has a cut right behind the version too |
| HttpInnerCuts.CutMattersIff | yxtwebcpp/http/httpstream.cpp:28-48 | one cut: two calls have the outcome of one exactly if the cut is behind the head, between two parts, or right behind the version of an HTTP/1.1 request |
| HttpCutExamples.MendedReads | yxtwebcpp/http/http_parser.cpp:115-133 | the reads "GET / HTT", "P/1.1" and the two line ends, cut inside the version and behind it, have the outcome of one call |
| HttpCutExamples.CutQueryThrows | yxtwebcpp/http/http11_parser.cpp:91-273 | the reads "GET /?ab" and "c HTTP/1.1 ..." are a good head as one text, and throw in the second call |
| HttpCutExamples.ExamplesAreGood | yxtwebcpp/http/http11_parser.cpp:91-640 | both texts are heads that CutsMatterIff speaks about |
| HttpStreams.Stream.ReadFixSize | yxtwebcpp/streams/stream.cpp:13-25 | the length as an int, so not positive from 2^31 on, if the reads deliver all bytes asked for, which then are there in order with nothing else changed; otherwise a failure |
| HttpStreams.Stream.WriteFixSize | yxtwebcpp/streams/stream.cpp:39-52 | the length as an int if the writes take all bytes, which then were sent in order; otherwise a failure |
| HttpStreams.DeliversIff | yxtwebcpp/streams/stream.cpp:13-52 | repeated reads or writes move all bytes exactly if these are there and the calls carry as many before one fails |
| HttpStreams.Int32Is | yxtwebcpp/streams/stream.cpp:24-51 | the length comes back as the int congruent to it modulo 2^32 |
| HttpStreams.ArrivesIff | yxtwebcpp/http/httpstream.cpp:58-68 | the missing bytes of a body arrive exactly if they are there, the reads carry them and their number modulo 2^32 is above 0 and below 2^31 |
| HttpStreams.NextPiece | yxtwebcpp/http/httpstream.cpp:28-48 | after any cuts, a call that returns leaves the parser where it would be on the data as one text, and carries nothing over until it has finished |
| HttpStreams.BodyIsFramed | yxtwebcpp/http/httpstream.cpp:20-75 | for every way the reads cut the stream, an accepted request has as body exactly the content-length bytes behind the place where the parser finishes on the data as one text |
| HttpStreams.NoExceptionOutsideQueries | yxtwebcpp/http/httpstream.cpp:28-48 | receiving ends in the exception only if a read ends inside a query |
| HttpStreams.ExceptionIff | yxtwebcpp/http/httpstream.cpp:28-48 | receiving ends in the exception exactly if, before any error, some read brings the end of a query nearer to its own beginning than the query began in its read |
| HttpStreams.DoneHasArrived | yxtwebcpp/http/httpstream.cpp:28-48 | the bytes carried over behind the head, and the reads still to come, are those at the moment the head has arrived |
| HttpStreams.HeadIsDone | yxtwebcpp/http/httpstream.cpp:28-48 | a printed head whose reads end between its parts is done exactly if it arrives, with the request of one call |
| HttpStreams.FirstReadDecides | yxtwebcpp/http/httpstream.cpp:28-48 | a first read that brings the whole head decides about it, without the exception |
| HttpStreams.HttpStream.ReadPiece | yxtwebcpp/http/httpstream.cpp:29-47 | one round of the header loop: given up exactly if the read fails or the parser has an error, or ended by the exception of the query callback |
| HttpStreams.HttpStream.ReadHead | yxtwebcpp/http/httpstream.cpp:28-48 | the header loop: given up, thrown, or finished with the parser's result, the place behind the head and the rest of the last read at the front of the buffer, as specified |
| HttpStreams.HttpStream.ReadBody | yxtwebcpp/http/httpstream.cpp:50-71 | the body is the next length bytes behind the head for every way the rest is read; success exactly if the missing ones arrive and their number is positive as an int |
| HttpStreams.HttpStream.RecvRequest | yxtwebcpp/http/httpstream.cpp:20-75 | exactly the specified answer for every way the reads cut the stream: a request, null, or the exception of the query callback |
| HttpStreams.PrintedIsReceived | yxtwebcpp/http/httpstream.cpp:20-75 | end to end: a request printed by dump, with anything behind it, no read of its head ending inside a part, is received exactly if its head and the missing part of its body arrive and the length of that part is positive as an int; it is received as it was exactly if it has a body or claims none |
| HttpStreams.AnySpellingFrames | yxtwebcpp/http/httpstream.cpp:50-71 | a head that claims n bytes under any spelling of content-length: exactly the n bytes behind it are the body of the request received, unless the head or these bytes do not arrive |
| HttpStreams.FirstReadIsEnough | yxtwebcpp/http/httpstream.cpp:28-48 | a first read that brings the whole head is such a case |
| HttpStreams.TwoGiBAreRefused | yxtwebcpp/streams/stream.cpp:13-25 | a missing part of exactly 2^31 bytes is refused even if all of it is delivered |

## Left out

- TimerOrder.ListExpiredIsRight: times are unbounded integers, so wrap-around of 64-bit milliseconds is not modelled.
- Timers.Timer.Cancel: what happens after the end iterator was erased is undefined, and nothing is said of it.
- Timers.TimerManager.AddTimer: the insertion under a read lock and addConditionTimer's weak pointer are not modelled; timer calls are sequential.
- TimerHistory.CancelledNeverFires: the address of the timer is not given to a new timer while its handle is kept.
- WorkerPool.RunIsFair: tickle() and waiting are left out, so nothing is said about when an idle worker wakes; start()'s creation of threads is only the clearing of the flag.
- IoManagers.IOManager.AddEvent: events are added on a thread of the same IOManager, so the scheduler pointer of an event context is left out; a mask of event bits is a pair of flags; the descriptor's mutex is left out and calls are sequential.
- IoManagers.IOManager.DispatchAll: the tickle pipe's own report is left out.
- Runtime.NothingIsLeft: one worker; fibers suspend only by sleeping, by waiting for an event without a callback or by scheduling themselves, the timer of a sleep, whose handle the code drops, is not cancelled, refreshed or reset, and tasks are not pinned; stopping() reads an empty timer set as the all-ones answer of getNextTimer.
- Shutdown.StopReturns: nothing is said of code that goes on scheduling; the time that a wait takes is left out.
- Fibers.Thread.SwapIn: stacks and machine contexts are left out; a context is the identity of its fiber.
- ByteArrays.ByteArray.Write: the caller's memory is a sequence of bytes; bit operations are written as arithmetic; floats are left out.
- HttpParsers.HttpRequestParser.HttpParserExecute: the actions of states outside origin-form requests (authority, IPv6, absolute URI, XML, JSON) are left out; their transitions are arbitrary.
- HttpMachine.CuttingDoesNotMatter: speaks of control states and lengths only; what the calls report is said by HttpCuts and HttpInnerCuts, for heads in origin form.
- HttpInnerCuts.CutsMatterIff: a head that names no header twice and spells a method of the table in full; with a repeated name a cut inside the earlier one can go unnoticed.
- HttpGrammar.ReadsExactlyHeads: heads in origin form, whose states are spelled out; other request targets are left out.
- HttpLegality.ReadBackIff: not for websocket requests, whose connection line is one of their headers; a content-length header that dump overrides has a legal value.
- HttpStreams.PrintedIsReceived: the buffer size and every read stay below 2^31, where the code's int would wrap.
- HttpRoundTrip.DumpIsReadBack: not for websocket requests, for paths that begin with two slashes or do not begin with one, nor for M-SEARCH.
- HttpStreams.HttpStream.RecvRequest: memory for the body is unbounded; bytes behind the body are dropped as in the code.
- writeToFile, readFromFile and toHexString of ByteArray: file input and output and printing.
- The socket hooks other than sleep, usleep and nanosleep: an event and its timeout can both be due there, outside what Timer::cancel and cancelEvent accept.
- The response printer and parser, servlets, configuration, logging, addresses: no new kind of proof.
