# A verified model of minimk

minimk runs up to 16 coroutines on one thread. A scheduler rotates over a fixed array of slots, wakes
sleepers and I/O waiters through `poll`, and switches stacks with a short assembly routine; a socket layer on top
hands out 64-bit handles from a 256-slot table and hides short counts, interruptions and would-block errors
from its callers. This project models those parts in Dafny and proves what holds in every run of them.

`dafny verify dfyconfig.toml` checks everything.

## How the model is built

- **The scheduler** is a class (`Scheduler.Scheduler`) with the array of slots that the code updates in
  place, one method per function of the code, and the code's assertions as Dafny assertions. Each method is
  proved to compute a function of the old slots (`Coroutines`, `SchedulerModel`). One turn of the run loop is
  a `Turn` of a transition system: the state at its head, the slots after cleaning and expiring, the slot
  chosen, what the environment did, the call by which the coroutine gave control back, and the state at the
  next head. `Scheduler.Scheduler.Run` is proved to produce such a run, to terminate, and to end with every
  slot free and every stack unmapped. Every other theorem about the scheduler quantifies over all runs
  (`Lifecycle`, `Fairness`, `Polling`, `Wakeups`, `Scripts`, `Progress`).
- **A coroutine body** is a `Script`: a finite decision tree of the calls it makes, in which what follows a
  call may depend on that call's result. A suspended coroutine keeps the rest of its script in its slot;
  `Gone` marks the point after the final yield of an exited coroutine. `Scripts` says call by call what a
  script does, and that every turn of every run follows it.
- **What the system did** is kept in ghost logs that only the methods standing for system calls write: clock
  readings and poll calls with request and answer in `Scheduler.Environment`, calls on mappings in
  `Stacks.AddressSpace`, calls on descriptors in `Kernels.Kernel`. The contracts of the scheduler say by which
  entries each log grows, so that no event and no error can come from anywhere else.
- **The context switch** is a small AMD64 machine (`Amd64`) that fetches and executes the instructions of the
  three assembly routines (`Switch`), and a world of many stacks among which it switches (`Contexts`).
- **Both together**: the scheduler's methods take for granted that suspension and resumption return to the
  caller, by keeping a coroutine's place in its slot. `Realisation` shows that they may: every run of the
  scheduler is a history of the machine, in which cleanings retire contexts, creations prepare stacks that
  overlap nothing, and the saved pointers are those in the slots; and in it a coroutine that is picked again
  continues where it called the switch.
- **The socket table** is a class over the array and the two counters (`SocketTable`), proved to refine a
  finite map from handles to descriptor and timeouts; `TableHistory` replays arbitrary sequences of calls.
- **The socket calls** (`Sockets`) run over that table and over a `Kernel` whose methods stand for system
  calls. `Sockets.Valid`, which every call and both suspensions demand and give back, says that the open
  descriptors are exactly those of the live handles, each owned once, and all nonblocking. What a call did
  is told by the `View` of all sockets before and after it: the live entries, the cursor, the open
  descriptors, every stream and the system calls made. Since other coroutines run while a call is suspended,
  each suspension records in `pauses` the view before and after it, its timeout and its result, and the
  contracts say what the call did outside its pauses: one attempt that would have blocked before each of
  them, and after the last one its own effect and nothing else. Every pause they report is a legal one,
  across which the caller's handle, descriptor and stream stay as they were.
- **The stream loops** (`StreamIo`) run over the socket calls, so the three nested retry loops (interruption,
  would-block with suspension, short count) are verified together.

## What is assumed

The contracts of `Scheduler.Environment`, `Stacks.AddressSpace` and `Kernels.Kernel` are all that is assumed of
the operating system; their bodies only show that the contracts can be met.

- The clock never goes back. `poll` fails only with EINTR, and it comes back early without a requested event
  only finitely often (`patience`). Zeroed poll entries, which the code passes for every slot that does not
  wait for I/O, and errors reported for a waiter that did not ask for them may cause such returns.
- `mmap` returns page-aligned memory that overlaps no other mapping; `munmap` succeeds.
- `socket` and `accept` return descriptors that are not in use; `close` always releases the number; `send`
  never accepts zero bytes of a nonempty buffer; `recv` returns zero only when no byte is left to come;
  interruptions and would-block errors occur only finitely often.
- While a coroutine is suspended on a socket, no other coroutine destroys the socket or uses the same
  direction of it (`Sockets.SuspendRead`, `Sockets.SuspendWrite`).
- For `Realisation`: new stacks overlap neither the scheduler's own stack nor the saved pointers, and whoever
  calls the switch has room for the saved frame on its stack.
- A coroutine stays within its own stack, and passes the runtime a real descriptor and a nonempty set of
  events (`Coroutines.ValidScript`).

## Where the code differs from its documentation

- `libminimk/socket/handle.hpp:19` says that handles are never reused. The generation counter is 64 bits wide
  and only its use in a new handle is checked, while creations on a full table still advance it; after 2^64
  epochs it starts again. `TableHistory.ReuseAfterOverflow` gives a history in which the first handle is issued
  twice. By `TableHistory.NeverReused` the handles of a history are 2^56 plus their probe number, and so
  strictly increasing, exactly as long as the counter has not overflowed at any of its allocations, and by
  `SocketTable.FreshExactlyUntilOverflow` that is exactly when a new handle differs from all that can have
  been issued before.

## Model

| member | source | states |
|---|---|---|
| Scheduler.Scheduler.Run | libminimk/runtime/scheduler.hpp:278-310 | Terminates for every program and environment; what it does is a run of the transition system from the state at the call, with exactly the clock readings, poll calls and calls on the address space of its turns, in order; at the end every slot is free, nothing is mapped and no coroutine is current |
| Scheduler.Scheduler.Step | libminimk/runtime/scheduler.hpp:281-309 | One iteration is one valid turn from the state before to the state after, keeps slots, stacks and mappings consistent, and makes exactly the clock readings, the poll call and the calls on the address space of that turn |
| Scheduler.Scheduler.Act | libminimk/runtime/scheduler.hpp:295-308 | What follows the choice: the end when nothing is live, one poll when nothing is runnable, or one activation of the chosen coroutine |
| Progress.TurnProgress | libminimk/runtime/scheduler.hpp:278-310 | Every turn decreases the measure (calls left, early poll returns left, live, blocked, clock time left), whatever the environment does |
| Progress.ActivateWork | libminimk/runtime/scheduler.hpp:304-309 | Each activation uses up calls, even though it may create coroutines that bring their own |
| Progress.FullWaitMovesClock | libminimk/runtime/scheduler.hpp:162-197 | A full poll that wakes nobody has moved the clock, because at the clock's maximum it would have woken everybody |
| Fairness.BoundedWait | libminimk/runtime/scheduler.hpp:76-87 | As long as a runnable coroutine is not picked its distance to the cursor shrinks in every turn, also where the cursor wraps, and its record stays untouched |
| Fairness.NobodyTwice | libminimk/runtime/scheduler.hpp:76-87 | While a runnable coroutine waits every turn runs somebody, and nobody runs twice |
| Fairness.Fair | libminimk/runtime/scheduler.hpp:76-87 | In any 16 consecutive turns from a point where a coroutine is runnable it is picked |
| Fairness.FairToTheEnd | libminimk/runtime/scheduler.hpp:278-310 | In a run that leaves no coroutine, every coroutine that is ever runnable is picked before the end, within 16 turns |
| Fairness.WrapKeepsSlots | libminimk/runtime/scheduler.hpp:77-81 | The wrap of the 64-bit cursor does not disturb the order of slots |
| Fairness.ChoiceAhead | libminimk/runtime/scheduler.hpp:76-87 | Whoever is picked instead of a runnable slot stands before it in cyclic order and goes to the end of the line |
| Scheduler.Scheduler.PickRunnable | libminimk/runtime/scheduler.hpp:76-87 | The loop inspects slots from the cursor on and stops at the first runnable one, leaving the cursor just behind the last slot inspected |
| Polling.TimeoutInRange | libminimk/runtime/scheduler.hpp:111-162 | The timeout is between 1 and 10001 ms for every state and clock reading, so the clamp to `int` never acts |
| Polling.EarliestIsMinimum | libminimk/runtime/scheduler.hpp:126-155 | The chosen deadline is the minimum of the ten-second default and all deadlines of blocked coroutines |
| Polling.WaitIsTight | libminimk/runtime/scheduler.hpp:157-159 | The requested wait reaches the chosen deadline and passes it by at most 1 ms unless it was already past |
| Polling.FullWaitWakesEarliest | libminimk/runtime/scheduler.hpp:186-197 | A full wait makes the coroutine with the earliest deadline runnable whenever that is within ten seconds |
| Scheduler.Scheduler.BlockOnPoll | libminimk/runtime/scheduler.hpp:108-198 | The log of the environment grows by a reading, the poll call with exactly the entries and the timeout computed from the slots, its answer, and, unless interrupted, a second reading; after EINTR no slot has changed; otherwise every slot is resumed by the events that this very answer reports for it; an early return that wakes nobody costs patience; the assertions on socket, events and revents hold |
| Scheduler.Scheduler.CallPoll | libminimk/runtime/scheduler.hpp:109-186 | Exactly one poll call, with the entries of the I/O waiters and the timeout to the earliest deadline; the events passed on are those of its answer |
| Scheduler.Scheduler.PollRequest | libminimk/runtime/scheduler.hpp:109-155 | The entries name exactly the I/O waiters and are zero elsewhere; the deadline is the minimum |
| Wakeups.IoWaitResult | libminimk/runtime/coroutine.hpp:155-184 | A wait succeeds exactly when the events that woke it, which are those in its record when it runs again, include a requested one or an error; until that wake-up its record stayed as it was; the events are what the answer to a logged poll call reports for the entry of this very wait, made while every live coroutine was blocked; a timeout is reported only at or after the deadline |
| Wakeups.SleepNeverEarly | libminimk/runtime/scheduler.hpp:327-344 | A sleep returns only after a clock reading of at least min(start + nanosec, 2^64-1), and to its own continuation |
| Wakeups.SleepEnds | libminimk/runtime/scheduler.hpp:327-344 | A sleep ends on time: once the reading at the head of a turn has reached min(start + nanosec, 2^64-1) the sleeper, if it has not had control since, gets it within 16 turns and goes on behind the sleep |
| Wakeups.WaitEnds | libminimk/runtime/coroutine.hpp:133-184 | A wait ends on time: the same for the end of its timeout, and it goes on as its result says |
| Wakeups.YieldReturns | libminimk/runtime/scheduler.hpp:313-319 | A yield comes back within 16 turns and the coroutine goes on behind it |
| Wakeups.ReturnFrees | libminimk/runtime/coroutine.hpp:65-78 | A coroutine that returns has left its slot free when the loop chooses next |
| Wakeups.EndlessWaitNeverTimesOut | libminimk/runtime/coroutine.hpp:133-153 | A wait with timeout UINT64_MAX never times out while the clock is below its maximum |
| Wakeups.PollWakes | libminimk/runtime/scheduler.hpp:186-197 | At a poll the waiter was still blocked as at the head of the turn, and it becomes runnable exactly when a requested event was reported for it or its deadline has passed |
| Wakeups.ReportedIsServed | libminimk/runtime/scheduler.hpp:186-197 | No wake-up is lost: a poll that reports a requested event to a waiter gives it control within the next 16 turns, and its wait succeeds |
| Wakeups.ExpiredIsServed | libminimk/runtime/scheduler.hpp:67-72 | A sleeper or waiter whose deadline the reading at the head of a turn has reached gets control within 16 turns, woken without events |
| Wakeups.DueIsServed | libminimk/runtime/scheduler.hpp:67-72 | The same from the turn that left the coroutine blocked, whatever happens to the others in between |
| Wakeups.Follow | libminimk/runtime/coroutine.hpp:80-100 | The record of a blocked coroutine stays as it is up to a turn that wakes it for a genuine reason, by the clock or by its own poll entry, and from there to its next activation as that left it |
| Wakeups.ClockGrows | libminimk/runtime/scheduler.hpp:68-71 | Clock readings never decrease from turn to turn |
| Lifecycle.RunKeepsInv | libminimk/runtime/scheduler.hpp:278-310 | At every point of every run the fields of every slot agree with its state and its point of suspension, and live stacks are disjoint |
| Lifecycle.LifeCycle | libminimk/runtime/coroutine.hpp:26-100 | Every change of state in every run is an edge NULL, RUNNABLE, (BLOCKED, RUNNABLE)*, EXITED, NULL |
| Lifecycle.NeverReentersExited | libminimk/runtime/scheduler.hpp:227-244 | Control never arrives behind the final yield of an exited coroutine |
| Lifecycle.CreateKeepsInv | libminimk/runtime/coroutine.hpp:26-61 | Creation puts a runnable coroutine on a fresh stack or leaves the slot free, and later allocations stay fresh |
| Lifecycle.ActivateFrame | libminimk/runtime/scheduler.hpp:204-221 | A turn of one coroutine leaves every other live coroutine as it was |
| Scheduler.Scheduler.Execute | libminimk/runtime/scheduler.hpp:227-244 | Running a coroutine until it gives control back has the effect of its creations and its last call, on the mapped stacks too, with the clock reading of that last call and the calls on the address space of those creations; that these are what the script says is `Scripts.StopPerforms` |
| Scheduler.Scheduler.Switch | libminimk/runtime/scheduler.hpp:204-221 | A switch to the current coroutine and back is one activation; the stack pointer is valid before and after |
| Scripts.StopPerforms | libminimk/runtime/scheduler.hpp:227-244 | From any point a script does what it says: each creation fills one free slot with its child, or fails and changes no live slot, the script goes on at `created` exactly when it filled one and at `failed` otherwise, and the call that gives control back is the first that is no creation |
| Scripts.TurnFollowsScript | libminimk/runtime/scheduler.hpp:304-309 | Every turn of every run that gives a coroutine control runs its script from the point where the coroutine stands, by that relation |
| Scripts.ChildRuns | libminimk/runtime/scheduler.hpp:250-267 | Every coroutine created in any turn gets control within 16 turns, for the first time, at the beginning of the script it was created with |
| Scripts.GoesOn | libminimk/runtime/scheduler.hpp:313-363 | Between two activations a coroutine misses nothing: the later one goes on where the call that ended the earlier one leads, for a wait by the events it finds |
| Scheduler.Scheduler.CoroutineCreate | libminimk/runtime/scheduler.hpp:250-267 | Success makes exactly one slot, the first that was free, runnable at the beginning of the given script; EAGAIN exactly when no slot is free, or ENOMEM, with free slots still free, live ones untouched and the mappings as before; the calls on the address space are those of one allocation |
| Scheduler.Scheduler.FindFreeSlot | libminimk/runtime/scheduler.hpp:35-47 | The first free slot, or EAGAIN when there is none |
| Scheduler.Scheduler.CountNonNull | libminimk/runtime/scheduler.hpp:92-102 | The number of live slots; zero exactly when none is live |
| Scheduler.Scheduler.CleanExited | libminimk/runtime/scheduler.hpp:53-61 | Exactly the exited slots become free, and exactly their stacks are unmapped |
| Scheduler.Scheduler.ExpireDeadlines | libminimk/runtime/scheduler.hpp:67-72 | Every slot is resumed against one clock reading, without events |
| Scheduler.Scheduler.InitSlot | libminimk/runtime/coroutine.hpp:26-61 | The slot after each outcome of the allocation, on success runnable at the beginning of the given script, with the mappings following the live slots |
| Scheduler.Scheduler.FinishSlot | libminimk/runtime/coroutine.hpp:65-78 | The slot is zeroed and exactly its own mapping, with the base and size it was made with, is gone |
| Scheduler.Scheduler.ResumeSlot | libminimk/runtime/coroutine.hpp:80-100 | Field by field, the record of a resumed coroutine; the others are untouched |
| Scheduler.Scheduler.ResumeIo | libminimk/runtime/coroutine.hpp:155-184 | The result of a wait from its events, with the assertions on deadline, socket and events |
| Scheduler.Scheduler.CoroutineSuspendIo | libminimk/runtime/scheduler.hpp:350-363 | The record of an I/O waiter, with the deadline min(reading + nanosec, 2^64-1) of one fresh clock reading, which is in the log |
| Scheduler.Scheduler.CoroutineSuspendTimer | libminimk/runtime/scheduler.hpp:327-344 | The record of a sleeper, with the deadline min(reading + nanosec, 2^64-1) of one fresh clock reading, which is in the log |
| Scheduler.Scheduler.CoroutineExit | libminimk/runtime/scheduler.hpp:234-243 | The coroutine is marked as exited before its final yield |
| Scheduler.Scheduler.Yield | libminimk/runtime/scheduler.hpp:313-319 | The stack pointer and the place to continue are saved in the slot of the current coroutine |
| Contexts.ReturnsToCaller | libminimk/runtime/switch_linux_amd64.S:12-36 | In every history of computing, creating, retiring and switching on disjoint stacks, a switch that is ever resumed returns to its own caller with rsp, rbx, rbp and r12 to r15 as at the call, its stack as it left it, and `current` naming the coroutine that yielded |
| Contexts.NextKeepsInv | libminimk/runtime/scheduler.hpp:204-221 | Every step keeps a whole saved frame on the stack of every suspended context, and `current` on the coroutine that runs |
| Contexts.NextKeepsParked | libminimk/runtime/switch_linux_amd64.S:12-36 | Whatever the others do, a suspended context keeps its saved pointer and everything above it |
| Contexts.FirstEntry | libminimk/runtime/switch_linux_amd64.S:89-99 | The first switch to a new coroutine reaches the C entry point through the trampoline, with zeroed registers, the scheduler's address as argument and rsp at top-24; aligned exactly when the top is |
| Contexts.SavedPointersValid | libminimk/runtime/coroutine.hpp:102-114 | At every point of every history the saved pointer of a suspended context lies in its own stack |
| Realisation.TurnOnMachine | libminimk/runtime/scheduler.hpp:281-309 | Every turn of the run loop is a stretch of a history of the machine: exited contexts retire, the chosen one gets control by one transfer and gives it back by another, stacks created in between overlap nothing, and afterwards stacks and saved pointers are again those of the slots |
| Realisation.RunOnMachine | libminimk/runtime/scheduler.hpp:278-310 | The same for every run, turn by turn |
| Realisation.ContinuesWhereItLeft | libminimk/runtime/scheduler.hpp:313-319 | In the machine's history of any run, from the very step at which the film of one turn shows a coroutine giving control back to the very step at which the film of its next turn shows it getting control, the others run; and then it returns to where it called the switch, with callee-saved registers, stack pointer and stack as they were, as the current coroutine |
| Switch.SwitchEffect | libminimk/runtime/switch_linux_amd64.S:12-36 | Executing the fifteen instructions from memory continues with the registers and the return address of the other frame |
| Switch.SaveFrame | libminimk/runtime/switch_linux_amd64.S:13-22 | The caller's frame is complete on its stack, its place is in the cell, and nothing else is written |
| Switch.InitEffect | libminimk/runtime/switch_linux_amd64.S:48-81 | Executing the thirteen instructions returns to the caller with its stack pointer restored and all callee-saved registers untouched |
| Switch.InitFrame | libminimk/runtime/switch_linux_amd64.S:61-76 | The new stack holds a frame that returns to the trampoline, below the scheduler's address, and its pointer is top-64 |
| Switch.TrampolineEffect | libminimk/runtime/switch_linux_amd64.S:89-99 | The trampoline calls the C entry point with the word on top of the stack as argument |
| Entry.EntryIsAligned | libminimk/runtime/switch_linux_amd64.S:89-99 | On the stacks the allocator maps, rsp+8 is a multiple of 16 at the C entry point (section 3.2.2 of the System V ABI AMD64 supplement) for every power-of-two page size from 16 on |
| Entry.UsableStack | libminimk/runtime/stack_linux.hpp:54-82 | The usable stack lies above exactly one guard page, contains top-64, and has an aligned top exactly when the guard page ends aligned |
| Entry.PageFacts | libminimk/runtime/stack_linux.hpp:24-48 | Every power-of-two page size gives a stack size that is a multiple of 16 |
| Entry.TinyPagesMisalign | libminimk/runtime/stack_linux.hpp:80-81 | The boundary of the alignment result: below 16 bytes a page size need not align the top, which no page size of the platform comes near |
| Stacks.MaskRoundsUp | libminimk/runtime/stack_linux.hpp:24-48 | For every power-of-two page size the mask arithmetic on 64-bit words rounds up without overflow |
| Stacks.SizeIsLeastMultiple | libminimk/runtime/stack_linux.hpp:24-48 | The size is the least multiple of the page size of at least 64 KiB |
| Stacks.StackAlloc | libminimk/runtime/stack_linux.hpp:54-102 | Success adds one guarded mapping disjoint from all others; either failure leaves every mapping as it was |
| Stacks.StackFree | libminimk/runtime/stack_linux.hpp:107-123 | Removes exactly the mapping that the stack record names |
| SocketTable.CreateInserts | libminimk/socket/info.cpp:72-125 | Creation inserts one fresh key with default timeouts, or leaves the map as it is with the cursor advanced by 256 |
| SocketTable.FindIsLookup | libminimk/socket/info.cpp:36-70 | Finding a handle succeeds exactly on the keys of the map, and leads to that key's entry |
| SocketTable.ForgetRemoves | libminimk/socket/info.cpp:127-129 | Forgetting a slot removes exactly its key |
| SocketTable.TouchUpdates | libminimk/socket/set_read_timeout.hpp:32-34 | Changing a timeout changes exactly the entry of its handle |
| SocketTable.GapIsFirstFree | libminimk/socket/info.cpp:79-113 | Allocation takes the first free slot in cyclic order from any cursor |
| SocketTable.FullWhenAllLive | libminimk/socket/info.cpp:117-121 | EMFILE exactly when all 256 slots are live, with slots unchanged and 256 probes made |
| SocketTable.FullTurnIsOneEpoch | libminimk/socket/info.cpp:108-114 | 256 probes raise the generation by one, except exactly where the cursor wraps |
| SocketTable.GenerationCountsTurns | libminimk/socket/info.cpp:108-114 | While the cursor has not wrapped, generation == next_slot / 256 |
| SocketTable.EpochsInClosedForm | libminimk/socket/info.cpp:108-114 | How often the generation has grown after any number of probes, across wraps of the cursor |
| SocketTable.IssueIsCursor | libminimk/socket/info.cpp:92-97 | An issued handle never exceeds 2^56 plus its probe number, has the index of its slot, and equals 2^56 plus the probe number exactly while the generation counter has not overflowed |
| SocketTable.FreshExactlyUntilOverflow | libminimk/socket/handle.hpp:19-20 | The handle of a probe differs from every handle that any earlier probe can have issued if and only if the generation counter has not overflowed |
| SocketTable.SeekIsCreate | libminimk/socket/info.cpp:79-114 | Probing slot by slot finds what the closed form says |
| SocketTable.SocketTable.CreateInfo | libminimk/socket/info.cpp:72-125 | The loop over the array and both counters has the outcome of the specification: the new table, EMFILE or the abort |
| SocketTable.SocketTable.FindInfo | libminimk/socket/info.cpp:36-70 | Success exactly on live handles, with the slot that holds the entry; EBADF otherwise |
| SocketTable.SocketTable.Forget | libminimk/socket/info.cpp:127-129 | Exactly one key leaves the map |
| TableHistory.NeverReused | libminimk/socket/handle.hpp:19-20 | Over any history every issued handle is nonzero; and they equal 2^56 plus the number of their probe, which is the cursor until that wraps, and strictly increase, so that none is issued twice, if and only if the generation counter had not overflowed at any of the allocations |
| TableHistory.StaleUntilReissued | libminimk/socket/info.cpp:61-64 | Over any later calls, with or without overflow, a handle that does not resolve ever resolves again if and only if that very handle is issued again |
| TableHistory.StaleForever | libminimk/socket/info.cpp:61-64 | An issued handle that fails to resolve fails forever, however often its slot is reused, if the generation counter has not overflowed at any of the later allocations |
| TableHistory.DestroyedForever | libminimk/socket/destroy.hpp:44-45 | After its destruction a handle ever resolves again if and only if it is issued again, and never if the generation counter has not overflowed at any of the later allocations |
| TableHistory.ReplayKeepsInv | libminimk/socket/info.cpp:72-129 | Over any history, overflowing or not, live handles are issued handles, each in its own slot, and each is the one its probe issues |
| TableHistory.ReuseAfterOverflow | libminimk/socket/handle.hpp:19-20 | A history in which the first handle is issued a second time |
| Handle.MakeHandle | libminimk/socket/handle.hpp:65-79 | Aborts exactly for generations from 2^48 on; otherwise every field can be extracted again, and the word is the sum that the table computes with |
| Handle.IsValid | libminimk/socket/handle.hpp:60-62 | The mask test accepts exactly the generations below 2^48 |
| Handle.UnpackThenPack | libminimk/socket/handle.hpp:45-79 | Packing the extracted fields gives back every word |
| Handle.BitsAreDigits | libminimk/socket/handle.hpp:45-57 | For every word the masks and shifts compute the quotients and remainders that the table is reasoned about with |
| Handle.DigitsAreUnique | libminimk/socket/handle.hpp:22-31 | Distinct field triples give distinct handles |
| Sockets.Sockets.Create | libminimk/socket/create.hpp:23-79 | Success adds one descriptor and one fresh handle that owns it, issued by the last probe; every failure leaves all sockets, streams and open descriptors as they were and the caller's handle zero; the system calls made are those that the outcome calls for, and an error is the one they report, or EMFILE |
| Sockets.Sockets.Adopt | libminimk/socket/accept.hpp:71-99 | A new descriptor becomes nonblocking and owned by a fresh handle, or is closed again, and nothing else changes; an error is that of the first system call or EMFILE |
| Sockets.Sockets.Enter | libminimk/socket/accept.hpp:45-99 | One attempt at a new socket: it joins all others under a fresh handle, or nobody notices; the trace of system calls decides the result |
| Sockets.Sockets.Obtain | libminimk/socket/accept.hpp:45-70 | A descriptor not in use, or an error that nobody notices; accepting needs an open listener |
| Sockets.Sockets.Register | libminimk/socket/create.hpp:62-75 | A nonblocking descriptor gets a fresh handle, or is closed when the table is full, after 256 probes |
| Sockets.Sockets.Join | libminimk/socket/create.hpp:62-75 | The same told by what can be observed of all sockets: one more socket with an empty outgoing stream, or only the cursor and the calls have moved |
| Sockets.Sockets.Harden | libminimk/socket/accept.hpp:71-84 | A new descriptor becomes nonblocking, whatever the second call reports, or it is closed again |
| Sockets.Sockets.Accept | libminimk/socket/accept.hpp:26-101 | The call is a sequence of attempts: each that would have blocked is followed by one legal pause of exactly the listener's read timeout, and by another attempt if that pause ends with success; a pause that times out ends the call with ETIMEDOUT; otherwise the last attempt does exactly what creation does, or nothing, and its system calls decide the result; conservation of descriptors holds at every suspension; an unknown listener gives EBADF without a pause or a call |
| Sockets.Sockets.Destroy | libminimk/socket/destroy.hpp:21-53 | Removes exactly this handle with its descriptor and streams by exactly one closing call, whose report is the result; a stale copy changes nothing, closes nothing and gives EBADF; the caller's handle is always invalid afterwards |
| Ownership.OwnInsert | libminimk/socket/create.hpp:62-75 | Conservation of descriptors under a new owner of a new descriptor |
| Ownership.OwnRemove | libminimk/socket/destroy.hpp:40-45 | Conservation of descriptors when an owner goes away with its descriptor |
| Ownership.PutOne | libminimk/socket/recv.hpp:44-54 | Since no descriptor has two owners, moving bytes over one changes the stream of its owner and of nobody else |
| Ownership.StoryGrows | libminimk/socket/recv.hpp:40-64 | Calls that use one stream of one socket compose: what a sequence of them did outside its legal pauses is again at most a change of that stream, by system calls of its direction on its descriptor |
| Ownership.StoryExplained | libminimk/socket/recv.hpp:44-62 | When a call on a live socket is the last of a longer transfer, its result is the timeout of the last pause of all, or what the very last system call, made after that pause on the socket's own descriptor, reported |
| Ownership.PausesDecide | libminimk/socket/recv.hpp:44-62 | The recorded pauses determine the state in which the last attempt is made, and before each pause there was exactly one attempt, made where the one before ended, which would have blocked |
| Sockets.Sockets.SetReadTimeout | libminimk/socket/set_read_timeout.hpp:20-35 | Changes the read timeout of exactly this handle and nothing else, or EBADF |
| Sockets.Sockets.SetWriteTimeout | libminimk/socket/set_write_timeout.hpp:20-35 | Changes the write timeout of exactly this handle and nothing else, or EBADF |
| Sockets.Sockets.Recv | libminimk/socket/recv.hpp:24-65 | The call is a sequence of attempts: each that would have blocked is followed by one legal pause of exactly the read timeout, and by another attempt exactly if that pause ends with success; a pause that times out ends the call with ETIMEDOUT; otherwise the result is what the last attempt reported, or EINVAL for a zero count; success delivers between 1 and count of the next bytes in order; any error takes and writes nothing; EOF only when nothing is left; outside its pauses no other socket, stream or descriptor changes |
| Sockets.Sockets.Send | libminimk/socket/send.hpp:24-65 | The same sequence of attempts and pauses with the write timeout; success sends between 1 and count bytes from the front of the buffer; any error sends nothing; outside its pauses no other socket, stream or descriptor changes |
| Sockets.Sockets.SuspendRead | libminimk/socket/recv.hpp:56-61 | What the caller may rely on across a suspension: descriptors conserved, its handle still live on the same descriptor, the cursor not gone back, its incoming bytes untouched; the suspension is recorded with its timeout and its result, success or ETIMEDOUT |
| Sockets.Sockets.SuspendWrite | libminimk/socket/send.hpp:56-61 | The same for sending |
| Kernels.RecvPosix | libminimk/syscall/recv_posix.hpp:23-61 | EINVAL for a zero count without a system call; otherwise exactly one, on this descriptor with the clamped count, and EOF for a zero result, its error or the bytes it delivered |
| Kernels.SendPosix | libminimk/syscall/send_posix.hpp:23-61 | EINVAL for a zero count without a system call; otherwise exactly one, on this descriptor with the clamped count, and its error or the bytes it accepted |
| StreamIo.WriteAll | include/minimk/io.hpp:21-50 | Success appends exactly the buffer to the stream, failure exactly a proper prefix; a failure on a live socket is the timeout of the last pause or what the last system call reported, and never EINTR or EAGAIN; the progress assertions hold; outside the pauses nothing but this stream changes |
| StreamIo.ReadAll | include/minimk/io.hpp:62-91 | Success fills the buffer with exactly the next bytes, failure takes exactly a shorter prefix into its front; a failure on a live socket is the timeout of the last pause or what the last system call reported, and never EINTR or EAGAIN; the rest of the buffer is untouched; the progress assertions hold; outside the pauses nothing but this stream changes |
| StreamIo.Conservation | include/minimk/io.hpp:13-18 | Over any interleaving of calls at the two ends, complete or failed, what was written is what was read followed by what is under way |
| StreamIo.RoundTrip | include/minimk/io.hpp:53-61 | If each read asks for what the write of the same rank moved, each read returns exactly the bytes of that write |
| Clock.SatAdd | libminimk/integer/u64.h:14-16 | The sum capped at 2^64-1 |
| Clock.SatMul | libminimk/integer/u64.h:19-21 | The product capped at 2^64-1 |
| Clock.DivisionGuard | libminimk/integer/u64.h:19-21 | The guard by division decides exactly whether the product fits |
| Clock.MonotonicNow | libminimk/time/monotonic.c:14-27 | The reading is min(sec * 10^9 + nsec, 2^64-1) for all inputs, and every intermediate value fits in 64 bits |
| Clock.ReadingIsMonotone | libminimk/time/monotonic.c:22-26 | Lexicographically ordered readings never go back, and coincide only when equal or saturated |

## Left out

- The pointers of the code: coroutines are held by value in the slot array there too, so a pointer to one is its index here; the address check at the head of the two stream loops (`include/minimk/io.hpp:24` and `:65`) has no counterpart because buffers are arrays.
- Scheduler.Scheduler.Execute: user code is a finite script; loops of unbounded length and computation between calls are not modelled, and the depth at which a coroutine leaves its stack is an arbitrary point of that stack.
- Contexts.ReturnsToCaller: registers and addresses are unbounded integers and memory is a map of aligned eight-byte cells, which is exact as long as the stack pointer is aligned and stacks lie in mapped memory; instruction lengths, flags, floating-point control state and signals are not modelled.
- The assembly for other processors, and stack and poll code for other operating systems.
- Realisation.ContinuesWhereItLeft: what user code computes between its calls is any machine step that keeps to its own stack; that the registers at a call hold the rest of the script is not modelled.
- Sockets.Sockets.SuspendRead: stands for the scheduler's suspension with `POLLIN`, whose result is characterised by `Wakeups.IoWaitResult`; other coroutines appear only through what the contract lets change.
- Sockets.Sockets.Accept: when the process aborts on an exhausted generation counter nothing is claimed about its state.
- Sockets.Sockets.Recv: on EBADF the code leaves `*nread` as it was; here the count is an out-parameter and reads zero.
- `bind`, `listen`, `connect`, name resolution and socket options: calls into the system without loops or state of their own.
- Tracing, error names and the mapping of system errors: no state. Only the error codes that the modelled components use are named.
- `SatMul` with a zero factor on the right, where the code divides by zero; the only caller passes 10^9.
- An I/O waiter is not promised a wake-up while other coroutines keep yielding: the code polls only when nothing is runnable.
- The read and write timeouts start anew after each suspension, so no bound on the total time of `recv`, `send` or the stream loops is claimed.
