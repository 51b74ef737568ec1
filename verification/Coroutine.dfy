/** Coroutines: what they run, where they are suspended, and the state transitions of one slot. */
module Coroutines {
  import opened Basics
  import opened Stacks

  datatype State = NULL | RUNNABLE | EXITED | BLOCKED_ON_TIMER | BLOCKED_ON_IO

  const INVALID_SOCKET: int := -1
  const POLLERR: bv16 := 8

  /** A coroutine body, as far as the runtime can see it: the calls it makes, where each later call may
      depend on the results of the earlier ones. */
  datatype Script =
    | Return
    | Yield(next: Script)
    | Sleep(nanosec: u64, next: Script)
    | Wait(sock: int, events: bv16, nanosec: u64, ready: Script, timedOut: Script)
    | Go(child: Script, created: Script, failed: Script)

  /** Where a suspended coroutine will continue: what its stack holds. `Gone` is the point after the
      final yield of an exited coroutine, where control must never arrive. */
  datatype Control =
    | Gone
    | Entry(script: Script)
    | InYield(next: Script)
    | InTimer(next: Script)
    | InIo(sock: int, events: bv16, ready: Script, timedOut: Script)

  datatype Coroutine = Coroutine(
    sp: nat, stack: Stack, control: Control, state: State,
    deadline: u64, sock: int, events: bv16, revents: bv16)

  const ZERO := Coroutine(0, NO_STACK, Gone, NULL, 0, 0, 0, 0)

  /** What the runtime demands of its callers: real sockets and a nonempty set of events. */
  predicate ValidScript(s: Script) {
    match s
    case Return => true
    case Yield(n) => ValidScript(n)
    case Sleep(_, n) => ValidScript(n)
    case Wait(sock, events, _, a, b) => sock != INVALID_SOCKET && events != 0 && ValidScript(a) && ValidScript(b)
    case Go(c, a, b) => ValidScript(c) && ValidScript(a) && ValidScript(b)
  }

  predicate ValidControl(k: Control) {
    match k
    case Gone => true
    case Entry(s) => ValidScript(s)
    case InYield(s) => ValidScript(s)
    case InTimer(s) => ValidScript(s)
    case InIo(sock, events, a, b) => sock != INVALID_SOCKET && events != 0 && ValidScript(a) && ValidScript(b)
  }

  // Transitions of one slot.

  function Init(child: Script, a: Alloc, pageSize: nat): Coroutine
    requires pageSize > 0
  {
    var stack := StackAfter(a, pageSize);
    if a.Allocated?
    then Coroutine(if stack.top >= 64 then stack.top - 64 else 0, stack, Entry(child), RUNNABLE, 0, INVALID_SOCKET, 0, 0)
    else Coroutine(0, stack, Entry(child), NULL, 0, INVALID_SOCKET, 0, 0)
  }

  function Finish(c: Coroutine): Coroutine {
    if c.state == EXITED then ZERO else c
  }

  function MaybeResume(c: Coroutine, now: u64, revents: bv16): Coroutine {
    if c.state == BLOCKED_ON_TIMER && now >= c.deadline then
      c.(deadline := 0, state := RUNNABLE)
    else if c.state == BLOCKED_ON_IO && ((c.events & revents) != 0 || now >= c.deadline) then
      c.(deadline := 0, state := RUNNABLE, sock := INVALID_SOCKET, events := 0, revents := revents)
    else c
  }

  function SuspendTimer(c: Coroutine, deadline: u64): Coroutine {
    c.(state := BLOCKED_ON_TIMER, deadline := deadline)
  }

  function SuspendIo(c: Coroutine, sock: int, events: bv16, deadline: u64): Coroutine {
    c.(state := BLOCKED_ON_IO, deadline := deadline, sock := sock, events := events, revents := 0)
  }

  /** The result of a finished wait: success when a requested event or an error showed up. */
  function IoResult(revents: bv16, events: bv16): Errno {
    if (revents & events) != 0 then Success
    else if (revents & POLLERR) != 0 then Success
    else ETimedOut
  }

  /** The continuation of a coroutine that gets control, and its record at that point. */
  function Continue(c: Coroutine): (Coroutine, Script)
  {
    match c.control
    case Gone => (c, Return)
    case Entry(s) => (c, s)
    case InYield(s) => (c, s)
    case InTimer(s) => (c.(deadline := 0), s)
    case InIo(_, events, a, b) => (c.(revents := 0), if IoResult(c.revents, events) == Success then a else b)
  }

  // The invariant of one slot.

  predicate StackOk(c: Coroutine, pageSize: nat)
    requires pageSize > 0
  {
    && c.stack.base > 0 && c.stack.base % pageSize == 0
    && c.stack == StackAt(c.stack.base, pageSize)
    && c.stack.bottom <= c.sp < c.stack.top
  }

  /** The fields agree with the state, and the state with the point of suspension. */
  predicate SlotInv(c: Coroutine, pageSize: nat)
    requires pageSize > 0
  {
    && (c.state != NULL ==> StackOk(c, pageSize) && ValidControl(c.control))
    && match c.state
       case NULL => true
       case RUNNABLE =>
         c.control != Gone && c.deadline == 0 && c.sock == INVALID_SOCKET && c.events == 0
         && (!c.control.InIo? ==> c.revents == 0)
       case EXITED => c.control == Gone && c.deadline == 0
       case BLOCKED_ON_TIMER =>
         c.control.InTimer? && c.sock == INVALID_SOCKET && c.events == 0 && c.revents == 0
       case BLOCKED_ON_IO =>
         c.control.InIo? && c.sock == c.control.sock && c.events == c.control.events && c.revents == 0
  }

  /** The life of a slot. */
  predicate Edge(a: State, b: State) {
    || (a == NULL && b == RUNNABLE)
    || (a == RUNNABLE && b == BLOCKED_ON_TIMER)
    || (a == RUNNABLE && b == BLOCKED_ON_IO)
    || (a == BLOCKED_ON_TIMER && b == RUNNABLE)
    || (a == BLOCKED_ON_IO && b == RUNNABLE)
    || (a == RUNNABLE && b == EXITED)
    || (a == EXITED && b == NULL)
  }
}
