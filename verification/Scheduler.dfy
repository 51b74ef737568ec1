/** The scheduler itself: the slot array updated in place, the run loop, and the calls coroutines make. */
module Scheduler {
  import opened Basics
  import opened Clock
  import opened Stacks
  import opened Coroutines
  import opened SchedulerModel
  import opened Lifecycle
  import opened Fairness
  import opened Progress

  /** An entry reports an event that it asked for. */
  ghost predicate Signalled(fds: seq<PollFd>) {
    exists i :: 0 <= i < |fds| && (fds[i].events & fds[i].revents) != 0
  }

  /** The clock and the poll call. The contracts are all that is assumed: the clock never goes back, poll
      fails only by interruption, and it comes back early for no reason only `patience` times. Only the two
      methods write the log. */
  class Environment {
    var clock: u64
    var patience: nat
    ghost var log: seq<Observed>

    constructor (patience: nat)
      ensures clock == 0 && this.patience == patience && log == []
    {
      clock, this.patience, log := 0, patience, [];
    }

    method Now() returns (now: u64)
      modifies `clock, `log
      ensures old(clock) <= now == clock && log == old(log) + [Reading(now)]
    {
      var t: int := *;
      now := if clock <= t <= U64_MAX then t else clock;
      clock := now;
      log := log + [Reading(now)];
    }

    method Poll(fds: array<PollFd>, timeout: nat) returns (rc: Errno)
      modifies this, fds
      ensures rc == EIntr || rc == Success
      ensures log == old(log) + [PollCall(old(fds[..]), timeout, if rc == EIntr then None else Some(Answers(fds[..])))]
      ensures rc == EIntr ==> old(patience) > 0 && patience == old(patience) - 1 && clock == old(clock)
      ensures rc == Success ==>
                && clock >= old(clock) && patience <= old(patience)
                && (forall i :: 0 <= i < fds.Length ==> fds[i] == old(fds[i]).(revents := fds[i].revents))
                && (|| patience < old(patience) || Signalled(fds[..])
                    || clock >= Min(old(clock) + timeout * NANOS_PER_MILLI, U64_MAX))
    {
      var interrupted: bool := *;
      if interrupted && patience > 0 {
        patience := patience - 1;
        log := log + [PollCall(fds[..], timeout, None)];
        return EIntr;
      }
      ghost var request := fds[..];
      var i := 0;
      while i < fds.Length
        invariant 0 <= i <= fds.Length && clock == old(clock) && patience == old(patience) && log == old(log)
        invariant forall j :: 0 <= j < fds.Length ==> fds[j] == old(fds[j]).(revents := fds[j].revents)
      {
        var revents: bv16 := *;
        fds[i] := fds[i].(revents := revents);
        i := i + 1;
      }
      var early: bool := *;
      if early && patience > 0 {
        patience := patience - 1;
      } else {
        clock := Min(clock + timeout * NANOS_PER_MILLI, U64_MAX);
      }
      log := log + [PollCall(request, timeout, Some(Answers(fds[..])))];
      rc := Success;
    }
  }

  // How the mappings follow the slots.

  lemma StacksSame(cs: Slots, cs': Slots)
    requires forall i :: 0 <= i < MAX_COROS ==> cs'[i].stack == cs[i].stack && (cs'[i].state == NULL <==> cs[i].state == NULL)
    ensures StacksOf(cs') == StacksOf(cs)
  {
  }

  lemma StacksAdd(cs: Slots, k: nat, c: Coroutine)
    requires k < MAX_COROS && cs[k].state == NULL
    ensures StacksOf(cs[k := c]) == if c.state == NULL then StacksOf(cs) else StacksOf(cs) + {RegionOf(c.stack)}
  {
    var cs' := cs[k := c];
    forall r | r in StacksOf(cs) ensures r in StacksOf(cs') {
      var i :| 0 <= i < MAX_COROS && cs[i].state != NULL && RegionOf(cs[i].stack) == r;
      assert cs'[i] == cs[i];
    }
    if c.state != NULL {
      assert cs'[k].state != NULL && RegionOf(cs'[k].stack) == RegionOf(c.stack);
    }
  }

  lemma RegionSize(c: Coroutine, pageSize: nat)
    requires pageSize > 0 && StackOk(c, pageSize)
    ensures RegionOf(c.stack).size > 0
  {
    SizeIsLeastMultiple(pageSize);
  }

  /** The mapping of a live slot is its own, and goes away with it. */
  lemma StacksRemove(cs: Slots, k: nat, pageSize: nat)
    requires pageSize > 0 && Inv(cs, pageSize) && k < MAX_COROS && cs[k].state != NULL
    ensures RegionOf(cs[k].stack) in StacksOf(cs)
    ensures forall r :: r in StacksOf(cs) && r.base == cs[k].stack.base && r.size == cs[k].stack.size ==> r == RegionOf(cs[k].stack)
    ensures StacksOf(cs[k := ZERO]) == StacksOf(cs) - {RegionOf(cs[k].stack)}
  {
    var mine := RegionOf(cs[k].stack);
    assert SlotInv(cs[k], pageSize);
    RegionSize(cs[k], pageSize);
    forall i | 0 <= i < MAX_COROS && i != k && cs[i].state != NULL
      ensures RegionOf(cs[i].stack) != mine && !(cs[i].stack.base == mine.base && cs[i].stack.size == mine.size)
    {
      assert Disjoint(RegionOf(cs[i].stack), mine);
    }
    var cs' := cs[k := ZERO];
    forall r | r in StacksOf(cs) && r != mine ensures r in StacksOf(cs') {
      var i :| 0 <= i < MAX_COROS && cs[i].state != NULL && RegionOf(cs[i].stack) == r;
      assert cs'[i] == cs[i];
    }
  }

  lemma FinishKeepsInv(cs: Slots, k: nat, pageSize: nat)
    requires pageSize > 0 && Inv(cs, pageSize) && k < MAX_COROS
    ensures Inv(cs[k := ZERO], pageSize)
  {
  }

  class Scheduler {
    const coros: array<Coroutine>
    const memory: AddressSpace
    const env: Environment
    var current: Option<nat>

    /** Every slot is consistent, and the mapped stacks are exactly those of the live slots. */
    ghost predicate Valid()
      reads this, coros, memory
    {
      && coros.Length == MAX_COROS && memory.pageSize > 0
      && Inv(coros[..], memory.pageSize)
      && memory.mapped == StacksOf(coros[..])
    }

    constructor (pageSize: nat, patience: nat)
      requires pageSize > 0
      ensures Valid() && current.None? && NoneLive(coros[..])
      ensures fresh(coros) && fresh(memory) && fresh(env)
    {
      coros := new Coroutine[MAX_COROS](_ => ZERO);
      memory := new AddressSpace(pageSize);
      env := new Environment(patience);
      current := None;
    }

    // Scans over the slots.

    method CountNonNull() returns (res: nat)
      requires coros.Length == MAX_COROS
      ensures res == Sum(coros[..], IsLive) && (res > 0 <==> !NoneLive(coros[..]))
    {
      res := 0;
      var idx := 0;
      while idx < MAX_COROS
        invariant 0 <= idx <= MAX_COROS && res == Sum(coros[..idx], IsLive)
        invariant res > 0 <==> exists i :: 0 <= i < idx && coros[i].state != NULL
      {
        assert coros[..idx + 1][..idx] == coros[..idx];
        if coros[idx].state != NULL {
          res := res + 1;
        }
        idx := idx + 1;
      }
      assert coros[..idx] == coros[..];
    }

    method FindFreeSlot() returns (rv: Errno, idx: nat)
      requires coros.Length == MAX_COROS
      ensures rv == (if FreeSlot(coros[..], 0) < MAX_COROS then Success else EAgain)
      ensures rv == Success ==> idx == FreeSlot(coros[..], 0)
    {
      idx := 0;
      while idx < MAX_COROS
        invariant 0 <= idx <= MAX_COROS && FreeSlot(coros[..], 0) == FreeSlot(coros[..], idx)
      {
        if coros[idx].state == NULL {
          return Success, idx;
        }
        idx := idx + 1;
      }
      rv := EAgain;
    }

    /** Fairly selects the next runnable slot. */
    method PickRunnable(fair: u64) returns (found: Option<nat>, fair': u64)
      requires coros.Length == MAX_COROS
      ensures found == Choice(coros[..], fair) && fair' == NextFair(coros[..], fair)
    {
      fair' := fair;
      var idx := 0;
      while idx < MAX_COROS
        invariant 0 <= idx <= MAX_COROS && fair' == Wrap(fair + idx)
        invariant RunnableGap(coros[..], fair, 0) == RunnableGap(coros[..], fair, idx)
      {
        WrapKeepsSlots(fair + idx, 0);
        var slot := fair' % 16;
        assert Idle(coros[..], fair, idx) <==> coros[slot].state != RUNNABLE;
        WrapSuccessor(fair + idx);
        fair' := Wrap(fair' + 1);
        if coros[slot].state == RUNNABLE {
          return Some(slot), fair';
        }
        idx := idx + 1;
      }
      found := None;
    }

    // Transitions of one slot.

    method ResumeSlot(idx: nat, now: u64, revents: bv16)
      requires coros.Length == MAX_COROS && idx < MAX_COROS
      modifies coros
      ensures coros[..] == old(coros[..])[idx := MaybeResume(old(coros[idx]), now, revents)]
    {
      if coros[idx].state == BLOCKED_ON_TIMER && now >= coros[idx].deadline {
        coros[idx] := coros[idx].(deadline := 0);
        coros[idx] := coros[idx].(state := RUNNABLE);
        return;
      }
      if coros[idx].state == BLOCKED_ON_IO && ((coros[idx].events & revents) != 0 || now >= coros[idx].deadline) {
        coros[idx] := coros[idx].(deadline := 0);
        coros[idx] := coros[idx].(state := RUNNABLE);
        coros[idx] := coros[idx].(sock := INVALID_SOCKET);
        coros[idx] := coros[idx].(events := 0);
        coros[idx] := coros[idx].(revents := revents);
        return;
      }
    }

    method FinishSlot(idx: nat)
      requires coros.Length == MAX_COROS && idx < MAX_COROS && memory.mapped == StacksOf(coros[..])
      requires RegionOf(coros[idx].stack) in memory.mapped
      requires forall r :: r in memory.mapped && r.base == coros[idx].stack.base && r.size == coros[idx].stack.size
                 ==> r == RegionOf(coros[idx].stack)
      modifies coros, memory
      ensures coros[..] == old(coros[..])[idx := ZERO]
      ensures memory.mapped == old(memory.mapped) - {RegionOf(old(coros[idx].stack))}
      ensures memory.log == old(memory.log) + [UnmapCall(old(coros[idx].stack.base), old(coros[idx].stack.size))]
    {
      var rest := StackFree(memory, coros[idx].stack);
      coros[idx] := coros[idx].(stack := rest);
      coros[idx] := ZERO;
    }

    /** Prepares a free slot for a coroutine on a new stack, or leaves it free. */
    method InitSlot(idx: nat, child: Script) returns (rv: Errno, ghost a: Alloc)
      requires Valid() && idx < MAX_COROS && coros[idx].state == NULL && ValidScript(child)
      modifies coros, memory
      ensures rv == (if a.Allocated? then Success else ENoMem)
      ensures coros[..] == old(coros[..])[idx := Init(child, a, memory.pageSize)]
      ensures rv == Success ==> coros[idx].state == RUNNABLE && coros[idx].control == Entry(child)
      ensures FreshAllocs(old(coros[..]), [a], memory.pageSize)
      ensures memory.mapped == StacksOf(coros[..]) && memory.log == old(memory.log) + AllocCalls(a, memory.pageSize)
    {
      ghost var cs := coros[..];
      coros[idx] := ZERO;
      coros[idx] := coros[idx].(sock := INVALID_SOCKET);
      coros[idx] := coros[idx].(control := Entry(child));
      var stack: Stack;
      rv, stack, a := StackAlloc(memory);
      coros[idx] := coros[idx].(stack := stack);
      StacksAdd(cs, idx, Init(child, a, memory.pageSize));
      if rv != Success {
        assert FreshAt(cs, [a], 0, memory.pageSize);
        assert coros[..] == cs[idx := Init(child, a, memory.pageSize)];
        return;
      }
      SizeIsLeastMultiple(memory.pageSize);
      coros[idx] := coros[idx].(sp := coros[idx].stack.top - 64);
      coros[idx] := coros[idx].(state := RUNNABLE);
      assert FreshAt(cs, [a], 0, memory.pageSize) by {
        forall i | 0 <= i < MAX_COROS && cs[i].state != NULL
          ensures Disjoint(RegionOf(stack), RegionOf(cs[i].stack))
        {
          assert RegionOf(cs[i].stack) in StacksOf(cs);
        }
      }
      assert coros[..] == cs[idx := Init(child, a, memory.pageSize)];
    }

    // The parts of a turn of the loop.

    method CleanExited()
      requires Valid()
      modifies coros, memory
      ensures Valid() && coros[..] == Clean(old(coros[..]))
      ensures memory.log == old(memory.log) + FreeCalls(old(coros[..]), MAX_COROS)
    {
      ghost var cs := coros[..];
      var idx := 0;
      while idx < MAX_COROS
        invariant 0 <= idx <= MAX_COROS && Valid() && memory.log == old(memory.log) + FreeCalls(cs, idx)
        invariant forall j :: 0 <= j < MAX_COROS ==> coros[j] == if j < idx then Finish(cs[j]) else cs[j]
      {
        if coros[idx].state == EXITED {
          StacksRemove(coros[..], idx, memory.pageSize);
          FinishKeepsInv(coros[..], idx, memory.pageSize);
          FinishSlot(idx);
        }
        idx := idx + 1;
      }
      assert coros[..] == Clean(cs);
    }

    method ExpireDeadlines() returns (now: u64)
      requires coros.Length == MAX_COROS
      modifies coros, env`clock, env`log
      ensures old(env.clock) <= now == env.clock && coros[..] == Expire(old(coros[..]), now)
      ensures env.log == old(env.log) + [Reading(now)]
    {
      ghost var cs := coros[..];
      now := env.Now();
      var idx := 0;
      while idx < MAX_COROS
        invariant 0 <= idx <= MAX_COROS && env.clock == now && env.log == old(env.log) + [Reading(now)]
        invariant forall j :: 0 <= j < MAX_COROS ==> coros[j] == if j < idx then MaybeResume(cs[j], now, 0) else cs[j]
      {
        ResumeSlot(idx, now, 0);
        idx := idx + 1;
      }
      assert coros[..] == Expire(cs, now);
    }

    /** Scans for the earliest deadline and the sockets waited for. */
    method PollRequest(now: u64) returns (fds: array<PollFd>, deadline: u64)
      requires coros.Length == MAX_COROS && memory.pageSize > 0 && Inv(coros[..], memory.pageSize)
      ensures fresh(fds) && fds[..] == PollFds(coros[..]) && deadline == PollDeadline(coros[..], now)
    {
      ghost var cs := coros[..];
      var default := SatAdd(now, DEFAULT_TIMEOUT);
      deadline := default;
      fds := new PollFd[MAX_COROS](_ => PollFd(0, 0, 0));
      var idx := 0;
      while idx < MAX_COROS
        invariant 0 <= idx <= MAX_COROS && coros[..] == cs && deadline == Earliest(cs, default, idx)
        invariant forall j :: 0 <= j < MAX_COROS ==> fds[j] == if j < idx then PollFds(cs)[j] else PollFd(0, 0, 0)
      {
        assert SlotInv(cs[idx], memory.pageSize);
        if coros[idx].state == BLOCKED_ON_TIMER {
          deadline := if coros[idx].deadline < deadline then coros[idx].deadline else deadline;
        } else if coros[idx].state == BLOCKED_ON_IO {
          deadline := if coros[idx].deadline < deadline then coros[idx].deadline else deadline;
          assert coros[idx].sock != INVALID_SOCKET;
          assert coros[idx].events != 0;
          assert coros[idx].revents == 0;
          fds[idx] := fds[idx].(events := coros[idx].events);
          fds[idx] := fds[idx].(fd := coros[idx].sock);
        }
        idx := idx + 1;
      }
    }

    method ResumeAll(now: u64, fds: array<PollFd>, ghost revents: seq<bv16>)
      requires coros.Length == MAX_COROS == fds.Length == |revents|
      requires forall i :: 0 <= i < MAX_COROS ==> fds[i].revents == revents[i]
      modifies coros
      ensures coros[..] == PollResume(old(coros[..]), revents, now)
    {
      ghost var cs := coros[..];
      var idx := 0;
      while idx < MAX_COROS
        invariant 0 <= idx <= MAX_COROS
        invariant forall j :: 0 <= j < MAX_COROS ==> coros[j] == if j < idx then MaybeResume(cs[j], now, revents[j]) else cs[j]
      {
        ResumeSlot(idx, now, fds[idx].revents);
        idx := idx + 1;
      }
      assert coros[..] == PollResume(cs, revents, now);
    }

    /** The system call: what came back for each slot, and why it came back. */
    method CallPoll(now: u64) returns (rc: Errno, fds: array<PollFd>, ghost revents: seq<bv16>)
      requires coros.Length == MAX_COROS && memory.pageSize > 0 && Inv(coros[..], memory.pageSize) && env.clock == now
      modifies env
      ensures rc == EIntr || rc == Success
      ensures env.log == old(env.log) + [PollOf(coros[..], now, if rc == EIntr then None else Some(revents))]
      ensures rc == EIntr ==> old(env.patience) > 0 && env.patience == old(env.patience) - 1 && env.clock == now
      ensures fds.Length == MAX_COROS == |revents| && forall i :: 0 <= i < MAX_COROS ==> fds[i].revents == revents[i]
      ensures rc == Success ==>
                && env.clock >= now && env.patience <= old(env.patience)
                && (|| env.patience < old(env.patience) || AskedFor(coros[..], revents)
                    || Elapsed(now, PollTimeout(PollDeadline(coros[..], now), now), env.clock))
    {
      ghost var cs := coros[..];
      var deadline;
      fds, deadline := PollRequest(now);
      var wait64 := (if deadline > now then deadline - now else 0) / 1_000_000 + 1;
      var timeout := if wait64 < INT_MAX then wait64 else INT_MAX;
      rc := env.Poll(fds, timeout);
      revents := Answers(fds[..]);
      if rc == Success {
        Answered(cs, fds[..]);
      }
    }

    /** Waits until a deadline or an event, and wakes whoever it came for. */
    method BlockOnPoll() returns (ghost event: Event)
      requires Valid()
      modifies coros, env
      ensures Valid()
      ensures event.PollInterrupted? || event.Polled?
      ensures env.log == old(env.log) + Later(old(coros[..]), event, Return)
      ensures event.PollInterrupted? ==>
                && event.now == old(env.clock) <= event.asked == env.clock && coros[..] == old(coros[..])
                && old(env.patience) > 0 && env.patience == old(env.patience) - 1
      ensures event.Polled? ==>
                && event.now == old(env.clock) <= event.asked <= event.after == env.clock && |event.revents| == MAX_COROS
                && coros[..] == PollResume(old(coros[..]), event.revents, event.after)
                && env.patience <= old(env.patience)
                && (Spurious(old(coros[..]), event.asked, event.revents, event.after) ==> env.patience < old(env.patience))
    {
      ghost var cs, head, seen, patience := coros[..], env.clock, env.log, env.patience;
      var now := env.Now();
      ghost var asked := now;
      var rc, fds, revents := CallPoll(now);
      if rc == EIntr {
        event := PollInterrupted(head, asked);
        PollSeen(seen, cs, head, asked, revents, asked);
        return;
      }
      assert rc == Success;
      ghost var back, costs := env.clock, env.patience < patience;
      now := env.Now();
      ResumeAll(now, fds, revents);
      event := Polled(head, asked, revents, now);
      PollSeen(seen, cs, head, asked, revents, now);
      PollResumeKeepsInv(cs, revents, now, memory.pageSize);
      StacksPolled(cs, revents, now);
      EarlyCosts(cs, asked, revents, back, now, costs);
    }

    // The calls that coroutines make.

    /** Creates a coroutine in the first free slot; also how the program creates the first ones. */
    method CoroutineCreate(child: Script) returns (rv: Errno, ghost used: seq<Alloc>)
      requires Valid() && ValidScript(child)
      modifies coros, memory
      ensures Valid() && FreshAllocs(old(coros[..]), used, memory.pageSize)
      ensures |used| == if FreeSlot(old(coros[..]), 0) < MAX_COROS then 1 else 0
      ensures Spawn(old(coros[..]), child, used, memory.pageSize) == Spawned(coros[..], rv == Success, [])
      ensures rv in {Success, EAgain, ENoMem} && (rv == EAgain <==> FreeSlot(old(coros[..]), 0) == MAX_COROS)
      ensures memory.log == old(memory.log) + CreateCalls(used, memory.pageSize)
      ensures var k := FreeSlot(old(coros[..]), 0);
              if rv == Success then
                && k < MAX_COROS && old(coros[..])[k].state == NULL && coros[..] == old(coros[..])[k := coros[k]]
                && coros[k].state == RUNNABLE && coros[k].control == Entry(child)
              else
                forall i :: 0 <= i < MAX_COROS ==>
                  if old(coros[i].state) == NULL then coros[i].state == NULL else coros[i] == old(coros[i])
    {
      ghost var cs := coros[..];
      var idx;
      rv, idx := FindFreeSlot();
      used := [];
      if rv != Success {
        return;
      }
      ghost var a;
      rv, a := InitSlot(idx, child);
      used := [a];
      CreateKeepsInv(cs, idx, child, used, memory.pageSize);
    }

    /** The front half of a yield: saves where the current coroutine will continue. */
    method Yield(next: Control) returns (ghost sp: nat)
      requires coros.Length == MAX_COROS && current.Some? && current.value < MAX_COROS
      requires coros[current.value].stack.bottom < coros[current.value].stack.top
      modifies coros
      ensures coros[..] == old(coros[..])[current.value := old(coros[current.value]).(control := next, sp := sp)]
      ensures coros[current.value].stack.bottom <= sp < coros[current.value].stack.top
    {
      var i := current.value;
      var at: nat := *;
      at := if coros[i].stack.bottom <= at < coros[i].stack.top then at else coros[i].stack.bottom;
      coros[i] := coros[i].(sp := at);
      coros[i] := coros[i].(control := next);
      sp := at;
    }

    method CoroutineExit() returns (ghost sp: nat)
      requires coros.Length == MAX_COROS && current.Some? && current.value < MAX_COROS
      requires coros[current.value].stack.bottom < coros[current.value].stack.top
      modifies coros
      ensures coros[..] == old(coros[..])[current.value := Park(old(coros[current.value]), Return, 0, sp)]
      ensures coros[current.value].stack.bottom <= sp < coros[current.value].stack.top
    {
      var i := current.value;
      coros[i] := coros[i].(state := EXITED);
      sp := Yield(Gone);
    }

    method CoroutineSuspendTimer(nanosec: u64, next: Script) returns (ghost read: u64, ghost sp: nat)
      requires coros.Length == MAX_COROS && current.Some? && current.value < MAX_COROS
      requires coros[current.value].stack.bottom < coros[current.value].stack.top
      modifies coros, env`clock, env`log
      ensures old(env.clock) <= read == env.clock
      ensures coros[..] == old(coros[..])[current.value := Park(old(coros[current.value]), Script.Sleep(nanosec, next), read, sp)]
      ensures env.log == old(env.log) + [Reading(read)]
      ensures coros[current.value].state == BLOCKED_ON_TIMER && coros[current.value].deadline == Min(read + nanosec, U64_MAX)
      ensures coros[current.value].stack.bottom <= sp < coros[current.value].stack.top
    {
      var i := current.value;
      var deadline := env.Now();
      read := deadline;
      deadline := SatAdd(deadline, nanosec);
      coros[i] := coros[i].(state := BLOCKED_ON_TIMER);
      coros[i] := coros[i].(deadline := deadline);
      sp := Yield(InTimer(next));
    }

    method CoroutineSuspendIo(sock: int, events: bv16, nanosec: u64, ready: Script, timedOut: Script)
      returns (ghost read: u64, ghost sp: nat)
      requires coros.Length == MAX_COROS && current.Some? && current.value < MAX_COROS
      requires coros[current.value].stack.bottom < coros[current.value].stack.top
      requires sock != INVALID_SOCKET
      modifies coros, env`clock, env`log
      ensures old(env.clock) <= read == env.clock
      ensures coros[..] == old(coros[..])[current.value :=
                Park(old(coros[current.value]), Wait(sock, events, nanosec, ready, timedOut), read, sp)]
      ensures env.log == old(env.log) + [Reading(read)]
      ensures coros[current.value].state == BLOCKED_ON_IO && coros[current.value].deadline == Min(read + nanosec, U64_MAX)
      ensures coros[current.value].sock == sock && coros[current.value].events == events
      ensures coros[current.value].stack.bottom <= sp < coros[current.value].stack.top
    {
      var i := current.value;
      var deadline := env.Now();
      read := deadline;
      deadline := SatAdd(deadline, nanosec);
      coros[i] := coros[i].(state := BLOCKED_ON_IO);
      coros[i] := coros[i].(deadline := deadline);
      assert sock != INVALID_SOCKET;
      coros[i] := coros[i].(sock := sock);
      coros[i] := coros[i].(events := events);
      coros[i] := coros[i].(revents := 0);
      sp := Yield(InIo(sock, events, ready, timedOut));
    }

    method ResumeIo(events: bv16) returns (rv: Errno)
      requires coros.Length == MAX_COROS && current.Some? && current.value < MAX_COROS
      requires coros[current.value].deadline == 0 && coros[current.value].sock == INVALID_SOCKET
      requires coros[current.value].events == 0
      modifies coros
      ensures coros[..] == old(coros[..])[current.value := old(coros[current.value]).(revents := 0)]
      ensures rv == IoResult(old(coros[current.value].revents), events)
    {
      var i := current.value;
      var revents := coros[i].revents;
      coros[i] := coros[i].(revents := 0);
      assert coros[i].deadline == 0;
      assert coros[i].sock == INVALID_SOCKET;
      assert coros[i].events == 0;
      rv := IoResult(revents, events);
    }

    /** The back half of every suspension: what the coroutine finds when it gets control. */
    method ResumeCurrent() returns (sc: Script)
      requires coros.Length == MAX_COROS && current.Some? && current.value < MAX_COROS && memory.pageSize > 0
      requires coros[current.value].state == RUNNABLE && SlotInv(coros[current.value], memory.pageSize)
      modifies coros
      ensures coros[..] == old(coros[..])[current.value := Continue(old(coros[current.value])).0]
      ensures sc == Continue(old(coros[current.value])).1
    {
      var i := current.value;
      match coros[i].control
      case Entry(s) => sc := s;
      case InYield(s) => sc := s;
      case InTimer(s) =>
        coros[i] := coros[i].(deadline := 0);
        sc := s;
      case InIo(_, events, ready, timedOut) =>
        var rv := ResumeIo(events);
        sc := if rv == Success then ready else timedOut;
    }

    /** The call that ends a turn. */
    method GiveBack(sc: Script) returns (ghost read: u64, ghost sp: nat)
      requires coros.Length == MAX_COROS && memory.pageSize > 0 && current.Some? && current.value < MAX_COROS
      requires coros[current.value].stack.bottom < coros[current.value].stack.top
      requires ValidScript(sc) && !sc.Go?
      modifies coros, env`clock, env`log
      ensures old(env.clock) <= read == env.clock
      ensures coros[..] == old(coros[..])[current.value := Park(old(coros[current.value]), sc, read, sp)]
      ensures coros[current.value].stack.bottom <= sp < coros[current.value].stack.top
      ensures env.log == old(env.log) + ReadingOf(sc, read)
    {
      read := env.clock;
      match sc
      case Return => sp := CoroutineExit();
      case Yield(n) => sp := Yield(InYield(n));
      case Sleep(nanosec, n) => read, sp := CoroutineSuspendTimer(nanosec, n);
      case Wait(sock, events, nanosec, a, b) => read, sp := CoroutineSuspendIo(sock, events, nanosec, a, b);
    }

    /** Runs the current coroutine from `sc` until it gives control back. */
    method Execute(sc: Script) returns (ghost allocs: seq<Alloc>, ghost read: u64, ghost sp: nat)
      requires Valid() && ValidScript(sc) && current.Some? && current.value < MAX_COROS
      requires coros[current.value].state == RUNNABLE && coros[current.value].revents == 0
      modifies coros, memory, env`clock, env`log
      ensures Valid() && old(env.clock) <= read == env.clock && FreshAllocs(old(coros[..]), allocs, memory.pageSize)
      ensures coros[..] == Burst(old(coros[..]), current.value, sc, allocs, read, sp, memory.pageSize)
      ensures coros[current.value].stack == old(coros[current.value].stack)
      ensures coros[current.value].stack.bottom <= sp < coros[current.value].stack.top
      ensures coros[current.value].sp == sp
      ensures env.log == old(env.log) + ReadingOf(Stop(old(coros[..]), sc, allocs, memory.pageSize).1, read)
      ensures memory.log == old(memory.log) + CreateCalls(allocs, memory.pageSize)
      decreases sc
    {
      ghost var cs, calls := coros[..], memory.log;
      var i := current.value;
      if sc.Go? {
        var rv, used := CoroutineCreate(sc.child);
        SpawnFrame(cs, sc.child, used, memory.pageSize, i);
        var next := if rv == Success then sc.created else sc.failed;
        allocs, read, sp := Execute(next);
        SpawnThen(cs, sc.child, used, allocs, memory.pageSize);
        CreateThen(used, allocs, memory.pageSize);
        Regroup(calls, CreateCalls(used, memory.pageSize), CreateCalls(allocs, memory.pageSize));
        allocs := used + allocs;
      } else {
        assert SlotInv(cs[i], memory.pageSize);
        SizeIsLeastMultiple(memory.pageSize);
        read, sp := GiveBack(sc);
        allocs := [];
        ParkKeepsSlot(cs[i], sc, read, sp, memory.pageSize);
        ReplaceKeepsInv(cs, i, Park(cs[i], sc, read, sp), memory.pageSize);
        StacksSame(cs, cs[i := Park(cs[i], sc, read, sp)]);
      }
    }

    /** Switches to the current coroutine and back. */
    method Switch() returns (ghost allocs: seq<Alloc>, ghost read: u64, ghost sp: nat)
      requires Valid() && current.Some? && current.value < MAX_COROS && coros[current.value].state == RUNNABLE
      modifies coros, memory, env`clock, env`log
      ensures Valid() && old(env.clock) <= read == env.clock && FreshAllocs(old(coros[..]), allocs, memory.pageSize)
      ensures coros[..] == Activate(old(coros[..]), current.value, allocs, read, sp, memory.pageSize)
      ensures env.log == old(env.log) + ReadingOf(LastCall(old(coros[..]), current.value, allocs, memory.pageSize), read)
      ensures memory.log == old(memory.log) + CreateCalls(allocs, memory.pageSize)
      ensures old(coros[current.value]).stack.bottom <= sp < old(coros[current.value]).stack.top
    {
      ghost var cs := coros[..];
      var i := current.value;
      assert SlotInv(cs[i], memory.pageSize);
      assert coros[i].stack.bottom <= coros[i].sp < coros[i].stack.top;
      ContinueKeepsInv(cs, i, memory.pageSize);
      var sc := ResumeCurrent();
      ghost var c := coros[i];
      StacksSame(cs, coros[..]);
      allocs, read, sp := Execute(sc);
      SameStacksFresh(cs[i := c], i, cs[i], allocs, memory.pageSize);
      assert cs[i := c][i := cs[i]] == cs;
      assert coros[i].stack.bottom <= coros[i].sp < coros[i].stack.top;
    }

    // The run loop.

    ghost function Snapshot(fair: u64): (s: Sys)
      requires coros.Length == MAX_COROS
      reads this, coros, env
    {
      Sys(coros[..], fair, env.clock, env.patience)
    }

    /** Cleans up after exited coroutines and wakes those whose deadline has passed. */
    method Prepare() returns (now: u64)
      requires Valid()
      modifies coros, memory, env`clock, env`log
      ensures Valid() && old(env.clock) <= now == env.clock && coros[..] == Expire(Clean(old(coros[..])), now)
      ensures env.log == old(env.log) + [Reading(now)]
      ensures memory.log == old(memory.log) + FreeCalls(old(coros[..]), MAX_COROS)
    {
      ghost var cs := coros[..];
      CleanExited();
      now := ExpireDeadlines();
      CleanKeepsInv(cs, memory.pageSize);
      ExpireKeepsInv(Clean(cs), now, memory.pageSize);
      StacksSame(Clean(cs), Expire(Clean(cs), now));
    }

    /** Runs the chosen coroutine, or waits when there is none, unless nothing is left to wait for. */
    method Act(now: u64, ghost fair: u64) returns (ghost event: Event, ghost call: Script)
      requires Valid() && now == env.clock
      requires current.Some? ==> current.value < MAX_COROS && coros[current.value].state == RUNNABLE
      modifies `current, coros, memory, env
      ensures Valid() && current.None? && event.now == now
      ensures Acts(old(coros[..]), old(current), old(env.patience), event, call, Snapshot(fair), memory.pageSize)
      ensures env.log == old(env.log) + Later(old(coros[..]), event, call)
      ensures memory.log == old(memory.log) + NewCalls(event, memory.pageSize)
    {
      event, call := Drained(now), Return;
      if current.None? {
        var live := CountNonNull();
        if live > 0 {
          event := BlockOnPoll();
        }
      } else {
        ghost var ready := coros[..];
        ghost var allocs, read, sp := Switch();
        event := Ran(now, allocs, read, sp);
        call := LastCall(ready, current.value, allocs, memory.pageSize);
        current := None;
      }
    }

    /** One turn of the loop. */
    method Step(fair: u64) returns (fair': u64, ghost t: Turn)
      requires Valid() && current.None? && !NoneLive(coros[..])
      modifies this, coros, memory, env
      ensures Valid() && current.None? && SchedulerModel.Run([t], memory.pageSize)
      ensures t.before == old(Snapshot(fair)) && t.after == Snapshot(fair')
      ensures env.log == old(env.log) + Observations(t)
      ensures memory.log == old(memory.log) + MemoryCalls(t, memory.pageSize)
    {
      ghost var before, seen, calls := Snapshot(fair), env.log, memory.log;
      var now := Prepare();
      ghost var ready := coros[..];
      current, fair' := PickRunnable(fair);
      if current.Some? {
        ChoiceIsRunnable(ready, fair);
      }
      ghost var picked := current;
      ghost var event, call := Act(now, fair');
      t := Turn(before, ready, picked, event, call, Snapshot(fair'));
      OneTurn(t, memory.pageSize);
      Regroup(seen, [Reading(now)], Later(ready, event, call));
      Regroup(calls, FreeCalls(before.coros, MAX_COROS), NewCalls(event, memory.pageSize));
    }

    /** Runs until every coroutine is done. What happens is a run of the transition system; the loop ends,
        and at its end every slot is free and every stack unmapped. */
    method Run() returns (ghost ts: seq<Turn>, ghost last: u64)
      requires Valid() && current.None?
      modifies this, coros, memory, env
      ensures Valid() && current.None? && NoneLive(coros[..]) && memory.mapped == {}
      ensures RunsFrom(old(Snapshot(0)), ts, Snapshot(last), memory.pageSize)
      ensures env.log == old(env.log) + AllObservations(ts)
      ensures memory.log == old(memory.log) + AllMemoryCalls(ts, memory.pageSize)
    {
      ts, last := [], 0;
      var fair: u64 := 0;
      var live := CountNonNull();
      while live > 0
        invariant Valid() && current.None? && (live > 0 <==> !NoneLive(coros[..])) && last == fair
        invariant RunsFrom(old(Snapshot(0)), ts, Snapshot(fair), memory.pageSize)
        invariant env.log == old(env.log) + AllObservations(ts)
        invariant memory.log == old(memory.log) + AllMemoryCalls(ts, memory.pageSize)
        decreases Sum(coros[..], Weight), env.patience, Sum(coros[..], IsLive), Sum(coros[..], IsBlocked), U64_MAX - env.clock
      {
        ghost var t;
        fair, t := Step(fair);
        last := fair;
        RunGrows(old(Snapshot(0)), ts, t, memory.pageSize);
        LogsGrow(old(env.log), old(memory.log), ts, t, memory.pageSize);
        ts := ts + [t];
        live := CountNonNull();
      }
    }
  }

  lemma PollSeen(seen: seq<Observed>, cs: Slots, now: u64, asked: u64, revents: seq<bv16>, after: u64)
    ensures seen + [Reading(asked)] + [PollOf(cs, asked, None)] == seen + Later(cs, PollInterrupted(now, asked), Return)
    ensures seen + [Reading(asked)] + [PollOf(cs, asked, Some(revents))] + [Reading(after)]
         == seen + Later(cs, Polled(now, asked, revents, after), Return)
  {
  }

  lemma OneTurn(t: Turn, pageSize: nat)
    requires pageSize > 0 && ValidTurn(t, pageSize)
    ensures Run([t], pageSize)
  {
    assert TurnAt([t], 0, pageSize);
  }

  /** A run that leads from one state to another. */
  ghost predicate RunsFrom(first: Sys, ts: seq<Turn>, last: Sys, pageSize: nat)
    requires pageSize > 0
  {
    && Run(ts, pageSize)
    && if ts == [] then first == last else ts[0].before == first && ts[|ts| - 1].after == last
  }

  /** One more turn makes a longer run, and decreases the measure. */
  lemma RunGrows(first: Sys, ts: seq<Turn>, t: Turn, pageSize: nat)
    requires pageSize > 0 && RunsFrom(first, ts, t.before, pageSize) && Run([t], pageSize) && Inv(t.before.coros, pageSize)
    ensures RunsFrom(first, ts + [t], t.after, pageSize) && Below(MeasureOf(t.after), MeasureOf(t.before))
  {
    var all := ts + [t];
    assert TurnAt([t], 0, pageSize);
    forall k | 0 <= k < |all| ensures TurnAt(all, k, pageSize) {
      if k < |ts| {
        assert TurnAt(ts, k, pageSize);
      }
    }
    TurnProgress(t, pageSize);
  }

  lemma Regroup<T>(a: seq<T>, b: seq<T>, c: seq<T>)
    ensures (a + b) + c == a + (b + c)
  {
  }

  lemma LogsGrow(seen: seq<Observed>, calls: seq<MemoryCall>, ts: seq<Turn>, t: Turn, pageSize: nat)
    requires pageSize > 0
    ensures (seen + AllObservations(ts)) + Observations(t) == seen + AllObservations(ts + [t])
    ensures (calls + AllMemoryCalls(ts, pageSize)) + MemoryCalls(t, pageSize) == calls + AllMemoryCalls(ts + [t], pageSize)
  {
    assert (ts + [t])[..|ts + [t]| - 1] == ts;
    Regroup(seen, AllObservations(ts), Observations(t));
    Regroup(calls, AllMemoryCalls(ts, pageSize), MemoryCalls(t, pageSize));
  }

  lemma CreateThen(used: seq<Alloc>, rest: seq<Alloc>, pageSize: nat)
    requires pageSize > 0 && |used| <= 1
    ensures CreateCalls(used + rest, pageSize) == CreateCalls(used, pageSize) + CreateCalls(rest, pageSize)
  {
    if used == [] {
      assert used + rest == rest;
    } else {
      assert (used + rest)[1..] == rest && used[1..] == [];
    }
  }

  /** The allocations of one creation, followed by those of the rest of the turn. */
  lemma SpawnThen(cs: Slots, child: Script, used: seq<Alloc>, rest: seq<Alloc>, pageSize: nat)
    requires pageSize > 0 && |used| == if FreeSlot(cs, 0) < MAX_COROS then 1 else 0
    requires FreshAllocs(cs, used, pageSize) && FreshAllocs(Spawn(cs, child, used, pageSize).cs, rest, pageSize)
    ensures Spawn(cs, child, used + rest, pageSize) == Spawn(cs, child, used, pageSize).(rest := rest)
    ensures FreshAllocs(cs, used + rest, pageSize)
  {
    var k := FreeSlot(cs, 0);
    if k == MAX_COROS {
      assert used + rest == rest;
    } else {
      assert (used + rest)[1..] == rest;
      assert used == [used[0]];
      FreshThen(cs, k, child, used[0], rest, pageSize);
    }
  }

  lemma FreshThen(cs: Slots, k: nat, child: Script, a: Alloc, rest: seq<Alloc>, pageSize: nat)
    requires pageSize > 0 && k < MAX_COROS && cs[k].state == NULL && FreshAt(cs, [a], 0, pageSize)
    requires FreshAllocs(cs[k := Init(child, a, pageSize)], rest, pageSize)
    ensures FreshAllocs(cs, [a] + rest, pageSize)
  {
    var allocs := [a] + rest;
    forall j | 0 <= j < |allocs| ensures FreshAt(cs, allocs, j, pageSize) {
      if j > 0 {
        FreshEarlier(cs, k, child, a, rest, j - 1, pageSize);
      }
    }
  }

  lemma FreshEarlier(cs: Slots, k: nat, child: Script, a: Alloc, rest: seq<Alloc>, j: nat, pageSize: nat)
    requires pageSize > 0 && k < MAX_COROS && cs[k].state == NULL && j < |rest|
    requires FreshAt(cs[k := Init(child, a, pageSize)], rest, j, pageSize)
    ensures FreshAt(cs, [a] + rest, j + 1, pageSize)
  {
    var cs' := cs[k := Init(child, a, pageSize)];
    var allocs := [a] + rest;
    assert allocs[j + 1] == rest[j];
    if rest[j].Allocated? {
      forall i | 0 <= i < MAX_COROS && cs[i].state != NULL
        ensures Disjoint(RegionOf(StackAt(rest[j].base, pageSize)), RegionOf(cs[i].stack))
      {
        assert cs'[i] == cs[i];
      }
      forall m | 0 <= m < j + 1 && allocs[m].Allocated?
        ensures Disjoint(RegionOf(StackAt(rest[j].base, pageSize)), RegionOf(StackAt(allocs[m].base, pageSize)))
      {
        if m == 0 {
          assert cs'[k].state != NULL;
        } else {
          assert allocs[m] == rest[m - 1];
        }
      }
    }
  }

  lemma StacksPolled(cs: Slots, revents: seq<bv16>, now: u64)
    requires |revents| == MAX_COROS
    ensures StacksOf(PollResume(cs, revents, now)) == StacksOf(cs)
  {
    StacksSame(cs, PollResume(cs, revents, now));
  }

  ghost predicate AskedFor(cs: Slots, revents: seq<bv16>)
    requires |revents| == MAX_COROS
  {
    exists i :: 0 <= i < MAX_COROS && (PollFds(cs)[i].events & revents[i]) != 0
  }

  lemma Answered(cs: Slots, fds: seq<PollFd>)
    requires |fds| == MAX_COROS && forall i :: 0 <= i < MAX_COROS ==> fds[i] == PollFds(cs)[i].(revents := fds[i].revents)
    ensures Signalled(fds) ==> AskedFor(cs, Answers(fds))
  {
    if Signalled(fds) {
      var i :| 0 <= i < MAX_COROS && (fds[i].events & fds[i].revents) != 0;
      assert (PollFds(cs)[i].events & Answers(fds)[i]) != 0;
    }
  }

  /** An event that was asked for wakes the coroutine that asked. */
  lemma AskedForWakes(cs: Slots, revents: seq<bv16>, now: u64)
    requires |revents| == MAX_COROS
    ensures AskedFor(cs, revents) ==> PollResume(cs, revents, now) != cs
  {
    if AskedFor(cs, revents) {
      var i :| 0 <= i < MAX_COROS && (PollFds(cs)[i].events & revents[i]) != 0;
      assert PollResume(cs, revents, now)[i] == MaybeResume(cs[i], now, revents[i]);
    }
  }

  /** A poll that nobody asked for and that ended before its time has a price. */
  lemma EarlyCosts(cs: Slots, asked: u64, revents: seq<bv16>, back: u64, now: u64, costs: bool)
    requires |revents| == MAX_COROS && back <= now
    requires costs || AskedFor(cs, revents) || Elapsed(asked, PollTimeout(PollDeadline(cs, asked), asked), back)
    ensures Spurious(cs, asked, revents, now) ==> costs
  {
    AskedForWakes(cs, revents, now);
  }

  lemma WrapSuccessor(x: nat)
    ensures Wrap(Wrap(x) + 1) == Wrap(x + 1)
  {
    var a := x / 0x1_0000_0000_0000_0000;
    assert x == a * 0x1_0000_0000_0000_0000 + Wrap(x);
  }
}
