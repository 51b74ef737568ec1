/** Why and when suspended coroutines wake up: never early, never without a reason, and with the right result. */
module Wakeups {
  import opened Basics
  import opened Stacks
  import opened Coroutines
  import opened SchedulerModel
  import opened Lifecycle
  import opened Fairness
  import opened Polling

  /** What woke a coroutine: a clock reading at the head of a turn, or the outcome of a poll. */
  datatype Wake =
    | ByClock(turn: nat, time: u64)
    | ByPoll(turn: nat, revents: bv16, time: u64)

  function WakeEvents(w: Wake): bv16 {
    if w.ByClock? then 0 else w.revents
  }

  /** The record of a coroutine that was blocked as `c` and has been woken. */
  function Awake(c: Coroutine, revents: bv16): Coroutine {
    if c.state == BLOCKED_ON_TIMER then c.(deadline := 0, state := RUNNABLE)
    else c.(deadline := 0, state := RUNNABLE, sock := INVALID_SOCKET, events := 0, revents := revents)
  }

  /** `w` is a genuine reason to wake the coroutine that is blocked as `c` in slot `i`. */
  predicate Justified(ts: seq<Turn>, w: Wake, i: nat, c: Coroutine)
    requires i < MAX_COROS
  {
    && w.turn < |ts|
    && match w
       case ByClock(k, time) => time == ts[k].event.now && time >= c.deadline
       case ByPoll(k, r, time) =>
         && ts[k].event.Polled? && |ts[k].event.revents| == MAX_COROS
         && r == ts[k].event.revents[i] && time == ts[k].event.after
         && ts[k].ready[i] == c && ts[k].picked.None?
         && (time >= c.deadline || (c.state == BLOCKED_ON_IO && (c.events & r) != 0))
  }

  lemma QuietResume(c: Coroutine, now: u64)
    requires Blocked(c)
    ensures MaybeResume(c, now, 0) == if now >= c.deadline then Awake(c, 0) else c
  {
    assert c.events & 0 == 0;
  }

  lemma ReadySlot(ts: seq<Turn>, k: nat, i: nat, pageSize: nat)
    requires pageSize > 0 && Run(ts, pageSize) && k < |ts| && i < MAX_COROS && ts[k].before.coros[i].state != EXITED
    ensures ts[k].ready[i] == MaybeResume(ts[k].before.coros[i], ts[k].event.now, 0)
  {
    assert TurnAt(ts, k, pageSize);
  }

  /** One turn of the loop, seen from a coroutine that is still blocked when the loop chooses. */
  lemma BlockedTurn(ts: seq<Turn>, k: nat, i: nat, pageSize: nat)
    requires pageSize > 0 && Run(ts, pageSize) && k < |ts| && i < MAX_COROS && Blocked(ts[k].ready[i])
    ensures ts[k].picked != Some(i)
    ensures k + 1 < |ts| ==> ts[k + 1].before == ts[k].after
    ensures ts[k].event.Polled? ==>
              && |ts[k].event.revents| == MAX_COROS && ts[k].picked.None?
              && ts[k].after.coros[i] == MaybeResume(ts[k].ready[i], ts[k].event.after, ts[k].event.revents[i])
    ensures !ts[k].event.Polled? ==> ts[k].after.coros[i] == ts[k].ready[i]
  {
    assert TurnAt(ts, k, pageSize);
    var t := ts[k];
    if t.event.Ran? {
      ChoiceIsRunnable(t.ready, t.before.fair);
      ActivateFrame(t.ready, t.picked.value, t.event.allocs, t.event.read, t.event.sp, pageSize, i);
    }
    if k + 1 < |ts| {
      assert TurnAt(ts, k + 1, pageSize);
    }
  }

  lemma WakesByClock(ts: seq<Turn>, k: nat, m: nat, i: nat, pageSize: nat)
    requires pageSize > 0 && Run(ts, pageSize) && k <= m < |ts| && i < MAX_COROS && Waits(ts, k, m, i)
    requires Blocked(ts[k].before.coros[i]) && ts[k].event.now >= ts[k].before.coros[i].deadline
    ensures ts[m].ready[i] == Awake(ts[k].before.coros[i], 0)
  {
    ReadySlot(ts, k, i, pageSize);
    QuietResume(ts[k].before.coros[i], ts[k].event.now);
    BoundedWait(ts, k, m, i, pageSize);
  }

  lemma WakesByPoll(ts: seq<Turn>, k: nat, m: nat, i: nat, pageSize: nat)
    requires pageSize > 0 && Run(ts, pageSize) && k < m < |ts| && i < MAX_COROS && Waits(ts, k, m, i)
    requires Blocked(ts[k].ready[i]) && ts[k + 1].before.coros[i] != ts[k].ready[i]
    ensures ts[k].event.Polled? && |ts[k].event.revents| == MAX_COROS
    ensures Justified(ts, ByPoll(k, ts[k].event.revents[i], ts[k].event.after), i, ts[k].ready[i])
    ensures ts[m].ready[i] == Awake(ts[k].ready[i], ts[k].event.revents[i])
  {
    BlockedTurn(ts, k, i, pageSize);
    ReadySlot(ts, k + 1, i, pageSize);
    BoundedWait(ts, k + 1, m, i, pageSize);
  }

  /** Follows a blocked coroutine to the turn that gives it control again: its record stays as it is up to
      the turn that wakes it, is woken for a genuine reason, and stays as that left it. */
  lemma {:induction false} Follow(ts: seq<Turn>, k: nat, m: nat, i: nat, pageSize: nat) returns (w: Wake)
    requires pageSize > 0 && Run(ts, pageSize) && k <= m < |ts| && i < MAX_COROS
    requires Blocked(ts[k].before.coros[i]) && Waits(ts, k, m, i) && ts[m].picked == Some(i)
    ensures k <= w.turn <= m && (w.ByPoll? ==> w.turn < m)
    ensures Justified(ts, w, i, ts[k].before.coros[i]) && ts[w.turn].before.coros[i] == ts[k].before.coros[i]
    ensures ts[m].ready[i] == Awake(ts[k].before.coros[i], WakeEvents(w))
    decreases m - k
  {
    if ts[k].event.now >= ts[k].before.coros[i].deadline {
      WakesByClock(ts, k, m, i, pageSize);
      return ByClock(k, ts[k].event.now);
    }
    ReadySlot(ts, k, i, pageSize);
    QuietResume(ts[k].before.coros[i], ts[k].event.now);
    BlockedTurn(ts, k, i, pageSize);
    if ts[k + 1].before.coros[i] == ts[k].ready[i] {
      w := Follow(ts, k + 1, m, i, pageSize);
    } else {
      WakesByPoll(ts, k, m, i, pageSize);
      w := ByPoll(k, ts[k].event.revents[i], ts[k].event.after);
    }
  }

  // The clock.

  lemma TurnMovesClock(ts: seq<Turn>, k: nat, pageSize: nat)
    requires pageSize > 0 && Run(ts, pageSize) && k < |ts|
    ensures ts[k].before.clock <= ts[k].event.now <= ts[k].after.clock
    ensures ts[k].event.Polled? ==> ts[k].after.clock == ts[k].event.after
    ensures ts[k].event.Ran? ==> ts[k].after.clock == ts[k].event.read
    ensures k + 1 < |ts| ==> ts[k].after.clock <= ts[k + 1].event.now
  {
    assert TurnAt(ts, k, pageSize);
    if k + 1 < |ts| {
      assert TurnAt(ts, k + 1, pageSize);
    }
  }

  lemma {:induction false} ClockGrows(ts: seq<Turn>, k: nat, m: nat, pageSize: nat)
    requires pageSize > 0 && Run(ts, pageSize) && k < m < |ts|
    ensures ts[k].after.clock <= ts[m].event.now
    decreases m - k
  {
    TurnMovesClock(ts, k, pageSize);
    if k + 1 < m {
      TurnMovesClock(ts, k + 1, pageSize);
      ClockGrows(ts, k + 1, m, pageSize);
    }
  }

  /** The instant of a wake-up is never later than the reading at the head of the turn it leads to. */
  lemma WakePrecedes(ts: seq<Turn>, w: Wake, m: nat, i: nat, c: Coroutine, pageSize: nat)
    requires pageSize > 0 && Run(ts, pageSize) && m < |ts| && i < MAX_COROS
    requires Justified(ts, w, i, c) && w.turn <= m && (w.ByPoll? ==> w.turn < m)
    ensures w.time <= ts[m].event.now
  {
    if w.turn < m {
      TurnMovesClock(ts, w.turn, pageSize);
      ClockGrows(ts, w.turn, m, pageSize);
    }
  }

  // The theorems.

  /** Turn `k` ran the coroutine in slot `i` up to the call `last`. */
  predicate Ended(ts: seq<Turn>, k: nat, i: nat, last: Script) {
    k < |ts| && i < MAX_COROS && ts[k].event.Ran? && ts[k].picked == Some(i) && ts[k].call == last
  }

  lemma ActivateParks(cs: Slots, i: nat, allocs: seq<Alloc>, read: u64, sp: nat, pageSize: nat)
    requires pageSize > 0 && i < MAX_COROS && cs[i].state == RUNNABLE
    ensures var last := LastCall(cs, i, allocs, pageSize);
            !last.Go? && Activate(cs, i, allocs, read, sp, pageSize)[i] == Park(Continue(cs[i]).0, last, read, sp)
  {
    CreatedSlot(cs, i, allocs, pageSize, i);
    var (c, sc) := Continue(cs[i]);
    StopIsNotGo(cs[i := c], sc, allocs, pageSize);
  }

  /** How a turn leaves its own slot. */
  lemma TurnParks(ts: seq<Turn>, k: nat, i: nat, last: Script, pageSize: nat) returns (c: Coroutine)
    requires pageSize > 0 && Run(ts, pageSize) && Ended(ts, k, i, last)
    ensures !last.Go? && c.state == RUNNABLE
    ensures ts[k].after.coros[i] == Park(c, last, ts[k].event.read, ts[k].event.sp)
  {
    assert TurnAt(ts, k, pageSize);
    ChoiceIsRunnable(ts[k].ready, ts[k].before.fair);
    ActivateParks(ts[k].ready, i, ts[k].event.allocs, ts[k].event.read, ts[k].event.sp, pageSize);
    c := Continue(ts[k].ready[i]).0;
  }

  /** A sleep never returns early: when the sleeper gets control again, the clock at the head of that turn
      has reached `min(start + nanosec, 2^64-1)`, where `start` is the reading taken at suspension. */
  lemma SleepNeverEarly(ts: seq<Turn>, k: nat, m: nat, i: nat, nanosec: u64, next: Script, pageSize: nat)
    requires pageSize > 0 && Run(ts, pageSize) && Ended(ts, k, i, Sleep(nanosec, next))
    requires k < m < |ts| && Waits(ts, k + 1, m, i) && ts[m].picked == Some(i)
    ensures ts[m].event.now >= Min(ts[k].event.read + nanosec, U64_MAX)
    ensures Continue(ts[m].ready[i]).1 == next
  {
    var c := TurnParks(ts, k, i, Sleep(nanosec, next), pageSize);
    Chained(ts, k, pageSize);
    var w := Follow(ts, k + 1, m, i, pageSize);
    WakePrecedes(ts, w, m, i, ts[k + 1].before.coros[i], pageSize);
  }

  /** The events of `w` were reported for the poll entry `(sock, requested)` of slot `i`, by a poll made
      while every live coroutine was blocked. */
  predicate FromOwnPoll(ts: seq<Turn>, w: Wake, i: nat, sock: int, requested: bv16)
    requires i < MAX_COROS && w.ByPoll? && w.turn < |ts|
  {
    && ts[w.turn].event.Polled? && |ts[w.turn].event.revents| == MAX_COROS
    && w.revents == ts[w.turn].event.revents[i]
    && PollFds(ts[w.turn].ready)[i] == PollFd(sock, requested, 0)
    && PollOf(ts[w.turn].ready, ts[w.turn].event.asked, Some(ts[w.turn].event.revents)) in Observations(ts[w.turn])
    && AllBlocked(ts[w.turn].ready)
  }

  lemma NothingRunnable(ts: seq<Turn>, k: nat, pageSize: nat)
    requires pageSize > 0 && Run(ts, pageSize) && k < |ts| && ts[k].picked.None?
    ensures AllBlocked(ts[k].ready)
  {
    HeadOfTurn(ts, k, pageSize);
    ReadyIsQuiet(ts[k].before.coros, ts[k].event.now, ts[k].before.fair);
  }

  lemma AwakeContinues(c: Coroutine, r: bv16)
    requires c.state == BLOCKED_ON_IO && c.control.InIo?
    ensures Continue(Awake(c, r)).1
            == if IoResult(r, c.control.events) == Success then c.control.ready else c.control.timedOut
  {
  }

  lemma EventBits(r: bv16, a: bv16, b: bv16)
    ensures (r & (a | b)) != 0 <==> (r & a) != 0 || (r & b) != 0
    ensures r == 0 ==> r & (a | b) == 0
  {
  }

  /** The events include a requested one or an error. */
  predicate Reported(r: bv16, requested: bv16) {
    (r & (requested | POLLERR)) != 0
  }

  lemma ResultBits(r: bv16, requested: bv16)
    ensures IoResult(r, requested) == Success || IoResult(r, requested) == ETimedOut
    ensures IoResult(r, requested) == Success <==> Reported(r, requested)
    ensures r == 0 ==> IoResult(r, requested) == ETimedOut
    ensures (r & requested) != 0 ==> IoResult(r, requested) == Success
  {
    EventBits(r, requested, POLLERR);
  }

  /** `w` is what woke the coroutine that turn `k` left blocked in slot `i`: its record stayed as it was
      until `w`, and `w` and nothing else is what turn `m` finds in it. */
  predicate WokenBy(ts: seq<Turn>, w: Wake, k: nat, m: nat, i: nat)
    requires k < |ts| && m < |ts| && i < MAX_COROS
  {
    && Justified(ts, w, i, ts[k].after.coros[i])
    && ts[w.turn].before.coros[i] == ts[k].after.coros[i]
    && ts[m].ready[i] == Awake(ts[k].after.coros[i], WakeEvents(w))
  }

  lemma FollowIo(
    ts: seq<Turn>, k: nat, m: nat, i: nat,
    sock: int, requested: bv16, nanosec: u64, ready: Script, timedOut: Script, pageSize: nat)
    returns (w: Wake, rv: Errno)
    requires pageSize > 0 && Run(ts, pageSize)
    requires Ended(ts, k, i, Wait(sock, requested, nanosec, ready, timedOut))
    requires k < m < |ts| && Waits(ts, k + 1, m, i) && ts[m].picked == Some(i)
    ensures rv == IoResult(WakeEvents(w), requested) && ts[m].ready[i].revents == WakeEvents(w)
    ensures Continue(ts[m].ready[i]).1 == if rv == Success then ready else timedOut
    ensures k < w.turn <= m && w.time <= ts[m].event.now
    ensures WokenBy(ts, w, k, m, i)
    ensures w.time >= Min(ts[k].event.read + nanosec, U64_MAX) || (w.ByPoll? && (w.revents & requested) != 0)
    ensures w.ByPoll? ==> FromOwnPoll(ts, w, i, sock, requested)
  {
    var c := TurnParks(ts, k, i, Wait(sock, requested, nanosec, ready, timedOut), pageSize);
    Chained(ts, k, pageSize);
    var parked := ts[k].after.coros[i];
    w := Follow(ts, k + 1, m, i, pageSize);
    rv := IoResult(WakeEvents(w), requested);
    WakePrecedes(ts, w, m, i, parked, pageSize);
    AwakeContinues(parked, WakeEvents(w));
    if w.ByPoll? {
      NothingRunnable(ts, w.turn, pageSize);
      assert requested & w.revents == w.revents & requested;
    }
  }

  /** A wait for I/O returns success exactly when the events that woke it include a requested one or an
      error; those events come from the poll entry of this very wait, in a poll made while every live
      coroutine was blocked; and it reports a timeout only when the clock has reached the deadline. */
  lemma IoWaitResult(
    ts: seq<Turn>, k: nat, m: nat, i: nat,
    sock: int, requested: bv16, nanosec: u64, ready: Script, timedOut: Script, pageSize: nat)
    returns (w: Wake, rv: Errno)
    requires pageSize > 0 && Run(ts, pageSize)
    requires Ended(ts, k, i, Wait(sock, requested, nanosec, ready, timedOut))
    requires k < m < |ts| && Waits(ts, k + 1, m, i) && ts[m].picked == Some(i)
    ensures rv == Success || rv == ETimedOut
    ensures WokenBy(ts, w, k, m, i)
    ensures rv == IoResult(ts[m].ready[i].revents, requested) && ts[m].ready[i].revents == WakeEvents(w)
    ensures w.time >= Min(ts[k].event.read + nanosec, U64_MAX) || (w.ByPoll? && (w.revents & requested) != 0)
    ensures Continue(ts[m].ready[i]).1 == if rv == Success then ready else timedOut
    ensures k < w.turn <= m && w.time <= ts[m].event.now
    ensures rv == Success <==> Reported(WakeEvents(w), requested)
    ensures rv == Success ==> w.ByPoll?
    ensures rv == ETimedOut ==> w.time >= Min(ts[k].event.read + nanosec, U64_MAX)
    ensures w.ByPoll? ==> FromOwnPoll(ts, w, i, sock, requested)
  {
    w, rv := FollowIo(ts, k, m, i, sock, requested, nanosec, ready, timedOut, pageSize);
    ResultBits(WakeEvents(w), requested);
  }

  /** A wait without timeout never times out while the clock is below its maximum. */
  lemma EndlessWaitNeverTimesOut(
    ts: seq<Turn>, k: nat, m: nat, i: nat,
    sock: int, requested: bv16, ready: Script, timedOut: Script, pageSize: nat)
    requires pageSize > 0 && Run(ts, pageSize)
    requires Ended(ts, k, i, Wait(sock, requested, U64_MAX, ready, timedOut))
    requires k < m < |ts| && Waits(ts, k + 1, m, i) && ts[m].picked == Some(i) && ts[m].event.now < U64_MAX
    ensures Continue(ts[m].ready[i]).1 == ready
  {
    var w, rv := IoWaitResult(ts, k, m, i, sock, requested, U64_MAX, ready, timedOut, pageSize);
  }

  /** No wake-up is lost: a poll that reports a requested event makes the waiter runnable at once, and
      otherwise it keeps waiting until its deadline. */
  lemma PollWakes(ts: seq<Turn>, k: nat, i: nat, pageSize: nat)
    requires pageSize > 0 && Run(ts, pageSize) && k < |ts| && i < MAX_COROS
    requires ts[k].before.coros[i].state == BLOCKED_ON_IO && ts[k].event.Polled?
    ensures ts[k].ready[i] == ts[k].before.coros[i] && |ts[k].event.revents| == MAX_COROS
    ensures ts[k].after.coros[i].state == RUNNABLE <==>
              (ts[k].ready[i].events & ts[k].event.revents[i]) != 0 || ts[k].event.after >= ts[k].ready[i].deadline
  {
    NotExpired(ts, k, i, pageSize);
    PollOutcome(ts, k, pageSize);
    PollSlot(ts[k].ready, ts[k].event.revents, ts[k].event.after, i);
  }

  /** A reported event is served: the poll that reports a requested event to a waiter gives it control within
      the next 16 turns, and it continues with success. */
  lemma ReportedIsServed(ts: seq<Turn>, k: nat, i: nat, pageSize: nat) returns (m: nat)
    requires pageSize > 0 && Run(ts, pageSize) && k + MAX_COROS < |ts| && i < MAX_COROS && Inv(ts[0].before.coros, pageSize)
    requires ts[k].before.coros[i].state == BLOCKED_ON_IO && ts[k].event.Polled?
    requires |ts[k].event.revents| == MAX_COROS && (ts[k].before.coros[i].events & ts[k].event.revents[i]) != 0
    ensures k < m <= k + MAX_COROS && ts[m].picked == Some(i) && Waits(ts, k + 1, m, i)
    ensures ts[k].before.coros[i].control.InIo?
    ensures Continue(ts[m].ready[i]).1 == ts[k].before.coros[i].control.ready
  {
    var c, r := ts[k].before.coros[i], ts[k].event.revents[i];
    RunKeepsInv(ts, k, pageSize);
    assert SlotInv(c, pageSize);
    NotExpired(ts, k, i, pageSize);
    PollOutcome(ts, k, pageSize);
    EventWakes(c, ts[k].event.after, r);
    Chained(ts, k, pageSize);
    ReadySlot(ts, k + 1, i, pageSize);
    m := Fair(ts, k + 1, i, pageSize);
    AwakeContinues(c, r);
  }

  /** A reached deadline is served: a blocked coroutine whose deadline the reading at the head of a turn has
      reached gets control within 16 turns, woken without events. */
  lemma ExpiredIsServed(ts: seq<Turn>, k: nat, i: nat, pageSize: nat) returns (m: nat)
    requires pageSize > 0 && Run(ts, pageSize) && k + MAX_COROS <= |ts| && i < MAX_COROS
    requires Blocked(ts[k].before.coros[i]) && ts[k].event.now >= ts[k].before.coros[i].deadline
    ensures k <= m < k + MAX_COROS && ts[m].picked == Some(i) && Waits(ts, k, m, i)
    ensures ts[m].ready[i] == Awake(ts[k].before.coros[i], 0)
  {
    ReadySlot(ts, k, i, pageSize);
    QuietResume(ts[k].before.coros[i], ts[k].event.now);
    m := Fair(ts, k, i, pageSize);
  }

  lemma EventWakes(c: Coroutine, now: u64, r: bv16)
    requires c.state == BLOCKED_ON_IO && (c.events & r) != 0
    ensures MaybeResume(c, now, r) == Awake(c, r) && IoResult(r, c.events) == Success
  {
    Commutes(c.events, r);
  }

  lemma Commutes(a: bv16, b: bv16)
    ensures a & b == b & a
  {
  }

  lemma PollSlot(cs: Slots, revents: seq<bv16>, now: u64, i: nat)
    requires |revents| == MAX_COROS && i < MAX_COROS && cs[i].state == BLOCKED_ON_IO
    ensures PollResume(cs, revents, now)[i].state == RUNNABLE <==> Wakes(cs[i], now, revents[i])
  {
    ResumedWhen(cs[i], now, revents[i], PollResume(cs, revents, now)[i]);
  }

  predicate Wakes(c: Coroutine, now: u64, revents: bv16) {
    (c.events & revents) != 0 || now >= c.deadline
  }

  lemma ResumedWhen(c: Coroutine, now: u64, revents: bv16, c': Coroutine)
    requires c.state == BLOCKED_ON_IO && c' == MaybeResume(c, now, revents)
    ensures c'.state == RUNNABLE <==> Wakes(c, now, revents)
  {
  }

  lemma PollOutcome(ts: seq<Turn>, k: nat, pageSize: nat)
    requires pageSize > 0 && Run(ts, pageSize) && k < |ts| && ts[k].event.Polled?
    ensures |ts[k].event.revents| == MAX_COROS
    ensures ts[k].after.coros == PollResume(ts[k].ready, ts[k].event.revents, ts[k].event.after)
  {
    assert TurnAt(ts, k, pageSize);
  }

  lemma NotExpired(ts: seq<Turn>, k: nat, i: nat, pageSize: nat)
    requires pageSize > 0 && Run(ts, pageSize) && k < |ts| && i < MAX_COROS
    requires ts[k].before.coros[i].state == BLOCKED_ON_IO && ts[k].event.Polled?
    ensures ts[k].ready[i] == ts[k].before.coros[i]
  {
    HeadOfTurn(ts, k, pageSize);
    ReadySlot(ts, k, i, pageSize);
    QuietResume(ts[k].before.coros[i], ts[k].event.now);
    NoChoice(ts[k].ready, ts[k].before.fair, i);
  }

  // Nothing lasts too long.

  /** A coroutine that is blocked at the head of turn `k` and not picked before turn `j` is awake in turn `j`
      if the reading there has reached its deadline. */
  lemma {:induction false} DueIsAwake(ts: seq<Turn>, k: nat, j: nat, i: nat, pageSize: nat) returns (r: bv16)
    requires pageSize > 0 && Run(ts, pageSize) && k <= j < |ts| && i < MAX_COROS
    requires Blocked(ts[k].before.coros[i]) && Waits(ts, k, j, i)
    requires ts[j].event.now >= ts[k].before.coros[i].deadline
    ensures ts[j].ready[i] == Awake(ts[k].before.coros[i], r)
    decreases j - k
  {
    if ts[k].event.now >= ts[k].before.coros[i].deadline {
      WakesByClock(ts, k, j, i, pageSize);
      return 0;
    }
    ReadySlot(ts, k, i, pageSize);
    QuietResume(ts[k].before.coros[i], ts[k].event.now);
    BlockedTurn(ts, k, i, pageSize);
    if ts[k + 1].before.coros[i] == ts[k].ready[i] {
      r := DueIsAwake(ts, k + 1, j, i, pageSize);
    } else {
      WakesByPoll(ts, k, j, i, pageSize);
      r := ts[k].event.revents[i];
    }
  }

  lemma {:induction false} WaitsJoin(ts: seq<Turn>, k: nat, j: nat, m: nat, i: nat)
    requires k <= j <= m <= |ts| && Waits(ts, k, j, i) && Waits(ts, j, m, i)
    ensures Waits(ts, k, m, i)
    decreases j - k
  {
    if k < j {
      WaitsJoin(ts, k + 1, j, m, i);
    }
  }

  /** A coroutine that a turn left blocked gets control within 16 turns of a reading that has reached the
      deadline it left with. */
  lemma DueIsServed(ts: seq<Turn>, k: nat, j: nat, i: nat, pageSize: nat) returns (m: nat, r: bv16)
    requires pageSize > 0 && Run(ts, pageSize) && k < j && j + MAX_COROS <= |ts| && i < MAX_COROS
    requires Blocked(ts[k].after.coros[i]) && Waits(ts, k + 1, j, i)
    requires ts[j].event.now >= ts[k].after.coros[i].deadline
    ensures j <= m < j + MAX_COROS && ts[m].picked == Some(i) && Waits(ts, k + 1, m, i)
    ensures ts[m].ready[i] == Awake(ts[k].after.coros[i], r)
  {
    Chained(ts, k, pageSize);
    r := DueIsAwake(ts, k + 1, j, i, pageSize);
    m := Fair(ts, j, i, pageSize);
    WaitsJoin(ts, k + 1, j, m, i);
  }

  /** A sleep ends on time: once the clock at the head of a turn has reached `min(start + nanosec, 2^64-1)`,
      the sleeper gets control within 16 turns and goes on behind the sleep. */
  lemma SleepEnds(ts: seq<Turn>, k: nat, j: nat, i: nat, nanosec: u64, next: Script, pageSize: nat) returns (m: nat)
    requires pageSize > 0 && Run(ts, pageSize) && Ended(ts, k, i, Sleep(nanosec, next))
    requires k < j && j + MAX_COROS <= |ts| && Waits(ts, k + 1, j, i)
    requires ts[j].event.now >= Min(ts[k].event.read + nanosec, U64_MAX)
    ensures j <= m < j + MAX_COROS && ts[m].picked == Some(i) && Waits(ts, k + 1, m, i)
    ensures Continue(ts[m].ready[i]).1 == next
  {
    var c := TurnParks(ts, k, i, Sleep(nanosec, next), pageSize);
    var r;
    m, r := DueIsServed(ts, k, j, i, pageSize);
  }

  /** A wait ends on time: once the clock at the head of a turn has reached the end of its timeout, the waiter
      gets control within 16 turns, and goes on as its result says. */
  lemma WaitEnds(
    ts: seq<Turn>, k: nat, j: nat, i: nat,
    sock: int, requested: bv16, nanosec: u64, ready: Script, timedOut: Script, pageSize: nat) returns (m: nat)
    requires pageSize > 0 && Run(ts, pageSize)
    requires Ended(ts, k, i, Wait(sock, requested, nanosec, ready, timedOut))
    requires k < j && j + MAX_COROS <= |ts| && Waits(ts, k + 1, j, i)
    requires ts[j].event.now >= Min(ts[k].event.read + nanosec, U64_MAX)
    ensures j <= m < j + MAX_COROS && ts[m].picked == Some(i) && Waits(ts, k + 1, m, i)
    ensures Continue(ts[m].ready[i]).1
            == if IoResult(ts[m].ready[i].revents, requested) == Success then ready else timedOut
  {
    var c := TurnParks(ts, k, i, Wait(sock, requested, nanosec, ready, timedOut), pageSize);
    var r;
    m, r := DueIsServed(ts, k, j, i, pageSize);
    AwakeContinues(ts[k].after.coros[i], r);
  }

  /** A yield comes back within 16 turns, and the coroutine goes on behind it. */
  lemma YieldReturns(ts: seq<Turn>, k: nat, i: nat, next: Script, pageSize: nat) returns (m: nat)
    requires pageSize > 0 && Run(ts, pageSize) && Ended(ts, k, i, Yield(next)) && k + MAX_COROS < |ts|
    ensures k < m <= k + MAX_COROS && ts[m].picked == Some(i) && Waits(ts, k + 1, m, i)
    ensures Continue(ts[m].ready[i]).1 == next
  {
    var c := TurnParks(ts, k, i, Yield(next), pageSize);
    StillRunnable(ts, k, i, pageSize);
    m := Fair(ts, k + 1, i, pageSize);
  }

  /** A coroutine that returns is gone when the loop chooses next. */
  lemma ReturnFrees(ts: seq<Turn>, k: nat, i: nat, pageSize: nat)
    requires pageSize > 0 && Run(ts, pageSize) && Ended(ts, k, i, Return) && k + 1 < |ts|
    ensures ts[k].after.coros[i].state == EXITED && ts[k + 1].ready[i].state == NULL
  {
    var c := TurnParks(ts, k, i, Return, pageSize);
    HeadOfTurn(ts, k + 1, pageSize);
    Chained(ts, k, pageSize);
  }
}
