/** The poll request: how long the scheduler asks to wait, and what a full wait achieves. */
module Polling {
  import opened Basics
  import opened Clock
  import opened Coroutines
  import opened SchedulerModel

  predicate Blocked(c: Coroutine) {
    c.state in {BLOCKED_ON_TIMER, BLOCKED_ON_IO}
  }

  /** The scan over the slots finds the minimum of the default and the deadlines of all blocked coroutines. */
  lemma {:induction false} EarliestIsMinimum(cs: Slots, default: u64, k: nat)
    requires k <= MAX_COROS
    ensures Earliest(cs, default, k) <= default
    ensures forall i :: 0 <= i < k && Blocked(cs[i]) ==> Earliest(cs, default, k) <= cs[i].deadline
    ensures Earliest(cs, default, k) == default
            || exists i :: 0 <= i < k && Blocked(cs[i]) && Earliest(cs, default, k) == cs[i].deadline
    decreases |cs|, k
  {
    if k > 0 {
      EarliestIsMinimum(cs, default, k - 1);
    }
  }

  /** The timeout stays between 1 and 10001 milliseconds, so the clamp to `int` never acts. */
  lemma TimeoutInRange(cs: Slots, now: u64)
    ensures 1 <= PollTimeout(PollDeadline(cs, now), now) <= 10_001 < INT_MAX
  {
    EarliestIsMinimum(cs, SatAdd(now, DEFAULT_TIMEOUT), MAX_COROS);
  }

  /** The requested wait reaches the chosen deadline and passes it by at most one millisecond. */
  lemma WaitIsTight(cs: Slots, now: u64)
    ensures var d := PollDeadline(cs, now);
            var end := now + PollTimeout(d, now) * NANOS_PER_MILLI;
            end > d && (d >= now ==> end - d <= NANOS_PER_MILLI)
  {
    TimeoutInRange(cs, now);
  }

  /** Once the requested time has passed, every coroutine waiting for the chosen deadline becomes runnable. */
  lemma FullWaitReachesDeadline(cs: Slots, asked: u64, revents: seq<bv16>, after: u64, i: nat)
    requires |revents| == MAX_COROS && i < MAX_COROS
    requires Blocked(cs[i]) && cs[i].deadline == PollDeadline(cs, asked)
    requires Elapsed(asked, PollTimeout(PollDeadline(cs, asked), asked), after)
    ensures PollResume(cs, revents, after)[i].state == RUNNABLE
  {
    WaitIsTight(cs, asked);
  }

  lemma FirstDeadlineIsChosen(cs: Slots, asked: u64, i: nat)
    requires i < MAX_COROS && Blocked(cs[i]) && cs[i].deadline <= asked + DEFAULT_TIMEOUT
    requires forall j :: 0 <= j < MAX_COROS && Blocked(cs[j]) ==> cs[i].deadline <= cs[j].deadline
    ensures PollDeadline(cs, asked) == cs[i].deadline
  {
    EarliestIsMinimum(cs, SatAdd(asked, DEFAULT_TIMEOUT), MAX_COROS);
  }

  /** A full wait wakes the coroutine with the earliest deadline whenever that is within ten seconds. */
  lemma FullWaitWakesEarliest(cs: Slots, asked: u64, revents: seq<bv16>, after: u64, i: nat)
    requires |revents| == MAX_COROS && i < MAX_COROS
    requires Blocked(cs[i]) && cs[i].deadline <= asked + DEFAULT_TIMEOUT
    requires forall j :: 0 <= j < MAX_COROS && Blocked(cs[j]) ==> cs[i].deadline <= cs[j].deadline
    requires Elapsed(asked, PollTimeout(PollDeadline(cs, asked), asked), after)
    ensures PollResume(cs, revents, after)[i].state == RUNNABLE
  {
    FirstDeadlineIsChosen(cs, asked, i);
    FullWaitReachesDeadline(cs, asked, revents, after, i);
  }
}
