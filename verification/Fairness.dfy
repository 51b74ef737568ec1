/** Bounded fairness: how long a runnable coroutine can be passed over. */
module Fairness {
  import opened Basics
  import opened Division
  import opened Coroutines
  import opened SchedulerModel
  import opened Lifecycle

  /** How far slot `i` is ahead of the cursor, in cyclic order. */
  function Distance(fair: nat, i: nat): nat
    requires i < MAX_COROS
  {
    Ahead(fair % 16, i)
  }

  function Ahead(from: nat, i: nat): nat
    requires from < 16 && i < 16
  {
    if from <= i then i - from else i + 16 - from
  }

  lemma DistanceLeadsToSlot(fair: nat, i: nat)
    requires i < MAX_COROS
    ensures Distance(fair, i) < MAX_COROS && (fair + Distance(fair, i)) % 16 == i
  {
    var f := fair % 16;
    assert fair == fair / 16 * 16 + f;
    Divides(fair + Distance(fair, i), 16, fair / 16 + (if f <= i then 0 else 1), i);
  }

  lemma DistanceIsUnique(fair: nat, i: nat, d: nat)
    requires i < MAX_COROS && d < MAX_COROS && (fair + d) % 16 == i
    ensures d == Distance(fair, i)
  {
    DistanceLeadsToSlot(fair, i);
    var d' := Distance(fair, i);
    var a, b := (fair + d) / 16, (fair + d') / 16;
    assert fair + d == a * 16 + i && fair + d' == b * 16 + i;
  }

  /** The wrap of the 64-bit cursor is invisible, because 16 divides 2^64. */
  lemma WrapKeepsSlots(x: nat, d: nat)
    ensures (Wrap(x) + d) % 16 == (x + d) % 16
  {
    Coarser(x, 16, 0x1000_0000_0000_0000);
    var y := Wrap(x);
    assert x % 16 == y % 16;
    var a, b := x / 16, y / 16;
    assert x == a * 16 + x % 16 && y == b * 16 + x % 16;
    var q, r := (x + d) / 16, (x + d) % 16;
    Divides(y + d, 16, q - a + b, r);
  }

  /** The search stops at or before any runnable slot. */
  lemma SearchStopsBefore(cs: Slots, fair: nat, i: nat)
    requires i < MAX_COROS && cs[i].state == RUNNABLE
    ensures RunnableGap(cs, fair, 0) <= Distance(fair, i)
  {
    DistanceLeadsToSlot(fair, i);
    GapIsFirst(cs, fair, 0);
    assert !Idle(cs, fair, Distance(fair, i));
  }

  lemma CursorComesCloser(fair: nat, i: nat, g: nat)
    requires i < MAX_COROS && g < Distance(fair, i)
    ensures Distance(Wrap(fair + g + 1), i) == Distance(fair, i) - g - 1
  {
    var d := Distance(fair, i);
    DistanceLeadsToSlot(fair, i);
    WrapKeepsSlots(fair + g + 1, d - g - 1);
    DistanceIsUnique(Wrap(fair + g + 1), i, d - g - 1);
  }

  /** Slot `i` is not picked in any of the turns from `k` up to `m`. */
  predicate Waits(ts: seq<Turn>, k: nat, m: nat, i: nat)
    requires k <= m <= |ts|
    decreases m - k
  {
    k < m ==> ts[k].picked != Some(i) && Waits(ts, k + 1, m, i)
  }

  lemma {:induction false} WaitsAt(ts: seq<Turn>, k: nat, m: nat, i: nat, j: nat)
    requires k <= j < m <= |ts| && Waits(ts, k, m, i)
    ensures ts[j].picked != Some(i) && Waits(ts, k, j, i) && Waits(ts, j, m, i)
    decreases m - k
  {
    if k < j {
      WaitsAt(ts, k + 1, m, i, j);
    }
  }

  lemma {:induction false} WaitsMore(ts: seq<Turn>, k: nat, m: nat, i: nat)
    requires k <= m < |ts| && Waits(ts, k, m, i) && ts[m].picked != Some(i)
    ensures Waits(ts, k, m + 1, i)
    decreases m - k
  {
    if k < m {
      WaitsMore(ts, k + 1, m, i);
    }
  }

  lemma SameOffsetSameSlot(fair: nat, i: nat, j: nat)
    requires i < MAX_COROS && j < MAX_COROS && Distance(fair, i) == Distance(fair, j)
    ensures i == j
  {
  }

  lemma JustPassed(fair: nat, g: nat)
    requires g < MAX_COROS
    ensures Distance(Wrap(fair + g + 1), (fair + g) % 16) == 15
  {
    var p := (fair + g) % 16;
    WrapKeepsSlots(fair + g + 1, 15);
    assert (fair + g + 16) % 16 == p by {
      Divides(fair + g + 16, 16, (fair + g) / 16 + 1, p);
    }
    DistanceIsUnique(Wrap(fair + g + 1), p, 15);
  }

  /** While slot `i` is runnable the search chooses somebody; if it is another one, in slot `p`, then `p`
      stands before `i` in cyclic order and ends up last, and `i` comes closer. */
  lemma ChoiceAhead(cs: Slots, fair: nat, i: nat) returns (p: nat)
    requires i < MAX_COROS && cs[i].state == RUNNABLE && Choice(cs, fair) != Some(i)
    ensures Choice(cs, fair) == Some(p) && p < MAX_COROS && Distance(fair, p) < Distance(fair, i)
    ensures Distance(NextFair(cs, fair), p) == 15
    ensures NextFair(cs, fair) == Wrap(fair + Distance(fair, p) + 1)
    ensures Distance(NextFair(cs, fair), i) == Distance(fair, i) - Distance(fair, p) - 1
  {
    SearchStopsBefore(cs, fair, i);
    DistanceLeadsToSlot(fair, i);
    var g := RunnableGap(cs, fair, 0);
    p := (fair + g) % 16;
    DistanceIsUnique(fair, p, g);
    JustPassed(fair, g);
    if g == Distance(fair, i) {
      SameOffsetSameSlot(fair, p, i);
    }
    CursorComesCloser(fair, i, g);
  }

  /** A runnable coroutine that is not chosen sees another one run, and is left as it is. */
  lemma PassedOver(ts: seq<Turn>, k: nat, i: nat, pageSize: nat) returns (p: nat)
    requires pageSize > 0 && Run(ts, pageSize) && k < |ts| && i < MAX_COROS
    requires ts[k].ready[i].state == RUNNABLE && ts[k].picked != Some(i)
    ensures ts[k].event.Ran? && ts[k].picked == Some(p) && p < MAX_COROS
    ensures Distance(ts[k].before.fair, p) < Distance(ts[k].before.fair, i)
    ensures Distance(ts[k].after.fair, p) == 15
    ensures ts[k].after.fair == Wrap(ts[k].before.fair + Distance(ts[k].before.fair, p) + 1)
    ensures Distance(ts[k].after.fair, i) == Distance(ts[k].before.fair, i) - Distance(ts[k].before.fair, p) - 1
    ensures ts[k].after.coros[i] == ts[k].ready[i]
    ensures k + 1 < |ts| ==> ts[k + 1].before == ts[k].after && ts[k + 1].ready[i] == ts[k].ready[i]
  {
    HeadOfTurn(ts, k, pageSize);
    p := ChoiceAhead(ts[k].ready, ts[k].before.fair, i);
    OthersKept(ts, k, p, i, pageSize);
    if k + 1 < |ts| {
      StillRunnable(ts, k, i, pageSize);
    }
  }

  lemma HeadOfTurn(ts: seq<Turn>, k: nat, pageSize: nat)
    requires pageSize > 0 && Run(ts, pageSize) && k < |ts|
    ensures ts[k].ready == Expire(Clean(ts[k].before.coros), ts[k].event.now)
    ensures ts[k].picked == Choice(ts[k].ready, ts[k].before.fair)
    ensures ts[k].after.fair == NextFair(ts[k].ready, ts[k].before.fair)
    ensures ts[k].picked.Some? <==> ts[k].event.Ran?
  {
    assert TurnAt(ts, k, pageSize);
  }

  lemma Chained(ts: seq<Turn>, k: nat, pageSize: nat)
    requires pageSize > 0 && Run(ts, pageSize) && k + 1 < |ts|
    ensures ts[k + 1].before == ts[k].after
  {
    assert TurnAt(ts, k + 1, pageSize);
  }

  lemma OthersKept(ts: seq<Turn>, k: nat, p: nat, i: nat, pageSize: nat)
    requires pageSize > 0 && Run(ts, pageSize) && k < |ts| && ts[k].event.Ran? && ts[k].picked == Some(p)
    requires i < MAX_COROS && i != p && ts[k].ready[i].state != NULL
    ensures ts[k].after.coros[i] == ts[k].ready[i]
  {
    assert TurnAt(ts, k, pageSize);
    ActivateFrame(ts[k].ready, p, ts[k].event.allocs, ts[k].event.read, ts[k].event.sp, pageSize, i);
  }

  lemma StillRunnable(ts: seq<Turn>, k: nat, i: nat, pageSize: nat)
    requires pageSize > 0 && Run(ts, pageSize) && k + 1 < |ts| && i < MAX_COROS
    requires ts[k].after.coros[i].state == RUNNABLE
    ensures ts[k + 1].before == ts[k].after && ts[k + 1].ready[i] == ts[k].after.coros[i]
  {
    assert TurnAt(ts, k + 1, pageSize);
  }

  /** As long as a runnable coroutine has not been picked, fewer than 16 turns have passed, and the
      coroutine itself is untouched. */
  lemma {:induction false} BoundedWait(ts: seq<Turn>, k: nat, m: nat, i: nat, pageSize: nat)
    requires pageSize > 0 && Run(ts, pageSize) && k <= m < |ts| && i < MAX_COROS
    requires ts[k].ready[i].state == RUNNABLE && Waits(ts, k, m, i)
    ensures ts[m].ready[i] == ts[k].ready[i]
    ensures m - k <= Distance(ts[k].before.fair, i) - Distance(ts[m].before.fair, i)
    decreases m - k
  {
    if k < m {
      var p := PassedOver(ts, k, i, pageSize);
      BoundedWait(ts, k + 1, m, i, pageSize);
    }
  }

  /** A slot that the cursor has just passed stays behind `i` until `i` is picked. */
  lemma {:induction false} StaysBehind(ts: seq<Turn>, k: nat, m: nat, i: nat, p: nat, pageSize: nat)
    requires pageSize > 0 && Run(ts, pageSize) && k <= m < |ts| && i < MAX_COROS && p < MAX_COROS
    requires ts[k].ready[i].state == RUNNABLE && Waits(ts, k, m, i)
    requires Distance(ts[k].before.fair, i) < Distance(ts[k].before.fair, p)
    ensures Distance(ts[m].before.fair, i) < Distance(ts[m].before.fair, p)
    decreases m - k
  {
    if k < m {
      var q := PassedOver(ts, k, i, pageSize);
      CursorComesCloser(ts[k].before.fair, p, Distance(ts[k].before.fair, q));
      StaysBehind(ts, k + 1, m, i, p, pageSize);
    }
  }

  /** No slot is picked twice while a runnable coroutine waits. */
  lemma NobodyTwice(ts: seq<Turn>, k: nat, m: nat, i: nat, a: nat, b: nat, pageSize: nat)
    requires pageSize > 0 && Run(ts, pageSize) && k <= a < b < m <= |ts| && i < MAX_COROS
    requires ts[k].ready[i].state == RUNNABLE && Waits(ts, k, m, i)
    ensures ts[a].event.Ran? && ts[b].event.Ran? && ts[a].picked.Some? && ts[a].picked != ts[b].picked
  {
    WaitsAt(ts, k, m, i, a);
    BoundedWait(ts, k, a, i, pageSize);
    WaitsAt(ts, a, m, i, b);
    var p := PassedOver(ts, a, i, pageSize);
    StaysBehind(ts, a + 1, b, i, p, pageSize);
    BoundedWait(ts, a, b, i, pageSize);
    var q := PassedOver(ts, b, i, pageSize);
  }

  /** A runnable coroutine gets control within 16 turns, as it was when it became runnable. */
  lemma Fair(ts: seq<Turn>, k: nat, i: nat, pageSize: nat) returns (m: nat)
    requires pageSize > 0 && Run(ts, pageSize) && k + MAX_COROS <= |ts| && i < MAX_COROS
    requires ts[k].ready[i].state == RUNNABLE
    ensures k <= m < k + MAX_COROS && ts[m].picked == Some(i)
    ensures Waits(ts, k, m, i) && ts[m].ready[i] == ts[k].ready[i]
  {
    m := FirstPick(ts, k, k + MAX_COROS, i);
    if m == k + MAX_COROS {
      WaitsAt(ts, k, m, i, m - 1);
      BoundedWait(ts, k, m - 1, i, pageSize);
      var p := PassedOver(ts, m - 1, i, pageSize);
    }
    BoundedWait(ts, k, m, i, pageSize);
  }

  /** The end of a run is no exception: in a run that leaves no coroutine, every runnable one is picked before
      the end, within 16 turns. */
  lemma FairToTheEnd(ts: seq<Turn>, k: nat, i: nat, pageSize: nat) returns (m: nat)
    requires pageSize > 0 && Run(ts, pageSize) && k < |ts| && i < MAX_COROS
    requires ts[k].ready[i].state == RUNNABLE && NoneLive(ts[|ts| - 1].after.coros)
    ensures k <= m < |ts| && m < k + MAX_COROS && ts[m].picked == Some(i)
    ensures Waits(ts, k, m, i) && ts[m].ready[i] == ts[k].ready[i]
  {
    m := FirstPick(ts, k, |ts|, i);
    if m == |ts| {
      WaitsAt(ts, k, m, i, m - 1);
      BoundedWait(ts, k, m - 1, i, pageSize);
      var p := PassedOver(ts, m - 1, i, pageSize);
    }
    BoundedWait(ts, k, m, i, pageSize);
  }

  lemma FirstPick(ts: seq<Turn>, k: nat, end: nat, i: nat) returns (m: nat)
    requires k <= end <= |ts|
    ensures k <= m <= end && Waits(ts, k, m, i)
    ensures m < end ==> ts[m].picked == Some(i)
  {
    m := k;
    while m < end && ts[m].picked != Some(i)
      invariant k <= m <= end && Waits(ts, k, m, i)
    {
      WaitsMore(ts, k, m, i);
      m := m + 1;
    }
  }

  // When nobody is chosen.

  predicate AllBlocked(cs: Slots) {
    forall j :: 0 <= j < MAX_COROS ==> cs[j].state == NULL || cs[j].state in {BLOCKED_ON_TIMER, BLOCKED_ON_IO}
  }

  lemma NoChoice(cs: Slots, fair: nat, j: nat)
    requires Choice(cs, fair).None? && j < MAX_COROS
    ensures cs[j].state != RUNNABLE
  {
    if cs[j].state == RUNNABLE {
      var p := ChoiceAhead(cs, fair, j);
    }
  }

  lemma ReadyIsQuiet(cs: Slots, now: u64, fair: nat)
    requires Choice(Expire(Clean(cs), now), fair).None?
    ensures AllBlocked(Expire(Clean(cs), now))
  {
    var ready := Expire(Clean(cs), now);
    forall j | 0 <= j < MAX_COROS ensures ready[j].state == NULL || ready[j].state in {BLOCKED_ON_TIMER, BLOCKED_ON_IO} {
      NoChoice(ready, fair, j);
    }
  }
}
