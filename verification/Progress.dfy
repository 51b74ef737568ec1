/** The run loop makes progress: a lexicographic measure decreases in every turn. */
module Progress {
  import opened Basics
  import opened Stacks
  import opened Coroutines
  import opened SchedulerModel
  import opened Lifecycle
  import opened Fairness
  import opened Polling

  /** How many calls a script can still make, over all outcomes. */
  function Size(s: Script): nat {
    match s
    case Return => 1
    case Yield(n) => 1 + Size(n)
    case Sleep(_, n) => 1 + Size(n)
    case Wait(_, _, _, a, b) => 1 + Size(a) + Size(b)
    case Go(c, a, b) => 1 + Size(c) + Size(a) + Size(b)
  }

  function ControlSize(k: Control): nat {
    match k
    case Gone => 0
    case Entry(s) => Size(s)
    case InYield(s) => Size(s)
    case InTimer(s) => Size(s)
    case InIo(_, _, a, b) => Size(a) + Size(b)
  }

  function Weight(c: Coroutine): nat {
    if c.state == NULL then 0 else ControlSize(c.control)
  }

  function IsLive(c: Coroutine): nat {
    if c.state == NULL then 0 else 1
  }

  function IsBlocked(c: Coroutine): nat {
    if Blocked(c) then 1 else 0
  }

  function Sum(cs: seq<Coroutine>, f: Coroutine -> nat): nat {
    if cs == [] then 0 else f(cs[|cs| - 1]) + Sum(cs[..|cs| - 1], f)
  }

  lemma {:induction false} SumUpdate(cs: seq<Coroutine>, f: Coroutine -> nat, i: nat, c: Coroutine)
    requires i < |cs|
    ensures Sum(cs[i := c], f) + f(cs[i]) == Sum(cs, f) + f(c)
  {
    var n := |cs| - 1;
    if i < n {
      SumUpdate(cs[..n], f, i, c);
      assert cs[i := c][..n] == cs[..n][i := c];
    } else {
      assert cs[i := c][..n] == cs[..n];
    }
  }

  lemma {:induction false} SumGrows(cs: seq<Coroutine>, cs': seq<Coroutine>, f: Coroutine -> nat)
    requires |cs| == |cs'| && forall i :: 0 <= i < |cs| ==> f(cs[i]) <= f(cs'[i])
    ensures Sum(cs, f) <= Sum(cs', f)
    ensures (exists i :: 0 <= i < |cs| && f(cs[i]) < f(cs'[i])) ==> Sum(cs, f) < Sum(cs', f)
  {
    if cs != [] {
      SumGrows(cs[..|cs| - 1], cs'[..|cs| - 1], f);
    }
  }

  /** Calls left, early poll returns left, live coroutines, blocked coroutines, time left on the clock. */
  datatype Measure = Measure(work: nat, patience: nat, live: nat, blocked: nat, time: nat)

  function MeasureOf(s: Sys): Measure {
    Measure(Sum(s.coros, Weight), s.patience, Sum(s.coros, IsLive), Sum(s.coros, IsBlocked), U64_MAX - s.clock)
  }

  predicate Below(a: Measure, b: Measure) {
    || a.work < b.work
    || (a.work == b.work && a.patience < b.patience)
    || (a.work == b.work && a.patience == b.patience && a.live < b.live)
    || (a.work == b.work && a.patience == b.patience && a.live == b.live && a.blocked < b.blocked)
    || (a.work == b.work && a.patience == b.patience && a.live == b.live && a.blocked == b.blocked && a.time < b.time)
  }

  // Cleaning, expiring and polling never add work.

  lemma ReadyIsLess(cs: Slots, now: u64, pageSize: nat)
    requires pageSize > 0 && Inv(cs, pageSize)
    ensures Sum(Expire(Clean(cs), now), Weight) <= Sum(cs, Weight)
    ensures Sum(Expire(Clean(cs), now), IsLive) <= Sum(cs, IsLive)
    ensures Sum(Expire(Clean(cs), now), IsBlocked) <= Sum(cs, IsBlocked)
  {
    var ready := Expire(Clean(cs), now);
    forall i | 0 <= i < MAX_COROS
      ensures Weight(ready[i]) <= Weight(cs[i]) && IsLive(ready[i]) <= IsLive(cs[i]) && IsBlocked(ready[i]) <= IsBlocked(cs[i])
    {
    }
    SumGrows(ready, cs, Weight);
    SumGrows(ready, cs, IsLive);
    SumGrows(ready, cs, IsBlocked);
  }

  lemma ResumeIsLess(c: Coroutine, now: u64, r: bv16)
    ensures Weight(MaybeResume(c, now, r)) == Weight(c) && IsLive(MaybeResume(c, now, r)) == IsLive(c)
    ensures MaybeResume(c, now, r) == c || (IsBlocked(MaybeResume(c, now, r)) == 0 && IsBlocked(c) == 1)
  {
  }

  lemma PollIsLess(cs: Slots, revents: seq<bv16>, now: u64)
    requires |revents| == MAX_COROS
    ensures var cs' := PollResume(cs, revents, now);
            && Sum(cs', Weight) <= Sum(cs, Weight) && Sum(cs', IsLive) <= Sum(cs, IsLive)
            && Sum(cs', IsBlocked) <= Sum(cs, IsBlocked)
            && (cs' != cs ==> Sum(cs', IsBlocked) < Sum(cs, IsBlocked))
  {
    var cs' := PollResume(cs, revents, now);
    forall i | 0 <= i < MAX_COROS
      ensures Weight(cs'[i]) <= Weight(cs[i]) && IsLive(cs'[i]) <= IsLive(cs[i])
      ensures IsBlocked(cs'[i]) <= IsBlocked(cs[i])
      ensures cs'[i] != cs[i] ==> IsBlocked(cs'[i]) < IsBlocked(cs[i])
    {
      ResumeIsLess(cs[i], now, revents[i]);
    }
    SumGrows(cs', cs, Weight);
    SumGrows(cs', cs, IsLive);
    SumGrows(cs', cs, IsBlocked);
  }

  // An activation uses up at least one call.

  lemma SpawnWork(cs: Slots, child: Script, allocs: seq<Alloc>, pageSize: nat)
    requires pageSize > 0
    ensures Sum(Spawn(cs, child, allocs, pageSize).cs, Weight) <= Sum(cs, Weight) + Size(child)
  {
    var k := FreeSlot(cs, 0);
    if k < MAX_COROS {
      SumUpdate(cs, Weight, k, Spawn(cs, child, allocs, pageSize).cs[k]);
    }
  }

  lemma {:induction false} StopWork(cs: Slots, sc: Script, allocs: seq<Alloc>, pageSize: nat)
    requires pageSize > 0
    ensures Sum(Stop(cs, sc, allocs, pageSize).0, Weight) + Size(Stop(cs, sc, allocs, pageSize).1)
         <= Sum(cs, Weight) + Size(sc)
    decreases sc
  {
    if sc.Go? {
      var r := Spawn(cs, sc.child, allocs, pageSize);
      SpawnWork(cs, sc.child, allocs, pageSize);
      StopWork(r.cs, if r.ok then sc.created else sc.failed, r.rest, pageSize);
    }
  }

  lemma ParkWork(c: Coroutine, sc: Script, read: u64, sp: nat)
    requires c.state == RUNNABLE && !sc.Go?
    ensures Weight(Park(c, sc, read, sp)) < Size(sc)
  {
  }

  lemma ActivateWork(cs: Slots, i: nat, allocs: seq<Alloc>, read: u64, sp: nat, pageSize: nat)
    requires pageSize > 0 && i < MAX_COROS && cs[i].state == RUNNABLE && cs[i].control != Gone
    ensures Sum(Activate(cs, i, allocs, read, sp, pageSize), Weight) < Sum(cs, Weight)
  {
    var (c, sc) := Continue(cs[i]);
    SumUpdate(cs, Weight, i, c);
    StopWork(cs[i := c], sc, allocs, pageSize);
    StopIsNotGo(cs[i := c], sc, allocs, pageSize);
    var (cs', last) := Stop(cs[i := c], sc, allocs, pageSize);
    CreatedSlot(cs, i, allocs, pageSize, i);
    ParkWork(cs'[i], last, read, sp);
    SumUpdate(cs', Weight, i, Park(cs'[i], last, read, sp));
    assert Weight(c) >= Size(sc);
  }

  // The clock.

  lemma SomebodyBlocked(cs: Slots)
    requires !NoneLive(cs) && forall j :: 0 <= j < MAX_COROS ==> cs[j].state == NULL || Blocked(cs[j])
    ensures exists i :: 0 <= i < MAX_COROS && Blocked(cs[i])
  {
  }

  /** A full wait that wakes nobody has moved the clock: at its maximum it would have woken everybody. */
  lemma FullWaitMovesClock(cs: Slots, i: nat, asked: u64, revents: seq<bv16>, after: u64)
    requires |revents| == MAX_COROS && i < MAX_COROS && Blocked(cs[i])
    requires PollResume(cs, revents, after) == cs
    requires Elapsed(asked, PollTimeout(PollDeadline(cs, asked), asked), after)
    ensures after > asked
  {
    TimeoutInRange(cs, asked);
    assert PollResume(cs, revents, after)[i] == MaybeResume(cs[i], after, revents[i]);
    assert after < cs[i].deadline;
  }

  lemma PollProgress(t: Turn, pageSize: nat)
    requires pageSize > 0 && ValidTurn(t, pageSize) && t.event.Polled?
    requires forall j :: 0 <= j < MAX_COROS ==> t.ready[j].state == NULL || Blocked(t.ready[j])
    ensures Sum(t.after.coros, Weight) <= Sum(t.ready, Weight) && Sum(t.after.coros, IsLive) <= Sum(t.ready, IsLive)
    ensures Sum(t.after.coros, IsBlocked) <= Sum(t.ready, IsBlocked)
    ensures t.after.patience < t.before.patience
            || (t.after.patience == t.before.patience
                && (Sum(t.after.coros, IsBlocked) < Sum(t.ready, IsBlocked) || t.after.clock > t.before.clock))
  {
    var asked, revents, after := t.event.asked, t.event.revents, t.event.after;
    PollIsLess(t.ready, revents, after);
    if PollResume(t.ready, revents, after) == t.ready && !Spurious(t.ready, asked, revents, after) {
      SomebodyBlocked(t.ready);
      var i :| 0 <= i < MAX_COROS && Blocked(t.ready[i]);
      FullWaitMovesClock(t.ready, i, asked, revents, after);
    }
  }

  lemma DrainIsLess(cs: Slots, ready: Slots)
    requires !NoneLive(cs) && NoneLive(ready)
    ensures Sum(ready, IsLive) < Sum(cs, IsLive)
  {
    var i :| 0 <= i < MAX_COROS && cs[i].state != NULL;
    assert IsLive(ready[i]) < IsLive(cs[i]);
    SumGrows(ready, cs, IsLive);
  }

  /** Every turn of every run decreases the measure, so no run goes on forever. */
  lemma TurnProgress(t: Turn, pageSize: nat)
    requires pageSize > 0 && ValidTurn(t, pageSize) && Inv(t.before.coros, pageSize)
    ensures Below(MeasureOf(t.after), MeasureOf(t.before))
  {
    ReadyIsLess(t.before.coros, t.event.now, pageSize);
    match t.event
    case Drained(_) => DrainIsLess(t.before.coros, t.ready);
    case PollInterrupted(_, _) =>
    case Polled(_, _, _, _) =>
      ReadyIsQuiet(t.before.coros, t.event.now, t.before.fair);
      PollProgress(t, pageSize);
    case Ran(_, allocs, read, sp) =>
      ChoiceIsRunnable(t.ready, t.before.fair);
      ReadyKeepsInv(t.before.coros, t.event.now, pageSize);
      ActivateWork(t.ready, t.picked.value, allocs, read, sp, pageSize);
  }
}
