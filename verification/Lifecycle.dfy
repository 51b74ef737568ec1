/** What every turn of the run loop keeps: the slot invariant, the separation of the stacks, and the life cycle. */
module Lifecycle {
  import opened Basics
  import opened Stacks
  import opened Coroutines
  import opened SchedulerModel

  predicate SameOrEdge(a: State, b: State) {
    a == b || Edge(a, b)
  }

  predicate Advances(cs: Slots, cs': Slots) {
    forall i :: 0 <= i < MAX_COROS ==> SameOrEdge(cs[i].state, cs'[i].state)
  }

  lemma CleanKeepsInv(cs: Slots, pageSize: nat)
    requires pageSize > 0 && Inv(cs, pageSize)
    ensures Inv(Clean(cs), pageSize) && Advances(cs, Clean(cs))
  {
    assert forall i :: 0 <= i < MAX_COROS ==> SlotInv(cs[i], pageSize);
  }

  lemma ResumeKeepsSlot(c: Coroutine, now: u64, revents: bv16, pageSize: nat)
    requires pageSize > 0 && SlotInv(c, pageSize)
    ensures SlotInv(MaybeResume(c, now, revents), pageSize)
    ensures SameOrEdge(c.state, MaybeResume(c, now, revents).state)
    ensures MaybeResume(c, now, revents).stack == c.stack
    ensures MaybeResume(c, now, revents).control == c.control
    ensures c.state == NULL <==> MaybeResume(c, now, revents).state == NULL
  {
  }

  lemma PollResumeKeepsInv(cs: Slots, revents: seq<bv16>, now: u64, pageSize: nat)
    requires pageSize > 0 && Inv(cs, pageSize) && |revents| == MAX_COROS
    ensures Inv(PollResume(cs, revents, now), pageSize) && Advances(cs, PollResume(cs, revents, now))
  {
    forall i | 0 <= i < MAX_COROS
      ensures SlotInv(PollResume(cs, revents, now)[i], pageSize)
      ensures SameOrEdge(cs[i].state, PollResume(cs, revents, now)[i].state)
      ensures PollResume(cs, revents, now)[i].stack == cs[i].stack
      ensures cs[i].state == NULL <==> PollResume(cs, revents, now)[i].state == NULL
    {
      ResumeKeepsSlot(cs[i], now, revents[i], pageSize);
    }
  }

  lemma ExpireIsPollWithoutEvents(cs: Slots, now: u64)
    ensures Expire(cs, now) == PollResume(cs, seq(MAX_COROS, _ => 0), now)
  {
  }

  lemma ExpireKeepsInv(cs: Slots, now: u64, pageSize: nat)
    requires pageSize > 0 && Inv(cs, pageSize)
    ensures Inv(Expire(cs, now), pageSize) && Advances(cs, Expire(cs, now))
  {
    ExpireIsPollWithoutEvents(cs, now);
    PollResumeKeepsInv(cs, seq(MAX_COROS, _ => 0), now, pageSize);
  }

  lemma ReadyKeepsInv(cs: Slots, now: u64, pageSize: nat)
    requires pageSize > 0 && Inv(cs, pageSize)
    ensures Inv(Expire(Clean(cs), now), pageSize)
  {
    CleanKeepsInv(cs, pageSize);
    ExpireKeepsInv(Clean(cs), now, pageSize);
  }

  /** Creation fills a free slot with a runnable coroutine on a fresh stack, or leaves it free. */
  lemma CreateKeepsInv(cs: Slots, k: nat, child: Script, allocs: seq<Alloc>, pageSize: nat)
    requires pageSize > 0 && Inv(cs, pageSize) && k < MAX_COROS && cs[k].state == NULL && ValidScript(child)
    requires allocs != [] && FreshAllocs(cs, allocs, pageSize)
    ensures Inv(cs[k := Init(child, allocs[0], pageSize)], pageSize)
    ensures FreshAllocs(cs[k := Init(child, allocs[0], pageSize)], allocs[1..], pageSize)
  {
    var c := Init(child, allocs[0], pageSize);
    var cs' := cs[k := c];
    assert FreshAt(cs, allocs, 0, pageSize);
    SizeIsLeastMultiple(pageSize);
    assert SlotInv(c, pageSize);
    assert StacksApart(cs');
    forall j | 0 <= j < |allocs[1..]| ensures FreshAt(cs', allocs[1..], j, pageSize) {
      assert FreshAt(cs, allocs, j + 1, pageSize);
    }
  }

  lemma FailedCreateKeepsInv(cs: Slots, k: nat, child: Script, pageSize: nat)
    requires pageSize > 0 && Inv(cs, pageSize) && k < MAX_COROS && cs[k].state == NULL
    ensures Inv(cs[k := Init(child, MmapFailed, pageSize)], pageSize)
  {
  }

  lemma {:induction false} StopIsValid(cs: Slots, sc: Script, allocs: seq<Alloc>, pageSize: nat)
    requires pageSize > 0 && ValidScript(sc)
    ensures ValidScript(Stop(cs, sc, allocs, pageSize).1) && !Stop(cs, sc, allocs, pageSize).1.Go?
    decreases sc
  {
    if sc.Go? {
      var r := Spawn(cs, sc.child, allocs, pageSize);
      StopIsValid(r.cs, if r.ok then sc.created else sc.failed, r.rest, pageSize);
    }
  }

  lemma SpawnKeepsInv(cs: Slots, child: Script, allocs: seq<Alloc>, pageSize: nat)
    requires pageSize > 0 && Inv(cs, pageSize) && FreshAllocs(cs, allocs, pageSize) && ValidScript(child)
    ensures var r := Spawn(cs, child, allocs, pageSize);
            Inv(r.cs, pageSize) && FreshAllocs(r.cs, r.rest, pageSize)
  {
    var k := FreeSlot(cs, 0);
    if k < MAX_COROS && allocs == [] {
      FailedCreateKeepsInv(cs, k, child, pageSize);
    } else if k < MAX_COROS {
      CreateKeepsInv(cs, k, child, allocs, pageSize);
    }
  }

  /** Everything a coroutine does before it gives control back keeps the invariant. */
  lemma {:induction false} StopKeepsInv(cs: Slots, sc: Script, allocs: seq<Alloc>, pageSize: nat)
    requires pageSize > 0 && Inv(cs, pageSize) && ValidScript(sc) && FreshAllocs(cs, allocs, pageSize)
    ensures Inv(Stop(cs, sc, allocs, pageSize).0, pageSize)
    decreases sc
  {
    if sc.Go? {
      var r := Spawn(cs, sc.child, allocs, pageSize);
      SpawnKeepsInv(cs, sc.child, allocs, pageSize);
      StopKeepsInv(r.cs, if r.ok then sc.created else sc.failed, r.rest, pageSize);
    }
  }

  lemma SpawnFrame(cs: Slots, child: Script, allocs: seq<Alloc>, pageSize: nat, j: nat)
    requires pageSize > 0 && j < MAX_COROS
    ensures var r := Spawn(cs, child, allocs, pageSize);
            && (cs[j].state != NULL ==> r.cs[j] == cs[j])
            && (cs[j].state == NULL ==> r.cs[j].state in {NULL, RUNNABLE})
  {
  }

  /** Free slots are filled with runnable coroutines or stay free; the others stay as they are. */
  lemma {:induction false} StopFrame(cs: Slots, sc: Script, allocs: seq<Alloc>, pageSize: nat, j: nat)
    requires pageSize > 0 && j < MAX_COROS
    ensures cs[j].state != NULL ==> Stop(cs, sc, allocs, pageSize).0[j] == cs[j]
    ensures cs[j].state == NULL ==> Stop(cs, sc, allocs, pageSize).0[j].state in {NULL, RUNNABLE}
    decreases sc
  {
    if sc.Go? {
      var r := Spawn(cs, sc.child, allocs, pageSize);
      SpawnFrame(cs, sc.child, allocs, pageSize, j);
      StopFrame(r.cs, if r.ok then sc.created else sc.failed, r.rest, pageSize, j);
    }
  }

  lemma ContinueKeepsInv(cs: Slots, i: nat, pageSize: nat)
    requires pageSize > 0 && Inv(cs, pageSize) && i < MAX_COROS && cs[i].state == RUNNABLE
    ensures var (c, sc) := Continue(cs[i]);
            && Inv(cs[i := c], pageSize) && ValidScript(sc)
            && c.state == RUNNABLE && c.revents == 0 && c.deadline == 0 && c.stack == cs[i].stack
  {
    var (c, sc) := Continue(cs[i]);
    assert SlotInv(cs[i], pageSize);
    assert SlotInv(c, pageSize);
    assert StacksApart(cs[i := c]);
  }

  lemma ParkKeepsSlot(c: Coroutine, sc: Script, read: u64, sp: nat, pageSize: nat)
    requires pageSize > 0 && SlotInv(c, pageSize) && c.state == RUNNABLE && c.revents == 0
    requires ValidScript(sc) && !sc.Go? && c.stack.bottom <= sp < c.stack.top
    ensures SlotInv(Park(c, sc, read, sp), pageSize) && Park(c, sc, read, sp).stack == c.stack
    ensures SameOrEdge(RUNNABLE, Park(c, sc, read, sp).state) && Park(c, sc, read, sp).state != NULL
  {
  }

  /** The slots after the creations of a turn, before the coroutine gives control back. */
  function Created(cs: Slots, i: nat, allocs: seq<Alloc>, pageSize: nat): Slots
    requires pageSize > 0 && i < MAX_COROS
  {
    var (c, sc) := Continue(cs[i]);
    Stop(cs[i := c], sc, allocs, pageSize).0
  }

  /** A turn of one coroutine leaves every other coroutine as it is. */
  lemma ActivateFrame(cs: Slots, i: nat, allocs: seq<Alloc>, read: u64, sp: nat, pageSize: nat, j: nat)
    requires pageSize > 0 && i < MAX_COROS && j < MAX_COROS && j != i && cs[j].state != NULL
    ensures Activate(cs, i, allocs, read, sp, pageSize)[j] == cs[j]
  {
    var (c, sc) := Continue(cs[i]);
    StopFrame(cs[i := c], sc, allocs, pageSize, j);
  }

  lemma CreatedSlot(cs: Slots, i: nat, allocs: seq<Alloc>, pageSize: nat, j: nat)
    requires pageSize > 0 && i < MAX_COROS && cs[i].state == RUNNABLE && j < MAX_COROS
    ensures SameOrEdge(cs[j].state, Created(cs, i, allocs, pageSize)[j].state)
    ensures j == i ==> Created(cs, i, allocs, pageSize)[j] == Continue(cs[i]).0
  {
    var (c, sc) := Continue(cs[i]);
    var before := cs[i := c];
    StopFrame(before, sc, allocs, pageSize, j);
  }

  lemma CreatedAdvances(cs: Slots, i: nat, allocs: seq<Alloc>, pageSize: nat)
    requires pageSize > 0 && i < MAX_COROS && cs[i].state == RUNNABLE
    ensures Advances(cs, Created(cs, i, allocs, pageSize))
    ensures Created(cs, i, allocs, pageSize)[i] == Continue(cs[i]).0
  {
    var cs' := Created(cs, i, allocs, pageSize);
    forall j | 0 <= j < MAX_COROS ensures SameOrEdge(cs[j].state, cs'[j].state) {
      CreatedSlot(cs, i, allocs, pageSize, j);
    }
    CreatedSlot(cs, i, allocs, pageSize, i);
  }

  lemma ReplaceKeepsInv(cs: Slots, i: nat, c: Coroutine, pageSize: nat)
    requires pageSize > 0 && Inv(cs, pageSize) && i < MAX_COROS && SlotInv(c, pageSize)
    requires cs[i].state != NULL && c.stack == cs[i].stack
    ensures Inv(cs[i := c], pageSize)
  {
  }

  lemma ActivateKeepsInv(cs: Slots, i: nat, allocs: seq<Alloc>, read: u64, sp: nat, pageSize: nat)
    requires pageSize > 0 && Inv(cs, pageSize) && i < MAX_COROS && cs[i].state == RUNNABLE
    requires FreshAllocs(cs, allocs, pageSize) && cs[i].stack.bottom <= sp < cs[i].stack.top
    ensures Inv(Activate(cs, i, allocs, read, sp, pageSize), pageSize)
    ensures Advances(Created(cs, i, allocs, pageSize), Activate(cs, i, allocs, read, sp, pageSize))
  {
    var (c, sc) := Continue(cs[i]);
    ContinueKeepsInv(cs, i, pageSize);
    SameStacksFresh(cs, i, c, allocs, pageSize);
    StopKeepsInv(cs[i := c], sc, allocs, pageSize);
    StopIsValid(cs[i := c], sc, allocs, pageSize);
    var (cs', last) := Stop(cs[i := c], sc, allocs, pageSize);
    CreatedAdvances(cs, i, allocs, pageSize);
    ParkKeepsSlot(cs'[i], last, read, sp, pageSize);
    ReplaceKeepsInv(cs', i, Park(cs'[i], last, read, sp), pageSize);
  }

  lemma SameStacksFresh(cs: Slots, i: nat, c: Coroutine, allocs: seq<Alloc>, pageSize: nat)
    requires pageSize > 0 && i < MAX_COROS && FreshAllocs(cs, allocs, pageSize)
    requires c.state == cs[i].state && c.stack == cs[i].stack
    ensures FreshAllocs(cs[i := c], allocs, pageSize)
  {
    var cs' := cs[i := c];
    forall k | 0 <= k < |allocs| ensures FreshAt(cs', allocs, k, pageSize) {
      assert FreshAt(cs, allocs, k, pageSize);
    }
  }

  lemma ChoiceIsRunnable(cs: Slots, fair: nat)
    requires Choice(cs, fair).Some?
    ensures Choice(cs, fair).value < MAX_COROS && cs[Choice(cs, fair).value].state == RUNNABLE
  {
    GapIsFirst(cs, fair, 0);
  }

  lemma TurnKeepsInv(t: Turn, pageSize: nat)
    requires pageSize > 0 && ValidTurn(t, pageSize) && Inv(t.before.coros, pageSize)
    ensures Inv(t.ready, pageSize) && Inv(t.after.coros, pageSize)
  {
    ReadyKeepsInv(t.before.coros, t.event.now, pageSize);
    match t.event
    case Drained(_) =>
    case PollInterrupted(_, _) =>
    case Polled(_, _, revents, after) => PollResumeKeepsInv(t.ready, revents, after, pageSize);
    case Ran(now, allocs, read, sp) =>
      ChoiceIsRunnable(t.ready, t.before.fair);
      ActivateKeepsInv(t.ready, t.picked.value, allocs, read, sp, pageSize);
  }

  lemma TurnKeepsInvAt(ts: seq<Turn>, k: nat, pageSize: nat)
    requires pageSize > 0 && Run(ts, pageSize) && k < |ts| && Inv(ts[k].before.coros, pageSize)
    ensures Inv(ts[k].ready, pageSize) && Inv(ts[k].after.coros, pageSize)
    ensures k + 1 < |ts| ==> ts[k + 1].before == ts[k].after
  {
    assert TurnAt(ts, k, pageSize);
    TurnKeepsInv(ts[k], pageSize);
    if k + 1 < |ts| {
      assert TurnAt(ts, k + 1, pageSize);
    }
  }

  /** The invariant holds at every point of every run. */
  lemma {:induction false} RunKeepsInv(ts: seq<Turn>, k: nat, pageSize: nat)
    requires pageSize > 0 && Run(ts, pageSize) && k < |ts| && Inv(ts[0].before.coros, pageSize)
    ensures Inv(ts[k].before.coros, pageSize) && Inv(ts[k].ready, pageSize) && Inv(ts[k].after.coros, pageSize)
  {
    if k > 0 {
      RunKeepsInv(ts, k - 1, pageSize);
      TurnKeepsInvAt(ts, k - 1, pageSize);
    }
    TurnKeepsInvAt(ts, k, pageSize);
  }

  /** The slots of a turn after the creations of its activation, if there is one. */
  function Made(t: Turn, pageSize: nat): Slots
    requires pageSize > 0
  {
    if t.event.Ran? && t.picked.Some? && t.picked.value < MAX_COROS
    then Created(t.ready, t.picked.value, t.event.allocs, pageSize) else t.ready
  }

  lemma HeadAdvances(t: Turn, pageSize: nat)
    requires pageSize > 0 && ValidTurn(t, pageSize) && Inv(t.before.coros, pageSize)
    ensures Advances(t.before.coros, Clean(t.before.coros)) && Advances(Clean(t.before.coros), t.ready)
  {
    CleanKeepsInv(t.before.coros, pageSize);
    ExpireKeepsInv(Clean(t.before.coros), t.event.now, pageSize);
  }

  lemma ActivationAdvances(t: Turn, pageSize: nat)
    requires pageSize > 0 && ValidTurn(t, pageSize) && Inv(t.ready, pageSize) && t.event.Ran?
    ensures Advances(t.ready, Made(t, pageSize)) && Advances(Made(t, pageSize), t.after.coros)
  {
    ChoiceIsRunnable(t.ready, t.before.fair);
    CreatedAdvances(t.ready, t.picked.value, t.event.allocs, pageSize);
    ActivateKeepsInv(t.ready, t.picked.value, t.event.allocs, t.event.read, t.event.sp, pageSize);
  }

  lemma PollAdvances(t: Turn, pageSize: nat)
    requires pageSize > 0 && ValidTurn(t, pageSize) && Inv(t.ready, pageSize) && !t.event.Ran?
    ensures Advances(t.ready, Made(t, pageSize)) && Advances(Made(t, pageSize), t.after.coros)
  {
    if t.event.Polled? {
      PollResumeKeepsInv(t.ready, t.event.revents, t.event.after, pageSize);
    }
  }

  /** Every change of state in every run - by cleaning, expiry, creation, suspension, exit or poll - is one
      edge of the life cycle NULL - RUNNABLE - (BLOCKED - RUNNABLE)* - EXITED - NULL. */
  lemma LifeCycle(ts: seq<Turn>, k: nat, pageSize: nat)
    requires pageSize > 0 && Run(ts, pageSize) && k < |ts| && Inv(ts[0].before.coros, pageSize)
    ensures Advances(ts[k].before.coros, Clean(ts[k].before.coros)) && Advances(Clean(ts[k].before.coros), ts[k].ready)
    ensures Advances(ts[k].ready, Made(ts[k], pageSize)) && Advances(Made(ts[k], pageSize), ts[k].after.coros)
  {
    RunKeepsInv(ts, k, pageSize);
    assert TurnAt(ts, k, pageSize);
    HeadAdvances(ts[k], pageSize);
    if ts[k].event.Ran? {
      ActivationAdvances(ts[k], pageSize);
    } else {
      PollAdvances(ts[k], pageSize);
    }
  }

  /** Control never arrives at a coroutine that has exited: whoever is chosen has somewhere to continue. */
  lemma NeverReentersExited(ts: seq<Turn>, k: nat, pageSize: nat)
    requires pageSize > 0 && Run(ts, pageSize) && k < |ts| && Inv(ts[0].before.coros, pageSize)
    requires ts[k].event.Ran?
    ensures ts[k].picked.Some? && ts[k].picked.value < MAX_COROS
    ensures ts[k].ready[ts[k].picked.value].state == RUNNABLE && ts[k].ready[ts[k].picked.value].control != Gone
  {
    RunKeepsInv(ts, k, pageSize);
    assert TurnAt(ts, k, pageSize);
    ChoiceIsRunnable(ts[k].ready, ts[k].before.fair);
  }
}
