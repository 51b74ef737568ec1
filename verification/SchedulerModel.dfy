/** The scheduler as a transition system: one step is one turn of the run loop. */
module SchedulerModel {
  import opened Basics
  import opened Clock
  import opened Stacks
  import opened Coroutines

  const MAX_COROS: int := 16
  const DEFAULT_TIMEOUT: u64 := 10_000_000_000
  const NANOS_PER_MILLI: int := 1_000_000
  const INT_MAX: int := 0x7fff_ffff

  type Slots = cs: seq<Coroutine> | |cs| == MAX_COROS witness seq(MAX_COROS, _ => ZERO)

  function Clean(cs: Slots): Slots {
    seq(MAX_COROS, i requires 0 <= i < MAX_COROS => Finish(cs[i]))
  }

  function Expire(cs: Slots, now: u64): Slots {
    seq(MAX_COROS, i requires 0 <= i < MAX_COROS => MaybeResume(cs[i], now, 0))
  }

  function PollResume(cs: Slots, revents: seq<bv16>, now: u64): Slots
    requires |revents| == MAX_COROS
  {
    seq(MAX_COROS, i requires 0 <= i < MAX_COROS => MaybeResume(cs[i], now, revents[i]))
  }

  predicate Idle(cs: Slots, start: nat, k: nat) {
    cs[(start + k) % 16].state != RUNNABLE
  }

  /** How many slots precede the first runnable one in cyclic order from `start`; 16 when none is. */
  function RunnableGap(cs: Slots, start: nat, k: nat): (r: nat)
    requires k <= MAX_COROS
    ensures k <= r <= MAX_COROS
    decreases |cs| - k
  {
    if k == MAX_COROS || !Idle(cs, start, k) then k else RunnableGap(cs, start, k + 1)
  }

  /** The search finds the first runnable slot, or none because there is none. */
  lemma {:induction false} GapIsFirst(cs: Slots, start: nat, k: nat)
    requires k <= MAX_COROS
    ensures forall j :: k <= j < RunnableGap(cs, start, k) ==> Idle(cs, start, j)
    ensures RunnableGap(cs, start, k) < MAX_COROS ==> !Idle(cs, start, RunnableGap(cs, start, k))
    decreases |cs| - k
  {
    if k < MAX_COROS && Idle(cs, start, k) {
      GapIsFirst(cs, start, k + 1);
    }
  }

  predicate NoneLive(cs: Slots) {
    forall i :: 0 <= i < MAX_COROS ==> cs[i].state == NULL
  }

  // The poll request.

  /** The earliest instant that anything waits for, no later than the default. */
  function Earliest(cs: Slots, default: u64, k: nat): (r: u64)
    requires k <= MAX_COROS
    decreases |cs|, k
  {
    if k == 0 then default
    else
      var d := Earliest(cs, default, k - 1);
      if cs[k - 1].state in {BLOCKED_ON_TIMER, BLOCKED_ON_IO} && cs[k - 1].deadline < d then cs[k - 1].deadline else d
  }

  function PollDeadline(cs: Slots, now: u64): u64 {
    Earliest(cs, SatAdd(now, DEFAULT_TIMEOUT), MAX_COROS)
  }

  /** The timeout of the poll call, in milliseconds. */
  function PollTimeout(deadline: u64, now: u64): nat {
    var wait64 := (if deadline > now then deadline - now else 0) / 1_000_000 + 1;
    if wait64 < INT_MAX then wait64 else INT_MAX
  }

  datatype PollFd = PollFd(fd: int, events: bv16, revents: bv16)

  function PollFds(cs: Slots): seq<PollFd> {
    seq(MAX_COROS, i requires 0 <= i < MAX_COROS =>
      if cs[i].state == BLOCKED_ON_IO then PollFd(cs[i].sock, cs[i].events, 0) else PollFd(0, 0, 0))
  }

  /** What poll reported for each entry. */
  function Answers(fds: seq<PollFd>): seq<bv16> {
    seq(|fds|, i requires 0 <= i < |fds| => fds[i].revents)
  }

  // One turn of a coroutine: from getting control to giving it back.

  function FreeSlot(cs: Slots, k: nat): (r: nat)
    requires k <= MAX_COROS
    ensures k <= r <= MAX_COROS
    ensures forall j :: k <= j < r ==> cs[j].state != NULL
    ensures r < MAX_COROS ==> cs[r].state == NULL
    decreases |cs| - k
  {
    if k == MAX_COROS || cs[k].state == NULL then k else FreeSlot(cs, k + 1)
  }

  /** The outcome of one creation: the slots, whether it succeeded, and the allocations still to come. */
  datatype Spawned = Spawned(cs: Slots, ok: bool, rest: seq<Alloc>)

  function Spawn(cs: Slots, child: Script, allocs: seq<Alloc>, pageSize: nat): Spawned
    requires pageSize > 0
  {
    var k := FreeSlot(cs, 0);
    if k == MAX_COROS then Spawned(cs, false, allocs)
    else if allocs == [] then Spawned(cs[k := Init(child, MmapFailed, pageSize)], false, [])
    else Spawned(cs[k := Init(child, allocs[0], pageSize)], allocs[0].Allocated?, allocs[1..])
  }

  /** The call at which a coroutine that continues with `sc` gives control back, with the slots at that
      point. `allocs` tells how the stack allocations on the way go. */
  function Stop(cs: Slots, sc: Script, allocs: seq<Alloc>, pageSize: nat): (Slots, Script)
    requires pageSize > 0
    decreases sc
  {
    match sc
    case Go(child, created, failed) =>
      var r := Spawn(cs, child, allocs, pageSize);
      Stop(r.cs, if r.ok then created else failed, r.rest, pageSize)
    case _ => (cs, sc)
  }

  /** How the call that gives control back leaves the slot. */
  function Park(c: Coroutine, sc: Script, read: u64, sp: nat): Coroutine
    requires !sc.Go?
  {
    match sc
    case Return => c.(state := EXITED, control := Gone, sp := sp)
    case Yield(n) => c.(control := InYield(n), sp := sp)
    case Sleep(ns, n) => SuspendTimer(c, SatAdd(read, ns)).(control := InTimer(n), sp := sp)
    case Wait(sock, events, ns, a, b) =>
      SuspendIo(c, sock, events, SatAdd(read, ns)).(control := InIo(sock, events, a, b), sp := sp)
  }

  lemma StopIsNotGo(cs: Slots, sc: Script, allocs: seq<Alloc>, pageSize: nat)
    requires pageSize > 0
    ensures !Stop(cs, sc, allocs, pageSize).1.Go?
    decreases sc
  {
  }

  function Burst(cs: Slots, i: nat, sc: Script, allocs: seq<Alloc>, read: u64, sp: nat, pageSize: nat): Slots
    requires pageSize > 0 && i < MAX_COROS
  {
    StopIsNotGo(cs, sc, allocs, pageSize);
    var (cs', last) := Stop(cs, sc, allocs, pageSize);
    cs'[i := Park(cs'[i], last, read, sp)]
  }

  /** A whole activation of the coroutine in slot `i`. */
  function Activate(cs: Slots, i: nat, allocs: seq<Alloc>, read: u64, sp: nat, pageSize: nat): Slots
    requires pageSize > 0 && i < MAX_COROS
  {
    var (c, sc) := Continue(cs[i]);
    Burst(cs[i := c], i, sc, allocs, read, sp, pageSize)
  }

  /** The call that ended the turn of slot `i`. */
  function LastCall(cs: Slots, i: nat, allocs: seq<Alloc>, pageSize: nat): Script
    requires pageSize > 0 && i < MAX_COROS
  {
    var (c, sc) := Continue(cs[i]);
    Stop(cs[i := c], sc, allocs, pageSize).1
  }

  // The transition system.

  /** The state at the head of the run loop. `clock` is a lower bound for every later clock reading;
      `patience` bounds how often poll may still come back early without waking anyone. */
  datatype Sys = Sys(coros: Slots, fair: u64, clock: u64, patience: nat)

  /** What the environment did during one turn of the loop: the clock readings it delivered, how poll
      came back, and how the stack allocations of the running coroutine went. */
  datatype Event =
    | Drained(now: u64)
    | PollInterrupted(now: u64, asked: u64)
    | Polled(now: u64, asked: u64, revents: seq<bv16>, after: u64)
    | Ran(now: u64, allocs: seq<Alloc>, read: u64, sp: nat)

  /** The slot that the search from `fair` chooses, and the cursor after it: the search inspects the
      chosen slot last, or all of them in vain. */
  function Choice(cs: Slots, fair: nat): Option<nat> {
    var g := RunnableGap(cs, fair, 0);
    if g < MAX_COROS then Some((fair + g) % 16) else None
  }

  function NextFair(cs: Slots, fair: nat): u64 {
    var g := RunnableGap(cs, fair, 0);
    Wrap(fair + (if g < MAX_COROS then g + 1 else MAX_COROS))
  }

  predicate Elapsed(asked: u64, timeout: nat, after: u64) {
    after >= Min(asked + timeout * NANOS_PER_MILLI, U64_MAX)
  }

  /** Poll came back before its timeout and woke nobody. */
  predicate Spurious(cs: Slots, asked: u64, revents: seq<bv16>, after: u64)
    requires |revents| == MAX_COROS
  {
    PollResume(cs, revents, after) == cs && !Elapsed(asked, PollTimeout(PollDeadline(cs, asked), asked), after)
  }

  /** New stacks are page aligned and overlap neither each other nor the stacks in use. */
  ghost predicate FreshAllocs(cs: Slots, allocs: seq<Alloc>, pageSize: nat)
    requires pageSize > 0
  {
    forall k :: 0 <= k < |allocs| ==> FreshAt(cs, allocs, k, pageSize)
  }

  ghost predicate FreshAt(cs: Slots, allocs: seq<Alloc>, k: nat, pageSize: nat)
    requires pageSize > 0 && k < |allocs|
  {
    allocs[k].Allocated? ==>
      && allocs[k].base > 0 && allocs[k].base % pageSize == 0
      && (forall i :: 0 <= i < MAX_COROS && cs[i].state != NULL ==>
            Disjoint(RegionOf(StackAt(allocs[k].base, pageSize)), RegionOf(cs[i].stack)))
      && (forall j :: 0 <= j < k && allocs[j].Allocated? ==>
            Disjoint(RegionOf(StackAt(allocs[k].base, pageSize)), RegionOf(StackAt(allocs[j].base, pageSize))))
  }

  /** One turn of the run loop: the state at its head, the slots after cleaning and expiring, the slot
      that was chosen, what the environment did, the call by which the coroutine gave control back if one
      ran, and the state at the next head. */
  datatype Turn = Turn(before: Sys, ready: Slots, picked: Option<nat>, event: Event, call: Script, after: Sys)

  ghost predicate ValidTurn(t: Turn, pageSize: nat)
    requires pageSize > 0
  {
    && !NoneLive(t.before.coros)
    && t.before.clock <= t.event.now
    && t.ready == Expire(Clean(t.before.coros), t.event.now)
    && t.picked == Choice(t.ready, t.before.fair)
    && t.after.fair == NextFair(t.ready, t.before.fair)
    && Acts(t.ready, t.picked, t.before.patience, t.event, t.call, t.after, pageSize)
  }

  /** What follows the choice: the loop ends, waits, or runs the coroutine it has picked. */
  ghost predicate Acts(cs: Slots, picked: Option<nat>, patience: nat, event: Event, call: Script, after: Sys, pageSize: nat)
    requires pageSize > 0
  {
    match event
    case Drained(now) =>
      && picked.None? && NoneLive(cs)
      && after.coros == cs && after.clock == now && after.patience == patience
    case PollInterrupted(now, asked) =>
      && picked.None? && !NoneLive(cs) && now <= asked && patience > 0
      && after.coros == cs && after.clock == asked && after.patience == patience - 1
    case Polled(now, asked, revents, end) =>
      && picked.None? && !NoneLive(cs) && now <= asked <= end && |revents| == MAX_COROS
      && after.coros == PollResume(cs, revents, end) && after.clock == end && after.patience <= patience
      && (Spurious(cs, asked, revents, end) ==> after.patience < patience)
    case Ran(now, allocs, read, sp) =>
      && picked.Some? && picked.value < MAX_COROS && now <= read && FreshAllocs(cs, allocs, pageSize)
      && cs[picked.value].stack.bottom <= sp < cs[picked.value].stack.top
      && after.coros == Activate(cs, picked.value, allocs, read, sp, pageSize)
      && call == LastCall(cs, picked.value, allocs, pageSize)
      && after.clock == read && after.patience == patience
  }

  /** A run: every turn is one that the environment may take, and starts where the one before ended. */
  ghost predicate Run(ts: seq<Turn>, pageSize: nat)
    requires pageSize > 0
  {
    forall k :: 0 <= k < |ts| ==> TurnAt(ts, k, pageSize)
  }

  ghost predicate TurnAt(ts: seq<Turn>, k: nat, pageSize: nat)
    requires pageSize > 0 && k < |ts|
  {
    ValidTurn(ts[k], pageSize) && (k > 0 ==> ts[k - 1].after == ts[k].before)
  }

  // What the environment saw of a turn.

  datatype Observed =
    | Reading(time: u64)
    | PollCall(request: seq<PollFd>, timeout: nat, answer: Option<seq<bv16>>)

  /** The poll call that a turn makes when it has read the clock at `asked`. */
  function PollOf(cs: Slots, asked: u64, answer: Option<seq<bv16>>): Observed {
    PollCall(PollFds(cs), PollTimeout(PollDeadline(cs, asked), asked), answer)
  }

  /** The clock readings and the poll call of a turn, with what came back. */
  function Observations(t: Turn): seq<Observed> {
    [Reading(t.event.now)] + Later(t.ready, t.event, t.call)
  }

  /** What comes after the reading at the head of the turn. */
  function Later(cs: Slots, event: Event, call: Script): seq<Observed> {
    match event
    case Drained(_) => []
    case PollInterrupted(_, asked) => [Reading(asked), PollOf(cs, asked, None)]
    case Polled(_, asked, revents, after) => [Reading(asked), PollOf(cs, asked, Some(revents)), Reading(after)]
    case Ran(_, _, read, _) => ReadingOf(call, read)
  }

  /** The reading that a call makes before it suspends. */
  function ReadingOf(call: Script, read: u64): seq<Observed> {
    if call.Sleep? || call.Wait? then [Reading(read)] else []
  }

  function AllObservations(ts: seq<Turn>): seq<Observed> {
    if ts == [] then [] else AllObservations(ts[..|ts| - 1]) + Observations(ts[|ts| - 1])
  }

  /** The calls that unmap the stacks of the exited slots below `k`. */
  function FreeCalls(cs: Slots, k: nat): seq<MemoryCall>
    requires k <= MAX_COROS
    decreases |cs|, k
  {
    if k == 0 then []
    else FreeCalls(cs, k - 1) + (if cs[k - 1].state == EXITED then [UnmapCall(cs[k - 1].stack.base, cs[k - 1].stack.size)] else [])
  }

  function CreateCalls(allocs: seq<Alloc>, pageSize: nat): seq<MemoryCall>
    requires pageSize > 0
  {
    if allocs == [] then [] else AllocCalls(allocs[0], pageSize) + CreateCalls(allocs[1..], pageSize)
  }

  /** The calls on the address space of a turn. */
  function MemoryCalls(t: Turn, pageSize: nat): seq<MemoryCall>
    requires pageSize > 0
  {
    FreeCalls(t.before.coros, MAX_COROS) + NewCalls(t.event, pageSize)
  }

  function NewCalls(event: Event, pageSize: nat): seq<MemoryCall>
    requires pageSize > 0
  {
    if event.Ran? then CreateCalls(event.allocs, pageSize) else []
  }

  function AllMemoryCalls(ts: seq<Turn>, pageSize: nat): seq<MemoryCall>
    requires pageSize > 0
  {
    if ts == [] then [] else AllMemoryCalls(ts[..|ts| - 1], pageSize) + MemoryCalls(ts[|ts| - 1], pageSize)
  }

  predicate Inv(cs: Slots, pageSize: nat)
    requires pageSize > 0
  {
    && (forall i :: 0 <= i < MAX_COROS ==> SlotInv(cs[i], pageSize))
    && StacksApart(cs)
  }

  predicate StacksApart(cs: Slots) {
    forall i, j :: 0 <= i < j < MAX_COROS && cs[i].state != NULL && cs[j].state != NULL ==>
      Disjoint(RegionOf(cs[i].stack), RegionOf(cs[j].stack))
  }

  /** The mappings that the live slots account for. */
  ghost function StacksOf(cs: Slots): set<Region> {
    set i | 0 <= i < MAX_COROS && cs[i].state != NULL :: RegionOf(cs[i].stack)
  }
}
