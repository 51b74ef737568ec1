/** Coroutines do what their scripts say: a relation that describes the behaviour of a script call by call, and
    the proof that every run follows it. */
module Scripts {
  import opened Basics
  import opened Stacks
  import opened Coroutines
  import opened SchedulerModel
  import opened Lifecycle
  import opened Fairness
  import opened Wakeups

  // One creation, seen from the slots.

  datatype Birth = Birth(slot: nat, child: Script)

  /** A slot that was free is runnable at the beginning of `child`; the others are as they were. */
  predicate Filled(cs: Slots, b: Birth, cs': Slots) {
    && b.slot < MAX_COROS && cs[b.slot].state == NULL && cs'[b.slot].state == RUNNABLE
    && cs'[b.slot].control == Entry(b.child)
    && forall i :: 0 <= i < MAX_COROS && i != b.slot ==> cs'[i] == cs[i]
  }

  /** Free slots are free, and the others as they were. */
  predicate Unfilled(cs: Slots, cs': Slots) {
    forall i :: 0 <= i < MAX_COROS ==> if cs[i].state == NULL then cs'[i].state == NULL else cs'[i] == cs[i]
  }

  predicate Creation(cs: Slots, child: Script, b: Option<Birth>, cs': Slots) {
    match b
    case Some(birth) => birth.child == child && Filled(cs, birth, cs')
    case None => Unfilled(cs, cs')
  }

  /** Started with the slots `cs`, the script makes the creations `births`, each going on as its outcome
      says, and comes to the call `last` with the slots `cs'`. */
  ghost predicate Performs(cs: Slots, sc: Script, births: seq<Option<Birth>>, cs': Slots, last: Script)
    decreases sc
  {
    if sc.Go? then
      && births != []
      && exists mid :: Creation(cs, sc.child, births[0], mid)
                       && Performs(mid, if births[0].Some? then sc.created else sc.failed, births[1..], cs', last)
    else
      births == [] && cs' == cs && last == sc
  }

  lemma SpawnIsCreation(cs: Slots, child: Script, allocs: seq<Alloc>, pageSize: nat) returns (b: Option<Birth>)
    requires pageSize > 0
    ensures Creation(cs, child, b, Spawn(cs, child, allocs, pageSize).cs)
    ensures b.Some? <==> Spawn(cs, child, allocs, pageSize).ok
  {
    var k := FreeSlot(cs, 0);
    b := if Spawn(cs, child, allocs, pageSize).ok then Some(Birth(k, child)) else None;
  }

  lemma GoPerforms(
    cs: Slots, sc: Script, b: Option<Birth>, mid: Slots, rest: seq<Option<Birth>>, cs': Slots, last: Script)
    requires sc.Go? && Creation(cs, sc.child, b, mid)
    requires Performs(mid, if b.Some? then sc.created else sc.failed, rest, cs', last)
    ensures Performs(cs, sc, [b] + rest, cs', last)
  {
    var births := [b] + rest;
    assert births[1..] == rest;
    assert Creation(cs, sc.child, births[0], mid);
  }

  /** Every turn of a coroutine follows its script up to the call at which it gives control back. */
  lemma {:induction false} StopPerforms(cs: Slots, sc: Script, allocs: seq<Alloc>, pageSize: nat)
    returns (births: seq<Option<Birth>>)
    requires pageSize > 0
    ensures Performs(cs, sc, births, Stop(cs, sc, allocs, pageSize).0, Stop(cs, sc, allocs, pageSize).1)
    decreases sc
  {
    births := [];
    if sc.Go? {
      var r := Spawn(cs, sc.child, allocs, pageSize);
      var b := SpawnIsCreation(cs, sc.child, allocs, pageSize);
      var next := if r.ok then sc.created else sc.failed;
      var rest := StopPerforms(r.cs, next, r.rest, pageSize);
      var end := Stop(cs, sc, allocs, pageSize);
      GoPerforms(cs, sc, b, r.cs, rest, end.0, end.1);
      births := [b] + rest;
    }
  }

  // Whole runs.

  /** Turn `k` runs the coroutine in slot `p` from `sc` and makes the creations `births`. */
  ghost predicate RunsScript(ts: seq<Turn>, k: nat, p: nat, sc: Script, births: seq<Option<Birth>>, mid: Slots)
    requires k < |ts| && p < MAX_COROS
  {
    && ts[k].picked == Some(p) && sc == Continue(ts[k].ready[p]).1
    && Performs(ts[k].ready[p := Continue(ts[k].ready[p]).0], sc, births, mid, ts[k].call)
    && ts[k].after.coros == mid[p := ts[k].after.coros[p]]
  }

  lemma TurnFollowsScript(ts: seq<Turn>, k: nat, pageSize: nat)
    returns (p: nat, births: seq<Option<Birth>>, mid: Slots)
    requires pageSize > 0 && Run(ts, pageSize) && k < |ts| && ts[k].event.Ran?
    ensures p < MAX_COROS && RunsScript(ts, k, p, Continue(ts[k].ready[p]).1, births, mid)
    ensures ts[k].ready[p].state == RUNNABLE
  {
    assert TurnAt(ts, k, pageSize);
    ChoiceIsRunnable(ts[k].ready, ts[k].before.fair);
    p := ts[k].picked.value;
    var (c, sc) := Continue(ts[k].ready[p]);
    births := StopPerforms(ts[k].ready[p := c], sc, ts[k].event.allocs, pageSize);
    mid := Stop(ts[k].ready[p := c], sc, ts[k].event.allocs, pageSize).0;
  }

  lemma {:induction false} PerformsKeeps(cs: Slots, sc: Script, births: seq<Option<Birth>>, cs': Slots, last: Script, i: nat)
    requires Performs(cs, sc, births, cs', last) && i < MAX_COROS && cs[i].state != NULL
    ensures cs'[i] == cs[i]
    decreases sc
  {
    if sc.Go? {
      var mid :| Creation(cs, sc.child, births[0], mid)
                 && Performs(mid, if births[0].Some? then sc.created else sc.failed, births[1..], cs', last);
      PerformsKeeps(mid, if births[0].Some? then sc.created else sc.failed, births[1..], cs', last, i);
    }
  }

  lemma {:induction false} BirthLasts(cs: Slots, sc: Script, births: seq<Option<Birth>>, cs': Slots, last: Script, x: nat)
    requires Performs(cs, sc, births, cs', last) && x < |births| && births[x].Some?
    ensures births[x].value.slot < MAX_COROS && cs[births[x].value.slot].state == NULL
    ensures cs'[births[x].value.slot].state == RUNNABLE
    ensures cs'[births[x].value.slot].control == Entry(births[x].value.child)
    decreases sc
  {
    var mid :| Creation(cs, sc.child, births[0], mid)
               && Performs(mid, if births[0].Some? then sc.created else sc.failed, births[1..], cs', last);
    var next := if births[0].Some? then sc.created else sc.failed;
    if x == 0 {
      PerformsKeeps(mid, next, births[1..], cs', last, births[0].value.slot);
    } else {
      BirthLasts(mid, next, births[1..], cs', last, x - 1);
    }
  }

  /** A created coroutine runs the script it was created with: within 16 turns it gets control, and starts at
      the beginning of that script. */
  lemma ChildRuns(ts: seq<Turn>, k: nat, p: nat, sc: Script, births: seq<Option<Birth>>, mid: Slots, x: nat, pageSize: nat)
    returns (m: nat)
    requires pageSize > 0 && Run(ts, pageSize) && k + MAX_COROS < |ts| && p < MAX_COROS
    requires RunsScript(ts, k, p, sc, births, mid) && ts[k].ready[p].state == RUNNABLE
    requires x < |births| && births[x].Some?
    ensures births[x].value.slot < MAX_COROS && k < m <= k + MAX_COROS
    ensures ts[m].picked == Some(births[x].value.slot) && Waits(ts, k + 1, m, births[x].value.slot)
    ensures Continue(ts[m].ready[births[x].value.slot]).1 == births[x].value.child
  {
    var j := births[x].value.slot;
    BirthLasts(ts[k].ready[p := Continue(ts[k].ready[p]).0], sc, births, mid, ts[k].call, x);
    assert j != p;
    StillRunnable(ts, k, j, pageSize);
    m := Fair(ts, k + 1, j, pageSize);
  }

  /** Where a script goes on after a call that gave control back; `revents` are the events it finds. */
  function Resumption(last: Script, revents: bv16): Script
    requires !last.Go? && !last.Return?
  {
    match last
    case Yield(next) => next
    case Sleep(_, next) => next
    case Wait(_, events, _, ready, timedOut) => if IoResult(revents, events) == Success then ready else timedOut
  }

  /** Between two activations a coroutine does nothing and misses nothing: the later one goes on where the
      call that ended the earlier one leads. */
  lemma GoesOn(ts: seq<Turn>, k: nat, m: nat, i: nat, last: Script, pageSize: nat)
    requires pageSize > 0 && Run(ts, pageSize) && Ended(ts, k, i, last) && !last.Go? && !last.Return?
    requires k < m < |ts| && Waits(ts, k + 1, m, i) && ts[m].picked == Some(i)
    ensures Continue(ts[m].ready[i]).1 == Resumption(last, ts[m].ready[i].revents)
  {
    match last
    case Yield(next) =>
      var c := TurnParks(ts, k, i, last, pageSize);
      StillRunnable(ts, k, i, pageSize);
      BoundedWait(ts, k + 1, m, i, pageSize);
    case Sleep(nanosec, next) => SleepNeverEarly(ts, k, m, i, nanosec, next, pageSize);
    case Wait(sock, events, nanosec, ready, timedOut) =>
      var w, rv := IoWaitResult(ts, k, m, i, sock, events, nanosec, ready, timedOut, pageSize);
  }
}
