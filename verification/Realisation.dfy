/** The scheduler's runs on the machine: the cleanings, creations and activations of every turn are steps that
    the world of many stacks can take, and a coroutine continues on the machine where its slot says. */
module Realisation {
  import opened Basics
  import opened Stacks
  import opened Coroutines
  import opened SchedulerModel
  import opened Lifecycle
  import opened Fairness
  import opened Entry
  import A = Amd64
  import C = Contexts
  import S = Switch

  predicate HasContext(cs: Slots, id: nat) {
    id < C.CONTEXTS && (id == C.SCHEDULER || cs[id - 1].state != NULL)
  }

  /** The stacks that the slots account for, next to the scheduler's own. */
  function LiveOf(cs: Slots, own: C.Range): map<nat, C.Range> {
    map id: nat | id < C.CONTEXTS && HasContext(cs, id) :: if id == C.SCHEDULER then own else UsableOf(cs[id - 1].stack)
  }

  function UsableOf(s: Stack): C.Range {
    C.Range(s.bottom, s.top)
  }

  /** The machine agrees with the slots: their stacks are the live ones, and the saved pointers are theirs. */
  ghost predicate Mirrors(w: C.World, cs: Slots, own: C.Range) {
    && C.Inv(w) && w.live == LiveOf(cs, own)
    && forall i :: 0 <= i < MAX_COROS && cs[i].state != NULL && w.running != i + 1 ==> A.Read(w.m.mem, w.cells[i + 1]) == cs[i].sp
  }

  predicate AtRest(w: C.World) {
    w.running == C.SCHEDULER && w.current.None?
  }

  /** What the slots cannot tell: the scheduler has room for a frame, new stacks overlap neither its stack
      nor the saved pointers, and a coroutine that gives control back has room for a frame. */
  predicate Roomy(own: C.Range) {
    own.lo + 56 <= own.hi
  }

  predicate Clear(a: Alloc, own: C.Range, cells: seq<int>, pageSize: nat)
    requires pageSize > 0
  {
    a.Allocated? ==>
      && C.Apart(own, Usable(a.base, pageSize))
      && forall i :: 0 <= i < |cells| ==> C.Outside(cells[i], Usable(a.base, pageSize))
  }

  predicate AllClear(allocs: seq<Alloc>, own: C.Range, cells: seq<int>, pageSize: nat)
    requires pageSize > 0
  {
    forall k :: 0 <= k < |allocs| ==> Clear(allocs[k], own, cells, pageSize)
  }

  predicate Plausible(t: Turn, own: C.Range, cells: seq<int>, pageSize: nat)
    requires pageSize > 0
  {
    t.event.Ran? && t.picked.Some? && t.picked.value < MAX_COROS ==>
      && t.event.sp + 56 <= t.ready[t.picked.value].stack.top
      && AllClear(t.event.allocs, own, cells, pageSize)
  }

  // A stretch of a history during which one context runs.

  datatype Film = Film(ws: seq<C.World>, actions: seq<C.Action>)

  ghost predicate Scene(f: Film, first: C.World, last: C.World, who: nat, ids: set<nat>) {
    && C.History(f.ws, f.actions) && f.ws[0] == first && f.ws[|f.actions|] == last && last.cells == first.cells
    && forall j :: 0 <= j < |f.ws| ==> Shows(f.ws[j], who, ids)
  }

  /** `who` runs, and the contexts `ids` exist. */
  predicate Shows(w: C.World, who: nat, ids: set<nat>) {
    w.running == who && ids <= w.live.Keys
  }

  function Still(w: C.World): Film {
    Film([w], [])
  }

  lemma StillScene(w: C.World, ids: set<nat>)
    requires C.Inv(w) && ids <= w.live.Keys
    ensures Scene(Still(w), w, w, w.running, ids)
  {
  }

  function Snoc(f: Film, a: C.Action, w: C.World): Film {
    Film(f.ws + [w], f.actions + [a])
  }

  lemma SnocScene(f: Film, first: C.World, w: C.World, who: nat, ids: set<nat>, a: C.Action, w': C.World)
    requires Scene(f, first, w, who, ids) && C.Next(w, a, w') && Shows(w', who, ids)
    ensures Scene(Snoc(f, a, w'), first, w', who, ids)
  {
    var g := Snoc(f, a, w');
    forall k | 0 <= k < |g.actions| ensures C.StepAt(g.ws, g.actions, k) {
      if k < |f.actions| {
        assert C.StepAt(f.ws, f.actions, k);
      }
    }
  }

  // Steps and what they do to the slots.

  /** The world as it is when the running code has just called a routine with these arguments. */
  function Calling(w: C.World, entry: int, rsp: int, rdi: int, rsi: int, rdx: int): C.World {
    w.(m := w.m.(rip := entry, rsp := rsp, rdi := rdi, rsi := rsi, rdx := rdx))
  }

  lemma CallingIsCompute(w: C.World, entry: int, rsp: int, rdi: int, rsi: int, rdx: int)
    requires C.Inv(w)
    ensures C.Next(w, C.Compute, Calling(w, entry, rsp, rdi, rsi, rdx))
    ensures C.Inv(Calling(w, entry, rsp, rdi, rsi, rdx))
  {
    C.NextKeepsInv(w, C.Compute, Calling(w, entry, rsp, rdi, rsi, rdx));
  }

  lemma LiveRemove(cs: Slots, own: C.Range, k: nat)
    requires k < MAX_COROS && cs[k].state == EXITED
    ensures LiveOf(cs[k := ZERO], own) == LiveOf(cs, own) - {k + 1}
  {
  }

  lemma LiveSame(cs: Slots, cs': Slots, own: C.Range)
    requires forall i :: 0 <= i < MAX_COROS ==> cs'[i].stack == cs[i].stack && (cs'[i].state == NULL <==> cs[i].state == NULL)
    ensures LiveOf(cs', own) == LiveOf(cs, own)
  {
  }

  lemma LiveAdd(cs: Slots, own: C.Range, k: nat, c: Coroutine)
    requires k < MAX_COROS && cs[k].state == NULL
    ensures LiveOf(cs[k := c], own) == if c.state == NULL then LiveOf(cs, own) else LiveOf(cs, own)[k + 1 := UsableOf(c.stack)]
  {
  }

  /** The cleaning of an exited slot retires its context. */
  lemma RetireStep(w: C.World, cs: Slots, own: C.Range, k: nat) returns (w': C.World)
    requires Mirrors(w, cs, own) && AtRest(w) && k < MAX_COROS && cs[k].state == EXITED
    ensures C.Next(w, C.Retire(k + 1), w') && Mirrors(w', cs[k := ZERO], own) && AtRest(w')
    ensures w'.live == w.live - {k + 1}
  {
    w' := w.(live := w.live - {k + 1});
    C.NextKeepsInv(w, C.Retire(k + 1), w');
    LiveRemove(cs, own, k);
  }

  lemma RetireScene(f: Film, first: C.World, w: C.World, cs: Slots, cs': Slots, own: C.Range, k: nat, ids: set<nat>)
    returns (f': Film, w': C.World)
    requires Scene(f, first, w, C.SCHEDULER, ids) && Mirrors(w, cs, own) && AtRest(w)
    requires k < MAX_COROS && cs[k].state == EXITED && k + 1 !in ids && cs' == cs[k := ZERO]
    ensures Scene(f', first, w', C.SCHEDULER, ids) && Mirrors(w', cs', own) && AtRest(w')
  {
    w' := RetireStep(w, cs, own, k);
    SnocScene(f, first, w, C.SCHEDULER, ids, C.Retire(k + 1), w');
    f' := Snoc(f, C.Retire(k + 1), w');
  }

  /** The slots below `k` are clean, and no exited one is among `ids`. */
  predicate Cleaning(cs: Slots, k: nat, ids: set<nat>) {
    && (forall i :: 0 <= i < MAX_COROS && cs[i].state == EXITED ==> i + 1 !in ids)
    && (forall i :: 0 <= i < k && i < MAX_COROS ==> cs[i].state != EXITED)
  }

  lemma CleanOne(cs: Slots, k: nat, ids: set<nat>) returns (cs': Slots)
    requires k < MAX_COROS && Cleaning(cs, k, ids)
    ensures cs' == if cs[k].state == EXITED then cs[k := ZERO] else cs
    ensures Clean(cs') == Clean(cs) && Cleaning(cs', k + 1, ids)
  {
    cs' := if cs[k].state == EXITED then cs[k := ZERO] else cs;
  }

  lemma CleanNothing(cs: Slots, ids: set<nat>)
    requires Cleaning(cs, MAX_COROS, ids)
    ensures Clean(cs) == cs
  {
  }

  lemma {:induction false} CleanScene(f: Film, first: C.World, w: C.World, cs: Slots, own: C.Range, k: nat, ids: set<nat>)
    returns (f': Film, w': C.World)
    requires k <= MAX_COROS && Scene(f, first, w, C.SCHEDULER, ids) && Mirrors(w, cs, own) && AtRest(w)
    requires Cleaning(cs, k, ids)
    ensures Scene(f', first, w', C.SCHEDULER, ids) && Mirrors(w', Clean(cs), own) && AtRest(w')
    decreases |cs| - k
  {
    if k == MAX_COROS {
      CleanNothing(cs, ids);
      return f, w;
    }
    var cs' := CleanOne(cs, k, ids);
    f', w' := f, w;
    if cs[k].state == EXITED {
      f', w' := RetireScene(f, first, w, cs, cs', own, k, ids);
    }
    f', w' := CleanScene(f', first, w', cs', own, k + 1, ids);
  }

  /** The machine sees of a slot its stack, its saved pointer and whether it is free. */
  predicate SameToMachine(c: Coroutine, c': Coroutine) {
    c'.stack == c.stack && c'.sp == c.sp && (c'.state == NULL <==> c.state == NULL)
  }

  lemma SameMirrors(w: C.World, cs: Slots, cs': Slots, own: C.Range)
    requires Mirrors(w, cs, own) && forall i :: 0 <= i < MAX_COROS ==> SameToMachine(cs[i], cs'[i])
    ensures Mirrors(w, cs', own)
  {
    assert forall i :: 0 <= i < MAX_COROS ==> SameToMachine(cs[i], cs'[i]);
    LiveSame(cs, cs', own);
  }

  lemma ResumeSame(c: Coroutine, now: u64, revents: bv16)
    ensures SameToMachine(c, MaybeResume(c, now, revents))
  {
  }

  /** Waking somebody is invisible to the machine. */
  lemma ResumeMirrors(w: C.World, cs: Slots, own: C.Range, revents: seq<bv16>, now: u64)
    requires Mirrors(w, cs, own) && |revents| == MAX_COROS
    ensures Mirrors(w, PollResume(cs, revents, now), own)
  {
    var cs' := PollResume(cs, revents, now);
    forall i | 0 <= i < MAX_COROS ensures SameToMachine(cs[i], cs'[i]) {
      ResumeSame(cs[i], now, revents[i]);
    }
    SameMirrors(w, cs, cs', own);
  }

  lemma ChooseStep(w: C.World, cs: Slots, own: C.Range, c: Option<nat>) returns (w': C.World)
    requires Mirrors(w, cs, own) && w.running == C.SCHEDULER
    requires c.Some? ==> c.value in w.live && c.value != C.SCHEDULER
    ensures C.Next(w, C.Choose, w') && Mirrors(w', cs, own) && w' == w.(current := c)
  {
    w' := w.(current := c);
    C.NextKeepsInv(w, C.Choose, w');
  }

  lemma CallStep(w: C.World, cs: Slots, own: C.Range, entry: int, rsp: int, rdi: int, rsi: int, rdx: int) returns (w': C.World)
    requires Mirrors(w, cs, own)
    ensures w' == Calling(w, entry, rsp, rdi, rsi, rdx) && C.Next(w, C.Compute, w') && Mirrors(w', cs, own)
  {
    CallingIsCompute(w, entry, rsp, rdi, rsi, rdx);
    w' := Calling(w, entry, rsp, rdi, rsi, rdx);
  }

  lemma TakeTransfer(w: C.World) returns (w': C.World)
    requires C.Inv(w) && C.CanTransfer(w)
    ensures C.Next(w, C.Transfer, w') && C.Inv(w')
    ensures w'.cells == w.cells && w'.live == w.live && w'.current == w.current
    ensures w'.running == (if w.running == C.SCHEDULER then w.current.value else C.SCHEDULER)
  {
    w' := w.(m := A.Steps(w.m, 15), running := if w.running == C.SCHEDULER then w.current.value else C.SCHEDULER);
    C.NextKeepsInv(w, C.Transfer, w');
  }

  lemma TransferPointer(w: C.World, w': C.World, id: nat)
    requires C.Inv(w) && C.Next(w, C.Transfer, w') && id in w.live
    ensures A.Read(w'.m.mem, w'.cells[id]) == if id == w.running then w.m.rsp - 48 else A.Read(w.m.mem, w.cells[id])
  {
    if id == w.running {
      C.TransferParks(w, w');
    } else {
      C.TransferSpares(w, id);
    }
  }

  /** A transfer changes the saved pointer of the context that gives control away, and no other. */
  lemma TransferMirrors(w: C.World, w': C.World, cs: Slots, cs': Slots, own: C.Range)
    requires Mirrors(w, cs, own) && C.Next(w, C.Transfer, w') && C.Inv(w') && w'.live == w.live && w'.cells == w.cells
    requires LiveOf(cs', own) == LiveOf(cs, own)
    requires forall i :: 0 <= i < MAX_COROS && cs'[i].state != NULL ==>
               i + 1 in w.live && cs'[i].sp == if w.running == i + 1 then w.m.rsp - 48 else cs[i].sp
    requires forall i :: 0 <= i < MAX_COROS && cs'[i].state != NULL ==> cs[i].state != NULL
    ensures Mirrors(w', cs', own)
  {
    forall i | 0 <= i < MAX_COROS && cs'[i].state != NULL && w'.running != i + 1
      ensures A.Read(w'.m.mem, w'.cells[i + 1]) == cs'[i].sp
    {
      TransferPointer(w, w', i + 1);
    }
  }

  lemma ChooseScene(f: Film, first: C.World, w: C.World, cs: Slots, own: C.Range, ids: set<nat>, c: Option<nat>)
    returns (f': Film, w': C.World)
    requires Scene(f, first, w, C.SCHEDULER, ids) && Mirrors(w, cs, own)
    requires c.Some? ==> c.value in w.live && c.value != C.SCHEDULER
    ensures Scene(f', first, w', C.SCHEDULER, ids) && Mirrors(w', cs, own) && w' == w.(current := c)
  {
    w' := ChooseStep(w, cs, own, c);
    SnocScene(f, first, w, C.SCHEDULER, ids, C.Choose, w');
    f' := Snoc(f, C.Choose, w');
  }

  lemma CallScene(
    f: Film, first: C.World, w: C.World, cs: Slots, own: C.Range, ids: set<nat>,
    entry: int, rsp: int, rdi: int, rsi: int, rdx: int)
    returns (f': Film, w': C.World)
    requires Scene(f, first, w, w.running, ids) && Mirrors(w, cs, own)
    ensures w' == Calling(w, entry, rsp, rdi, rsi, rdx)
    ensures Scene(f', first, w', w.running, ids) && Mirrors(w', cs, own)
  {
    w' := CallStep(w, cs, own, entry, rsp, rdi, rsi, rdx);
    SnocScene(f, first, w, w.running, ids, C.Compute, w');
    f' := Snoc(f, C.Compute, w');
  }

  /** The scheduler calls the switch for the coroutine in slot `p`. */
  lemma ArriveScene(f: Film, first: C.World, w: C.World, cs: Slots, own: C.Range, ids: set<nat>, p: nat)
    returns (f': Film, w': C.World)
    requires Scene(f, first, w, C.SCHEDULER, ids) && Mirrors(w, cs, own) && Roomy(own)
    requires p < MAX_COROS && cs[p].state != NULL
    ensures Scene(f', first, w', C.SCHEDULER, ids) && Mirrors(w', cs, own)
    ensures w'.running == C.SCHEDULER && w'.current == Some(p + 1) && C.CanTransfer(w') && w'.cells == w.cells
  {
    assert HasContext(cs, p + 1) && HasContext(cs, C.SCHEDULER);
    f', w' := ChooseScene(f, first, w, cs, own, ids, Some(p + 1));
    f', w' := CallScene(f', first, w', cs, own, ids,
                        A.SWITCH, own.hi - 8, w.cells[C.SCHEDULER], A.Read(w.m.mem, w.cells[p + 1]), 0);
  }

  /** The coroutine in slot `p` calls the switch with its stack pointer such that `sp` will be saved. */
  lemma LeaveScene(f: Film, first: C.World, w: C.World, cs: Slots, own: C.Range, ids: set<nat>, p: nat, sp: nat)
    returns (f': Film, w': C.World)
    requires p < MAX_COROS && cs[p].state != NULL && Scene(f, first, w, p + 1, ids) && Mirrors(w, cs, own)
    requires w.running == p + 1 && cs[p].stack.bottom <= sp && sp + 56 <= cs[p].stack.top
    ensures Scene(f', first, w', p + 1, ids) && Mirrors(w', cs, own)
    ensures w'.running == p + 1 && C.CanTransfer(w') && w'.m.rsp == sp + 48 && w'.cells == w.cells
  {
    assert HasContext(cs, p + 1);
    f', w' := CallScene(f, first, w, cs, own, ids,
                        A.SWITCH, sp + 48, w.cells[p + 1], A.Read(w.m.mem, w.cells[C.SCHEDULER]), 0);
  }

  // Creation.

  lemma ApartFromLive(cs: Slots, own: C.Range, allocs: seq<Alloc>, cells: seq<int>, pageSize: nat, id: nat)
    requires pageSize > 0 && SchedulerModel.Inv(cs, pageSize) && id in LiveOf(cs, own)
    requires allocs != [] && allocs[0].Allocated? && FreshAllocs(cs, allocs, pageSize) && Clear(allocs[0], own, cells, pageSize)
    ensures C.Apart(LiveOf(cs, own)[id], Usable(allocs[0].base, pageSize))
  {
    if id != C.SCHEDULER {
      assert FreshAt(cs, allocs, 0, pageSize);
      assert SlotInv(cs[id - 1], pageSize);
    }
  }

  /** The call that prepares the stack for slot `k`. */
  lemma PrepareScene(
    f: Film, first: C.World, w: C.World, cs: Slots, own: C.Range, ids: set<nat>, p: nat, k: nat,
    allocs: seq<Alloc>, pageSize: nat)
    returns (f': Film, w': C.World)
    requires pageSize > 0 && SchedulerModel.Inv(cs, pageSize) && p < MAX_COROS && cs[p].state != NULL
    requires Scene(f, first, w, p + 1, ids) && Mirrors(w, cs, own) && w.running == p + 1
    requires k < MAX_COROS && cs[k].state == NULL && allocs != [] && allocs[0].Allocated?
    requires FreshAllocs(cs, allocs, pageSize) && Clear(allocs[0], own, w.cells, pageSize)
    ensures Scene(f', first, w', p + 1, ids) && Mirrors(w', cs, own) && w'.cells == w.cells && w'.running == p + 1
    ensures C.CanCreate(w', k + 1, Usable(allocs[0].base, pageSize))
  {
    var stack := Usable(allocs[0].base, pageSize);
    assert HasContext(cs, p + 1) && !HasContext(cs, k + 1);
    assert SlotInv(cs[p], pageSize);
    SizeIsLeastMultiple(pageSize);
    f', w' := CallScene(f, first, w, cs, own, ids, A.INIT, cs[p].stack.top - 8, w.cells[k + 1], stack.hi, A.TRAMPOLINE);
    forall id | id in w'.live ensures C.Apart(w'.live[id], stack) {
      ApartFromLive(cs, own, allocs, w.cells, pageSize, id);
    }
  }

  lemma TakeCreate(w: C.World, id: nat, stack: C.Range) returns (w': C.World)
    requires C.Inv(w) && C.CanCreate(w, id, stack)
    ensures C.Next(w, C.Create(id, stack), w') && C.Inv(w')
    ensures w'.cells == w.cells && w'.live == w.live[id := stack] && w'.running == w.running && w'.current == w.current
    ensures forall j :: 0 <= j < C.CONTEXTS ==>
              A.Read(w'.m.mem, w.cells[j]) == if j == id then stack.hi - 64 else A.Read(w.m.mem, w.cells[j])
  {
    w' := w.(m := A.Steps(w.m, 13), live := w.live[id := stack]);
    C.NextKeepsInv(w, C.Create(id, stack), w');
    C.CreateWrites(w, id, stack);
  }

  lemma TakeCreateScene(f: Film, first: C.World, w: C.World, ids: set<nat>, id: nat, stack: C.Range)
    returns (f': Film, w': C.World)
    requires Scene(f, first, w, w.running, ids) && C.Inv(w) && C.CanCreate(w, id, stack)
    ensures Scene(f', first, w', w.running, ids) && C.Inv(w')
    ensures w'.cells == w.cells && w'.live == w.live[id := stack] && w'.running == w.running
    ensures forall j :: 0 <= j < C.CONTEXTS ==>
              A.Read(w'.m.mem, w.cells[j]) == if j == id then stack.hi - 64 else A.Read(w.m.mem, w.cells[j])
  {
    w' := TakeCreate(w, id, stack);
    assert Shows(w, w.running, ids) by {
      assert f.ws[|f.actions|] == w;
    }
    SnocScene(f, first, w, w.running, ids, C.Create(id, stack), w');
    f' := Snoc(f, C.Create(id, stack), w');
  }

  lemma CreateMirrors(w: C.World, w': C.World, cs: Slots, own: C.Range, k: nat, child: Script, base: nat, pageSize: nat)
    requires pageSize > 0 && k < MAX_COROS && cs[k].state == NULL && Mirrors(w, cs, own)
    requires C.Inv(w') && w'.cells == w.cells && w'.running == w.running
    requires w'.live == w.live[k + 1 := Usable(base, pageSize)]
    requires forall j :: 0 <= j < C.CONTEXTS ==>
               A.Read(w'.m.mem, w.cells[j]) == if j == k + 1 then Usable(base, pageSize).hi - 64 else A.Read(w.m.mem, w.cells[j])
    ensures Mirrors(w', cs[k := Init(child, Allocated(base), pageSize)], own)
  {
    var c := Init(child, Allocated(base), pageSize);
    LiveAdd(cs, own, k, c);
    SizeIsLeastMultiple(pageSize);
  }

  lemma FailMirrors(w: C.World, cs: Slots, own: C.Range, k: nat, c: Coroutine)
    requires k < MAX_COROS && cs[k].state == NULL && c.state == NULL && Mirrors(w, cs, own)
    ensures Mirrors(w, cs[k := c], own)
  {
    LiveAdd(cs, own, k, c);
  }

  /** A creation that gets its stack. */
  lemma CreateScene(
    f: Film, first: C.World, w: C.World, cs: Slots, own: C.Range, ids: set<nat>, p: nat, k: nat,
    child: Script, allocs: seq<Alloc>, pageSize: nat)
    returns (f': Film, w': C.World)
    requires pageSize > 0 && SchedulerModel.Inv(cs, pageSize) && p < MAX_COROS && cs[p].state != NULL
    requires Scene(f, first, w, p + 1, ids) && Mirrors(w, cs, own) && w.running == p + 1
    requires k < MAX_COROS && cs[k].state == NULL && allocs != [] && allocs[0].Allocated?
    requires FreshAllocs(cs, allocs, pageSize) && Clear(allocs[0], own, w.cells, pageSize)
    ensures Scene(f', first, w', p + 1, ids) && Mirrors(w', cs[k := Init(child, allocs[0], pageSize)], own)
    ensures w'.running == p + 1 && w'.cells == w.cells
  {
    var stack := Usable(allocs[0].base, pageSize);
    var g, v := PrepareScene(f, first, w, cs, own, ids, p, k, allocs, pageSize);
    f', w' := TakeCreateScene(g, first, v, ids, k + 1, stack);
    CreateMirrors(v, w', cs, own, k, child, allocs[0].base, pageSize);
  }

  /** The three ways a creation can go. */
  lemma SpawnCases(cs: Slots, child: Script, allocs: seq<Alloc>, pageSize: nat)
    requires pageSize > 0
    ensures var k, cs' := FreeSlot(cs, 0), Spawn(cs, child, allocs, pageSize).cs;
            if k == MAX_COROS then cs' == cs
            else if allocs != [] && allocs[0].Allocated? then cs' == cs[k := Init(child, allocs[0], pageSize)]
            else cs'[k].state == NULL && cs' == cs[k := cs'[k]]
  {
  }

  /** One creation by the coroutine in slot `p`. */
  lemma SpawnScene(
    f: Film, first: C.World, w: C.World, cs: Slots, own: C.Range, ids: set<nat>, p: nat,
    child: Script, allocs: seq<Alloc>, r: Spawned, pageSize: nat)
    returns (f': Film, w': C.World)
    requires pageSize > 0 && SchedulerModel.Inv(cs, pageSize) && p < MAX_COROS && cs[p].state != NULL
    requires Scene(f, first, w, p + 1, ids) && Mirrors(w, cs, own) && w.running == p + 1
    requires FreshAllocs(cs, allocs, pageSize) && AllClear(allocs, own, w.cells, pageSize)
    requires r == Spawn(cs, child, allocs, pageSize)
    ensures Scene(f', first, w', p + 1, ids) && Mirrors(w', r.cs, own)
    ensures w'.running == p + 1 && w'.cells == w.cells
  {
    var k := FreeSlot(cs, 0);
    SpawnCases(cs, child, allocs, pageSize);
    if k < MAX_COROS && allocs != [] && allocs[0].Allocated? {
      f', w' := CreateScene(f, first, w, cs, own, ids, p, k, child, allocs, pageSize);
    } else {
      f', w' := f, w;
      if k < MAX_COROS {
        FailMirrors(w, cs, own, k, r.cs[k]);
      }
    }
  }

  /** What a coroutine does after a creation. */
  lemma AfterGo(cs: Slots, sc: Script, allocs: seq<Alloc>, own: C.Range, cells: seq<int>, p: nat, pageSize: nat)
    returns (r: Spawned, next: Script)
    requires pageSize > 0 && SchedulerModel.Inv(cs, pageSize) && ValidScript(sc) && sc.Go? && p < MAX_COROS && cs[p].state != NULL
    requires FreshAllocs(cs, allocs, pageSize) && AllClear(allocs, own, cells, pageSize)
    ensures r == Spawn(cs, sc.child, allocs, pageSize) && Stop(cs, sc, allocs, pageSize) == Stop(r.cs, next, r.rest, pageSize)
    ensures ValidScript(next) && (next == sc.created || next == sc.failed)
    ensures SchedulerModel.Inv(r.cs, pageSize) && r.cs[p].state != NULL
    ensures FreshAllocs(r.cs, r.rest, pageSize) && AllClear(r.rest, own, cells, pageSize)
  {
    r := Spawn(cs, sc.child, allocs, pageSize);
    next := if r.ok then sc.created else sc.failed;
    SpawnKeepsInv(cs, sc.child, allocs, pageSize);
    SpawnFrame(cs, sc.child, allocs, pageSize, p);
  }

  /** All the creations of a turn. */
  lemma {:induction false} StopScene(
    f: Film, first: C.World, w: C.World, cs: Slots, own: C.Range, ids: set<nat>, p: nat,
    sc: Script, allocs: seq<Alloc>, pageSize: nat)
    returns (f': Film, w': C.World)
    requires pageSize > 0 && SchedulerModel.Inv(cs, pageSize) && ValidScript(sc) && p < MAX_COROS && cs[p].state != NULL
    requires Scene(f, first, w, p + 1, ids) && Mirrors(w, cs, own) && w.running == p + 1
    requires FreshAllocs(cs, allocs, pageSize) && AllClear(allocs, own, w.cells, pageSize)
    ensures Scene(f', first, w', p + 1, ids) && Mirrors(w', Stop(cs, sc, allocs, pageSize).0, own)
    ensures w'.running == p + 1 && w'.cells == w.cells
    decreases sc
  {
    f', w' := f, w;
    if sc.Go? {
      var r, next := AfterGo(cs, sc, allocs, own, w.cells, p, pageSize);
      f', w' := SpawnScene(f, first, w, cs, own, ids, p, sc.child, allocs, r, pageSize);
      f', w' := StopScene(f', first, w', r.cs, own, ids, p, next, r.rest, pageSize);
    }
  }

  // One activation: the scheduler up to its call of the switch, the coroutine from there to its own call, and
  // the scheduler from there on.

  function End(f: Film): C.World
    requires |f.ws| == |f.actions| + 1
  {
    f.ws[|f.actions|]
  }

  lemma CrossStill(w: C.World, cs: Slots, cs': Slots, own: C.Range, ids: set<nat>) returns (w': C.World)
    requires Mirrors(w, cs, own) && C.CanTransfer(w) && ids <= w.live.Keys
    requires LiveOf(cs', own) == LiveOf(cs, own)
    requires forall i :: 0 <= i < MAX_COROS && cs'[i].state != NULL ==>
               i + 1 in w.live && cs'[i].sp == if w.running == i + 1 then w.m.rsp - 48 else cs[i].sp
    requires forall i :: 0 <= i < MAX_COROS && cs'[i].state != NULL ==> cs[i].state != NULL
    ensures C.Next(w, C.Transfer, w') && Mirrors(w', cs', own) && Scene(Still(w'), w', w', w'.running, ids)
    ensures w'.cells == w.cells && w'.live == w.live && w'.current == w.current
    ensures w'.running == if w.running == C.SCHEDULER then w.current.value else C.SCHEDULER
  {
    w' := TakeTransfer(w);
    TransferMirrors(w, w', cs, cs', own);
    StillScene(w', ids);
  }

  lemma InLive(w: C.World, cs: Slots, own: C.Range)
    requires w.live == LiveOf(cs, own)
    ensures forall i :: 0 <= i < MAX_COROS && cs[i].state != NULL ==> i + 1 in w.live
  {
    forall i | 0 <= i < MAX_COROS && cs[i].state != NULL ensures i + 1 in w.live {
      assert HasContext(cs, i + 1);
    }
  }

  lemma EnterScene(f: Film, first: C.World, w: C.World, cs: Slots, own: C.Range, ids: set<nat>, p: nat)
    returns (f': Film, w': C.World)
    requires Scene(f, first, w, C.SCHEDULER, ids) && Mirrors(w, cs, own) && Roomy(own)
    requires p < MAX_COROS && cs[p].state != NULL
    ensures |f'.ws| == |f'.actions| + 1 && Scene(f', first, End(f'), C.SCHEDULER, ids) && C.Next(End(f'), C.Transfer, w')
    ensures Mirrors(w', cs, own) && Scene(Still(w'), w', w', p + 1, ids)
    ensures w'.running == p + 1 && w'.cells == w.cells
  {
    var v;
    f', v := ArriveScene(f, first, w, cs, own, ids, p);
    assert Shows(f'.ws[|f'.actions|], C.SCHEDULER, ids);
    InLive(v, cs, own);
    w' := CrossStill(v, cs, cs, own, ids);
  }

  lemma ParkLive(cs: Slots, own: C.Range, p: nat, last: Script, read: u64, sp: nat)
    requires p < MAX_COROS && cs[p].state == RUNNABLE && !last.Go?
    ensures LiveOf(cs[p := Park(cs[p], last, read, sp)], own) == LiveOf(cs, own)
    ensures Park(cs[p], last, read, sp).sp == sp && Park(cs[p], last, read, sp).state != NULL
  {
    LiveSame(cs, cs[p := Park(cs[p], last, read, sp)], own);
  }

  lemma ExitScene(
    f: Film, first: C.World, w: C.World, cs: Slots, own: C.Range, ids: set<nat>, p: nat, last: Script, read: u64, sp: nat)
    returns (f': Film, g: Film, w': C.World)
    requires p < MAX_COROS && cs[p].state == RUNNABLE && Scene(f, first, w, p + 1, ids) && Mirrors(w, cs, own)
    requires w.running == p + 1 && cs[p].stack.bottom <= sp && sp + 56 <= cs[p].stack.top && !last.Go?
    ensures |f'.ws| == |f'.actions| + 1 && Scene(f', first, End(f'), p + 1, ids)
    ensures |g.ws| > 0 && C.Next(End(f'), C.Transfer, g.ws[0])
    ensures Scene(g, g.ws[0], w', C.SCHEDULER, ids) && AtRest(w') && w'.cells == w.cells
    ensures Mirrors(w', cs[p := Park(cs[p], last, read, sp)], own)
  {
    var cs' := cs[p := Park(cs[p], last, read, sp)];
    var v;
    f', v := LeaveScene(f, first, w, cs, own, ids, p, sp);
    assert Shows(f'.ws[|f'.actions|], p + 1, ids);
    ParkLive(cs, own, p, last, read, sp);
    InLive(v, cs, own);
    var u := CrossStill(v, cs, cs', own, ids);
    g, w' := ChooseScene(Still(u), u, u, cs', own, ids, None);
  }

  /** What an activation is about to do, as the slots tell it. */
  lemma ActivateParts(cs: Slots, p: nat, allocs: seq<Alloc>, read: u64, sp: nat, pageSize: nat)
    returns (c: Coroutine, sc: Script, mid: Slots, last: Script)
    requires pageSize > 0 && SchedulerModel.Inv(cs, pageSize) && p < MAX_COROS && cs[p].state == RUNNABLE
    requires FreshAllocs(cs, allocs, pageSize)
    ensures SameToMachine(cs[p], c) && SchedulerModel.Inv(cs[p := c], pageSize) && ValidScript(sc) && c.state != NULL
    ensures FreshAllocs(cs[p := c], allocs, pageSize)
    ensures mid == Stop(cs[p := c], sc, allocs, pageSize).0 && !last.Go?
    ensures mid[p].state == RUNNABLE && mid[p].stack == cs[p].stack
    ensures Activate(cs, p, allocs, read, sp, pageSize) == mid[p := Park(mid[p], last, read, sp)]
  {
    c, sc := Continue(cs[p]).0, Continue(cs[p]).1;
    mid, last := Stop(cs[p := c], sc, allocs, pageSize).0, Stop(cs[p := c], sc, allocs, pageSize).1;
    ContinueKeepsInv(cs, p, pageSize);
    SameStacksFresh(cs, p, c, allocs, pageSize);
    StopIsNotGo(cs[p := c], sc, allocs, pageSize);
    CreatedSlot(cs, p, allocs, pageSize, p);
  }

  lemma ReplaceMirrors(w: C.World, cs: Slots, own: C.Range, p: nat, c: Coroutine)
    requires Mirrors(w, cs, own) && p < MAX_COROS && SameToMachine(cs[p], c)
    ensures Mirrors(w, cs[p := c], own)
  {
    SameMirrors(w, cs, cs[p := c], own);
  }

  /** The coroutine's part and the return to the scheduler. */
  lemma BodyScene(
    w: C.World, cs: Slots, own: C.Range, ids: set<nat>, p: nat, allocs: seq<Alloc>, read: u64, sp: nat, pageSize: nat)
    returns (f: Film, g: Film, w': C.World)
    requires pageSize > 0 && SchedulerModel.Inv(cs, pageSize) && p < MAX_COROS && cs[p].state == RUNNABLE
    requires Scene(Still(w), w, w, p + 1, ids) && Mirrors(w, cs, own) && w.running == p + 1
    requires FreshAllocs(cs, allocs, pageSize) && AllClear(allocs, own, w.cells, pageSize)
    requires cs[p].stack.bottom <= sp && sp + 56 <= cs[p].stack.top
    ensures |f.ws| == |f.actions| + 1 && Scene(f, w, End(f), p + 1, ids) && |g.ws| > 0 && C.Next(End(f), C.Transfer, g.ws[0])
    ensures Scene(g, g.ws[0], w', C.SCHEDULER, ids) && AtRest(w') && w'.cells == w.cells
    ensures Mirrors(w', Activate(cs, p, allocs, read, sp, pageSize), own)
  {
    var c, sc, mid, last := ActivateParts(cs, p, allocs, read, sp, pageSize);
    ReplaceMirrors(w, cs, own, p, c);
    var v;
    f, v := StopScene(Still(w), w, w, cs[p := c], own, ids, p, sc, allocs, pageSize);
    f, g, w' := ExitScene(f, w, v, mid, own, ids, p, last, read, sp);
  }

  // Whole turns.

  function Spliced(f: Film, a: C.Action, g: Film): Film {
    Film(f.ws + g.ws, f.actions + [a] + g.actions)
  }

  lemma SpliceHistory(f: Film, a: C.Action, g: Film)
    requires C.History(f.ws, f.actions) && C.History(g.ws, g.actions) && C.Next(End(f), a, g.ws[0])
    ensures C.History(Spliced(f, a, g).ws, Spliced(f, a, g).actions)
  {
    var h, n := Spliced(f, a, g), |f.ws|;
    forall k | 0 <= k < |h.actions| ensures C.StepAt(h.ws, h.actions, k) {
      if k < |f.actions| {
        assert C.StepAt(f.ws, f.actions, k);
      } else if k >= n {
        assert C.StepAt(g.ws, g.actions, k - n);
      }
    }
  }

  /** The film of one turn: context `id` runs after step `a` up to step `b`, the scheduler otherwise, and the
      contexts `ids` exist all the time. */
  ghost predicate Shot(f: Film, first: C.World, last: C.World, id: nat, a: nat, b: nat, ids: set<nat>) {
    && C.History(f.ws, f.actions) && f.ws[0] == first && f.ws[|f.actions|] == last && last.cells == first.cells
    && (forall j :: 0 <= j < |f.ws| ==> Shows(f.ws[j], if a < j <= b then id else C.SCHEDULER, ids))
    && if id == C.SCHEDULER then a == b else a < b < |f.actions|
  }

  lemma SceneIsShot(f: Film, first: C.World, last: C.World, ids: set<nat>)
    requires Scene(f, first, last, C.SCHEDULER, ids)
    ensures Shot(f, first, last, C.SCHEDULER, 0, 0, ids)
  {
  }

  function Three(f: Film, g: Film, h: Film): Film {
    Spliced(Spliced(f, C.Transfer, g), C.Transfer, h)
  }

  lemma ThreeHistory(f: Film, g: Film, h: Film)
    requires C.History(f.ws, f.actions) && C.History(g.ws, g.actions) && C.History(h.ws, h.actions)
    requires C.Next(End(f), C.Transfer, g.ws[0]) && C.Next(End(g), C.Transfer, h.ws[0])
    ensures C.History(Three(f, g, h).ws, Three(f, g, h).actions)
  {
    SpliceHistory(f, C.Transfer, g);
    assert End(Spliced(f, C.Transfer, g)) == End(g);
    SpliceHistory(Spliced(f, C.Transfer, g), C.Transfer, h);
  }

  lemma ThreeShow(f: Film, g: Film, h: Film, id: nat, ids: set<nat>, j: nat)
    requires forall k :: 0 <= k < |f.ws| ==> Shows(f.ws[k], C.SCHEDULER, ids)
    requires forall k :: 0 <= k < |g.ws| ==> Shows(g.ws[k], id, ids)
    requires forall k :: 0 <= k < |h.ws| ==> Shows(h.ws[k], C.SCHEDULER, ids)
    requires j < |Three(f, g, h).ws|
    ensures Shows(Three(f, g, h).ws[j], if |f.ws| <= j < |f.ws| + |g.ws| then id else C.SCHEDULER, ids)
  {
    var n, m := |f.ws|, |f.ws| + |g.ws|;
    assert Three(f, g, h).ws[j] == if j < n then f.ws[j] else if j < m then g.ws[j - n] else h.ws[j - m];
  }

  lemma ThreeScenes(f: Film, g: Film, h: Film, first: C.World, last: C.World, id: nat, ids: set<nat>)
    requires |f.ws| == |f.actions| + 1 && Scene(f, first, End(f), C.SCHEDULER, ids)
    requires |g.ws| == |g.actions| + 1 && Scene(g, g.ws[0], End(g), id, ids)
    requires |h.ws| > 0 && Scene(h, h.ws[0], last, C.SCHEDULER, ids)
    requires C.History(Three(f, g, h).ws, Three(f, g, h).actions) && last.cells == first.cells && id != C.SCHEDULER
    ensures Shot(Three(f, g, h), first, last, id, |f.actions|, |f.actions| + |g.actions| + 1, ids)
  {
    forall j | 0 <= j < |Three(f, g, h).ws|
      ensures Shows(Three(f, g, h).ws[j], if |f.ws| <= j < |f.ws| + |g.ws| then id else C.SCHEDULER, ids)
    {
      ThreeShow(f, g, h, id, ids, j);
    }
  }

  /** The contexts that exist throughout a turn: the scheduler, and every coroutine that has not exited. */
  function Lasting(cs: Slots): set<nat> {
    set id: nat | id < C.CONTEXTS && HasContext(cs, id) && (id == C.SCHEDULER || cs[id - 1].state != EXITED)
  }

  lemma LastingStart(w: C.World, cs: Slots, own: C.Range)
    requires Mirrors(w, cs, own)
    ensures Lasting(cs) <= w.live.Keys && Cleaning(cs, 0, Lasting(cs))
  {
  }

  /** The head of a turn: exited coroutines are retired, and who is due wakes up. */
  lemma HeadScene(w: C.World, cs: Slots, own: C.Range, now: u64) returns (f: Film, w': C.World)
    requires Mirrors(w, cs, own) && AtRest(w)
    ensures Scene(f, w, w', C.SCHEDULER, Lasting(cs)) && Mirrors(w', Expire(Clean(cs), now), own) && AtRest(w')
  {
    LastingStart(w, cs, own);
    StillScene(w, Lasting(cs));
    f, w' := CleanScene(Still(w), w, w, cs, own, 0, Lasting(cs));
    ExpireIsPollWithoutEvents(Clean(cs), now);
    ResumeMirrors(w', Clean(cs), own, seq(MAX_COROS, _ => 0), now);
  }

  lemma ActivationShot(
    f: Film, first: C.World, w: C.World, cs: Slots, own: C.Range, ids: set<nat>, p: nat,
    allocs: seq<Alloc>, read: u64, sp: nat, pageSize: nat)
    returns (all: Film, w': C.World, a: nat, b: nat)
    requires pageSize > 0 && SchedulerModel.Inv(cs, pageSize) && p < MAX_COROS && cs[p].state == RUNNABLE
    requires Scene(f, first, w, C.SCHEDULER, ids) && Mirrors(w, cs, own) && Roomy(own)
    requires FreshAllocs(cs, allocs, pageSize) && AllClear(allocs, own, first.cells, pageSize)
    requires cs[p].stack.bottom <= sp && sp + 56 <= cs[p].stack.top
    ensures Shot(all, first, w', p + 1, a, b, ids) && AtRest(w')
    ensures Mirrors(w', Activate(cs, p, allocs, read, sp, pageSize), own)
  {
    var f1, v := EnterScene(f, first, w, cs, own, ids, p);
    var f2, f3;
    f2, f3, w' := BodyScene(v, cs, own, ids, p, allocs, read, sp, pageSize);
    all := Three(f1, f2, f3);
    ThreeHistory(f1, f2, f3);
    ThreeScenes(f1, f2, f3, first, w', p + 1, ids);
    a, b := |f1.actions|, |f1.actions| + |f2.actions| + 1;
  }

  /** The context that a turn runs besides the scheduler. */
  function Runner(t: Turn): nat {
    if t.event.Ran? && t.picked.Some? then t.picked.value + 1 else C.SCHEDULER
  }

  lemma HeadFacts(t: Turn, pageSize: nat)
    requires pageSize > 0 && ValidTurn(t, pageSize) && SchedulerModel.Inv(t.before.coros, pageSize)
    ensures t.ready == Expire(Clean(t.before.coros), t.event.now) && SchedulerModel.Inv(t.ready, pageSize)
    ensures SchedulerModel.Inv(t.after.coros, pageSize)
  {
    TurnKeepsInv(t, pageSize);
  }

  lemma RanFacts(t: Turn, pageSize: nat) returns (p: nat)
    requires pageSize > 0 && ValidTurn(t, pageSize) && t.event.Ran?
    ensures t.picked == Some(p) && p < MAX_COROS && t.ready[p].state == RUNNABLE
    ensures FreshAllocs(t.ready, t.event.allocs, pageSize) && t.ready[p].stack.bottom <= t.event.sp
    ensures t.after.coros == Activate(t.ready, p, t.event.allocs, t.event.read, t.event.sp, pageSize)
  {
    p := t.picked.value;
    ChoiceIsRunnable(t.ready, t.before.fair);
  }

  lemma QuietFacts(t: Turn, pageSize: nat) returns (revents: seq<bv16>, now: u64)
    requires pageSize > 0 && ValidTurn(t, pageSize) && !t.event.Ran?
    ensures |revents| == MAX_COROS && (t.after.coros == t.ready || t.after.coros == PollResume(t.ready, revents, now))
  {
    revents, now := seq(MAX_COROS, _ => 0), 0;
    if t.event.Polled? {
      revents, now := t.event.revents, t.event.after;
    }
  }

  /** Every turn of the run loop is a stretch of a history of the machine: exited contexts retire, the chosen
      one gets control by one transfer and gives it back by another, what it creates in between is
      prepared by the assembly, and in the end stacks and saved pointers are again those of the slots. */
  lemma TurnOnMachine(t: Turn, w: C.World, own: C.Range, pageSize: nat)
    returns (f: Film, w': C.World, a: nat, b: nat)
    requires pageSize > 0 && ValidTurn(t, pageSize) && SchedulerModel.Inv(t.before.coros, pageSize)
    requires Mirrors(w, t.before.coros, own) && AtRest(w) && Roomy(own) && Plausible(t, own, w.cells, pageSize)
    ensures Shot(f, w, w', Runner(t), a, b, Lasting(t.before.coros))
    ensures Mirrors(w', t.after.coros, own) && AtRest(w')
  {
    HeadFacts(t, pageSize);
    f, w' := HeadScene(w, t.before.coros, own, t.event.now);
    if t.event.Ran? {
      var p := RanFacts(t, pageSize);
      f, w', a, b := ActivationShot(f, w, w', t.ready, own, Lasting(t.before.coros), p,
                                    t.event.allocs, t.event.read, t.event.sp, pageSize);
    } else {
      a, b := 0, 0;
      SceneIsShot(f, w, w', Lasting(t.before.coros));
      var revents, now := QuietFacts(t, pageSize);
      ResumeMirrors(w', t.ready, own, revents, now);
    }
  }

  // Whole runs.

  ghost predicate Reaches(f: Film, first: C.World, last: C.World) {
    C.History(f.ws, f.actions) && f.ws[0] == first && f.ws[|f.actions|] == last && last.cells == first.cells
  }

  lemma Idles(w: C.World)
    requires C.Inv(w)
    ensures C.Next(w, C.Compute, w)
  {
  }

  function Appended(f: Film, g: Film): Film {
    Spliced(f, C.Compute, g)
  }

  lemma JoinReaches(f: Film, g: Film, first: C.World, mid: C.World, last: C.World)
    requires Reaches(f, first, mid) && Reaches(g, mid, last)
    ensures Reaches(Appended(f, g), first, last)
  {
    C.InvAlways(g.ws, g.actions, 0);
    Idles(mid);
    SpliceHistory(f, C.Compute, g);
  }

  lemma ShotReaches(f: Film, first: C.World, last: C.World, id: nat, a: nat, b: nat, ids: set<nat>)
    requires Shot(f, first, last, id, a, b, ids)
    ensures Reaches(f, first, last)
  {
  }

  predicate AllPlausible(ts: seq<Turn>, own: C.Range, cells: seq<int>, pageSize: nat)
    requires pageSize > 0
  {
    forall k :: 0 <= k < |ts| ==> PlausibleAt(ts, k, own, cells, pageSize)
  }

  predicate PlausibleAt(ts: seq<Turn>, k: nat, own: C.Range, cells: seq<int>, pageSize: nat)
    requires pageSize > 0 && k < |ts|
  {
    Plausible(ts[k], own, cells, pageSize)
  }

  lemma TurnOfRun(ts: seq<Turn>, k: nat, w: C.World, own: C.Range, pageSize: nat)
    returns (f: Film, w': C.World, a: nat, b: nat)
    requires pageSize > 0 && Run(ts, pageSize) && k < |ts| && SchedulerModel.Inv(ts[0].before.coros, pageSize)
    requires Mirrors(w, ts[k].before.coros, own) && AtRest(w) && Roomy(own) && AllPlausible(ts, own, w.cells, pageSize)
    ensures Shot(f, w, w', Runner(ts[k]), a, b, Lasting(ts[k].before.coros)) && Reaches(f, w, w')
    ensures Mirrors(w', ts[k].after.coros, own) && AtRest(w')
  {
    RunKeepsInv(ts, k, pageSize);
    assert TurnAt(ts, k, pageSize);
    assert PlausibleAt(ts, k, own, w.cells, pageSize);
    f, w', a, b := TurnOnMachine(ts[k], w, own, pageSize);
    ShotReaches(f, w, w', Runner(ts[k]), a, b, Lasting(ts[k].before.coros));
  }

  /** A film for each turn of a run, and the worlds in between: `ins` and `outs` are the steps of each film
      at which a coroutine gets control and gives it back. */
  datatype Reel = Reel(heads: seq<C.World>, films: seq<Film>, ins: seq<nat>, outs: seq<nat>)

  /** The slots at the head of turn `k`, or at the end of the run. */
  function CorosAt(ts: seq<Turn>, k: nat): Slots
    requires k <= |ts| && ts != []
  {
    if k < |ts| then ts[k].before.coros else ts[k - 1].after.coros
  }

  ghost predicate HeadAt(ts: seq<Turn>, heads: seq<C.World>, k: nat, own: C.Range)
    requires k <= |ts| && ts != [] && k < |heads|
  {
    Mirrors(heads[k], CorosAt(ts, k), own) && AtRest(heads[k]) && heads[k].cells == heads[0].cells
  }

  ghost predicate ShotAt(ts: seq<Turn>, r: Reel, k: nat)
    requires k < |ts| && k < |r.films| && k < |r.ins| && k < |r.outs| && k + 1 < |r.heads|
  {
    Shot(r.films[k], r.heads[k], r.heads[k + 1], Runner(ts[k]), r.ins[k], r.outs[k], Lasting(ts[k].before.coros))
  }

  /** The first `n` turns as histories of the machine, each starting where the one before ended. */
  ghost predicate OnMachine(ts: seq<Turn>, n: nat, r: Reel, own: C.Range)
    requires n <= |ts| && ts != []
  {
    && |r.heads| == n + 1 && |r.films| == |r.ins| == |r.outs| == n
    && (forall k :: 0 <= k <= n ==> HeadAt(ts, r.heads, k, own))
    && (forall k :: 0 <= k < n ==> ShotAt(ts, r, k))
  }

  lemma HeadStays(ts: seq<Turn>, heads: seq<C.World>, w: C.World, k: nat, own: C.Range)
    requires k <= |ts| && ts != [] && k < |heads| && HeadAt(ts, heads, k, own)
    ensures HeadAt(ts, heads + [w], k, own)
  {
  }

  lemma NewHead(ts: seq<Turn>, k: nat, heads: seq<C.World>, w: C.World, own: C.Range, pageSize: nat)
    requires pageSize > 0 && Run(ts, pageSize) && k < |ts| && |heads| == k + 1
    requires Mirrors(w, ts[k].after.coros, own) && AtRest(w) && w.cells == heads[0].cells
    ensures HeadAt(ts, heads + [w], k + 1, own)
  {
    if k + 1 < |ts| {
      Chained(ts, k, pageSize);
    }
  }

  lemma FilmTurn(ts: seq<Turn>, k: nat, heads: seq<C.World>, own: C.Range, pageSize: nat)
    returns (f: Film, w: C.World, a: nat, b: nat)
    requires pageSize > 0 && Run(ts, pageSize) && k < |ts| && SchedulerModel.Inv(ts[0].before.coros, pageSize) && Roomy(own)
    requires |heads| == k + 1 && HeadAt(ts, heads, k, own) && AllPlausible(ts, own, heads[0].cells, pageSize)
    ensures Shot(f, heads[k], w, Runner(ts[k]), a, b, Lasting(ts[k].before.coros))
    ensures HeadAt(ts, heads + [w], k + 1, own)
  {
    f, w, a, b := TurnOfRun(ts, k, heads[k], own, pageSize);
    NewHead(ts, k, heads, w, own, pageSize);
  }

  lemma GrowReel(ts: seq<Turn>, n: nat, q: Reel, f: Film, w: C.World, a: nat, b: nat, own: C.Range) returns (r: Reel)
    requires n < |ts| && OnMachine(ts, n, q, own) && HeadAt(ts, q.heads + [w], n + 1, own)
    requires Shot(f, q.heads[n], w, Runner(ts[n]), a, b, Lasting(ts[n].before.coros))
    ensures OnMachine(ts, n + 1, r, own) && r.heads[0] == q.heads[0]
  {
    r := Reel(q.heads + [w], q.films + [f], q.ins + [a], q.outs + [b]);
    forall k | 0 <= k <= n + 1 ensures HeadAt(ts, r.heads, k, own) {
      if k <= n {
        HeadStays(ts, q.heads, w, k, own);
      }
    }
    forall k | 0 <= k < n + 1 ensures ShotAt(ts, r, k) {
      assert k < n ==> ShotAt(ts, q, k);
    }
  }

  /** Every run of the scheduler is a history of the machine: from any world whose stacks and saved pointers
      are those of the slots, every turn leads by steps of the machine to a world of which the same is true. */
  lemma {:induction false} RunOnMachine(ts: seq<Turn>, n: nat, w: C.World, own: C.Range, pageSize: nat) returns (r: Reel)
    requires pageSize > 0 && Run(ts, pageSize) && n <= |ts| && ts != [] && SchedulerModel.Inv(ts[0].before.coros, pageSize)
    requires Mirrors(w, ts[0].before.coros, own) && AtRest(w) && Roomy(own) && AllPlausible(ts, own, w.cells, pageSize)
    ensures OnMachine(ts, n, r, own) && r.heads[0] == w
    decreases n
  {
    if n == 0 {
      r := Reel([w], [], [], []);
      assert HeadAt(ts, r.heads, 0, own);
    } else {
      var q := RunOnMachine(ts, n - 1, w, own, pageSize);
      assert HeadAt(ts, q.heads, n - 1, own);
      var f, v, a, b := FilmTurn(ts, n - 1, q.heads, own, pageSize);
      r := GrowReel(ts, n - 1, q, f, v, a, b, own);
    }
  }

  // One coroutine, from giving control back to getting it again.

  predicate Alive(c: Coroutine) {
    c.state != NULL && c.state != EXITED
  }

  lemma AliveLasts(cs: Slots, i: nat)
    requires i < MAX_COROS && Alive(cs[i])
    ensures i + 1 in Lasting(cs)
  {
    assert HasContext(cs, i + 1);
  }

  lemma StaysAlive(ts: seq<Turn>, k: nat, i: nat, pageSize: nat)
    requires pageSize > 0 && Run(ts, pageSize) && k < |ts| && i < MAX_COROS
    requires Alive(ts[k].before.coros[i]) && ts[k].picked != Some(i)
    ensures Alive(ts[k].after.coros[i])
  {
    HeadOfTurn(ts, k, pageSize);
    assert Alive(ts[k].ready[i]);
    assert TurnAt(ts, k, pageSize);
    if ts[k].event.Ran? {
      OthersKept(ts, k, ts[k].picked.value, i, pageSize);
    }
  }

  lemma PickedWasAlive(ts: seq<Turn>, k: nat, i: nat, pageSize: nat)
    requires pageSize > 0 && Run(ts, pageSize) && k < |ts| && ts[k].picked == Some(i)
    ensures i < MAX_COROS && Alive(ts[k].before.coros[i]) && Runner(ts[k]) == i + 1
  {
    HeadOfTurn(ts, k, pageSize);
    ChoiceIsRunnable(ts[k].ready, ts[k].before.fair);
  }

  /** Context `id` exists and does not run. */
  ghost predicate Away(f: Film, first: C.World, last: C.World, id: nat) {
    Reaches(f, first, last) && C.Suspended(f.ws, 0, |f.actions|, id)
  }

  lemma ShotIsAway(f: Film, first: C.World, last: C.World, runner: nat, a: nat, b: nat, ids: set<nat>, id: nat)
    requires Shot(f, first, last, runner, a, b, ids) && id in ids && id != runner && id != C.SCHEDULER
    ensures Away(f, first, last, id)
  {
    forall j | 0 <= j < |f.ws| ensures id in f.ws[j].live && f.ws[j].running != id {
      assert Shows(f.ws[j], if a < j <= b then runner else C.SCHEDULER, ids);
    }
  }

  lemma JoinAway(f: Film, g: Film, first: C.World, mid: C.World, last: C.World, id: nat)
    requires Away(f, first, mid, id) && Away(g, mid, last, id)
    ensures Away(Appended(f, g), first, last, id)
  {
    JoinReaches(f, g, first, mid, last);
    forall j | 0 <= j < |Appended(f, g).ws| ensures id in Appended(f, g).ws[j].live && Appended(f, g).ws[j].running != id {
      assert Appended(f, g).ws[j] == if j < |f.ws| then f.ws[j] else g.ws[j - |f.ws|];
    }
  }

  /** While a coroutine is not picked it stays alive. */
  lemma {:induction false} AliveThrough(ts: seq<Turn>, k: nat, m: nat, i: nat, pageSize: nat)
    requires pageSize > 0 && Run(ts, pageSize) && k <= m < |ts| && i < MAX_COROS
    requires Alive(ts[k].before.coros[i]) && Waits(ts, k, m, i)
    ensures Alive(ts[m].before.coros[i])
    decreases m - k
  {
    if k < m {
      StaysAlive(ts, k, i, pageSize);
      Chained(ts, k, pageSize);
      AliveThrough(ts, k + 1, m, i, pageSize);
    }
  }

  lemma StillAway(ts: seq<Turn>, heads: seq<C.World>, k: nat, i: nat, own: C.Range)
    requires k < |ts| && k < |heads| && HeadAt(ts, heads, k, own) && i < MAX_COROS && Alive(ts[k].before.coros[i])
    ensures Away(Still(heads[k]), heads[k], heads[k], i + 1)
  {
    assert HasContext(ts[k].before.coros, i + 1);
  }

  lemma AwayTurn(ts: seq<Turn>, n: nat, r: Reel, k: nat, i: nat, own: C.Range)
    requires ts != [] && k < n <= |ts| && OnMachine(ts, n, r, own) && i < MAX_COROS
    requires Alive(ts[k].before.coros[i]) && Runner(ts[k]) != i + 1
    ensures Away(r.films[k], r.heads[k], r.heads[k + 1], i + 1)
  {
    assert ShotAt(ts, r, k);
    AliveLasts(ts[k].before.coros, i);
    ShotIsAway(r.films[k], r.heads[k], r.heads[k + 1], Runner(ts[k]), r.ins[k], r.outs[k], Lasting(ts[k].before.coros), i + 1);
  }

  lemma AwayAt(ts: seq<Turn>, n: nat, r: Reel, k: nat, m: nat, i: nat, own: C.Range, pageSize: nat)
    requires pageSize > 0 && Run(ts, pageSize) && k < m < |ts| && m <= n <= |ts| && OnMachine(ts, n, r, own)
    requires i < MAX_COROS && Alive(ts[k].before.coros[i]) && Waits(ts, k, m, i)
    ensures Waits(ts, k, m - 1, i)
    ensures Away(r.films[m - 1], r.heads[m - 1], r.heads[m], i + 1)
  {
    WaitsAt(ts, k, m, i, m - 1);
    AliveThrough(ts, k, m - 1, i, pageSize);
    AwayTurn(ts, n, r, m - 1, i, own);
  }

  lemma StillAwayAt(ts: seq<Turn>, n: nat, r: Reel, k: nat, i: nat, own: C.Range)
    requires k < |ts| && k <= n <= |ts| && OnMachine(ts, n, r, own) && i < MAX_COROS && Alive(ts[k].before.coros[i])
    ensures Away(Still(r.heads[k]), r.heads[k], r.heads[k], i + 1)
  {
    assert HeadAt(ts, r.heads, k, own);
    StillAway(ts, r.heads, k, i, own);
  }

  /** While a coroutine is not picked, the machine runs others. */
  lemma {:induction false} AwayFilm(ts: seq<Turn>, n: nat, r: Reel, k: nat, m: nat, i: nat, own: C.Range, pageSize: nat)
    returns (f: Film)
    requires pageSize > 0 && Run(ts, pageSize) && k <= m < |ts| && m <= n <= |ts| && OnMachine(ts, n, r, own)
    requires i < MAX_COROS && Alive(ts[k].before.coros[i]) && Waits(ts, k, m, i)
    ensures Away(f, r.heads[k], r.heads[m], i + 1)
    decreases m
  {
    if k == m {
      StillAwayAt(ts, n, r, k, i, own);
      return Still(r.heads[k]);
    }
    AwayAt(ts, n, r, k, m, i, own, pageSize);
    f := AwayFilm(ts, n, r, k, m - 1, i, own, pageSize);
    JoinAway(f, r.films[m - 1], r.heads[k], r.heads[m - 1], r.heads[m], i + 1);
    f := Appended(f, r.films[m - 1]);
  }

  function AllOf(f: Film, g: Film, h: Film): Film {
    Appended(Appended(f, g), h)
  }

  lemma WorldOfAll(f: Film, g: Film, h: Film, j: nat)
    requires j < |AllOf(f, g, h).ws|
    ensures var n, m := |f.ws|, |f.ws| + |g.ws|;
            AllOf(f, g, h).ws[j] == if j < n then f.ws[j] else if j < m then g.ws[j - n] else h.ws[j - m]
  {
  }

  /** Between giving control back in one film and getting it again in another the context is suspended. */
  lemma SuspendedBetween(
    f: Film, g: Film, h: Film, w0: C.World, w1: C.World, w2: C.World, w3: C.World, id: nat,
    a: nat, b: nat, ids: set<nat>, a': nat, b': nat, ids': set<nat>)
    requires Shot(f, w0, w1, id, a, b, ids) && Away(g, w1, w2, id) && Shot(h, w2, w3, id, a', b', ids')
    requires id != C.SCHEDULER && id in ids && id in ids'
    ensures var ws, n := AllOf(f, g, h).ws, |f.ws| + |g.ws| + a';
            && b < n && n + 1 < |ws| && ws[b].running == id && ws[n + 1].running == id && C.Suspended(ws, b + 1, n, id)
  {
    var ws, n := AllOf(f, g, h).ws, |f.ws| + |g.ws| + a';
    WorldOfAll(f, g, h, b);
    WorldOfAll(f, g, h, n + 1);
    assert Shows(f.ws[b], id, ids) && Shows(h.ws[a' + 1], id, ids');
    forall j | b + 1 <= j <= n ensures id in ws[j].live && ws[j].running != id {
      WorldOfAll(f, g, h, j);
      if j < |f.ws| {
        assert Shows(f.ws[j], C.SCHEDULER, ids);
      } else if j >= |f.ws| + |g.ws| {
        assert Shows(h.ws[j - |f.ws| - |g.ws|], C.SCHEDULER, ids');
      }
    }
  }

  lemma AllReaches(f: Film, g: Film, h: Film, w0: C.World, w1: C.World, w2: C.World, w3: C.World)
    requires Reaches(f, w0, w1) && Reaches(g, w1, w2) && Reaches(h, w2, w3)
    ensures Reaches(AllOf(f, g, h), w0, w3)
  {
    JoinReaches(f, g, w0, w1, w2);
    JoinReaches(Appended(f, g), h, w0, w2, w3);
  }

  lemma ShotOfPick(ts: seq<Turn>, n: nat, r: Reel, k: nat, i: nat, own: C.Range, pageSize: nat)
    requires pageSize > 0 && Run(ts, pageSize) && k < n <= |ts| && OnMachine(ts, n, r, own) && ts[k].picked == Some(i)
    ensures Shot(r.films[k], r.heads[k], r.heads[k + 1], i + 1, r.ins[k], r.outs[k], Lasting(ts[k].before.coros))
    ensures i < MAX_COROS && i + 1 in Lasting(ts[k].before.coros) && Reaches(r.films[k], r.heads[k], r.heads[k + 1])
  {
    assert ShotAt(ts, r, k);
    PickedWasAlive(ts, k, i, pageSize);
    AliveLasts(ts[k].before.coros, i);
    ShotReaches(r.films[k], r.heads[k], r.heads[k + 1], i + 1, r.ins[k], r.outs[k], Lasting(ts[k].before.coros));
  }

  lemma FilmBetween(ts: seq<Turn>, n: nat, r: Reel, k: nat, m: nat, i: nat, own: C.Range, pageSize: nat)
    returns (f: Film)
    requires pageSize > 0 && Run(ts, pageSize) && k < m < n <= |ts| && OnMachine(ts, n, r, own) && i < MAX_COROS
    requires Alive(ts[k].after.coros[i]) && Waits(ts, k + 1, m, i)
    ensures Away(f, r.heads[k + 1], r.heads[m], i + 1)
  {
    Chained(ts, k, pageSize);
    f := AwayFilm(ts, n, r, k + 1, m, i, own, pageSize);
  }

  /** In the run's own history on the machine, with the films of turns `k` and `m` and a film `g` of the turns
      between them, a coroutine that gives control back in turn `k` and is next picked in turn `m` returns,
      when it gets control, to where it called the switch: with the callee-saved registers, the stack
      pointer and the stack as they were, and as the current coroutine. */
  lemma ContinuesWhereItLeft(ts: seq<Turn>, n: nat, r: Reel, k: nat, m: nat, i: nat, own: C.Range, pageSize: nat)
    returns (f: Film, g: Film, leave: nat, arrive: nat)
    requires pageSize > 0 && Run(ts, pageSize) && k < m < n <= |ts| && OnMachine(ts, n, r, own)
    requires ts[k].picked == ts[m].picked == Some(i) && Waits(ts, k + 1, m, i)
    requires i < MAX_COROS && Alive(ts[k].after.coros[i])
    ensures Reaches(f, r.heads[k], r.heads[m + 1])
    ensures f == AllOf(r.films[k], g, r.films[m]) && Away(g, r.heads[k + 1], r.heads[m], i + 1)
    ensures leave == r.outs[k] && arrive == |r.films[k].ws| + |g.ws| + r.ins[m]
    ensures leave < arrive < |f.actions| && f.actions[leave] == f.actions[arrive] == C.Transfer
    ensures f.ws[leave].running == i + 1 && C.Suspended(f.ws, leave + 1, arrive, i + 1)
    ensures S.ReturnedTo(f.ws[arrive + 1].m, S.CallerOf(f.ws[leave].m))
    ensures f.ws[arrive + 1].m.rsp == f.ws[leave].m.rsp + 8 && i + 1 in f.ws[leave].live
    ensures C.SameOn(f.ws[arrive + 1].m.mem, f.ws[leave].m.mem, f.ws[leave].m.rsp, f.ws[leave].live[i + 1].hi)
    ensures f.ws[arrive + 1].current == Some(i + 1)
  {
    ShotOfPick(ts, n, r, k, i, own, pageSize);
    ShotOfPick(ts, n, r, m, i, own, pageSize);
    g := FilmBetween(ts, n, r, k, m, i, own, pageSize);
    SuspendedBetween(
      r.films[k], g, r.films[m], r.heads[k], r.heads[k + 1], r.heads[m], r.heads[m + 1], i + 1,
      r.ins[k], r.outs[k], Lasting(ts[k].before.coros), r.ins[m], r.outs[m], Lasting(ts[m].before.coros));
    AllReaches(r.films[k], g, r.films[m], r.heads[k], r.heads[k + 1], r.heads[m], r.heads[m + 1]);
    f := AllOf(r.films[k], g, r.films[m]);
    leave, arrive := r.outs[k], |r.films[k].ws| + |g.ws| + r.ins[m];
    C.ReturnsToCaller(f.ws, f.actions, leave, arrive, i + 1);
  }
}
