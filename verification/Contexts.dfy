/** Many stacks and one processor: the scheduler and the coroutines, switching among each other. Context 0 is
    the scheduler, context `i + 1` the coroutine in slot `i`. */
module Contexts {
  import opened Basics
  import opened Amd64
  import opened Switch

  const CONTEXTS: int := 17
  const SCHEDULER: nat := 0

  /** The addresses from `lo` up to but not including `hi`. */
  datatype Range = Range(lo: int, hi: int)

  /** The machine, the stacks in use, whose code is running, the scheduler's idea of the current coroutine,
      and where each context keeps its saved stack pointer. */
  datatype World = World(m: Machine, live: map<nat, Range>, running: nat, current: Option<nat>, cells: seq<int>)

  datatype Action =
    | Compute
    | Choose
    | Create(id: nat, stack: Range)
    | Retire(id: nat)
    | Transfer

  predicate Apart(a: Range, b: Range) {
    a.hi <= b.lo || b.hi <= a.lo
  }

  predicate Outside(cell: int, r: Range) {
    cell + 8 <= r.lo || r.hi <= cell
  }

  predicate Contains(r: Range, lo: int, hi: int) {
    r.lo <= lo && hi <= r.hi
  }

  ghost predicate SameOn(a: Memory, b: Memory, lo: int, hi: int) {
    forall x :: lo <= x < hi ==> Read(a, x) == Read(b, x)
  }

  /** Stacks overlap neither each other nor the cells of the saved stack pointers. */
  ghost predicate Separate(w: World)
    requires |w.cells| == CONTEXTS
  {
    && (forall i, j :: 0 <= i < j < CONTEXTS ==> w.cells[i] + 8 <= w.cells[j] || w.cells[j] + 8 <= w.cells[i])
    && (forall i, j :: i in w.live && j in w.live && i != j ==> Apart(w.live[i], w.live[j]))
    && (forall i, j :: i in w.live && 0 <= j < CONTEXTS ==> Outside(w.cells[j], w.live[i]))
  }

  /** The saved stack pointer of a suspended context has a whole frame above it on its own stack. */
  predicate Framed(w: World, id: nat)
    requires |w.cells| == CONTEXTS && id < CONTEXTS && id in w.live
  {
    Contains(w.live[id], Read(w.m.mem, w.cells[id]), Read(w.m.mem, w.cells[id]) + 56)
  }

  ghost predicate Shape(w: World) {
    && |w.cells| == CONTEXTS && Separate(w)
    && (forall i :: i in w.live ==> i < CONTEXTS)
    && SCHEDULER in w.live && w.running in w.live
    && (w.current.Some? ==> w.current.value in w.live && w.current.value != SCHEDULER)
    && (w.running != SCHEDULER ==> w.current == Some(w.running))
  }

  ghost predicate Inv(w: World) {
    Shape(w) && forall i :: i in w.live && i != w.running ==> Framed(w, i)
  }

  // The steps. `w.m.rip` at the entry of a routine means that the running code has just called it.

  predicate Calls(w: World, entry: int, room: nat) {
    && w.m.rip == entry && w.running in w.live
    && Contains(w.live[w.running], w.m.rsp - room, w.m.rsp + 8)
  }

  /** Ordinary code of the running context: anything, but not on the other stacks or in the cells. */
  ghost predicate Computes(w: World, m: Machine)
    requires |w.cells| == CONTEXTS && forall i :: i in w.live ==> i < CONTEXTS
  {
    && (forall i :: i in w.live && i != w.running ==> SameOn(m.mem, w.m.mem, w.live[i].lo, w.live[i].hi))
    && (forall i :: i in w.live ==> Read(m.mem, w.cells[i]) == Read(w.m.mem, w.cells[i]))
  }

  /** Preparing a stack that overlaps nothing else, on behalf of the running code. */
  predicate CanCreate(w: World, id: nat, stack: Range)
    requires |w.cells| == CONTEXTS
  {
    && id < CONTEXTS && id !in w.live && stack.lo + 64 <= stack.hi
    && (forall i :: i in w.live ==> Apart(w.live[i], stack))
    && (forall i :: 0 <= i < CONTEXTS ==> Outside(w.cells[i], stack))
    && Calls(w, INIT, 0)
    && w.m.rdi == w.cells[id] && w.m.rsi == stack.hi && w.m.rdx == TRAMPOLINE
  }

  /** The two calls of the switch: the scheduler saves itself and takes the pointer of the current coroutine;
      a coroutine saves through `current` and takes the pointer of the scheduler. */
  predicate CanTransfer(w: World)
    requires |w.cells| == CONTEXTS
  {
    && w.current.Some? && w.current.value < CONTEXTS && Calls(w, SWITCH, 48)
    && var (own, other) := if w.running == SCHEDULER then (SCHEDULER, w.current.value) else (w.current.value, SCHEDULER);
       w.m.rdi == w.cells[own] && w.m.rsi == Read(w.m.mem, w.cells[other])
  }

  ghost predicate Next(w: World, a: Action, w': World) {
    && |w.cells| == CONTEXTS && (forall i :: i in w.live ==> i < CONTEXTS)
    && match a
       case Compute => Computes(w, w'.m) && w' == w.(m := w'.m)
       case Choose =>
         && w.running == SCHEDULER && w' == w.(current := w'.current)
         && (w'.current.Some? ==> w'.current.value in w.live && w'.current.value != SCHEDULER)
       case Create(id, stack) =>
         CanCreate(w, id, stack) && w' == w.(m := Steps(w.m, 13), live := w.live[id := stack])
       case Retire(id) =>
         w.running == SCHEDULER && w.current.None? && id != SCHEDULER && w' == w.(live := w.live - {id})
       case Transfer =>
         && CanTransfer(w)
         && w' == w.(m := Steps(w.m, 15), running := if w.running == SCHEDULER then w.current.value else SCHEDULER)
  }

  // What a suspended context keeps.

  /** Nothing at or above the saved stack pointer has changed since the memory was `mem`. */
  ghost predicate Parked(w: World, id: nat, stack: Range, sp: int, mem: Memory)
    requires |w.cells| == CONTEXTS
  {
    && id < CONTEXTS && id in w.live && w.live[id] == stack && Read(w.m.mem, w.cells[id]) == sp
    && Contains(stack, sp, sp + 56) && SameOn(w.m.mem, mem, sp, stack.hi)
  }

  lemma TransferWrites(w: World)
    requires Inv(w) && CanTransfer(w)
    ensures Steps(w.m, 15).mem == AfterSave(w.m) && Steps(w.m, 15).rsp == w.m.rsi + 56
    ensures ReturnedTo(Steps(w.m, 15), FrameAt(AfterSave(w.m), w.m.rsi))
    ensures w.m.rdi == w.cells[w.running]
    ensures Read(AfterSave(w.m), w.m.rdi) == w.m.rsp - 48 && FrameAt(AfterSave(w.m), w.m.rsp - 48) == CallerOf(w.m)
    ensures forall a :: a != w.m.rdi && !(w.m.rsp - 48 <= a < w.m.rsp) ==> Read(AfterSave(w.m), a) == Read(w.m.mem, a)
  {
    SwitchEffect(w.m);
    SaveFrame(w.m);
  }

  lemma CreateWrites(w: World, id: nat, stack: Range)
    requires Inv(w) && CanCreate(w, id, stack)
    ensures Steps(w.m, 13) == w.m.(rip := Read(w.m.mem, w.m.rsp), rax := w.m.rsp, rsp := w.m.rsp + 8, mem := AfterInit(w.m))
    ensures Read(AfterInit(w.m), w.cells[id]) == stack.hi - 64
    ensures FrameAt(AfterInit(w.m), stack.hi - 64) == Frame(0, 0, 0, 0, 0, 0, TRAMPOLINE)
    ensures Read(AfterInit(w.m), stack.hi - 8) == w.m.rcx
    ensures forall a :: a != w.cells[id] && !(stack.hi - 64 <= a < stack.hi) ==> Read(AfterInit(w.m), a) == Read(w.m.mem, a)
  {
    InitEffect(w.m);
    InitFrame(w.m);
  }

  /** A transfer leaves the abandoned context with its caller's frame on top of its stack. */
  lemma TransferParks(w: World, w': World)
    requires Inv(w) && Next(w, Transfer, w')
    ensures Parked(w', w.running, w.live[w.running], w.m.rsp - 48, w'.m.mem)
    ensures FrameAt(w'.m.mem, w.m.rsp - 48) == CallerOf(w.m)
    ensures SameOn(w'.m.mem, w.m.mem, w.m.rsp, w.live[w.running].hi)
  {
    TransferWrites(w);
  }

  /** A transfer writes nothing on the stacks or in the cells of the others. */
  lemma TransferSpares(w: World, id: nat)
    requires Inv(w) && CanTransfer(w) && id in w.live && id != w.running
    ensures SameOn(Steps(w.m, 15).mem, w.m.mem, w.live[id].lo, w.live[id].hi)
    ensures Read(Steps(w.m, 15).mem, w.cells[id]) == Read(w.m.mem, w.cells[id])
  {
    TransferWrites(w);
    assert Apart(w.live[id], w.live[w.running]) && Outside(w.cells[w.running], w.live[id]);
    assert Outside(w.cells[id], w.live[w.running]);
  }

  lemma SameFrame(a: Memory, b: Memory, sp: int, hi: int)
    requires SameOn(a, b, sp, hi) && sp + 56 <= hi
    ensures FrameAt(a, sp) == FrameAt(b, sp)
  {
  }

  /** A transfer continues the other context exactly where it was suspended. */
  lemma TransferResumes(w: World, w': World, stack: Range, sp: int, mem: Memory)
    requires Inv(w) && Next(w, Transfer, w') && Parked(w, w'.running, stack, sp, mem)
    ensures ReturnedTo(w'.m, FrameAt(mem, sp)) && w'.m.rsp == sp + 56 && SameOn(w'.m.mem, mem, sp, stack.hi)
    ensures w'.live[w'.running] == stack
  {
    TransferSpares(w, w'.running);
    TransferWrites(w);
    SameFrame(w'.m.mem, mem, sp, stack.hi);
  }

  // What each step keeps.

  lemma ComputeKeepsParked(w: World, w': World, id: nat, stack: Range, sp: int, mem: Memory)
    requires Inv(w) && Next(w, Compute, w') && Parked(w, id, stack, sp, mem) && id != w.running
    ensures Parked(w', id, stack, sp, mem)
  {
    assert SameOn(w'.m.mem, w.m.mem, stack.lo, stack.hi);
  }

  lemma CreateKeepsParked(w: World, a: Action, w': World, id: nat, stack: Range, sp: int, mem: Memory)
    requires Inv(w) && a.Create? && Next(w, a, w') && Parked(w, id, stack, sp, mem)
    ensures Parked(w', id, stack, sp, mem)
  {
    CreateWrites(w, a.id, a.stack);
    assert Apart(w.live[id], a.stack) && Outside(w.cells[a.id], w.live[id]);
  }

  lemma TransferKeepsParked(w: World, w': World, id: nat, stack: Range, sp: int, mem: Memory)
    requires Inv(w) && Next(w, Transfer, w') && Parked(w, id, stack, sp, mem) && id != w.running
    ensures Parked(w', id, stack, sp, mem)
  {
    TransferSpares(w, id);
  }

  /** Whatever the others do, a suspended context keeps its saved stack pointer and its stack. */
  lemma NextKeepsParked(w: World, a: Action, w': World, id: nat, stack: Range, sp: int, mem: Memory)
    requires Inv(w) && Next(w, a, w') && Parked(w, id, stack, sp, mem)
    requires id != w.running && id in w'.live
    ensures Parked(w', id, stack, sp, mem)
  {
    match a
    case Compute => ComputeKeepsParked(w, w', id, stack, sp, mem);
    case Create(_, _) => CreateKeepsParked(w, a, w', id, stack, sp, mem);
    case Transfer => TransferKeepsParked(w, w', id, stack, sp, mem);
    case Choose =>
    case Retire(_) =>
  }

  lemma NextKeepsFramed(w: World, a: Action, w': World, id: nat)
    requires Inv(w) && Next(w, a, w') && id in w.live && id != w.running && id in w'.live
    ensures Framed(w', id)
  {
    assert Framed(w, id);
    NextKeepsParked(w, a, w', id, w.live[id], Read(w.m.mem, w.cells[id]), w.m.mem);
  }

  lemma CreateFrames(w: World, a: Action, w': World)
    requires Inv(w) && a.Create? && Next(w, a, w')
    ensures Framed(w', a.id) && Parked(w', a.id, a.stack, a.stack.hi - 64, w'.m.mem) && a.id != SCHEDULER
    ensures FrameAt(w'.m.mem, a.stack.hi - 64) == Frame(0, 0, 0, 0, 0, 0, TRAMPOLINE)
    ensures Read(w'.m.mem, a.stack.hi - 8) == w.m.rcx
  {
    CreateWrites(w, a.id, a.stack);
  }

  lemma NextKeepsShape(w: World, a: Action, w': World)
    requires Shape(w) && Next(w, a, w')
    ensures Shape(w')
  {
  }

  lemma NextFrames(w: World, a: Action, w': World, id: nat)
    requires Inv(w) && Next(w, a, w') && id in w'.live && id != w'.running
    ensures |w'.cells| == CONTEXTS && id < CONTEXTS && Framed(w', id)
  {
    if id in w.live && id != w.running {
      NextKeepsFramed(w, a, w', id);
    } else if a.Transfer? {
      TransferParks(w, w');
    } else {
      CreateFrames(w, a, w');
    }
  }

  /** The invariant is kept by every step. */
  lemma NextKeepsInv(w: World, a: Action, w': World)
    requires Inv(w) && Next(w, a, w')
    ensures Inv(w')
  {
    NextKeepsShape(w, a, w');
    forall id | id in w'.live && id != w'.running ensures Framed(w', id) {
      NextFrames(w, a, w', id);
    }
  }

  // Whole histories.

  /** The worlds that a sequence of actions leads through. */
  ghost predicate History(ws: seq<World>, actions: seq<Action>) {
    && |ws| == |actions| + 1 && Inv(ws[0])
    && forall k :: 0 <= k < |actions| ==> StepAt(ws, actions, k)
  }

  ghost predicate StepAt(ws: seq<World>, actions: seq<Action>, k: nat)
    requires k < |actions| < |ws|
  {
    Next(ws[k], actions[k], ws[k + 1])
  }

  lemma {:induction false} InvAlways(ws: seq<World>, actions: seq<Action>, k: nat)
    requires History(ws, actions) && k < |ws|
    ensures Inv(ws[k])
  {
    if k > 0 {
      InvAlways(ws, actions, k - 1);
      assert StepAt(ws, actions, k - 1);
      NextKeepsInv(ws[k - 1], actions[k - 1], ws[k]);
    }
  }

  /** From `k` up to and including `n` the context exists but does not run. */
  predicate Suspended(ws: seq<World>, k: nat, n: nat, id: nat)
    requires k <= n < |ws|
  {
    forall j :: k <= j <= n ==> id in ws[j].live && ws[j].running != id
  }

  lemma KeepsParkedAt(
    ws: seq<World>, actions: seq<Action>, k: nat, id: nat, stack: Range, sp: int, mem: Memory)
    requires History(ws, actions) && k < |actions| && id in ws[k + 1].live && ws[k].running != id
    requires |ws[k].cells| == CONTEXTS && Parked(ws[k], id, stack, sp, mem)
    ensures |ws[k + 1].cells| == CONTEXTS && Parked(ws[k + 1], id, stack, sp, mem)
  {
    InvAlways(ws, actions, k);
    assert StepAt(ws, actions, k);
    NextKeepsParked(ws[k], actions[k], ws[k + 1], id, stack, sp, mem);
  }

  lemma {:induction false} StaysParked(
    ws: seq<World>, actions: seq<Action>, k: nat, n: nat, id: nat, stack: Range, sp: int, mem: Memory)
    requires History(ws, actions) && k <= n < |ws| && Suspended(ws, k, n, id)
    requires |ws[k].cells| == CONTEXTS && Parked(ws[k], id, stack, sp, mem)
    ensures |ws[n].cells| == CONTEXTS && Parked(ws[n], id, stack, sp, mem)
    decreases n
  {
    if k < n {
      StaysParked(ws, actions, k, n - 1, id, stack, sp, mem);
      KeepsParkedAt(ws, actions, n - 1, id, stack, sp, mem);
    }
  }

  /** The step at which another context starts to run is a transfer to or from the scheduler. It parks the
      old context with its caller's frame, and names a coroutine as the current one. */
  lemma LeavesAt(ws: seq<World>, actions: seq<Action>, k: nat)
    requires History(ws, actions) && k < |actions| && ws[k].running != ws[k + 1].running
    ensures actions[k] == Transfer && |ws[k + 1].cells| == CONTEXTS && ws[k].running in ws[k].live
    ensures Parked(ws[k + 1], ws[k].running, ws[k].live[ws[k].running], ws[k].m.rsp - 48, ws[k + 1].m.mem)
    ensures FrameAt(ws[k + 1].m.mem, ws[k].m.rsp - 48) == CallerOf(ws[k].m)
    ensures SameOn(ws[k + 1].m.mem, ws[k].m.mem, ws[k].m.rsp, ws[k].live[ws[k].running].hi)
  {
    InvAlways(ws, actions, k);
    assert StepAt(ws, actions, k);
    TransferParks(ws[k], ws[k + 1]);
  }

  lemma ArrivesAt(ws: seq<World>, actions: seq<Action>, k: nat, stack: Range, sp: int, mem: Memory)
    requires History(ws, actions) && k < |actions| && ws[k].running != ws[k + 1].running
    requires |ws[k].cells| == CONTEXTS && Parked(ws[k], ws[k + 1].running, stack, sp, mem)
    ensures actions[k] == Transfer
    ensures ReturnedTo(ws[k + 1].m, FrameAt(mem, sp)) && ws[k + 1].m.rsp == sp + 56
    ensures SameOn(ws[k + 1].m.mem, mem, sp, stack.hi)
    ensures ws[k + 1].current == Some(if ws[k + 1].running == SCHEDULER then ws[k].running else ws[k + 1].running)
  {
    InvAlways(ws, actions, k);
    assert StepAt(ws, actions, k);
    TransferResumes(ws[k], ws[k + 1], stack, sp, mem);
  }

  lemma CreatedAt(ws: seq<World>, actions: seq<Action>, k: nat)
    requires History(ws, actions) && k < |actions| && actions[k].Create?
    ensures |ws[k + 1].cells| == CONTEXTS && actions[k].id != SCHEDULER
    ensures var stack, mem := actions[k].stack, ws[k + 1].m.mem;
            && Parked(ws[k + 1], actions[k].id, stack, stack.hi - 64, mem)
            && FrameAt(mem, stack.hi - 64) == Frame(0, 0, 0, 0, 0, 0, TRAMPOLINE) && Read(mem, stack.hi - 8) == ws[k].m.rcx
  {
    InvAlways(ws, actions, k);
    assert StepAt(ws, actions, k);
    CreateFrames(ws[k], actions[k], ws[k + 1]);
  }

  /** A context that calls the switch at step `k` and next runs after step `n` has, at that point, returned
      to its own caller: with the callee-saved registers it had, the stack pointer just above the return
      address, and everything above that as it left it; and `current` names it if it is a coroutine, or the
      coroutine that yielded if it is the scheduler. */
  lemma ReturnsToCaller(ws: seq<World>, actions: seq<Action>, k: nat, n: nat, id: nat)
    requires History(ws, actions) && k < n < |actions|
    requires ws[k].running == id && Suspended(ws, k + 1, n, id) && ws[n + 1].running == id
    ensures actions[k] == actions[n] == Transfer
    ensures ReturnedTo(ws[n + 1].m, CallerOf(ws[k].m)) && ws[n + 1].m.rsp == ws[k].m.rsp + 8
    ensures id in ws[k].live && SameOn(ws[n + 1].m.mem, ws[k].m.mem, ws[k].m.rsp, ws[k].live[id].hi)
    ensures ws[n + 1].current == Some(if id == SCHEDULER then ws[n].running else id)
  {
    LeavesAt(ws, actions, k);
    var stack, sp, mem := ws[k].live[id], ws[k].m.rsp - 48, ws[k + 1].m.mem;
    StaysParked(ws, actions, k + 1, n, id, stack, sp, mem);
    ArrivesAt(ws, actions, n, stack, sp, mem);
  }

  /** A new coroutine first runs at the trampoline, on its own stack with zeroed registers, and from there
      enters the C code with the scheduler's address as argument. At that entry the stack pointer is
      aligned as a function call demands exactly when the top of the stack is. */
  lemma FirstEntry(ws: seq<World>, actions: seq<Action>, k: nat, n: nat)
    requires History(ws, actions) && k < n < |actions| && actions[k].Create?
    requires Suspended(ws, k + 1, n, actions[k].id) && ws[n + 1].running == actions[k].id
    ensures var m, top := ws[n + 1].m, actions[k].stack.hi;
            && ReturnedTo(m, Frame(0, 0, 0, 0, 0, 0, TRAMPOLINE)) && m.rsp == top - 8
            && Steps(m, 3).rip == MAIN && Steps(m, 3).rdi == ws[k].m.rcx && Steps(m, 3).rsp == top - 24
            && ((Steps(m, 3).rsp + 8) % 16 == 0 <==> top % 16 == 0)
    ensures ws[n + 1].current == Some(actions[k].id)
  {
    var id, stack, mem := actions[k].id, actions[k].stack, ws[k + 1].m.mem;
    CreatedAt(ws, actions, k);
    StaysParked(ws, actions, k + 1, n, id, stack, stack.hi - 64, mem);
    ArrivesAt(ws, actions, n, stack, stack.hi - 64, mem);
    TrampolineEffect(ws[n + 1].m);
  }

  /** At every point of every history the checks of the stack pointer around a switch hold: every suspended
      context has its saved pointer inside its own stack. */
  lemma SavedPointersValid(ws: seq<World>, actions: seq<Action>, k: nat, id: nat)
    requires History(ws, actions) && k < |ws| && id in ws[k].live && id != ws[k].running
    ensures id < |ws[k].cells|
    ensures ws[k].live[id].lo <= Read(ws[k].m.mem, ws[k].cells[id]) < ws[k].live[id].hi
  {
    InvAlways(ws, actions, k);
    assert Framed(ws[k], id);
  }
}
