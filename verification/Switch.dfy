/** What the assembly routines do: the frame they save and the frame they restore. */
module Switch {
  import opened Amd64

  /** The frame that a switch leaves on the stack that it abandons. */
  datatype Frame = Frame(r15: int, r14: int, r13: int, r12: int, rbp: int, rbx: int, ret: int)

  /** The frame at stack pointer `sp`. */
  function FrameAt(mem: Memory, sp: int): Frame {
    Frame(Read(mem, sp), Read(mem, sp + 8), Read(mem, sp + 16), Read(mem, sp + 24),
          Read(mem, sp + 32), Read(mem, sp + 40), Read(mem, sp + 48))
  }

  /** What a function call must preserve, with the place it returns to, for a machine at the entry of a function. */
  function CallerOf(m: Machine): Frame {
    Frame(m.r15, m.r14, m.r13, m.r12, m.rbp, m.rbx, Read(m.mem, m.rsp))
  }

  /** The machine has just returned with the registers of this frame. */
  predicate ReturnedTo(m: Machine, f: Frame) {
    m.r15 == f.r15 && m.r14 == f.r14 && m.r13 == f.r13 && m.r12 == f.r12 && m.rbp == f.rbp && m.rbx == f.rbx && m.rip == f.ret
  }

  function AfterPushes(m: Machine): Memory {
    m.mem[m.rsp - 8 := m.rbx][m.rsp - 16 := m.rbp][m.rsp - 24 := m.r12][m.rsp - 32 := m.r13][m.rsp - 40 := m.r14][m.rsp - 48 := m.r15]
  }

  /** One more instruction. */
  lemma {:induction false} Extend(m: Machine, n: nat, at: Machine, i: Instr)
    requires Steps(m, n) == at && InRoutine(at.rip) && Fetch(at.rip) == i
    ensures Steps(m, n + 1) == Exec(i, at)
    decreases n
  {
    if n == 0 {
      assert Steps(Exec(i, m), 0) == Exec(i, m);
    } else {
      Extend(Exec(Fetch(m.rip), m), n - 1, at, i);
    }
  }

  function Pushed(m: Machine, v: int): Machine {
    m.(rip := m.rip + 1, mem := m.mem[m.rsp - 8 := v], rsp := m.rsp - 8)
  }

  lemma PushStep(m: Machine, n: nat, at: Machine, r: Reg)
    requires Steps(m, n) == at && InRoutine(at.rip) && Fetch(at.rip) == Push(r)
    ensures Steps(m, n + 1) == Pushed(at, Get(at, r))
  {
    Extend(m, n, at, Push(r));
  }

  lemma PushThree(m: Machine)
    requires m.rip == SWITCH
    ensures Steps(m, 3) == m.(rip := SWITCH + 3, rsp := m.rsp - 24,
                              mem := m.mem[m.rsp - 8 := m.rbx][m.rsp - 16 := m.rbp][m.rsp - 24 := m.r12])
  {
    var m1 := Pushed(m, m.rbx);
    var m2 := Pushed(m1, m.rbp);
    PushStep(m, 0, m, Rbx);
    PushStep(m, 1, m1, Rbp);
    PushStep(m, 2, m2, R12);
  }

  lemma PushRest(m: Machine, n: nat, at: Machine)
    requires Steps(m, n) == at && at.rip == SWITCH + 3
    ensures Steps(m, n + 3) == at.(rip := SWITCH + 6, rsp := at.rsp - 24,
                                   mem := at.mem[at.rsp - 8 := at.r13][at.rsp - 16 := at.r14][at.rsp - 24 := at.r15])
  {
    var m1 := Pushed(at, at.r13);
    var m2 := Pushed(m1, at.r14);
    PushStep(m, n, at, R13);
    PushStep(m, n + 1, m1, R14);
    PushStep(m, n + 2, m2, R15);
  }

  lemma PushSix(m: Machine)
    requires m.rip == SWITCH
    ensures Steps(m, 6) == m.(rip := SWITCH + 6, rsp := m.rsp - 48, mem := AfterPushes(m))
  {
    PushThree(m);
    PushRest(m, 3, Steps(m, 3));
  }

  lemma StoreAndLeave(m: Machine, n: nat, at: Machine)
    requires Steps(m, n) == at && at.rip == SWITCH + 6
    ensures Steps(m, n + 2) == at.(rip := SWITCH + 8, rsp := at.rsi, mem := at.mem[at.rdi := at.rsp])
  {
    Extend(m, n, at, Store(Rsp, Rdi));
    Extend(m, n + 1, Exec(Store(Rsp, Rdi), at), Mov(Rsi, Rsp));
  }

  function Popped(m: Machine, r: Reg): Machine {
    Set(m.(rip := m.rip + 1, rsp := m.rsp + 8), r, Read(m.mem, m.rsp))
  }

  lemma PopStep(m: Machine, n: nat, at: Machine, r: Reg)
    requires Steps(m, n) == at && InRoutine(at.rip) && Fetch(at.rip) == Pop(r)
    ensures Steps(m, n + 1) == Popped(at, r)
  {
    Extend(m, n, at, Pop(r));
  }

  lemma PopThree(m: Machine, n: nat, at: Machine) returns (to: Machine)
    requires Steps(m, n) == at && at.rip == SWITCH + 8
    ensures Steps(m, n + 3) == to && to.rip == SWITCH + 11 && to.mem == at.mem && to.rsp == at.rsp + 24
    ensures to.r15 == Read(at.mem, at.rsp) && to.r14 == Read(at.mem, at.rsp + 8) && to.r13 == Read(at.mem, at.rsp + 16)
  {
    var m1 := Popped(at, R15);
    var m2 := Popped(m1, R14);
    PopStep(m, n, at, R15);
    PopStep(m, n + 1, m1, R14);
    PopStep(m, n + 2, m2, R13);
    to := Popped(m2, R13);
  }

  lemma PopRest(m: Machine, n: nat, at: Machine) returns (to: Machine)
    requires Steps(m, n) == at && at.rip == SWITCH + 11
    ensures Steps(m, n + 4) == to && to.rip == Read(at.mem, at.rsp + 24) && to.mem == at.mem && to.rsp == at.rsp + 32
    ensures to.r12 == Read(at.mem, at.rsp) && to.rbp == Read(at.mem, at.rsp + 8) && to.rbx == Read(at.mem, at.rsp + 16)
    ensures to.r13 == at.r13 && to.r14 == at.r14 && to.r15 == at.r15
  {
    var m1 := Popped(at, R12);
    var m2 := Popped(m1, Rbp);
    var m3 := Popped(m2, Rbx);
    PopStep(m, n, at, R12);
    PopStep(m, n + 1, m1, Rbp);
    PopStep(m, n + 2, m2, Rbx);
    Extend(m, n + 3, m3, Ret);
    to := Exec(Ret, m3);
  }

  function AfterSave(m: Machine): Memory {
    AfterPushes(m)[m.rdi := m.rsp - 48]
  }

  /** The fifteen instructions of the switch: the caller's frame is saved below its stack pointer, its place
      recorded in the cell, and the registers and the return address are those of the other frame. */
  lemma SwitchEffect(m: Machine)
    requires m.rip == SWITCH
    ensures Steps(m, 15).mem == AfterSave(m) && Steps(m, 15).rsp == m.rsi + 56
    ensures ReturnedTo(Steps(m, 15), FrameAt(AfterSave(m), m.rsi))
  {
    PushSix(m);
    StoreAndLeave(m, 6, Steps(m, 6));
    var half := PopThree(m, 8, Steps(m, 8));
    var to := PopRest(m, 11, half);
  }

  /** Where the routine writes. */
  lemma SaveFrame(m: Machine)
    requires m.rdi + 8 <= m.rsp - 48 || m.rsp + 8 <= m.rdi
    ensures Read(AfterSave(m), m.rdi) == m.rsp - 48
    ensures FrameAt(AfterSave(m), m.rsp - 48) == CallerOf(m)
    ensures forall a :: a != m.rdi && !(m.rsp - 48 <= a < m.rsp) ==> Read(AfterSave(m), a) == Read(m.mem, a)
  {
  }

  // Preparing a new stack.

  function AfterInit(m: Machine): Memory {
    var top := m.rsi;
    m.mem[top - 8 := m.rcx][top - 16 := m.rdx][top - 24 := 0][top - 32 := 0][top - 40 := 0]
         [top - 48 := 0][top - 56 := 0][top - 64 := 0][m.rdi := top - 64]
  }

  lemma InitMoves(m: Machine)
    requires m.rip == INIT
    ensures Steps(m, 2) == m.(rip := INIT + 2, rax := m.rsp, rsp := m.rsi)
  {
    Extend(m, 0, m, Mov(Rsp, Rax));
    Extend(m, 1, Exec(Mov(Rsp, Rax), m), Mov(Rsi, Rsp));
  }

  lemma InitHead(m: Machine, n: nat, at: Machine)
    requires Steps(m, n) == at && at.rip == INIT + 2
    ensures Steps(m, n + 2) == at.(rip := INIT + 4, rsp := at.rsp - 16, mem := at.mem[at.rsp - 8 := at.rcx][at.rsp - 16 := at.rdx])
  {
    PushStep(m, n, at, Rcx);
    PushStep(m, n + 1, Pushed(at, at.rcx), Rdx);
  }

  lemma ZeroStep(m: Machine, n: nat, at: Machine)
    requires Steps(m, n) == at && INIT + 4 <= at.rip < INIT + 10
    ensures Steps(m, n + 1) == Pushed(at, 0)
  {
    Extend(m, n, at, PushImm(0));
  }

  lemma ZeroThree(m: Machine, n: nat, at: Machine)
    requires Steps(m, n) == at && INIT + 4 <= at.rip <= INIT + 7
    ensures Steps(m, n + 3) == at.(rip := at.rip + 3, rsp := at.rsp - 24,
                                   mem := at.mem[at.rsp - 8 := 0][at.rsp - 16 := 0][at.rsp - 24 := 0])
  {
    var m1 := Pushed(at, 0);
    var m2 := Pushed(m1, 0);
    ZeroStep(m, n, at);
    ZeroStep(m, n + 1, m1);
    ZeroStep(m, n + 2, m2);
  }

  lemma InitTail(m: Machine, n: nat, at: Machine)
    requires Steps(m, n) == at && at.rip == INIT + 10
    ensures var mem := at.mem[at.rdi := at.rsp];
            Steps(m, n + 3) == at.(rip := Read(mem, at.rax), rsp := at.rax + 8, mem := mem)
  {
    var m1 := Exec(Store(Rsp, Rdi), at);
    var m2 := Exec(Mov(Rax, Rsp), m1);
    Extend(m, n, at, Store(Rsp, Rdi));
    Extend(m, n + 1, m1, Mov(Rax, Rsp));
    Extend(m, n + 2, m2, Ret);
  }

  /** The thirteen instructions that prepare a stack: they return to their caller, having built on the new
      stack a frame that continues at the trampoline, with the scheduler's address above it. */
  lemma InitEffect(m: Machine)
    requires m.rip == INIT
    ensures Steps(m, 13) == m.(rip := Read(AfterInit(m), m.rsp), rax := m.rsp, rsp := m.rsp + 8, mem := AfterInit(m))
  {
    InitMoves(m);
    InitHead(m, 2, Steps(m, 2));
    ZeroThree(m, 4, Steps(m, 4));
    ZeroThree(m, 7, Steps(m, 7));
    InitTail(m, 10, Steps(m, 10));
  }

  lemma InitFrame(m: Machine)
    requires m.rdi + 8 <= m.rsi - 64 || m.rsi <= m.rdi
    ensures Read(AfterInit(m), m.rdi) == m.rsi - 64
    ensures FrameAt(AfterInit(m), m.rsi - 64) == Frame(0, 0, 0, 0, 0, 0, m.rdx) && Read(AfterInit(m), m.rsi - 8) == m.rcx
    ensures forall a :: a != m.rdi && !(m.rsi - 64 <= a < m.rsi) ==> Read(AfterInit(m), a) == Read(m.mem, a)
  {
  }

  /** The trampoline reaches the C entry point with the scheduler's address as its argument. */
  lemma TrampolineEffect(m: Machine)
    requires m.rip == TRAMPOLINE
    ensures Steps(m, 3).rip == MAIN && Steps(m, 3).rdi == Read(m.mem, m.rsp) && Steps(m, 3).rsp == m.rsp - 16
  {
    var m1 := Exec(Load(Rsp, Rdi), m);
    var m2 := Exec(PushImm(0), m1);
    Extend(m, 0, m, Load(Rsp, Rdi));
    Extend(m, 1, m1, PushImm(0));
    Extend(m, 2, m2, Call(MAIN));
  }
}
