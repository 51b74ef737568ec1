/** The part of an AMD64 machine that the context switch uses, and the three assembly routines. Memory is a
    map of aligned eight-byte cells. Code addresses are symbolic: one unit per instruction. */
module Amd64 {

  datatype Reg = Rax | Rbx | Rbp | R12 | R13 | R14 | R15 | Rsp | Rdi | Rsi | Rdx | Rcx

  datatype Instr =
    | Push(src: Reg)
    | PushImm(value: int)
    | Pop(dst: Reg)
    | Mov(from: Reg, to: Reg)
    | Store(what: Reg, where: Reg)
    | Load(pointer: Reg, into: Reg)
    | Ret
    | Call(target: int)

  type Memory = map<int, int>

  datatype Machine = Machine(
    rip: int, rax: int, rbx: int, rbp: int, r12: int, r13: int, r14: int, r15: int,
    rsp: int, rdi: int, rsi: int, rdx: int, rcx: int, mem: Memory)

  function Read(mem: Memory, a: int): int {
    if a in mem then mem[a] else 0
  }

  function Get(m: Machine, r: Reg): int {
    match r
    case Rax => m.rax
    case Rbx => m.rbx
    case Rbp => m.rbp
    case R12 => m.r12
    case R13 => m.r13
    case R14 => m.r14
    case R15 => m.r15
    case Rsp => m.rsp
    case Rdi => m.rdi
    case Rsi => m.rsi
    case Rdx => m.rdx
    case Rcx => m.rcx
  }

  function Set(m: Machine, r: Reg, v: int): Machine {
    match r
    case Rax => m.(rax := v)
    case Rbx => m.(rbx := v)
    case Rbp => m.(rbp := v)
    case R12 => m.(r12 := v)
    case R13 => m.(r13 := v)
    case R14 => m.(r14 := v)
    case R15 => m.(r15 := v)
    case Rsp => m.(rsp := v)
    case Rdi => m.(rdi := v)
    case Rsi => m.(rsi := v)
    case Rdx => m.(rdx := v)
    case Rcx => m.(rcx := v)
  }

  /** One instruction; `m.rip` is its address. */
  function Exec(i: Instr, m: Machine): Machine {
    var next := m.(rip := m.rip + 1);
    match i
    case Push(r) => next.(mem := m.mem[m.rsp - 8 := Get(m, r)], rsp := m.rsp - 8)
    case PushImm(v) => next.(mem := m.mem[m.rsp - 8 := v], rsp := m.rsp - 8)
    case Pop(r) => Set(next.(rsp := m.rsp + 8), r, Read(m.mem, m.rsp))
    case Mov(s, d) => Set(next, d, Get(m, s))
    case Store(s, a) => next.(mem := m.mem[Get(m, a) := Get(m, s)])
    case Load(a, d) => Set(next, d, Read(m.mem, Get(m, a)))
    case Ret => m.(rip := Read(m.mem, m.rsp), rsp := m.rsp + 8)
    case Call(t) => m.(mem := m.mem[m.rsp - 8 := m.rip + 1], rsp := m.rsp - 8, rip := t)
  }

  // The routines, and where they are.

  const SWITCH: int := 1000
  const INIT: int := 2000
  const TRAMPOLINE: int := 3000
  const MAIN: int := 4000

  const SWITCH_CODE: seq<Instr> := [
    Push(Rbx), Push(Rbp), Push(R12), Push(R13), Push(R14), Push(R15),
    Store(Rsp, Rdi),
    Mov(Rsi, Rsp),
    Pop(R15), Pop(R14), Pop(R13), Pop(R12), Pop(Rbp), Pop(Rbx),
    Ret]

  const INIT_CODE: seq<Instr> := [
    Mov(Rsp, Rax),
    Mov(Rsi, Rsp),
    Push(Rcx),
    Push(Rdx),
    PushImm(0), PushImm(0), PushImm(0), PushImm(0), PushImm(0), PushImm(0),
    Store(Rsp, Rdi),
    Mov(Rax, Rsp),
    Ret]

  const TRAMPOLINE_CODE: seq<Instr> := [
    Load(Rsp, Rdi),
    PushImm(0),
    Call(MAIN)]

  function Fetch(rip: int): (i: Instr)
    requires InRoutine(rip)
  {
    if SWITCH <= rip < SWITCH + 15 then SWITCH_CODE[rip - SWITCH]
    else if INIT <= rip < INIT + 13 then INIT_CODE[rip - INIT]
    else TRAMPOLINE_CODE[rip - TRAMPOLINE]
  }

  predicate InRoutine(rip: int) {
    SWITCH <= rip < SWITCH + 15 || INIT <= rip < INIT + 13 || TRAMPOLINE <= rip < TRAMPOLINE + 3
  }

  /** Fetches and executes up to `n` instructions, as long as control stays in the routines. */
  function Steps(m: Machine, n: nat): Machine
    decreases n, m.rip
  {
    if n == 0 || !InRoutine(m.rip) then m else Steps(Exec(Fetch(m.rip), m), n - 1)
  }
}
