/** Coroutine stacks: how large they are, and how they are mapped, guarded and unmapped. */
module Stacks {
  import opened Basics
  import opened Division

  const DESIRED: int := 65536

  /** The size in bits, as the code computes it from the page size. */
  function StackSizeBits(pageSize: bv64): bv64 {
    if pageSize > 0x10000 then pageSize
    else (0x10000 + (pageSize - 1)) & !(pageSize - 1)
  }

  predicate PowerOfTwo(p: bv64) {
    p != 0 && p & (p - 1) == 0
  }

  /** The same size as a number: the desired size rounded up to whole pages. */
  function StackSize(pageSize: nat): nat
    requires pageSize > 0
  {
    if pageSize > 65536 then pageSize else (65536 + pageSize - 1) / pageSize * pageSize
  }

  /** The least multiple of the page size that holds at least 64 KiB. */
  lemma SizeIsLeastMultiple(pageSize: nat)
    requires pageSize > 0
    ensures StackSize(pageSize) % pageSize == 0 && StackSize(pageSize) >= DESIRED
    ensures forall k: nat :: k * pageSize >= DESIRED ==> StackSize(pageSize) <= k * pageSize
  {
    var p := pageSize;
    var q := if p > 65536 then 1 else (65536 + p - 1) / p;
    assert StackSize(p) == q * p;
    Divides(q * p, p, q, 0);
    if p <= 65536 {
      var r := (65536 + p - 1) % p;
      assert 65536 + p - 1 == q * p + r;
    }
    forall k: nat | k * p >= DESIRED ensures q * p <= k * p {
      if k < q {
        Scales(k, q, p);
      }
    }
  }

  lemma SmallPages(p: bv64)
    requires PowerOfTwo(p) && p <= 0x10000
    ensures StackSizeBits(p) == 0x10000
    ensures p in {1, 2, 4, 8, 16, 32, 64, 128, 256, 512, 1024, 2048, 4096, 8192, 16384, 32768, 65536}
  {
  }

  /** The mask arithmetic rounds up for every power-of-two page size. */
  lemma MaskRoundsUp(p: bv64)
    requires PowerOfTwo(p)
    ensures p as nat > 0 && StackSizeBits(p) as nat == StackSize(p as nat)
  {
    if p <= 0x10000 {
      SmallPages(p);
    } else {
      LargePages(p);
    }
  }

  lemma LargePages(p: bv64)
    requires p > 0x10000
    ensures p as nat > 65536
  {
    var high := p - 0x10001;
    assert p == high + 0x10001;
  }

  // Mapping and unmapping.

  /** A mapping: `size` bytes from `base`, the first `guard` of them inaccessible. */
  datatype Region = Region(base: nat, size: nat, guard: nat)

  predicate Disjoint(a: Region, b: Region) {
    a.base + a.size <= b.base || b.base + b.size <= a.base
  }

  /** The stack record of a coroutine. */
  datatype Stack = Stack(base: nat, size: nat, top: nat, bottom: nat)

  const NO_STACK := Stack(0, 0, 0, 0)

  /** How an attempt to allocate a stack went. */
  datatype Alloc = MmapFailed | MprotectFailed(base: nat) | Allocated(base: nat)

  function StackAt(base: nat, pageSize: nat): Stack
    requires pageSize > 0
  {
    var size := StackSize(pageSize) + pageSize;
    Stack(base, size, base + size, base + pageSize)
  }

  /** What an attempt leaves in the stack record. */
  function StackAfter(a: Alloc, pageSize: nat): Stack
    requires pageSize > 0
  {
    match a
    case MmapFailed => NO_STACK.(size := StackSize(pageSize) + pageSize)
    case MprotectFailed(base) => StackAt(base, pageSize)
    case Allocated(base) => StackAt(base, pageSize)
  }

  /** The mapping behind a live stack: a guard page below `bottom`, the usable part up to `top`. */
  function RegionOf(s: Stack): Region {
    Region(s.base, s.size, if s.bottom >= s.base then s.bottom - s.base else 0)
  }

  /** A call on the address space and how it went. */
  datatype MemoryCall =
    | MapCall(size: nat, result: Option<nat>)
    | GuardCall(base: nat, length: nat, ok: bool)
    | UnmapCall(base: nat, size: nat)

  /** The calls behind an attempt to allocate a stack. */
  function AllocCalls(a: Alloc, pageSize: nat): seq<MemoryCall>
    requires pageSize > 0
  {
    var size := StackSize(pageSize) + pageSize;
    match a
    case MmapFailed => [MapCall(size, None)]
    case MprotectFailed(base) => [MapCall(size, Some(base)), GuardCall(base, pageSize, false), UnmapCall(base, size)]
    case Allocated(base) => [MapCall(size, Some(base)), GuardCall(base, pageSize, true)]
  }

  /** The memory mappings of the process. The methods stand for system calls: their contracts are all
      that is assumed of the kernel. Only they write the log. */
  class AddressSpace {
    const pageSize: nat
    var mapped: set<Region>
    ghost var log: seq<MemoryCall>

    constructor (pageSize: nat)
      ensures this.pageSize == pageSize && mapped == {} && log == []
    {
      this.pageSize := pageSize;
      mapped, log := {}, [];
    }

    /** Either fails or adds a page-aligned mapping that overlaps no other. */
    method Mmap(size: nat) returns (base: Option<nat>)
      requires pageSize > 0
      modifies this
      ensures log == old(log) + [MapCall(size, base)]
      ensures base.None? ==> mapped == old(mapped)
      ensures base.Some? ==>
                && base.value > 0 && base.value % pageSize == 0
                && (forall r :: r in old(mapped) ==> Disjoint(Region(base.value, size, 0), r))
                && mapped == old(mapped) + {Region(base.value, size, 0)}
    {
      var at: nat := *;
      if at > 0 && at % pageSize == 0 && forall r :: r in mapped ==> Disjoint(Region(at, size, 0), r) {
        mapped := mapped + {Region(at, size, 0)};
        log := log + [MapCall(size, Some(at))];
        return Some(at);
      }
      base := None;
      log := log + [MapCall(size, None)];
    }

    /** Either fails or makes the first `length` bytes of a mapping inaccessible. */
    method Mprotect(base: nat, size: nat, length: nat) returns (ok: bool)
      requires Region(base, size, 0) in mapped
      modifies this
      ensures log == old(log) + [GuardCall(base, length, ok)]
      ensures mapped == if ok then old(mapped) - {Region(base, size, 0)} + {Region(base, size, length)} else old(mapped)
    {
      ok := *;
      log := log + [GuardCall(base, length, ok)];
      if ok {
        mapped := mapped - {Region(base, size, 0)} + {Region(base, size, length)};
      }
    }

    /** Removes one existing mapping, named by its base and size. */
    method Munmap(base: nat, size: nat, ghost guard: nat)
      requires Region(base, size, guard) in mapped
      requires forall r :: r in mapped && r.base == base && r.size == size ==> r == Region(base, size, guard)
      modifies this
      ensures log == old(log) + [UnmapCall(base, size)]
      ensures mapped == old(mapped) - {Region(base, size, guard)}
    {
      log := log + [UnmapCall(base, size)];
      mapped := set r | r in mapped && !(r.base == base && r.size == size);
    }
  }

  /** Allocates a stack, or reports failure with every mapping as it was. */
  method StackAlloc(memory: AddressSpace) returns (rv: Errno, stack: Stack, ghost a: Alloc)
    requires memory.pageSize > 0
    modifies memory
    ensures rv == (if a.Allocated? then Success else ENoMem) && stack == StackAfter(a, memory.pageSize)
    ensures memory.log == old(memory.log) + AllocCalls(a, memory.pageSize)
    ensures !a.Allocated? ==> memory.mapped == old(memory.mapped)
    ensures a.Allocated? ==>
              && a.base > 0 && a.base % memory.pageSize == 0
              && (forall r :: r in old(memory.mapped) ==> Disjoint(RegionOf(stack), r))
              && memory.mapped == old(memory.mapped) + {RegionOf(stack)}
  {
    var pageSize := memory.pageSize;
    var coroStackSize := StackSize(pageSize);
    stack := NO_STACK.(size := coroStackSize + pageSize);
    var base := memory.Mmap(stack.size);
    if base.None? {
      return ENoMem, stack, MmapFailed;
    }
    stack := stack.(base := base.value);
    stack := stack.(bottom := stack.base + pageSize);
    stack := stack.(top := stack.base + stack.size);
    assert forall r :: r in old(memory.mapped) ==> r.base + r.size <= stack.base || stack.base + stack.size <= r.base;
    SizeIsLeastMultiple(pageSize);
    assert forall r :: r in old(memory.mapped) ==> !(r.base == stack.base && r.size == stack.size);
    var ok := memory.Mprotect(stack.base, stack.size, pageSize);
    if !ok {
      memory.Munmap(stack.base, stack.size, 0);
      return ENoMem, stack, MprotectFailed(stack.base);
    }
    return Success, stack, Allocated(stack.base);
  }

  /** Unmaps the stack and clears the part of the record that named it. */
  method StackFree(memory: AddressSpace, stack: Stack) returns (rest: Stack)
    requires RegionOf(stack) in memory.mapped
    requires forall r :: r in memory.mapped && r.base == stack.base && r.size == stack.size ==> r == RegionOf(stack)
    modifies memory
    ensures memory.mapped == old(memory.mapped) - {RegionOf(stack)}
    ensures memory.log == old(memory.log) + [UnmapCall(stack.base, stack.size)]
    ensures rest == stack.(base := 0, size := 0)
  {
    memory.Munmap(stack.base, stack.size, RegionOf(stack).guard);
    rest := stack.(base := 0, size := 0);
  }
}
