/** The stack that a new coroutine starts on: how large it is, where its pointer starts, and how it is aligned. */
module Entry {
  import opened Division
  import opened Stacks
  import opened Amd64
  import opened Contexts

  /** The part of a mapped stack that a coroutine may use: above the guard page. */
  function Usable(base: nat, pageSize: nat): Range
    requires pageSize > 0
  {
    Range(StackAt(base, pageSize).bottom, StackAt(base, pageSize).top)
  }

  lemma MultiplesOf16(x: nat, p: nat)
    requires p > 0 && p % 16 == 0 && x % p == 0
    ensures x % 16 == 0
  {
    var k, t := x / p, p / 16;
    assert x == k * p && p == t * 16;
    assert k * (t * 16) == (k * t) * 16;
    Divides(x, 16, k * t, 0);
  }

  lemma ShiftedBack(h: bv64)
    requires h & 0xf000_0000_0000_0000 == 0
    ensures (h << 4) as nat == h as nat * 16
  {
  }

  lemma PowersFrom16(p: bv64)
    requires PowerOfTwo(p) && p >= 16
    ensures p as nat % 16 == 0
  {
    var h := p >> 4;
    assert (h << 4) == p;
    ShiftedBack(h);
  }

  /** Every power-of-two page size gives a stack size that is a multiple of 16, and page sizes from 16 bytes
      on are multiples of 16 themselves. */
  lemma PageFacts(p: bv64)
    requires PowerOfTwo(p)
    ensures p as nat > 0 && StackSize(p as nat) % 16 == 0
    ensures p >= 16 ==> p as nat % 16 == 0
  {
    MaskRoundsUp(p);
    if p >= 16 {
      PowersFrom16(p);
    }
    if p <= 0x10000 {
      SmallPages(p);
    } else {
      LargePages(p);
    }
  }

  /** The usable stack lies above exactly one guard page, the initial pointer is inside it, and its top is
      aligned exactly when the guard page ends aligned. */
  lemma UsableStack(page: nat, base: nat)
    requires page > 0 && StackSize(page) % 16 == 0
    ensures Usable(base, page) == Range(base + page, base + page + StackSize(page))
    ensures Usable(base, page).lo <= Usable(base, page).hi - 64
    ensures Usable(base, page).hi % 16 == 0 <==> (base + page) % 16 == 0
  {
    SizeIsLeastMultiple(page);
    AlignedTop(base + page, StackSize(page));
  }

  lemma AlignedTop(lo: nat, size: nat)
    requires size % 16 == 0
    ensures (lo + size) % 16 == 0 <==> lo % 16 == 0
  {
  }

  lemma AlignedBottom(page: nat, base: nat)
    requires page > 0 && base % page == 0 && page % 16 == 0
    ensures (base + page) % 16 == 0
  {
    MultiplesOf16(base, page);
    AlignedTop(base, page);
  }

  /** On the stack that the allocator maps, the C entry point of every coroutine is reached with the stack
      pointer eight below a multiple of 16, as section 3.2.2 of the System V ABI demands, for every page
      size that is a power of two from 16 on. */
  lemma EntryIsAligned(ws: seq<World>, actions: seq<Action>, k: nat, n: nat, p: bv64, page: nat, base: nat)
    requires PowerOfTwo(p) && p >= 16 && page == p as nat && page > 0 && base % page == 0
    requires History(ws, actions) && k < n < |actions| && actions[k].Create?
    requires actions[k].stack == Usable(base, page)
    requires Suspended(ws, k + 1, n, actions[k].id) && ws[n + 1].running == actions[k].id
    ensures Steps(ws[n + 1].m, 3).rip == MAIN && (Steps(ws[n + 1].m, 3).rsp + 8) % 16 == 0
    ensures Usable(base, page).lo <= Steps(ws[n + 1].m, 3).rsp < Usable(base, page).hi
  {
    PageFacts(p);
    AlignedBottom(page, base);
    UsableStack(page, base);
    FirstEntry(ws, actions, k, n);
  }

  /** With pages of fewer than 16 bytes this fails: a mapping at 16 with pages of 8 is one example. */
  lemma TinyPagesMisalign()
    ensures PowerOfTwo(8) && 16 % 8 == 0 && Usable(16, 8).hi % 16 == 8
  {
  }
}
