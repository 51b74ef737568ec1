/** Packing and unpacking of 64-bit handles: type in the top byte, 48 bits of generation, index in the low byte.
    The first half works on bits, as the code does; the second half gives the same operations on the
    numbers those bits stand for, which is what the socket table reasons about. */
module Handle {
  import opened Basics

  const HANDLE_TYPE_SOCKET: int := 1
  const TYPE_UNIT: int := 0x100_0000_0000_0000
  const GENERATIONS: int := 0x1_0000_0000_0000

  function TypeBits(h: bv64): bv8 {
    ((h & 0xff00_0000_0000_0000) >> 56) as bv8
  }

  function GenerationBits(h: bv64): bv64 {
    (h & 0x00ff_ffff_ffff_ff00) >> 8
  }

  function IndexBits(h: bv64): bv64 {
    h & 0xff
  }

  predicate GenerationValidBits(g: bv64) {
    g & 0xffff_0000_0000_0000 == 0
  }

  lemma ValidFitsIn48(g: bv64) returns (low: bv48)
    requires GenerationValidBits(g)
    ensures g == low as bv64
  {
    low := g as bv48;
  }

  lemma Value48(low: bv48)
    ensures (low as bv64) as nat < 0x1_0000_0000_0000
  {
    assert (low as bv64) as nat == low as nat;
  }

  lemma ValidIsSmall(g: bv64)
    requires GenerationValidBits(g)
    ensures g as nat < 0x1_0000_0000_0000
  {
    var low := ValidFitsIn48(g);
    Value48(low);
  }

  lemma SmallIsValid(g: bv64)
    requires g as nat < 0x1_0000_0000_0000
    ensures GenerationValidBits(g)
  {
  }

  /** The mask test accepts exactly the generations below 2^48. */
  function IsValid(g: bv64): (r: bool)
    ensures r <==> g as nat < 0x1_0000_0000_0000
  {
    if GenerationValidBits(g) then ValidIsSmall(g); true
    else LargeIsInvalid(g); false
  }

  lemma LargeIsInvalid(g: bv64)
    requires !GenerationValidBits(g)
    ensures g as nat >= 0x1_0000_0000_0000
  {
    if g as nat < 0x1_0000_0000_0000 {
      SmallIsValid(g);
    }
  }

  /** The three fields do not overlap, so their bitwise union is a sum. */
  lemma PackIsSum(t: bv8, g: bv64, i: bv8)
    requires GenerationValidBits(g)
    ensures (((t as bv64) << 56) | (g << 8) | (i as bv64)) as nat
         == (t as nat) * 0x100_0000_0000_0000 + (g as nat) * 256 + (i as nat)
  {
  }

  lemma WordIsSum(h: bv64, t: bv8, g: bv64, i: bv8)
    requires GenerationValidBits(g) && h == ((t as bv64) << 56) | (g << 8) | (i as bv64)
    ensures h as nat == (t as nat) * 0x100_0000_0000_0000 + (g as nat) * 256 + (i as nat)
  {
    PackIsSum(t, g, i);
  }

  lemma UnpackThenPack(h: bv64)
    ensures GenerationValidBits(GenerationBits(h)) && IndexBits(h) <= 255
    ensures ((TypeBits(h) as bv64) << 56) | (GenerationBits(h) << 8) | ((IndexBits(h) as bv8) as bv64) == h
  {
  }

  lemma ByteValue(x: bv64)
    requires x <= 255
    ensures (x as bv8) as nat == x as nat
  {
    var y := x as bv8;
    assert y as bv64 == x;
    assert (y as bv64) as nat == y as nat;
  }

  lemma Fields(h: bv64) returns (t: bv8, g: bv64, i: bv8)
    ensures t == TypeBits(h) && g == GenerationBits(h) && i as nat == IndexBits(h) as nat && GenerationValidBits(g)
    ensures h as nat == (t as nat) * 0x100_0000_0000_0000 + (g as nat) * 256 + (i as nat)
  {
    t, g, i := TypeBits(h), GenerationBits(h), IndexBits(h) as bv8;
    UnpackThenPack(h);
    WordIsSum(h, t, g, i);
    ByteValue(IndexBits(h));
  }

  lemma ByteIsSmall(b: bv8)
    ensures b as nat < 256
  {
  }

  /** Every word is the sum of its three fields, each within its own range. */
  lemma Digits(h: bv64)
    ensures h as nat == TypeBits(h) as nat * 0x100_0000_0000_0000 + GenerationBits(h) as nat * 256 + IndexBits(h) as nat
    ensures IndexBits(h) as nat < 256 && GenerationBits(h) as nat < 0x1_0000_0000_0000 && TypeBits(h) as nat < 256
  {
    var t, g, i := Fields(h);
    ValidIsSmall(g);
    ByteIsSmall(t);
    ByteIsSmall(i);
  }

  lemma PackThenUnpack(t: bv8, g: bv64, i: bv8)
    requires GenerationValidBits(g)
    ensures var h := ((t as bv64) << 56) | (g << 8) | (i as bv64);
            TypeBits(h) == t && GenerationBits(h) == g && IndexBits(h) == i as bv64
  {
  }

  /** Builds a handle field by field. `None` is the abort of the assertion on the generation. */
  method MakeHandle(t: bv8, generation: bv64, index: bv8) returns (r: Option<bv64>)
    ensures r.Some? <==> generation as nat < 0x1_0000_0000_0000
    ensures r.Some? ==> TypeBits(r.value) == t && GenerationBits(r.value) == generation && IndexBits(r.value) == index as bv64
    ensures r.Some? ==> r.value as nat == t as nat * TYPE_UNIT + generation as nat * 256 + index as nat
  {
    var handle: bv64 := 0;
    handle := handle | ((t as bv64) << 56);
    if !IsValid(generation) {
      return None;
    }
    handle := handle | (generation << 8);
    handle := handle | (index as bv64);
    PackThenUnpack(t, generation, index);
    PackIsSum(t, generation, index);
    r := Some(handle);
  }

  // The same operations on numbers.

  function HandleType(handle: u64): nat {
    handle / 0x100_0000_0000_0000
  }

  function HandleGeneration(handle: u64): nat {
    handle / 256 % 0x1_0000_0000_0000
  }

  function HandleIndex(handle: u64): nat {
    handle % 256
  }

  /** The masks and shifts of the code compute these quotients and remainders, for every word. */
  lemma BitsAreDigits(h: bv64)
    ensures h as nat <= U64_MAX
    ensures TypeBits(h) as nat == HandleType(h as nat)
    ensures GenerationBits(h) as nat == HandleGeneration(h as nat)
    ensures IndexBits(h) as nat == HandleIndex(h as nat)
  {
    Digits(h);
    FromSum(h as nat, TypeBits(h) as nat, GenerationBits(h) as nat, IndexBits(h) as nat);
  }

  lemma FromSum(h: int, t: int, generation: int, index: int)
    requires h == t * TYPE_UNIT + generation * 256 + index
    requires 0 <= t < 256 && 0 <= generation < GENERATIONS && 0 <= index < 256
    ensures 0 <= h <= U64_MAX && HandleType(h) == t && HandleGeneration(h) == generation && HandleIndex(h) == index
  {
    DigitsAreUnique(t, generation, index);
  }

  /** Packing and unpacking are inverse: distinct field triples give distinct handles, and no field leaks. */
  lemma DigitsAreUnique(t: int, generation: int, index: int)
    requires 0 <= t < 256 && 0 <= generation < GENERATIONS && 0 <= index < 256
    ensures var h := t * TYPE_UNIT + generation * 256 + index;
            0 <= h <= U64_MAX && HandleType(h) == t && HandleGeneration(h) == generation && HandleIndex(h) == index
  {
    var h := t * TYPE_UNIT + generation * 256 + index;
    assert h / 256 == t * GENERATIONS + generation;
  }
}
