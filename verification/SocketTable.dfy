/** The table of sockets: 256 slots, a probe cursor and a generation counter, refining a finite map
    from handles to sockets. */
module SocketTable {
  import opened Basics
  import opened Division
  import opened Handle

  const MAX_SOCKETS: int := 256

  datatype SocketInfo = SocketInfo(handle: u64, readTimeout: u64, writeTimeout: u64, fd: int)

  /** What the owner of a handle can observe of its socket. */
  datatype Entry = Entry(fd: int, readTimeout: u64, writeTimeout: u64)

  const FREE := SocketInfo(0, 0, 0, 0)

  /** The table as a value. `probes` counts every slot inspected by an allocation since the program
      started; the two counters of the code are functions of it. */
  datatype Table = Table(slots: seq<SocketInfo>, probes: nat)

  /** The cursor after `probes` probes, a word that wraps. */
  function NextSlot(probes: nat): u64 {
    if probes == 0 then 0 else Bump(NextSlot(probes - 1))
  }

  function Bump(x: u64): u64 {
    if x == U64_MAX then 0 else x + 1
  }

  /** The generation after `probes` probes: it grows when the cursor comes back to slot zero. */
  function Generation(probes: nat): u64 {
    if probes == 0 then 0
    else if NextSlot(probes) >= 2 && NextSlot(probes) % 256 == 0 then Bump(Generation(probes - 1))
    else Generation(probes - 1)
  }

  /** How often the generation has grown. */
  function Epochs(probes: nat): nat {
    if probes == 0 then 0
    else Epochs(probes - 1) + (if NextSlot(probes) >= 2 && NextSlot(probes) % 256 == 0 then 1 else 0)
  }

  /** The generation counter has not overflowed yet. */
  predicate NotWrapped(probes: nat) {
    Epochs(probes) < TWO_64
  }

  lemma WordStep(p: nat)
    ensures (p + 1) % 0x1_0000_0000_0000_0000 == Bump(p % 0x1_0000_0000_0000_0000)
  {
    Successor(p, 0x1_0000_0000_0000_0000);
  }

  lemma {:induction false} NextSlotIsWrapped(probes: nat)
    ensures NextSlot(probes) == probes % 0x1_0000_0000_0000_0000
    decreases probes
  {
    if probes > 0 {
      NextSlotIsWrapped(probes - 1);
      WordStep(probes - 1);
    }
  }

  /** The cursor is the probe count modulo 2^64, so wrapping does not disturb the slot it points at. */
  lemma NextSlotIsProbes(probes: nat)
    ensures NextSlot(probes) == probes % 0x1_0000_0000_0000_0000
    ensures NextSlot(probes) % 256 == probes % 256
  {
    NextSlotIsWrapped(probes);
    Coarser(probes, 256, 0x100_0000_0000_0000);
  }

  lemma ClosedStep(p: nat)
    ensures (p + 1) / 256 - (p + 1) / 0x1_0000_0000_0000_0000
         == p / 256 - p / 0x1_0000_0000_0000_0000
            + (if (p + 1) % 256 == 0 && (p + 1) % 0x1_0000_0000_0000_0000 != 0 then 1 else 0)
  {
    Successor(p, 256);
    Successor(p, 0x1_0000_0000_0000_0000);
    Coarser(p + 1, 256, 0x100_0000_0000_0000);
  }

  lemma CursorAtZero(n: nat, r: nat)
    requires n % 256 == r
    ensures n >= 2 && n % 256 == 0 <==> r == 0 && n != 0
  {
  }

  /** The generation grows at every multiple of 256 except where the cursor wraps to zero. */
  lemma {:induction false} EpochsInClosedForm(probes: nat)
    ensures Epochs(probes) == probes / 256 - probes / 0x1_0000_0000_0000_0000
    decreases probes
  {
    if probes > 0 {
      EpochsInClosedForm(probes - 1);
      NextSlotIsProbes(probes);
      ClosedStep(probes - 1);
      CursorAtZero(NextSlot(probes), probes % 256);
    }
  }

  lemma {:induction false} GenerationIsEpochs(probes: nat)
    ensures Generation(probes) == Epochs(probes) % 0x1_0000_0000_0000_0000
    decreases probes
  {
    if probes > 0 {
      GenerationIsEpochs(probes - 1);
      WordStep(Epochs(probes - 1));
    }
  }

  /** While the cursor has not wrapped, the generation is the number of full turns it has made. */
  lemma GenerationCountsTurns(probes: nat)
    requires probes <= U64_MAX
    ensures Generation(probes) == NextSlot(probes) / 256
  {
    GenerationIsEpochs(probes);
    EpochsInClosedForm(probes);
    NextSlotIsProbes(probes);
    Divides(probes, 0x1_0000_0000_0000_0000, 0, probes);
    var q := probes / 256;
    assert Epochs(probes) == q && q <= probes;
    Divides(q, 0x1_0000_0000_0000_0000, 0, q);
  }

  /** The handle given out when the probe numbered `probes` finds a free slot, or the abort. */
  function Issue(probes: nat): Option<u64> {
    if Generation(probes) < GENERATIONS
    then Some(HANDLE_TYPE_SOCKET * TYPE_UNIT + Generation(probes) * 256 + probes % 256)
    else None
  }

  /** The handle was given out by the last of the probes made since the cursor stood at `before`. */
  predicate Issued(handle: u64, before: nat, cursor: nat) {
    before < cursor <= before + 256 && Issue(cursor - 1) == Some(handle)
  }

  predicate Taken(slots: seq<SocketInfo>, start: nat, j: nat)
    requires |slots| == MAX_SOCKETS
  {
    slots[(start + j) % 256].handle != 0
  }

  /** How many occupied slots precede the first free one in cyclic order from `start`; 256 when all are taken. */
  function FreeGap(slots: seq<SocketInfo>, start: nat, k: nat): (r: nat)
    requires |slots| == MAX_SOCKETS && k <= MAX_SOCKETS
    ensures k <= r <= MAX_SOCKETS
    decreases |slots| - k
  {
    if k == MAX_SOCKETS || !Taken(slots, start, k) then k else FreeGap(slots, start, k + 1)
  }

  /** The search stops at the first free slot in cyclic order, or finds every slot taken. */
  lemma {:induction false} GapIsFirstFree(slots: seq<SocketInfo>, start: nat, k: nat)
    requires |slots| == MAX_SOCKETS && k <= MAX_SOCKETS
    ensures forall j :: k <= j < FreeGap(slots, start, k) ==> Taken(slots, start, j)
    ensures FreeGap(slots, start, k) < MAX_SOCKETS ==> !Taken(slots, start, FreeGap(slots, start, k))
    decreases |slots| - k
  {
    if k < MAX_SOCKETS && Taken(slots, start, k) {
      GapIsFirstFree(slots, start, k + 1);
    }
  }

  datatype CreateOutcome = Created(index: nat, table: Table) | Full(table: Table) | Aborted

  function Create(t: Table, fd: int): CreateOutcome
    requires |t.slots| == MAX_SOCKETS
  {
    var k := FreeGap(t.slots, t.probes, 0);
    if k == MAX_SOCKETS then Full(t.(probes := t.probes + MAX_SOCKETS)) else
    Take(t.slots, t.probes + k, fd)
  }

  /** The probe numbered `p` takes the slot it has found free. */
  function Take(slots: seq<SocketInfo>, p: nat, fd: int): CreateOutcome
    requires |slots| == MAX_SOCKETS
  {
    match Issue(p)
    case None => Aborted
    case Some(h) => Created(p % 256, Table(slots[p % 256 := SocketInfo(h, U64_MAX, U64_MAX, fd)], p + 1))
  }

  function Find(slots: seq<SocketInfo>, handle: u64): Option<nat>
    requires |slots| == MAX_SOCKETS
  {
    if HandleType(handle) == HANDLE_TYPE_SOCKET && slots[HandleIndex(handle)].handle == handle
    then Some(HandleIndex(handle)) else None
  }

  /** Every live handle is a socket handle for the slot that holds it, issued by an earlier probe. */
  ghost predicate Inv(t: Table) {
    && |t.slots| == MAX_SOCKETS
    && forall i :: 0 <= i < MAX_SOCKETS && t.slots[i].handle != 0 ==> WellPlaced(t.slots[i].handle, i, t.probes)
  }

  predicate WellPlaced(handle: u64, i: nat, probes: nat) {
    TYPE_UNIT <= handle < 2 * TYPE_UNIT && handle % 256 == i && handle < TYPE_UNIT + probes
  }

  // The finite map that the table stands for.

  ghost function Handles(slots: seq<SocketInfo>): set<u64> {
    set i | 0 <= i < |slots| && slots[i].handle != 0 :: slots[i].handle
  }

  ghost function Live(slots: seq<SocketInfo>): map<u64, Entry>
    requires |slots| == MAX_SOCKETS
  {
    map h: u64 | h in Handles(slots) :: EntryOf(slots[h % 256])
  }

  function EntryOf(info: SocketInfo): Entry {
    Entry(info.fd, info.readTimeout, info.writeTimeout)
  }

  lemma LiveMeans(t: Table, h: u64)
    requires Inv(t)
    ensures h in Live(t.slots) <==> h != 0 && t.slots[h % 256].handle == h
  {
    if h in Live(t.slots) {
      var i :| 0 <= i < |t.slots| && t.slots[i].handle != 0 && t.slots[i].handle == h;
      assert WellPlaced(h, i, t.probes);
    }
  }

  /** Find is lookup: it succeeds exactly on the keys of the map and leads to the key's own entry. */
  lemma FindIsLookup(t: Table, h: u64)
    requires Inv(t)
    ensures Find(t.slots, h).Some? <==> h in Live(t.slots)
    ensures h in Live(t.slots) ==> Live(t.slots)[h] == EntryOf(t.slots[Find(t.slots, h).value])
  {
    LiveMeans(t, h);
    if h != 0 && t.slots[h % 256].handle == h {
      assert WellPlaced(h, h % 256, t.probes);
    }
  }

  /** A handle never exceeds the probe that produced it, and equals it exactly while the generation
      counter has not overflowed. */
  lemma IssueIsCursor(probes: nat)
    ensures Issue(probes).Some? ==>
              && WellPlaced(Issue(probes).value, probes % 256, probes + 1)
              && (Issue(probes).value == TYPE_UNIT + probes <==> NotWrapped(probes))
  {
    if Issue(probes).Some? {
      var g, q, b := Generation(probes), probes / 256, probes % 256;
      GenerationBound(probes);
      Divides(Issue(probes).value, 256, GENERATIONS + g, b);
      if NotWrapped(probes) {
        SmallCursor(probes);
      }
    }
  }

  /** A probe issues a handle that no earlier probe can have issued, exactly as long as the generation
      counter has not overflowed. */
  lemma FreshExactlyUntilOverflow(p: nat)
    requires Issue(p).Some?
    ensures NotWrapped(p) <==> forall q :: 0 <= q < p ==> Issue(q) != Issue(p)
  {
    IssueIsCursor(p);
    if NotWrapped(p) {
      forall q | 0 <= q < p ensures Issue(q) != Issue(p) {
        IssueIsCursor(q);
      }
    } else {
      var q := EarlierTwin(p);
    }
  }

  lemma EarlierTwin(p: nat) returns (q: nat)
    requires Issue(p).Some? && !NotWrapped(p)
    ensures q < p && Issue(q) == Issue(p)
  {
    q := Generation(p) * 256 + p % 256;
    GenerationBound(p);
    EarlyGeneration(Generation(p), p % 256);
  }

  lemma EarlyGeneration(g: nat, b: nat)
    requires g < GENERATIONS && b < 256
    ensures Generation(g * 256 + b) == g && (g * 256 + b) % 256 == b
  {
    Divides(g * 256 + b, 256, g, b);
    GenerationCountsTurns(g * 256 + b);
    NextSlotIsProbes(g * 256 + b);
  }

  lemma GenerationBound(probes: nat)
    ensures Generation(probes) <= probes / 256
    ensures NotWrapped(probes) ==> Generation(probes) == Epochs(probes)
    ensures !NotWrapped(probes) ==> probes / 256 >= TWO_64
  {
    GenerationIsEpochs(probes);
    EpochsInClosedForm(probes);
  }

  /** While fewer than 2^48 epochs have passed, the cursor itself is below 2^56, so it never wrapped. */
  lemma SmallCursor(probes: nat)
    requires Epochs(probes) < GENERATIONS
    ensures probes < TYPE_UNIT && Epochs(probes) == probes / 256
  {
    EpochsInClosedForm(probes);
    var a := probes / 0x1_0000_0000_0000_0000;
    assert probes / 256 >= a * TYPE_UNIT by {
      assert probes >= a * TWO_64;
    }
  }

  /** Creation inserts one fresh key in the first free slot in cyclic order, or changes nothing but the cursor. */
  lemma CreateInserts(t: Table, fd: int)
    requires Inv(t)
    ensures match Create(t, fd)
            case Created(i, t') =>
              && Inv(t') && i < MAX_SOCKETS && t.slots[i].handle == 0
              && t'.slots[i].handle != 0
              && t'.slots[i].handle !in Live(t.slots)
              && Live(t'.slots) == Live(t.slots)[t'.slots[i].handle := Entry(fd, U64_MAX, U64_MAX)]
              && t.probes < t'.probes <= t.probes + MAX_SOCKETS
            case Full(t') =>
              && Inv(t') && t'.slots == t.slots && t'.probes == t.probes + MAX_SOCKETS
              && (forall i :: 0 <= i < MAX_SOCKETS ==> t.slots[i].handle != 0)
            case Aborted => Generation(t.probes + FreeGap(t.slots, t.probes, 0)) >= GENERATIONS
  {
    match Create(t, fd)
    case Full(t') =>
      AllTaken(t.slots, t.probes);
      FullKeepsInv(t, t'.probes);
    case Created(i, t') =>
      CreatedShape(t, fd);
      IssueIsCursor(t'.probes - 1);
      InsertOne(t, i, t'.slots[i], t'.probes);
    case Aborted =>
  }

  lemma FullKeepsInv(t: Table, probes: nat)
    requires Inv(t) && t.probes <= probes
    ensures Inv(t.(probes := probes))
  {
  }

  /** The shape of a successful creation: one slot filled by the probe before the new cursor. */
  lemma CreatedShape(t: Table, fd: int)
    requires Inv(t) && Create(t, fd).Created?
    ensures var Created(i, t') := Create(t, fd);
            && t'.probes > t.probes && i == (t'.probes - 1) % 256 && t.slots[i].handle == 0
            && Issue(t'.probes - 1).Some?
            && t'.slots == t.slots[i := SocketInfo(Issue(t'.probes - 1).value, U64_MAX, U64_MAX, fd)]
  {
    GapIsFirstFree(t.slots, t.probes, 0);
  }

  /** What a successful creation means for the map and for the handle. */
  lemma CreatedEffect(t: Table, fd: int, i: nat, t': Table)
    requires Inv(t) && Create(t, fd) == Created(i, t')
    ensures Inv(t') && i < MAX_SOCKETS && t'.slots[i].handle != 0 && t'.slots[i].handle !in Live(t.slots)
    ensures Live(t'.slots) == Live(t.slots)[t'.slots[i].handle := Entry(fd, U64_MAX, U64_MAX)]
    ensures Issued(t'.slots[i].handle, t.probes, t'.probes)
  {
    CreateInserts(t, fd);
    CreatedShape(t, fd);
  }

  lemma TurnTo(start: nat, i: nat) returns (j: nat)
    requires i < 256
    ensures j < 256 && (start + j) % 256 == i
  {
    var s := start % 256;
    assert start == start / 256 * 256 + s;
    j := if s <= i then i - s else i + 256 - s;
    assert start + j == (start / 256 + (if s <= i then 0 else 1)) * 256 + i;
  }

  /** A full turn of the cursor that finds nothing has seen every slot. */
  lemma AllTaken(slots: seq<SocketInfo>, start: nat)
    requires |slots| == MAX_SOCKETS && FreeGap(slots, start, 0) == MAX_SOCKETS
    ensures forall i :: 0 <= i < MAX_SOCKETS ==> slots[i].handle != 0
  {
    GapIsFirstFree(slots, start, 0);
    forall i | 0 <= i < MAX_SOCKETS ensures slots[i].handle != 0 {
      var j := TurnTo(start, i);
      assert Taken(slots, start, j);
    }
  }

  lemma NoGapWhenFull(slots: seq<SocketInfo>, start: nat)
    requires |slots| == MAX_SOCKETS && forall i :: 0 <= i < MAX_SOCKETS ==> slots[i].handle != 0
    ensures FreeGap(slots, start, 0) == MAX_SOCKETS
  {
    GapIsFirstFree(slots, start, 0);
  }

  /** Creation reports a full table exactly when all 256 slots are live, whatever the cursor. */
  lemma FullWhenAllLive(t: Table, fd: int)
    requires |t.slots| == MAX_SOCKETS
    ensures Create(t, fd).Full? <==> forall i :: 0 <= i < MAX_SOCKETS ==> t.slots[i].handle != 0
    ensures Create(t, fd).Full? ==> Create(t, fd) == Full(Table(t.slots, t.probes + 256))
  {
    if forall i :: 0 <= i < MAX_SOCKETS ==> t.slots[i].handle != 0 {
      NoGapWhenFull(t.slots, t.probes);
    } else if Create(t, fd).Full? {
      AllTaken(t.slots, t.probes);
    }
  }

  /** A full turn of the cursor raises the number of epochs by one, except exactly where the cursor wraps. */
  lemma FullTurnIsOneEpoch(probes: nat)
    ensures Epochs(probes + 256) == Epochs(probes) + 1 <==> NextSlot(probes) + 256 < TWO_64
    ensures Epochs(probes + 256) <= Epochs(probes) + 1
  {
    EpochsInClosedForm(probes);
    EpochsInClosedForm(probes + 256);
    NextSlotIsProbes(probes);
    var a, r := probes / 0x1_0000_0000_0000_0000, NextSlot(probes);
    if r + 256 < TWO_64 {
      Divides(probes + 256, TWO_64, a, r + 256);
    } else {
      Divides(probes + 256, TWO_64, a + 1, r + 256 - TWO_64);
    }
  }

  /** The general insertion step behind creation. */
  lemma InsertOne(t: Table, i: nat, info: SocketInfo, probes: nat)
    requires Inv(t) && i < MAX_SOCKETS && t.slots[i].handle == 0 && t.probes <= probes
    requires WellPlaced(info.handle, i, probes)
    ensures Inv(Table(t.slots[i := info], probes))
    ensures info.handle !in Live(t.slots)
    ensures Live(t.slots[i := info]) == Live(t.slots)[info.handle := EntryOf(info)]
  {
    var t' := Table(t.slots[i := info], probes);
    LiveMeans(t, info.handle);
    forall h: u64 ensures h in Live(t'.slots) <==> h in Live(t.slots)[info.handle := EntryOf(info)] {
      LiveMeans(t, h);
      LiveMeans(t', h);
    }
    forall h: u64 | h in Live(t'.slots) ensures Live(t'.slots)[h] == Live(t.slots)[info.handle := EntryOf(info)][h] {
      LiveMeans(t, h);
      LiveMeans(t', h);
    }
  }

  /** Forgetting a live slot removes exactly its key. */
  lemma ForgetRemoves(t: Table, i: nat)
    requires Inv(t) && i < MAX_SOCKETS && t.slots[i].handle != 0
    ensures Inv(t.(slots := t.slots[i := FREE]))
    ensures Live(t.slots[i := FREE]) == Live(t.slots) - {t.slots[i].handle}
  {
    var t' := t.(slots := t.slots[i := FREE]);
    assert WellPlaced(t.slots[i].handle, i, t.probes);
    forall h: u64 ensures h in Live(t'.slots) <==> h in Live(t.slots) && h != t.slots[i].handle {
      LiveMeans(t, h);
      LiveMeans(t', h);
    }
    forall h: u64 | h in Live(t'.slots) ensures Live(t'.slots)[h] == Live(t.slots)[h] {
      LiveMeans(t, h);
      LiveMeans(t', h);
    }
  }

  /** Changing what a live slot holds, but not its handle, changes exactly its own entry. */
  lemma TouchUpdates(t: Table, i: nat, info: SocketInfo)
    requires Inv(t) && i < MAX_SOCKETS && t.slots[i].handle != 0 && info.handle == t.slots[i].handle
    ensures Inv(t.(slots := t.slots[i := info]))
    ensures info.handle in Live(t.slots)
    ensures Live(t.slots[i := info]) == Live(t.slots)[info.handle := EntryOf(info)]
  {
    var t' := t.(slots := t.slots[i := info]);
    assert WellPlaced(info.handle, i, t.probes);
    LiveMeans(t, info.handle);
    forall h: u64 ensures h in Live(t'.slots) <==> h in Live(t.slots) {
      LiveMeans(t, h);
      LiveMeans(t', h);
    }
    forall h: u64 | h in Live(t'.slots) ensures Live(t'.slots)[h] == Live(t.slots)[info.handle := EntryOf(info)][h] {
      LiveMeans(t, h);
      LiveMeans(t', h);
    }
  }

  /** One turn of the allocation loop: inspects the slot under the cursor, takes it when it is free, and
      moves the cursor; `n` turns are left. */
  function Seek(t: Table, fd: int, n: nat): CreateOutcome
    requires |t.slots| == MAX_SOCKETS
    decreases |t.slots|, n
  {
    if n == 0 then Full(t)
    else if t.slots[t.probes % 256].handle != 0 then Seek(Table(t.slots, t.probes + 1), fd, n - 1)
    else Take(t.slots, t.probes, fd)
  }

  lemma {:induction false} SeekFromGap(slots: seq<SocketInfo>, start: nat, fd: int, i: nat)
    requires |slots| == MAX_SOCKETS && i <= |slots|
    ensures Seek(Table(slots, start + i), fd, |slots| - i)
         == (var k := FreeGap(slots, start, i);
             if k == |slots| then Full(Table(slots, start + k)) else Take(slots, start + k, fd))
    decreases |slots| - i
  {
    if i < |slots| && Taken(slots, start, i) {
      SeekFromGap(slots, start, fd, i + 1);
    }
  }

  /** Probing slot by slot finds what the closed form says. */
  lemma SeekIsCreate(t: Table, fd: int)
    requires |t.slots| == MAX_SOCKETS
    ensures Seek(t, fd, |t.slots|) == Create(t, fd)
  {
    SeekFromGap(t.slots, t.probes, fd, 0);
  }

  /** The global table, updated in place. */
  class SocketTable {
    var slots: array<SocketInfo>
    var generation: u64
    var nextSlot: u64
    ghost var probes: nat

    ghost predicate Valid()
      reads this, slots
    {
      slots.Length == MAX_SOCKETS && Inv(State()) && generation == Generation(probes) && nextSlot == NextSlot(probes)
    }

    ghost function State(): Table
      reads this, slots
    {
      Table(slots[..], probes)
    }

    ghost function Sockets(): map<u64, Entry>
      requires slots.Length == MAX_SOCKETS
      reads this, slots
    {
      Live(slots[..])
    }

    constructor ()
      ensures Valid() && fresh(slots) && Sockets() == map[] && probes == 0
    {
      slots := new SocketInfo[MAX_SOCKETS](_ => FREE);
      generation, nextSlot, probes := 0, 0, 0;
      new;
      assert Handles(slots[..]) == {};
    }

    method FindInfo(handle: u64) returns (rv: Errno, index: nat)
      requires Valid()
      ensures rv == (if handle in Sockets() then Success else EBadf)
      ensures rv == Success ==>
                && index == HandleIndex(handle) && index < MAX_SOCKETS
                && slots[index].handle == handle && EntryOf(slots[index]) == Sockets()[handle]
    {
      FindIsLookup(State(), handle);
      index := 0;
      if HandleType(handle) != HANDLE_TYPE_SOCKET {
        return EBadf, 0;
      }
      index := HandleIndex(handle);
      if slots[index].handle != handle {
        return EBadf, 0;
      }
      rv := Success;
    }

    ghost predicate Counters()
      reads this
    {
      generation == Generation(probes) && nextSlot == NextSlot(probes)
    }

    /** The body of the allocation loop. `Abort` stands for the abort of the process on an exhausted
        generation. */
    method Probe(fd: int, ghost n: nat) returns (rv: Errno, index: nat)
      requires slots.Length == MAX_SOCKETS && Counters()
      modifies this, slots
      ensures slots == old(slots) && rv in {Success, EMFile, Abort}
      ensures rv == EMFile ==> Seek(old(State()), fd, n + 1) == Seek(State(), fd, n)
      ensures rv == Abort ==> Seek(old(State()), fd, n + 1) == Aborted
      ensures rv == Success ==> Seek(old(State()), fd, n + 1) == Created(index, State())
      ensures rv != Abort ==> Counters()
    {
      NextSlotIsProbes(probes);
      index := nextSlot % 256;
      rv := EMFile;
      if slots[index].handle == 0 {
        if generation >= GENERATIONS {
          return Abort, index;
        }
        var handle := HANDLE_TYPE_SOCKET * TYPE_UNIT + generation * 256 + index;
        slots[index] := SocketInfo(handle, U64_MAX, U64_MAX, fd);
        rv := Success;
      }
      nextSlot := Bump(nextSlot);
      if nextSlot >= 2 && nextSlot % 256 == 0 {
        generation := Bump(generation);
      }
      probes := probes + 1;
    }

    /** Probes at most 256 slots from the cursor. */
    method Search(fd: int) returns (rv: Errno, index: nat)
      requires slots.Length == MAX_SOCKETS && Counters()
      modifies this, slots
      ensures rv in {Success, EMFile, Abort} && slots == old(slots)
      ensures rv == Abort ==> Create(old(State()), fd) == Aborted
      ensures rv == Success ==> Create(old(State()), fd) == Created(index, State())
      ensures rv == EMFile ==> Create(old(State()), fd) == Full(State())
      ensures rv != Abort ==> Counters()
    {
      ghost var outcome := Create(State(), fd);
      SeekIsCreate(State(), fd);
      rv, index := EMFile, 0;
      var i := 0;
      while i < MAX_SOCKETS && rv == EMFile
        invariant 0 <= i <= MAX_SOCKETS && slots == old(slots) && Counters()
        invariant rv in {EMFile, Success}
        invariant rv == EMFile ==> outcome == Seek(State(), fd, |slots[..]| - i)
        invariant rv == Success ==> outcome == Created(index, State())
      {
        rv, index := Probe(fd, |slots[..]| - i - 1);
        if rv == Abort {
          return;
        }
        i := i + 1;
      }
    }

    method CreateInfo(fd: int) returns (rv: Errno, index: nat)
      requires Valid()
      modifies this, slots
      ensures rv in {Success, EMFile, Abort} && slots == old(slots)
      ensures rv == Abort <==> Create(old(State()), fd).Aborted?
      ensures rv == Success ==> Create(old(State()), fd) == Created(index, State())
      ensures rv == EMFile ==> Create(old(State()), fd) == Full(State())
      ensures rv != Abort ==> Valid()
      ensures rv == EMFile ==> Sockets() == old(Sockets()) && probes == old(probes) + 256
      ensures rv == Success ==>
                && index < MAX_SOCKETS && slots[index].handle != 0 && slots[index].handle !in old(Sockets())
                && Sockets() == old(Sockets())[slots[index].handle := Entry(fd, U64_MAX, U64_MAX)]
                && Issued(slots[index].handle, old(probes), probes)
    {
      ghost var t := State();
      rv, index := Search(fd);
      if rv == Success {
        CreatedEffect(t, fd, index, State());
      } else if rv == EMFile {
        CreateInserts(t, fd);
      }
    }

    method Forget(index: nat)
      requires Valid() && index < MAX_SOCKETS && slots[index].handle != 0
      modifies slots
      ensures Valid() && slots[..] == old(slots[..])[index := FREE]
      ensures Sockets() == old(Sockets()) - {old(slots[index].handle)}
    {
      ForgetRemoves(State(), index);
      slots[index] := FREE;
    }

    method Touch(index: nat, readTimeout: u64, writeTimeout: u64)
      requires Valid() && index < MAX_SOCKETS && slots[index].handle != 0
      modifies slots
      ensures Valid() && old(slots[index].handle) in old(Sockets())
      ensures Sockets() == old(Sockets())[old(slots[index].handle) := Entry(old(slots[index].fd), readTimeout, writeTimeout)]
    {
      var info := slots[index].(readTimeout := readTimeout, writeTimeout := writeTimeout);
      TouchUpdates(State(), index, info);
      slots[index] := info;
    }
  }
}
