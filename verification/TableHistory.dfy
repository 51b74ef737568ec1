/** Histories of calls on the socket table: handles are never reused, and a stale handle stays stale. */
module TableHistory {
  import opened Basics
  import opened Handle
  import opened SocketTable

  datatype Call =
    | Open(fd: int)
    | Close(handle: u64)
    | SetReadTimeout(handle: u64, nanosec: u64)
    | SetWriteTimeout(handle: u64, nanosec: u64)

  /** The table after some calls, with every handle issued so far and the number of the probe that produced it.
      `alive` drops when the process aborts; nothing is served afterwards. */
  datatype History = History(table: Table, issued: seq<u64>, cursors: seq<nat>, alive: bool)

  const START := History(Table(seq(MAX_SOCKETS, _ => FREE), 0), [], [], true)

  function Serve(r: History, call: Call): History
    requires |r.table.slots| == MAX_SOCKETS
    ensures |Serve(r, call).table.slots| == MAX_SOCKETS
  {
    if !r.alive then r else
    match call
    case Open(fd) => (
      match Create(r.table, fd)
      case Created(i, t) => History(t, r.issued + [t.slots[i].handle], r.cursors + [t.probes - 1], true)
      case Full(t) => r.(table := t)
      case Aborted => r.(alive := false)
    )
    case Close(h) => Update(r, h, _ => FREE)
    case SetReadTimeout(h, ns) => Update(r, h, (s: SocketInfo) => s.(readTimeout := ns))
    case SetWriteTimeout(h, ns) => Update(r, h, (s: SocketInfo) => s.(writeTimeout := ns))
  }

  function Update(r: History, h: u64, f: SocketInfo -> SocketInfo): History
    requires |r.table.slots| == MAX_SOCKETS
  {
    match Find(r.table.slots, h)
    case None => r
    case Some(i) => r.(table := r.table.(slots := r.table.slots[i := f(r.table.slots[i])]))
  }

  function Replay(r: History, calls: seq<Call>): History
    requires |r.table.slots| == MAX_SOCKETS
    ensures |Replay(r, calls).table.slots| == MAX_SOCKETS
  {
    if calls == [] then r else Serve(Replay(r, calls[..|calls| - 1]), calls[|calls| - 1])
  }

  ghost predicate HistoryInv(r: History) {
    && Inv(r.table)
    && |r.issued| == |r.cursors|
    && (forall i :: 0 <= i < MAX_SOCKETS && r.table.slots[i].handle != 0 ==> r.table.slots[i].handle in r.issued)
    && (forall k :: 0 <= k < |r.cursors| ==> r.cursors[k] < r.table.probes && Issue(r.cursors[k]) == Some(r.issued[k]))
    && (forall j, k :: 0 <= j < k < |r.cursors| ==> r.cursors[j] < r.cursors[k])
  }

  /** Each handle is 2^56 plus the number of the probe that issued it, and handles come in increasing order. */
  ghost predicate Exact(r: History)
    requires |r.issued| == |r.cursors|
  {
    && (forall k :: 0 <= k < |r.issued| ==> r.issued[k] == TYPE_UNIT + r.cursors[k])
    && (forall j, k :: 0 <= j < k < |r.issued| ==> r.issued[j] < r.issued[k])
  }

  /** The allocation made by the probe numbered `p` extends the history correctly. */
  lemma AppendKeepsInv(r: History, p: nat, fd: int)
    requires HistoryInv(r) && r.table.probes <= p && Issue(p).Some? && r.table.slots[p % 256].handle == 0
    ensures var info := SocketInfo(Issue(p).value, U64_MAX, U64_MAX, fd);
            HistoryInv(History(Table(r.table.slots[p % 256 := info], p + 1), r.issued + [info.handle], r.cursors + [p], true))
  {
    IssueIsCursor(p);
  }

  lemma AdvanceKeepsInv(r: History, p: nat)
    requires HistoryInv(r) && r.table.probes <= p
    ensures HistoryInv(r.(table := r.table.(probes := p)))
  {
  }

  lemma ServeOpenKeepsInv(r: History, fd: int)
    requires HistoryInv(r) && r.alive
    ensures HistoryInv(Serve(r, Open(fd))) && r.table.probes <= Serve(r, Open(fd)).table.probes
  {
    match Create(r.table, fd)
    case Full(t) => AdvanceKeepsInv(r, t.probes);
    case Created(i, t) =>
      CreatedShape(r.table, fd);
      var p := t.probes - 1;
      AppendKeepsInv(r, p, fd);
      assert t == Table(r.table.slots[p % 256 := SocketInfo(Issue(p).value, U64_MAX, U64_MAX, fd)], p + 1);
    case Aborted =>
  }

  lemma ServeKeepsInv(r: History, call: Call)
    requires HistoryInv(r)
    ensures HistoryInv(Serve(r, call)) && r.table.probes <= Serve(r, call).table.probes
    ensures r.issued <= Serve(r, call).issued && r.cursors <= Serve(r, call).cursors
  {
    if r.alive && call.Open? {
      ServeOpenKeepsInv(r, call.fd);
    }
  }

  lemma {:induction false} ReplayKeepsInv(r: History, calls: seq<Call>)
    requires HistoryInv(r)
    ensures HistoryInv(Replay(r, calls)) && r.table.probes <= Replay(r, calls).table.probes
    ensures r.issued <= Replay(r, calls).issued && r.cursors <= Replay(r, calls).cursors
  {
    if calls != [] {
      ReplayKeepsInv(r, calls[..|calls| - 1]);
      ServeKeepsInv(Replay(r, calls[..|calls| - 1]), calls[|calls| - 1]);
    }
  }

  lemma IssuedIsCursor(r: History, k: nat)
    requires HistoryInv(r) && k < |r.cursors|
    ensures r.issued[k] >= TYPE_UNIT && (r.issued[k] == TYPE_UNIT + r.cursors[k] <==> NotWrapped(r.cursors[k]))
  {
    IssueIsCursor(r.cursors[k]);
  }

  lemma ExactUntilOverflow(r: History)
    requires HistoryInv(r)
    ensures Exact(r) <==> forall k :: 0 <= k < |r.cursors| ==> NotWrapped(r.cursors[k])
  {
    forall k | 0 <= k < |r.cursors| ensures r.issued[k] == TYPE_UNIT + r.cursors[k] <==> NotWrapped(r.cursors[k]) {
      IssuedIsCursor(r, k);
    }
  }

  /** Over any history the issued handles are nonzero; and they are 2^56 plus the number of their probe and
      strictly increase, so that none is issued twice, if and only if the generation counter had not
      overflowed at any of the allocations. */
  lemma NeverReused(calls: seq<Call>)
    ensures var r := Replay(START, calls);
            && |r.issued| == |r.cursors| && 0 !in r.issued
            && (Exact(r) <==> forall k :: 0 <= k < |r.cursors| ==> NotWrapped(r.cursors[k]))
  {
    ReplayKeepsInv(START, calls);
    var r := Replay(START, calls);
    ExactUntilOverflow(r);
    forall k | 0 <= k < |r.issued| ensures r.issued[k] != 0 {
      IssuedIsCursor(r, k);
    }
  }

  predicate Resolves(r: History, h: u64)
    requires |r.table.slots| == MAX_SOCKETS
  {
    Find(r.table.slots, h).Some?
  }

  /** The handle resolves at some point from `r` on, after none, some or all of the calls. */
  predicate EverResolves(r: History, h: u64, calls: seq<Call>)
    requires |r.table.slots| == MAX_SOCKETS
  {
    Resolves(Replay(r, calls), h) || (calls != [] && EverResolves(r, h, calls[..|calls| - 1]))
  }

  /** The handles issued since `r`. */
  function IssuedSince(r: History, calls: seq<Call>): seq<u64>
    requires |r.table.slots| == MAX_SOCKETS
  {
    var all := Replay(r, calls).issued;
    if |r.issued| <= |all| then all[|r.issued|..] else []
  }

  /** One call makes a handle resolve only by issuing it. */
  lemma ServeResolves(r: History, call: Call, h: u64)
    requires HistoryInv(r)
    ensures var r' := Serve(r, call);
            || (r'.issued == r.issued && (Resolves(r', h) ==> Resolves(r, h)))
            || (exists x :: r'.issued == r.issued + [x] && Resolves(r', x) && (Resolves(r', h) ==> h == x || Resolves(r, h)))
  {
    ServeKeepsInv(r, call);
    if r.alive && call.Open? {
      OpenResolves(r, call.fd, h);
    } else if r.alive {
      UpdateResolves(r, call, h);
    }
  }

  lemma OpenResolves(r: History, fd: int, h: u64)
    requires HistoryInv(r) && r.alive && HistoryInv(Serve(r, Open(fd)))
    ensures var r' := Serve(r, Open(fd));
            || (r'.issued == r.issued && (Resolves(r', h) ==> Resolves(r, h)))
            || (exists x :: r'.issued == r.issued + [x] && Resolves(r', x) && (Resolves(r', h) ==> h == x || Resolves(r, h)))
  {
    var r' := Serve(r, Open(fd));
    if Create(r.table, fd).Created? {
      CreateInserts(r.table, fd);
      var x := r'.table.slots[Create(r.table, fd).index].handle;
      FindIsLookup(r'.table, x);
      FindIsLookup(r'.table, h);
      FindIsLookup(r.table, h);
      assert r'.issued == r.issued + [x];
    }
  }

  lemma UpdateResolves(r: History, call: Call, h: u64)
    requires HistoryInv(r) && r.alive && !call.Open? && HistoryInv(Serve(r, call))
    ensures Serve(r, call).issued == r.issued && (Resolves(Serve(r, call), h) ==> Resolves(r, h))
  {
    FindIsLookup(r.table, call.handle);
  }

  /** A handle that does not resolve comes back exactly by being issued again: over any later calls, with or
      without overflow, it ever resolves if and only if it is among the handles issued meanwhile. */
  lemma {:induction false} StaleUntilReissued(r: History, h: u64, later: seq<Call>)
    requires HistoryInv(r) && !Resolves(r, h)
    ensures EverResolves(r, h, later) <==> h in IssuedSince(r, later)
  {
    if later == [] {
      assert Replay(r, later) == r;
    } else {
      var prefix, call := later[..|later| - 1], later[|later| - 1];
      StaleUntilReissued(r, h, prefix);
      ReplayKeepsInv(r, prefix);
      assert later == prefix + [call];
      assert Resolves(Replay(r, prefix), h) ==> EverResolves(r, h, prefix);
      OneMoreCall(r, Replay(r, prefix), prefix, call, h);
    }
  }

  lemma OneMoreCall(r: History, q: History, prefix: seq<Call>, call: Call, h: u64)
    requires |r.table.slots| == MAX_SOCKETS && q == Replay(r, prefix) && HistoryInv(q) && r.issued <= q.issued
    requires Resolves(q, h) ==> h in IssuedSince(r, prefix)
    ensures h in IssuedSince(r, prefix + [call]) <==> h in IssuedSince(r, prefix) || Resolves(Serve(q, call), h)
  {
    var all := prefix + [call];
    assert all[..|all| - 1] == prefix;
    ServeResolves(q, call, h);
    var q' := Serve(q, call);
    if q'.issued != q.issued {
      var x :| q'.issued == q.issued + [x] && Resolves(q', x) && (Resolves(q', h) ==> h == x || Resolves(q, h));
      assert q'.issued[|r.issued|..] == q.issued[|r.issued|..] + [x];
    }
  }

  lemma NewHandlesDiffer(r: History, h: u64, later: seq<Call>)
    requires HistoryInv(r) && h in r.issued
    requires var all := Replay(r, later).cursors; forall k :: |r.cursors| <= k < |all| ==> NotWrapped(all[k])
    ensures h !in IssuedSince(r, later)
  {
    ReplayKeepsInv(r, later);
    var r' := Replay(r, later);
    var j :| 0 <= j < |r.issued| && r.issued[j] == h;
    assert r'.issued[j] == h;
    forall k | |r.issued| <= k < |r'.issued| ensures r'.issued[k] != h {
      assert r'.cursors[j] < r'.cursors[k];
      FreshExactlyUntilOverflow(r'.cursors[k]);
      assert Issue(r'.cursors[j]) != Issue(r'.cursors[k]);
    }
  }

  /** An issued handle that does not resolve gives EBADF forever, however often its slot is reused, if the
      generation counter has not overflowed at any of the later allocations. */
  lemma StaleForever(r: History, h: u64, later: seq<Call>)
    requires HistoryInv(r) && h in r.issued && !Resolves(r, h)
    requires var all := Replay(r, later).cursors; forall k :: |r.cursors| <= k < |all| ==> NotWrapped(all[k])
    ensures !EverResolves(r, h, later)
  {
    NewHandlesDiffer(r, h, later);
    StaleUntilReissued(r, h, later);
  }

  /** Destroying a socket ends its handle: afterwards it ever resolves again if and only if the table issues
      it again, which it does not while the generation counter has not overflowed. */
  lemma DestroyedForever(before: seq<Call>, h: u64, later: seq<Call>)
    requires h in Replay(START, before).issued && Replay(START, before).alive
    ensures var r := Serve(Replay(START, before), Close(h));
            && (EverResolves(r, h, later) <==> h in IssuedSince(r, later))
            && ((forall k :: |r.cursors| <= k < |Replay(r, later).cursors| ==> NotWrapped(Replay(r, later).cursors[k]))
                ==> !EverResolves(r, h, later))
  {
    var r := Replay(START, before);
    ReplayKeepsInv(START, before);
    CloseEnds(r, h);
    StaleUntilReissued(Serve(r, Close(h)), h, later);
    if forall k :: |r.cursors| <= k < |Replay(Serve(r, Close(h)), later).cursors| ==>
         NotWrapped(Replay(Serve(r, Close(h)), later).cursors[k]) {
      NewHandlesDiffer(Serve(r, Close(h)), h, later);
    }
  }

  lemma CloseEnds(r: History, h: u64)
    requires HistoryInv(r) && r.alive && h in r.issued
    ensures HistoryInv(Serve(r, Close(h))) && !Resolves(Serve(r, Close(h)), h)
    ensures Serve(r, Close(h)).issued == r.issued && Serve(r, Close(h)).cursors == r.cursors
  {
    ServeKeepsInv(r, Close(h));
    FindIsLookup(r.table, h);
    var k :| 0 <= k < |r.issued| && r.issued[k] == h;
    IssuedIsCursor(r, k);
  }

  // The guarantee ends where the generation counter overflows: a full table keeps moving the cursor.

  ghost predicate FilledUpTo(slots: seq<SocketInfo>, n: nat)
    requires |slots| == MAX_SOCKETS
  {
    forall i :: 0 <= i < MAX_SOCKETS ==> slots[i].handle == if i < n then TYPE_UNIT + i else 0
  }

  lemma OpenNext(t: Table, n: nat)
    requires |t.slots| == MAX_SOCKETS && t.probes == n < MAX_SOCKETS && FilledUpTo(t.slots, n)
    ensures Create(t, 0) == Created(n, Table(t.slots[n := SocketInfo(TYPE_UNIT + n, U64_MAX, U64_MAX, 0)], n + 1))
  {
    assert !Taken(t.slots, n, 0);
    GenerationCountsTurns(n);
    NextSlotIsProbes(n);
  }

  lemma {:induction false} FillsInOrder(n: nat)
    requires n <= MAX_SOCKETS
    ensures var r := Replay(START, seq(n, _ => Open(0)));
            && r.alive && r.table.probes == n && |r.issued| == n && (n > 0 ==> r.issued[0] == TYPE_UNIT)
            && FilledUpTo(r.table.slots, n)
  {
    if n > 0 {
      FillsInOrder(n - 1);
      var calls := seq(n, _ => Open(0));
      assert calls[..n - 1] == seq(n - 1, _ => Open(0));
      OpenNext(Replay(START, calls[..n - 1]).table, n - 1);
    }
  }

  lemma {:induction false} FullTableOnlyMovesCursor(r: History, n: nat)
    requires HistoryInv(r) && r.alive && forall i :: 0 <= i < MAX_SOCKETS ==> r.table.slots[i].handle != 0
    ensures Replay(r, seq(n, _ => Open(0))) == r.(table := r.table.(probes := r.table.probes + 256 * n))
  {
    if n > 0 {
      FullTableOnlyMovesCursor(r, n - 1);
      var calls := seq(n, _ => Open(0));
      assert calls[..n - 1] == seq(n - 1, _ => Open(0));
      ReplayKeepsInv(r, calls[..n - 1]);
      var before := Replay(r, calls[..n - 1]);
      CreateInserts(before.table, 0);
      NoGapWhenFull(before.table.slots, before.table.probes);
    }
  }

  lemma ReopenAtOverflow(t: Table)
    requires |t.slots| == MAX_SOCKETS && t.probes == 256 * (TWO_64 + 256) && t.slots[0].handle == 0
    ensures !NotWrapped(t.probes)
    ensures Create(t, 0).Created? && Create(t, 0).index == 0 && Create(t, 0).table.slots[0].handle == TYPE_UNIT
  {
    EpochsInClosedForm(t.probes);
    GenerationIsEpochs(t.probes);
    assert !Taken(t.slots, t.probes, 0);
  }

  /** After 2^64 + 255 failed creations on a full table the very first handle is issued a second time. */
  lemma ReuseAfterOverflow()
    ensures var full := Replay(START, seq(MAX_SOCKETS, _ => Open(0)));
            var spun := Replay(full, seq(TWO_64 + 255, _ => Open(0)));
            var again := Serve(Serve(spun, Close(TYPE_UNIT)), Open(0));
            && |full.issued| > 0 && full.issued[0] == TYPE_UNIT
            && again.issued == full.issued + [TYPE_UNIT]
  {
    FillsInOrder(MAX_SOCKETS);
    ReplayKeepsInv(START, seq(MAX_SOCKETS, _ => Open(0)));
    var full := Replay(START, seq(MAX_SOCKETS, _ => Open(0)));
    FullTableOnlyMovesCursor(full, TWO_64 + 255);
    var spun := Replay(full, seq(TWO_64 + 255, _ => Open(0)));
    assert Find(spun.table.slots, TYPE_UNIT) == Some(0);
    ReopenAtOverflow(Serve(spun, Close(TYPE_UNIT)).table);
  }
}
