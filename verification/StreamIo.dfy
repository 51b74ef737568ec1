/** Moving a whole buffer over a stream, and what that means for the two ends of a connection. */
module StreamIo {
  import opened Basics
  import opened Kernels
  import opened Ownership
  import opened Sockets

  /** One call to write: the first `moved` bytes of the data joined the end of the stream. */
  ghost predicate Appends(stream: seq<byte>, data: seq<byte>, moved: nat, stream': seq<byte>) {
    moved <= |data| && stream' == stream + data[..moved]
  }

  /** One call to read: `got` left the front of the stream. */
  ghost predicate Takes(stream: seq<byte>, got: seq<byte>, stream': seq<byte>) {
    got <= stream && stream' == stream[|got|..]
  }

  /** Some calls to read have filled the buffer up to `moved`, and left the rest of it as it was. */
  ghost predicate Drains(stream: seq<byte>, before: seq<byte>, buf: seq<byte>, moved: nat, stream': seq<byte>) {
    && moved <= |buf| == |before| && buf[moved..] == before[moved..]
    && Takes(stream, buf[..moved], stream')
  }

  /** One call to send from a buffer that holds `bytes`, as part of a longer transfer. */
  method SendOnce(
    s: Sockets, h: u64, data: array<byte>, off: nat, count: nat,
    ghost bytes: seq<byte>, ghost base: seq<Pause>, ghost first: View, ghost ps: seq<Pause>)
    returns (rv: Errno, nwritten: nat, ghost stream: seq<byte>, ghost ps': seq<Pause>, ghost waited: Errno)
    requires s.Valid() && 0 < count && off + count <= data.Length && data[..] == bytes
    requires s.Used(Sending, h, base, first, ps, Success)
    modifies s.table, s.table.slots, s.kernel, s`pauses
    ensures s.Valid() && s.table.slots == old(s.table.slots) && s.kernel.patience <= old(s.kernel.patience)
    ensures s.Used(Sending, h, base, first, ps', waited) && (waited != Success ==> rv == ETimedOut)
    ensures h in s.Map() <==> h in old(s.Map())
    ensures if h in s.Map() then Explained(Sending, h, rv, ps', s.Look()) else rv == EBadf
    ensures rv !in {EAgain, Abort, Eof} && (rv == EIntr ==> s.kernel.patience < old(s.kernel.patience))
    ensures stream == s.Outbound(h) && data[..] == bytes
    ensures if rv == Success then 0 < nwritten <= count else nwritten == 0
    ensures stream == Extended(old(s.Outbound(h)), bytes, off, nwritten)
  {
    assert data as object != s.table.slots as object;
    ghost var v, now, qs, point, call := s.Look(), s.pauses, [], s.Look(), Sent(0, 0, 0, Success);
    rv, nwritten, qs, point, waited, call := s.Send(h, data, off, count);
    assert data[..] == bytes;
    stream, ps' := s.Outbound(h), ps;
    if h in s.Map() {
      ps' := ps + qs;
      StoryExplained(Sending, h, count, base, first, ps, now, v, qs, s.pauses, point, waited, rv, call, s.Look());
    } else {
      waited := Success;
    }
  }

  /** The same call, seen from the whole buffer that is to be sent. */
  method SendMore(
    s: Sockets, h: u64, data: array<byte>, off: nat, count: nat,
    ghost bytes: seq<byte>, ghost n: nat, ghost part: seq<byte>, ghost start: seq<byte>,
    ghost base: seq<Pause>, ghost first: View, ghost ps: seq<Pause>)
    returns (rv: Errno, nwritten: nat, ghost moved: nat, ghost stream: seq<byte>, ghost ps': seq<Pause>, ghost waited: Errno)
    requires s.Valid() && 0 < count && off + count <= data.Length && data[..] == bytes
    requires s.Used(Sending, h, base, first, ps, Success)
    requires off + count == n && part == bytes[..n] && Appends(start, part, off, s.Outbound(h))
    modifies s.table, s.table.slots, s.kernel, s`pauses
    ensures s.Valid() && s.table.slots == old(s.table.slots) && s.kernel.patience <= old(s.kernel.patience)
    ensures s.Used(Sending, h, base, first, ps', waited) && (waited != Success ==> rv == ETimedOut)
    ensures h in s.Map() <==> h in old(s.Map())
    ensures if h in s.Map() then Explained(Sending, h, rv, ps', s.Look()) else rv == EBadf
    ensures rv !in {EAgain, Abort, Eof} && (rv == EIntr ==> s.kernel.patience < old(s.kernel.patience))
    ensures stream == s.Outbound(h) && data[..] == bytes
    ensures Appends(start, part, moved, stream)
    ensures moved == off + nwritten && if rv == Success then 0 < nwritten <= count else nwritten == 0
  {
    ghost var before := s.Outbound(h);
    rv, nwritten, stream, ps', waited := SendOnce(s, h, data, off, count, bytes, base, first, ps);
    moved := AppendsCall(start, bytes, n, part, off, before, nwritten, stream);
  }

  method RecvOnce(
    s: Sockets, h: u64, data: array<byte>, off: nat, count: nat,
    ghost start: seq<byte>, ghost rest: seq<byte>, ghost base: seq<Pause>, ghost first: View, ghost ps: seq<Pause>)
    returns (rv: Errno, nread: nat, ghost moved: nat, ghost held: seq<byte>, ghost stream: seq<byte>,
             ghost ps': seq<Pause>, ghost waited: Errno)
    requires s.Valid() && 0 < count && off + count <= data.Length && s.Used(Receiving, h, base, first, ps, Success)
    requires Drains(start, rest, data[..], off, s.Inbound(h))
    modifies s.table, s.table.slots, s.kernel, s`pauses, data
    ensures s.Valid() && s.table.slots == old(s.table.slots) && s.kernel.patience <= old(s.kernel.patience)
    ensures s.Used(Receiving, h, base, first, ps', waited) && (waited != Success ==> rv == ETimedOut)
    ensures h in s.Map() <==> h in old(s.Map())
    ensures if h in s.Map() then Explained(Receiving, h, rv, ps', s.Look()) else rv == EBadf
    ensures rv !in {EAgain, Abort} && (rv == EIntr ==> s.kernel.patience < old(s.kernel.patience))
    ensures held == data[..] && stream == s.Inbound(h) && Drains(start, rest, held, moved, stream)
    ensures moved == off + nread && if rv == Success then 0 < nread <= count else nread == 0
    ensures rv == Eof ==> stream == []
  {
    ghost var v, now, before, left := s.Look(), s.pauses, data[..], s.Inbound(h);
    ghost var qs, point, call := [], s.Look(), SysCall.Received(0, 0, 0, Success);
    rv, nread, qs, point, waited, call := s.Recv(h, data, off, count);
    held, stream, ps' := data[..], s.Inbound(h), ps;
    moved := DrainsCall(start, rest, before, off, left, nread, held, stream);
    if h in s.Map() {
      ps' := ps + qs;
      StoryExplained(Receiving, h, count, base, first, ps, now, v, qs, s.pauses, point, waited, rv, call, s.Look());
    } else {
      waited := Success;
    }
  }

  /** Sends the whole buffer. Success means that exactly its bytes were sent, in order; failure that exactly
      a proper prefix was, and that the last call failed with this error or its last pause timed out. */
  method WriteAll(s: Sockets, h: u64, buf: array<byte>, count: nat)
    returns (rv: Errno, ghost moved: nat, ghost ps: seq<Pause>, ghost waited: Errno)
    requires s.Valid() && count <= buf.Length
    modifies s.table, s.table.slots, s.kernel, s`pauses
    ensures s.Valid() && s.table.slots == old(s.table.slots)
    ensures s.Used(Sending, h, old(s.pauses), old(s.Look()), ps, waited) && (waited != Success ==> rv == ETimedOut)
    ensures Appends(old(s.Outbound(h)), buf[..count], moved, s.Outbound(h))
    ensures rv == Success <==> moved == count
    ensures rv !in {EIntr, EAgain, Eof, Abort}
    ensures rv != Success && h in old(s.Map()) ==> Explained(Sending, h, rv, ps, s.Look())
    ensures h !in old(s.Map()) && count > 0 ==> rv == EBadf && moved == 0
  {
    assert buf as object != s.table.slots as object;
    ghost var bytes, part, start, stream := buf[..], buf[..count], s.Outbound(h), s.Outbound(h);
    AppendsNothing(start, part);
    ps, moved, waited := [], 0, Success;
    var total := 0;
    while total < count
      invariant 0 <= total <= count && s.Valid() && s.table.slots == old(s.table.slots) && buf[..] == bytes
      invariant stream == s.Outbound(h) && Appends(start, part, moved, stream) && moved == total
      invariant s.Used(Sending, h, old(s.pauses), old(s.Look()), ps, waited) && waited == Success
      invariant h in s.Map() <==> h in old(s.Map())
      invariant h !in s.Map() ==> total == 0
      decreases count - total, s.kernel.patience
    {
      var amount := count - total;
      assert total + amount == count;
      var nwritten;
      rv, nwritten, moved, stream, ps, waited := SendMore(
        s, h, buf, total, amount, bytes, count, part, start, old(s.pauses), old(s.Look()), ps);
      if rv == EIntr {
        continue;
      }
      if rv != Success {
        assert buf[..count] == part;
        return;
      }
      assert nwritten > 0;
      assert nwritten <= amount;
      total := total + nwritten;
    }
    assert buf[..count] == part;
    rv := Success;
  }

  /** Fills the whole buffer. Success means that it holds exactly the next bytes of the stream; failure that
      exactly a shorter prefix of them was taken, and that the last call failed with this error or its last
      pause timed out. */
  method ReadAll(s: Sockets, h: u64, buf: array<byte>, count: nat)
    returns (rv: Errno, ghost moved: nat, ghost ps: seq<Pause>, ghost waited: Errno)
    requires s.Valid() && count <= buf.Length
    modifies s.table, s.table.slots, s.kernel, s`pauses, buf
    ensures s.Valid() && s.table.slots == old(s.table.slots)
    ensures s.Used(Receiving, h, old(s.pauses), old(s.Look()), ps, waited) && (waited != Success ==> rv == ETimedOut)
    ensures moved <= count && Drains(old(s.Inbound(h)), old(buf[..]), buf[..], moved, s.Inbound(h))
    ensures rv == Success <==> moved == count
    ensures rv !in {EIntr, EAgain, Abort} && (rv == Eof ==> s.Inbound(h) == [])
    ensures rv != Success && h in old(s.Map()) ==> Explained(Receiving, h, rv, ps, s.Look())
    ensures h !in old(s.Map()) && count > 0 ==> rv == EBadf && moved == 0
  {
    ghost var start, rest, held, stream := s.Inbound(h), buf[..], buf[..], s.Inbound(h);
    ps, moved, waited := [], 0, Success;
    var total := 0;
    while total < count
      invariant 0 <= total <= count && s.Valid() && s.table.slots == old(s.table.slots)
      invariant held == buf[..] && stream == s.Inbound(h) && Drains(start, rest, held, moved, stream) && moved == total
      invariant s.Used(Receiving, h, old(s.pauses), old(s.Look()), ps, waited) && waited == Success
      invariant h in s.Map() <==> h in old(s.Map())
      invariant h !in s.Map() ==> total == 0
      decreases count - total, s.kernel.patience
    {
      var amount := count - total;
      var nread;
      rv, nread, moved, held, stream, ps, waited := RecvOnce(
        s, h, buf, total, amount, start, rest, old(s.pauses), old(s.Look()), ps);
      if rv == EIntr {
        continue;
      }
      if rv != Success {
        return;
      }
      assert nread > 0;
      assert nread <= amount;
      total := total + nread;
    }
    rv := Success;
  }

  lemma FilledAt(before: seq<byte>, off: nat, bytes: seq<byte>)
    requires off + |bytes| <= |before|
    ensures Filled(before, off, bytes)[..off + |bytes|] == before[..off] + bytes
    ensures Filled(before, off, bytes)[off + |bytes|..] == before[off + |bytes|..]
  {
  }

  lemma AppendsNothing(stream: seq<byte>, data: seq<byte>)
    ensures Appends(stream, data, 0, stream)
  {
    assert stream + data[..0] == stream;
  }

  lemma AppendsMore(stream: seq<byte>, bytes: seq<byte>, count: nat, moved: nat, stream': seq<byte>, n: nat)
    requires count <= |bytes| && Appends(stream, bytes[..count], moved, stream') && moved + n <= count
    ensures Appends(stream, bytes[..count], moved + n, stream' + bytes[moved..moved + n])
  {
    var data := bytes[..count];
    assert data[..moved] + bytes[moved..moved + n] == data[..moved + n];
  }

  lemma AppendsCall(
    start: seq<byte>, bytes: seq<byte>, n: nat, part: seq<byte>, moved: nat, before: seq<byte>, k: nat, after: seq<byte>)
    returns (moved': nat)
    requires n <= |bytes| && part == bytes[..n] && Appends(start, part, moved, before) && moved + k <= n
    requires after == Extended(before, bytes, moved, k)
    ensures moved' == moved + k && Appends(start, part, moved', after)
  {
    moved' := moved + k;
    AppendsMore(start, bytes, n, moved, before, k);
  }

  lemma TakesMore(stream: seq<byte>, got: seq<byte>, stream': seq<byte>, n: nat)
    requires Takes(stream, got, stream') && n <= |stream'|
    ensures Takes(stream, got + stream'[..n], stream'[n..])
  {
    assert stream == got + stream';
  }

  lemma DrainsMore(stream: seq<byte>, rest: seq<byte>, buf: seq<byte>, off: nat, stream': seq<byte>, n: nat)
    requires Drains(stream, rest, buf, off, stream') && n <= |stream'| && off + n <= |buf|
    ensures Drains(stream, rest, Filled(buf, off, stream'[..n]), off + n, stream'[n..])
  {
    FilledAt(buf, off, stream'[..n]);
    TakesMore(stream, buf[..off], stream', n);
    assert rest[off..][n..] == rest[off + n..] && buf[off..][n..] == buf[off + n..];
  }

  lemma DrainsCall(
    start: seq<byte>, rest: seq<byte>, before: seq<byte>, off: nat, left: seq<byte>, n: nat, held: seq<byte>, after: seq<byte>)
    returns (moved': nat)
    requires Drains(start, rest, before, off, left) && off + n <= |before| && n <= |left|
    requires if n == 0 then held == before && after == left else held == Filled(before, off, left[..n]) && after == left[n..]
    ensures moved' == off + n && Drains(start, rest, held, moved', after)
  {
    moved' := off + n;
    if n > 0 {
      DrainsMore(start, rest, before, off, left, n);
    }
  }

  // Many calls on the two ends of one connection.

  datatype Op = Write(data: seq<byte>, moved: nat) | Read(got: seq<byte>)

  /** `queues[k]` are the bytes under way after `k` calls, if each call did what its contract says. */
  ghost predicate Plays(ops: seq<Op>, queues: seq<seq<byte>>) {
    && |queues| == |ops| + 1 && queues[0] == []
    && forall k :: 0 <= k < |ops| ==> OpAt(ops, queues, k)
  }

  ghost predicate OpAt(ops: seq<Op>, queues: seq<seq<byte>>, k: nat)
    requires k < |ops| < |queues|
  {
    match ops[k]
    case Write(data, moved) => Appends(queues[k], data, moved, queues[k + 1])
    case Read(got) => Takes(queues[k], got, queues[k + 1])
  }

  /** What each write put on the stream, and what each read took from it, call by call. */
  function Written(ops: seq<Op>): seq<seq<byte>> {
    if ops == [] then []
    else
      var op := ops[|ops| - 1];
      Written(ops[..|ops| - 1]) + (if op.Write? && op.moved <= |op.data| then [op.data[..op.moved]] else [])
  }

  function Received(ops: seq<Op>): seq<seq<byte>> {
    if ops == [] then []
    else
      var op := ops[|ops| - 1];
      Received(ops[..|ops| - 1]) + (if op.Read? then [op.got] else [])
  }

  function Flat(parts: seq<seq<byte>>): seq<byte> {
    if parts == [] then [] else parts[0] + Flat(parts[1..])
  }

  lemma {:induction false} FlatAppend(parts: seq<seq<byte>>, last: seq<byte>)
    ensures Flat(parts + [last]) == Flat(parts) + last
  {
    if parts == [] {
      assert parts + [last] == [last];
      assert Flat([last][1..]) == [];
    } else {
      assert (parts + [last])[1..] == parts[1..] + [last];
      FlatAppend(parts[1..], last);
    }
  }

  lemma WriteStep(sent: seq<seq<byte>>, got: seq<seq<byte>>, q: seq<byte>, part: seq<byte>)
    requires Flat(sent) == Flat(got) + q
    ensures Flat(sent + [part]) == Flat(got) + (q + part)
  {
    FlatAppend(sent, part);
  }

  lemma ReadStep(sent: seq<seq<byte>>, got: seq<seq<byte>>, part: seq<byte>, q: seq<byte>)
    requires Flat(sent) == Flat(got) + (part + q)
    ensures Flat(sent) == Flat(got + [part]) + q
  {
    FlatAppend(got, part);
  }

  /** What the call numbered `k` adds to the two records. */
  lemma Recorded(ops: seq<Op>, k: nat)
    requires k < |ops| && (ops[k].Write? ==> ops[k].moved <= |ops[k].data|)
    ensures ops[k].Write? ==>
              && Written(ops[..k + 1]) == Written(ops[..k]) + [ops[k].data[..ops[k].moved]]
              && Received(ops[..k + 1]) == Received(ops[..k])
    ensures ops[k].Read? ==>
              Written(ops[..k + 1]) == Written(ops[..k]) && Received(ops[..k + 1]) == Received(ops[..k]) + [ops[k].got]
  {
    assert ops[..k + 1][..k] == ops[..k];
  }

  /** Nothing is lost, invented, duplicated or reordered: at every point, what was written is what was
      received, followed by what is still under way. Failed calls count with the bytes they did move. */
  lemma {:induction false} Conservation(ops: seq<Op>, queues: seq<seq<byte>>, k: nat)
    requires Plays(ops, queues) && k <= |ops|
    ensures Flat(Written(ops[..k])) == Flat(Received(ops[..k])) + queues[k]
  {
    if k > 0 {
      Conservation(ops, queues, k - 1);
      assert OpAt(ops, queues, k - 1);
      Recorded(ops, k - 1);
      var sent, got, q := Written(ops[..k - 1]), Received(ops[..k - 1]), queues[k - 1];
      match ops[k - 1]
      case Write(data, moved) => WriteStep(sent, got, q, data[..moved]);
      case Read(part) =>
        assert q == part + queues[k];
        ReadStep(sent, got, part, queues[k]);
    }
  }

  predicate SameLengths(sent: seq<seq<byte>>, got: seq<seq<byte>>) {
    |got| <= |sent| && forall i :: 0 <= i < |got| ==> |got[i]| == |sent[i]|
  }

  lemma {:induction false} SplitAlike(sent: seq<seq<byte>>, got: seq<seq<byte>>, rest: seq<byte>)
    requires Flat(sent) == Flat(got) + rest && SameLengths(sent, got)
    ensures got == sent[..|got|]
  {
    if got != [] {
      var a, b := sent[0], got[0];
      assert a + Flat(sent[1..]) == b + (Flat(got[1..]) + rest);
      assert a == (a + Flat(sent[1..]))[..|a|] == b;
      assert Flat(sent[1..]) == (a + Flat(sent[1..]))[|a|..] == Flat(got[1..]) + rest;
      SplitAlike(sent[1..], got[1..], rest);
    }
  }

  /** Round trip: however the two ends interleave, if every read asks for as many bytes as the write of the
      same rank moved, every read returns exactly the bytes of that write. */
  lemma RoundTrip(ops: seq<Op>, queues: seq<seq<byte>>)
    requires Plays(ops, queues) && SameLengths(Written(ops), Received(ops))
    ensures Received(ops) == Written(ops)[..|Received(ops)|]
  {
    assert ops[..|ops|] == ops;
    Conservation(ops, queues, |ops|);
    SplitAlike(Written(ops), Received(ops), queues[|ops|]);
  }
}
