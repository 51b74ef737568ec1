/** The socket calls over the table and the kernel: who owns which descriptor, and what moves over it. */
module Sockets {
  import opened Basics
  import opened Handle
  import opened SocketTable
  import opened Kernels
  import opened Ownership

  class Sockets {
    const table: SocketTable
    const kernel: Kernel
    /** Every suspension so far. Only the suspensions add to it. */
    ghost var pauses: seq<Pause>

    ghost function Map(): map<u64, Entry>
      requires table.slots.Length == MAX_SOCKETS
      reads table, table.slots
    {
      table.Sockets()
    }

    ghost predicate Valid()
      reads table, table.slots, kernel
    {
      table.Valid() && kernel.Valid() && Owned(Map(), kernel.open, kernel.nonblocking)
    }

    /** What can be observed of all sockets together. */
    ghost function Look(): View
      requires table.slots.Length == MAX_SOCKETS
      reads table, table.slots, kernel
    {
      ViewOf(Map(), table.probes, kernel.open, kernel.sent, kernel.incoming, kernel.log)
    }

    /** As `Valid`, but for one descriptor just obtained, which no socket owns yet. */
    ghost predicate Holding(fd: int)
      reads table, table.slots, kernel
    {
      && table.Valid() && kernel.Valid() && fd in kernel.open
      && fd !in Fds(Map()) && Owned(Map(), kernel.open - {fd}, kernel.nonblocking)
    }

    constructor (patience: nat)
      ensures Valid() && Map() == map[] && kernel.patience == patience && pauses == []
      ensures fresh(table) && fresh(table.slots) && fresh(kernel)
    {
      table := new SocketTable();
      kernel := new Kernel(patience);
      pauses := [];
    }

    /** Gives a descriptor a handle, if there is room. */
    method Place(fd: int) returns (rv: Errno, sock: u64)
      requires table.Valid()
      modifies table, table.slots
      ensures table.slots == old(table.slots) && rv in {Success, EMFile, Abort}
      ensures rv != Abort ==> table.Valid()
      ensures rv == Success ==>
                && sock != 0 && sock !in old(Map()) && Map() == old(Map())[sock := Entry(fd, U64_MAX, U64_MAX)]
                && Issued(sock, old(table.probes), table.probes)
      ensures rv != Success ==> sock == 0
      ensures rv == EMFile ==> Map() == old(Map()) && table.probes == old(table.probes) + 256
    {
      sock := 0;
      var index;
      rv, index := table.CreateInfo(fd);
      if rv == Success {
        sock := table.slots[index].handle;
      }
    }

    /** Gives a nonblocking descriptor a handle, or closes it. */
    method Register(fd: int) returns (rv: Errno, sock: u64, ghost trace: seq<SysCall>)
      requires Holding(fd) && fd in kernel.nonblocking
      modifies table, table.slots, kernel`open, kernel`log
      ensures table.slots == old(table.slots) && kernel.log == old(kernel.log) + trace
      ensures rv != Abort ==> Valid()
      ensures rv == Success ==>
                && sock != 0 && sock !in old(Map()) && Map() == old(Map())[sock := Entry(fd, U64_MAX, U64_MAX)]
                && kernel.open == old(kernel.open) && Issued(sock, old(table.probes), table.probes) && trace == []
      ensures rv !in {Success, Abort} ==>
                && sock == 0 && Map() == old(Map()) && kernel.open == old(kernel.open) - {fd}
                && table.probes == old(table.probes) + 256
                && rv == EMFile && |trace| == 1 && trace[0].Closed? && trace[0].fd == fd
    {
      trace := [];
      ghost var m: map<u64, Entry>, open := Map(), kernel.open;
      rv, sock := Place(fd);
      if rv == Success {
        OwnAdopt(m, open, kernel.nonblocking, sock, Entry(fd, U64_MAX, U64_MAX));
      } else if rv != Abort {
        var rc := kernel.Close(fd);
        trace := [Closed(fd, rc)];
      }
    }

    /** What remains of the present view once the new descriptor is closed again. */
    ghost function Aside(fd: int): View
      requires table.slots.Length == MAX_SOCKETS
      reads table, table.slots, kernel
    {
      ViewOf(Map(), table.probes, kernel.open - {fd}, kernel.sent, kernel.incoming, kernel.log)
    }

    /** As `Register`, told by the view of all sockets. */
    method Join(fd: int) returns (rv: Errno, sock: u64, ghost trace: seq<SysCall>)
      requires Holding(fd) && fd in kernel.nonblocking && kernel.sent[fd] == []
      modifies table, table.slots, kernel`open, kernel`log
      ensures table.slots == old(table.slots) && kernel.log == old(kernel.log) + trace
      ensures rv != Abort ==> Valid()
      ensures rv == Success ==>
                && sock != 0 && sock !in old(Map()) && Issued(sock, old(table.probes), table.probes) && trace == []
                && Look() == WithCalls(WithSocket(old(Aside(fd)), sock, fd, table.probes, kernel.incoming[fd]), kernel.log)
      ensures rv !in {Success, Abort} ==>
                && sock == 0 && table.probes == old(table.probes) + 256
                && Look() == Moved(old(Aside(fd)), table.probes, kernel.log)
                && rv == EMFile && |trace| == 1 && trace[0].Closed? && trace[0].fd == fd
    {
      ghost var m: map<u64, Entry>, cursor, open, calls := Map(), table.probes, kernel.open, kernel.log;
      rv, sock, trace := Register(fd);
      if rv == Success {
        ViewJoined(m, sock, fd, cursor, table.probes, open, kernel.sent, kernel.incoming, calls, kernel.log);
      } else if rv != Abort {
        ViewMoved(m, cursor, table.probes, open - {fd}, kernel.sent, kernel.incoming, calls, kernel.log);
      }
    }

    /** Makes a new descriptor nonblocking and keeps it from raising a signal, or closes it. */
    method Harden(fd: int) returns (rv: Errno, ghost trace: seq<SysCall>)
      requires Holding(fd)
      modifies kernel`open, kernel`nonblocking, kernel`log
      ensures kernel.log == old(kernel.log) + trace && |trace| == 2
      ensures trace[0] == MadeNonblocking(fd, rv)
      ensures rv == Success ==>
                && Holding(fd) && fd in kernel.nonblocking && trace[1].SilencedPipe? && trace[1].fd == fd
                && Aside(fd) == WithCalls(old(Aside(fd)), kernel.log)
      ensures rv != Success ==>
                && Valid() && trace[1].Closed? && trace[1].fd == fd && rv != Abort
                && Look() == WithCalls(old(Aside(fd)), kernel.log)
    {
      ghost var calls, m: map<u64, Entry>, open := kernel.log, Map(), kernel.open - {fd};
      rv := kernel.SetNonblock(fd);
      if rv != Success {
        var rc := kernel.Close(fd);
        trace := [MadeNonblocking(fd, rv), Closed(fd, rc)];
      } else {
        var ignored := kernel.NoSigpipe(fd);
        trace := [MadeNonblocking(fd, rv), SilencedPipe(fd, ignored)];
      }
      Regroup(calls, trace[..1], trace[1..]);
      assert trace[..1] + trace[1..] == trace;
      ViewCalls(m, table.probes, open, kernel.sent, kernel.incoming, calls, kernel.log);
    }

    /** The second half of creation and of acceptance: the new descriptor becomes nonblocking and gets a
        handle, or it is closed again. */
    method Adopt(fd: int) returns (rv: Errno, sock: u64, ghost trace: seq<SysCall>)
      requires Holding(fd) && kernel.sent[fd] == []
      modifies table, table.slots, kernel`open, kernel`nonblocking, kernel`log
      ensures table.slots == old(table.slots) && kernel.log == old(kernel.log) + trace
      ensures rv != Abort ==> Valid() && AdoptTrace(fd, trace, rv)
      ensures rv == Success ==>
                && sock != 0 && sock !in old(Map()) && Issued(sock, old(table.probes), table.probes)
                && Look() == WithCalls(WithSocket(old(Aside(fd)), sock, fd, table.probes, kernel.incoming[fd]), kernel.log)
      ensures rv !in {Success, Abort} ==>
                && sock == 0 && table.probes in {old(table.probes), old(table.probes) + 256}
                && Look() == Moved(old(Aside(fd)), table.probes, kernel.log)
    {
      ghost var calls, v, more := kernel.log, Aside(fd), [];
      sock := 0;
      rv, trace := Harden(fd);
      if rv != Success {
        return;
      }
      ghost var log := kernel.log;
      rv, sock, more := Join(fd);
      CallsAside(v, log, sock, fd, table.probes, kernel.incoming[fd], kernel.log);
      Regroup(calls, trace, more);
      trace := trace + more;
    }

    /** Asks the kernel for a descriptor. Nobody else notices. */
    method Obtain(listener: Option<int>) returns (rv: Errno, fd: int)
      requires Valid() && (listener.Some? ==> listener.value in kernel.open)
      modifies kernel
      ensures kernel.patience <= old(kernel.patience) && (rv == EAgain ==> kernel.patience < old(kernel.patience))
      ensures rv != Abort && (rv != Success ==> Valid() && Look() == Called(old(Look()), Opened(listener, fd, rv)))
      ensures rv == Success ==>
                && Holding(fd) && kernel.sent[fd] == [] && fd !in old(kernel.open)
                && Aside(fd) == Called(old(Look()), Opened(listener, fd, Success))
      ensures kernel.log == old(kernel.log) + [Opened(listener, fd, rv)]
    {
      ghost var sent, incoming, open := kernel.sent, kernel.incoming, kernel.open;
      rv, fd := kernel.Obtain(listener);
      if rv == Success {
        PutOther(Map(), sent, fd, []);
        PutOther(Map(), incoming, fd, kernel.incoming[fd]);
        assert kernel.open - {fd} == open;
      }
    }

    /** Obtains a descriptor and adopts it. `again` tells that none was there to accept yet. */
    method Enter(listener: Option<int>)
      returns (again: bool, rv: Errno, sock: u64, ghost fd: int, ghost bytes: seq<byte>, ghost trace: seq<SysCall>)
      requires Valid() && (listener.Some? ==> listener.value in kernel.open)
      modifies table, table.slots, kernel
      ensures table.slots == old(table.slots) && kernel.patience <= old(kernel.patience)
      ensures kernel.log == old(kernel.log) + trace
      ensures rv != Abort ==> Valid() && EnterTrace(listener, fd, trace, rv) && (again <==> trace[0].errno == EAgain)
      ensures again ==> rv == EAgain && kernel.patience < old(kernel.patience)
      ensures rv == Success ==>
                && sock != 0 && sock !in old(Map()) && fd !in old(kernel.open) && Issued(sock, old(table.probes), table.probes)
                && Look() == WithCalls(WithSocket(old(Look()), sock, fd, table.probes, bytes), kernel.log)
      ensures rv !in {Success, Abort} ==>
                && sock == 0 && table.probes in {old(table.probes), old(table.probes) + 256}
                && Look() == Moved(old(Look()), table.probes, kernel.log)
      ensures again ==> |trace| == 1 && Map() == old(Map()) && Look() == Called(old(Look()), trace[0])
    {
      sock, bytes := 0, [];
      ghost var calls := kernel.log;
      var sockfd;
      rv, sockfd := Obtain(listener);
      fd, again, trace := sockfd, rv == EAgain, [Opened(listener, sockfd, rv)];
      if rv != Success {
        return;
      }
      bytes := kernel.incoming[fd];
      ghost var more;
      rv, sock, more := Adopt(sockfd);
      Regroup(calls, trace, more);
      trace := trace + more;
      assert trace[1..] == more;
    }

    method Create() returns (rv: Errno, sock: u64, ghost fd: int, ghost bytes: seq<byte>, ghost trace: seq<SysCall>)
      requires Valid()
      modifies table, table.slots, kernel
      ensures table.slots == old(table.slots) && kernel.log == old(kernel.log) + trace
      ensures rv != Abort ==> Valid() && EnterTrace(None, fd, trace, rv)
      ensures rv == Success ==>
                && sock != 0 && sock !in old(Map()) && fd !in old(kernel.open) && Issued(sock, old(table.probes), table.probes)
                && Look() == WithCalls(WithSocket(old(Look()), sock, fd, table.probes, bytes), kernel.log)
      ensures rv !in {Success, Abort} ==>
                && sock == 0 && table.probes in {old(table.probes), old(table.probes) + 256}
                && Look() == Moved(old(Look()), table.probes, kernel.log)
    {
      var again;
      again, rv, sock, fd, bytes, trace := Enter(None);
    }

    /** Blocks the calling coroutine until `fd` is ready or the timeout passes. Meanwhile other coroutines
        run and may do anything, except destroy this socket or use this direction of it. */
    method SuspendRead(fd: int, nanosec: u64, ghost h: u64) returns (rv: Errno)
      requires Valid() && h in Map() && Map()[h].fd == fd
      modifies table, table.slots, kernel, `pauses
      ensures Valid() && table.slots == old(table.slots) && h in Map() && Map()[h].fd == fd
      ensures table.probes >= old(table.probes)
      ensures kernel.patience <= old(kernel.patience) && fd in kernel.incoming && kernel.incoming[fd] == old(kernel.incoming[fd])
      ensures rv == Success || rv == ETimedOut
      ensures pauses == old(pauses) + [Pause(old(Look()), Look(), nanosec, rv)]
      ensures Legal(Receiving, h, Pause(old(Look()), Look(), nanosec, rv))
    {
      FdOwned(Map(), h);
      var ready: bool := *;
      rv := if ready then Success else ETimedOut;
      pauses := pauses + [Pause(Look(), Look(), nanosec, rv)];
    }

    method SuspendWrite(fd: int, nanosec: u64, ghost h: u64) returns (rv: Errno)
      requires Valid() && h in Map() && Map()[h].fd == fd
      modifies table, table.slots, kernel, `pauses
      ensures Valid() && table.slots == old(table.slots) && h in Map() && Map()[h].fd == fd
      ensures table.probes >= old(table.probes)
      ensures kernel.patience <= old(kernel.patience) && fd in kernel.sent && kernel.sent[fd] == old(kernel.sent[fd])
      ensures rv == Success || rv == ETimedOut
      ensures pauses == old(pauses) + [Pause(old(Look()), Look(), nanosec, rv)]
      ensures Legal(Sending, h, Pause(old(Look()), Look(), nanosec, rv))
    {
      FdOwned(Map(), h);
      var ready: bool := *;
      rv := if ready then Success else ETimedOut;
      pauses := pauses + [Pause(Look(), Look(), nanosec, rv)];
    }

    /** The slot that an info pointer leads to stays the slot of its handle while the handle is live. */
    lemma StillThere(h: u64)
      requires table.Valid() && h in Map()
      ensures HandleIndex(h) < MAX_SOCKETS && table.slots[HandleIndex(h)].handle == h
      ensures EntryOf(table.slots[HandleIndex(h)]) == Map()[h]
    {
      FindIsLookup(table.State(), h);
    }

    // Waiting.

    /** The bytes that are still to be received from a socket. */
    ghost function Inbound(h: u64): seq<byte>
      requires Valid()
      reads table, table.slots, kernel
    {
      if h in Map() then FdOwned(Map(), h); kernel.incoming[Map()[h].fd] else []
    }

    /** The bytes that a socket has accepted for sending. */
    ghost function Outbound(h: u64): seq<byte>
      requires Valid()
      reads table, table.slots, kernel
    {
      if h in Map() then FdOwned(Map(), h); kernel.sent[Map()[h].fd] else []
    }

    /** Since the view was `first` and the pauses were `base`, there were only retries and the pauses `ps`. */
    ghost predicate Waited(side: Side, h: u64, base: seq<Pause>, first: View, ps: seq<Pause>, rv: Errno)
      requires table.slots.Length == MAX_SOCKETS
      reads this, table, table.slots, kernel
    {
      Rested(side, h, base, first, ps, pauses, Look(), rv)
    }

    /** As `Waited`, but the calls in between may have used one stream of one socket. */
    ghost predicate Used(side: Side, h: u64, base: seq<Pause>, first: View, ps: seq<Pause>, rv: Errno)
      requires table.slots.Length == MAX_SOCKETS
      reads this, table, table.slots, kernel
    {
      Story(side, h, base, first, ps, pauses, Look(), rv)
    }

    /** Pauses after the call `c`, made in the view `v`, that would have blocked. */
    method AwaitRead(
      ghost side: Side, index: nat, ghost h: u64, ghost base: seq<Pause>, ghost first: View, ghost ps: seq<Pause>,
      ghost v: View, ghost c: SysCall)
      returns (rv: Errno, ghost ps': seq<Pause>)
      requires Valid() && h in Map() && index == HandleIndex(h) && side != Sending
      requires Rested(side, h, base, first, ps, pauses, v, Success) && v.sockets == Map() && Look() == Called(v, c)
      requires OwnCall(side, Map()[h].fd, c) && ResultOf(side, c) == EAgain
      modifies table, table.slots, kernel, `pauses
      ensures Valid() && table.slots == old(table.slots) && h in Map() && Waited(side, h, base, first, ps', rv)
      ensures kernel.patience <= old(kernel.patience) && Inbound(h) == old(Inbound(h))
      ensures (rv == Success || rv == ETimedOut) && ps' != []
    {
      StillThere(h);
      FdOwned(Map(), h);
      ghost var before, now := Look(), pauses;
      ghost var timeout := table.slots[index].readTimeout;
      rv := SuspendRead(table.slots[index].fd, table.slots[index].readTimeout, h);
      FdOwned(Map(), h);
      ghost var p := Pause(before, Look(), timeout, rv);
      RestedMore(side, h, base, first, ps, now, v, p);
      ps' := ps + [p];
    }

    /** Pauses after the call `c`, made in the view `v`, that would have blocked. */
    method AwaitWrite(
      index: nat, ghost h: u64, ghost base: seq<Pause>, ghost first: View, ghost ps: seq<Pause>,
      ghost v: View, ghost c: SysCall)
      returns (rv: Errno, ghost ps': seq<Pause>)
      requires Valid() && h in Map() && index == HandleIndex(h)
      requires Rested(Sending, h, base, first, ps, pauses, v, Success) && v.sockets == Map() && Look() == Called(v, c)
      requires OwnCall(Sending, Map()[h].fd, c) && ResultOf(Sending, c) == EAgain
      modifies table, table.slots, kernel, `pauses
      ensures Valid() && table.slots == old(table.slots) && h in Map() && Waited(Sending, h, base, first, ps', rv)
      ensures kernel.patience <= old(kernel.patience) && Outbound(h) == old(Outbound(h))
      ensures (rv == Success || rv == ETimedOut) && ps' != []
    {
      StillThere(h);
      FdOwned(Map(), h);
      ghost var before, now := Look(), pauses;
      ghost var timeout := table.slots[index].writeTimeout;
      rv := SuspendWrite(table.slots[index].fd, table.slots[index].writeTimeout, h);
      FdOwned(Map(), h);
      ghost var p := Pause(before, Look(), timeout, rv);
      RestedMore(Sending, h, base, first, ps, now, v, p);
      ps' := ps + [p];
    }

    /** Waits for a connection. `ps` are the pauses on the way; apart from them and the attempts that would
        have blocked nothing happens before `point`. From there on the call does what creation does, unless
        the last pause timed out. */
    method Accept(listener: u64)
      returns (rv: Errno, client: u64, ghost ps: seq<Pause>, ghost point: View, ghost waited: Errno,
               ghost fd: int, ghost bytes: seq<byte>, ghost trace: seq<SysCall>)
      requires Valid()
      modifies table, table.slots, kernel, `pauses
      ensures table.slots == old(table.slots)
      ensures rv != Abort ==> Valid()
      ensures listener !in old(Map()) ==> rv == EBadf && client == 0 && pauses == old(pauses) && Look() == old(Look())
      ensures listener in old(Map()) ==>
                && Rested(Accepting, listener, old(pauses), old(Look()), ps, pauses, point, waited)
                && listener in point.sockets
                && if waited != Success then rv == waited && client == 0 && Look() == point
                   else
                     && (rv != Abort ==>
                           && EnterTrace(Some(point.sockets[listener].fd), fd, trace, rv)
                           && trace[0].errno != EAgain && kernel.log == point.calls + trace)
                     && (rv == Success ==>
                           && client != 0 && client !in point.sockets && fd !in point.open
                           && Issued(client, point.cursor, table.probes)
                           && Look() == WithCalls(WithSocket(point, client, fd, table.probes, bytes), kernel.log))
                     && (rv !in {Success, Abort} ==>
                           && client == 0 && table.probes in {point.cursor, point.cursor + 256}
                           && Look() == Moved(point, table.probes, kernel.log))
    {
      client, ps, point, waited, fd, bytes, trace := 0, [], Look(), Success, -1, [], [];
      var index;
      rv, index := table.FindInfo(listener);
      if rv != Success {
        return;
      }
      while true
        invariant Valid() && listener in Map() && table.slots == old(table.slots) && client == 0
        invariant index == HandleIndex(listener) && listener in old(Map())
        invariant Waited(Accepting, listener, old(pauses), old(Look()), ps, Success) && Look() == point && waited == Success
        decreases kernel.patience
      {
        StillThere(listener);
        FdOwned(Map(), listener);
        var again;
        again, rv, client, fd, bytes, trace := Enter(Some(table.slots[index].fd));
        if !again {
          return;
        }
        rv, ps := AwaitRead(Accepting, index, listener, old(pauses), old(Look()), ps, point, trace[0]);
        point, waited := Look(), rv;
        if rv != Success {
          return;
        }
      }
    }

    method Release(index: nat, ghost sock: u64) returns (rv: Errno)
      requires Valid() && sock in Map() && index == HandleIndex(sock)
      modifies table.slots, kernel`open, kernel`log
      ensures Valid() && Look() == Called(Left(old(Look()), sock), Closed(old(Map())[sock].fd, rv))
      ensures rv == Success || IsError(rv)
    {
      StillThere(sock);
      ghost var m: map<u64, Entry>, open := Map(), kernel.open;
      OwnRemove(m, open, kernel.nonblocking, sock);
      rv := kernel.Close(table.slots[index].fd);
      table.Forget(index);
      assert Map() == m - {sock} && kernel.open == open - {m[sock].fd};
      assert Owned(Map(), kernel.open, kernel.nonblocking);
      RemoveOne(m, kernel.sent, sock);
      RemoveOne(m, kernel.incoming, sock);
    }

    /** Closes the socket. The caller's handle is invalid afterwards in every case. */
    method Destroy(sock: u64) returns (rv: Errno, sock': u64)
      requires Valid()
      modifies table.slots, kernel`open, kernel`log
      ensures Valid() && sock' == 0
      ensures rv == Success || IsError(rv)
      ensures sock == 0 ==> rv == Success
      ensures sock != 0 && sock !in old(Map()) ==> rv == EBadf
      ensures Look() == if sock in old(Map())
                        then Called(Left(old(Look()), sock), Closed(old(Map())[sock].fd, rv))
                        else old(Look())
    {
      sock' := sock;
      FindIsLookup(table.State(), sock);
      if sock == 0 {
        return Success, sock';
      }
      var index;
      rv, index := table.FindInfo(sock);
      if rv != Success {
        sock' := 0;
        return;
      }
      rv := Release(index, sock);
      sock' := 0;
    }

    method SetReadTimeout(sock: u64, nanosec: u64) returns (rv: Errno)
      requires Valid()
      modifies table.slots
      ensures Valid() && rv == if sock in old(Map()) then Success else EBadf
      ensures Look() == if sock in old(Map())
                        then old(Look()).(sockets := old(Map())[sock := old(Map())[sock].(readTimeout := nanosec)])
                        else old(Look())
    {
      var index;
      rv, index := table.FindInfo(sock);
      if rv == Success {
        ghost var e := Map()[sock].(readTimeout := nanosec);
        OwnTouch(Map(), kernel.open, kernel.nonblocking, sock, e);
        TouchOne(Map(), kernel.sent, sock, e);
        TouchOne(Map(), kernel.incoming, sock, e);
        table.Touch(index, nanosec, table.slots[index].writeTimeout);
      }
    }

    method SetWriteTimeout(sock: u64, nanosec: u64) returns (rv: Errno)
      requires Valid()
      modifies table.slots
      ensures Valid() && rv == if sock in old(Map()) then Success else EBadf
      ensures Look() == if sock in old(Map())
                        then old(Look()).(sockets := old(Map())[sock := old(Map())[sock].(writeTimeout := nanosec)])
                        else old(Look())
    {
      var index;
      rv, index := table.FindInfo(sock);
      if rv == Success {
        ghost var e := Map()[sock].(writeTimeout := nanosec);
        OwnTouch(Map(), kernel.open, kernel.nonblocking, sock, e);
        TouchOne(Map(), kernel.sent, sock, e);
        TouchOne(Map(), kernel.incoming, sock, e);
        table.Touch(index, table.slots[index].readTimeout, nanosec);
      }
    }

    // Moving bytes.

    /** One attempt to receive, through the slot of the handle. */
    method TryRecv(index: nat, ghost h: u64, data: array<byte>, off: nat, count: nat)
      returns (rv: Errno, nread: nat, ghost call: SysCall)
      requires Valid() && off + count <= data.Length && h in Map() && index == HandleIndex(h)
      modifies kernel`incoming, kernel`patience, kernel`log, data
      ensures Valid() && kernel.patience <= old(kernel.patience) && h in Map()
      ensures if count == 0 then rv == EInval && Look() == old(Look())
              else Attempt(Receiving, h, count, old(Look()), rv, call, Look())
      ensures rv != Abort && (rv in {EAgain, EIntr} ==> kernel.patience < old(kernel.patience))
      ensures rv == EAgain ==> Map() == old(Map()) && Look() == Called(old(Look()), call)
      ensures rv == Success ==>
                && 0 < nread <= count && nread <= |old(Inbound(h))| && Inbound(h) == old(Inbound(h))[nread..]
                && data[..] == Filled(old(data[..]), off, old(Inbound(h))[..nread])
      ensures rv != Success ==> nread == 0 && Inbound(h) == old(Inbound(h)) && data[..] == old(data[..])
      ensures rv == Eof ==> Inbound(h) == []
    {
      assert data as object != table.slots as object;
      StillThere(h);
      FdOwned(Map(), h);
      ghost var slots, m: map<u64, Entry>, incoming, calls := table.slots[..], Map(), kernel.incoming, kernel.log;
      rv, nread, call := RecvPosix(kernel, table.slots[index].fd, data, off, count);
      assert table.slots[..] == slots;
      if rv == Success {
        ViewReceived(m, table.probes, kernel.open, kernel.nonblocking, kernel.sent, incoming, calls, call, h, kernel.incoming[m[h].fd]);
      }
    }

    /** Receives from a socket. After the retries in `ps`, the call ends with the last pause or with the last
        attempt `call`, made in the view `point`. */
    method Recv(h: u64, data: array<byte>, off: nat, count: nat)
      returns (rv: Errno, nread: nat, ghost ps: seq<Pause>, ghost point: View, ghost waited: Errno, ghost call: SysCall)
      requires Valid() && off + count <= data.Length
      modifies table, table.slots, kernel, `pauses, data
      ensures Valid() && table.slots == old(table.slots) && kernel.patience <= old(kernel.patience)
      ensures h in Map() <==> h in old(Map())
      ensures h !in Map() ==> rv == EBadf && pauses == old(pauses) && Look() == old(Look())
      ensures h in Map() ==>
                && Rested(Receiving, h, old(pauses), old(Look()), ps, pauses, point, waited)
                && Ends(Receiving, h, count, waited, point, rv, call, Look())
      ensures rv != EAgain && rv != Abort && (rv == EIntr ==> kernel.patience < old(kernel.patience))
      ensures rv == Success ==>
                && 0 < nread <= count && nread <= |old(Inbound(h))| && Inbound(h) == old(Inbound(h))[nread..]
                && data[..] == Filled(old(data[..]), off, old(Inbound(h))[..nread])
      ensures rv != Success ==> nread == 0 && Inbound(h) == old(Inbound(h)) && data[..] == old(data[..])
      ensures rv == Eof ==> Inbound(h) == []
    {
      assert data as object != table.slots as object;
      nread, ps, point, waited, call := 0, [], Look(), Success, Received(0, 0, 0, Success);
      var index;
      rv, index := table.FindInfo(h);
      if rv != Success {
        return;
      }
      while true
        invariant Valid() && table.slots == old(table.slots) && kernel.patience <= old(kernel.patience)
        invariant h in Map() && index == HandleIndex(h) && nread == 0 && waited == Success
        invariant Inbound(h) == old(Inbound(h)) && data[..] == old(data[..])
        invariant Waited(Receiving, h, old(pauses), old(Look()), ps, Success) && Look() == point
        decreases kernel.patience
      {
        rv, nread, call := TryRecv(index, h, data, off, count);
        if rv != EAgain {
          return;
        }
        ghost var held := data[..];
        rv, ps := AwaitRead(Receiving, index, h, old(pauses), old(Look()), ps, point, call);
        assert data[..] == held;
        point, waited := Look(), rv;
        if rv != Success {
          return;
        }
      }
    }

    method TrySend(index: nat, ghost h: u64, data: array<byte>, off: nat, count: nat)
      returns (rv: Errno, nwritten: nat, ghost call: SysCall)
      requires Valid() && off + count <= data.Length && h in Map() && index == HandleIndex(h)
      modifies kernel`sent, kernel`patience, kernel`log
      ensures Valid() && kernel.patience <= old(kernel.patience) && h in Map()
      ensures if count == 0 then rv == EInval && Look() == old(Look())
              else Attempt(Sending, h, count, old(Look()), rv, call, Look())
      ensures rv !in {Abort, Eof} && (rv in {EAgain, EIntr} ==> kernel.patience < old(kernel.patience))
      ensures rv == EAgain ==> Map() == old(Map()) && Look() == Called(old(Look()), call)
      ensures if rv == Success then 0 < nwritten <= count else nwritten == 0
      ensures Outbound(h) == Extended(old(Outbound(h)), data[..], off, nwritten)
    {
      StillThere(h);
      FdOwned(Map(), h);
      ghost var m: map<u64, Entry>, sent, calls := Map(), kernel.sent, kernel.log;
      rv, nwritten, call := SendPosix(kernel, table.slots[index].fd, data, off, count);
      if rv == Success {
        ViewSent(m, table.probes, kernel.open, kernel.nonblocking, sent, kernel.incoming, calls, call, h, kernel.sent[m[h].fd]);
        assert data[off..off + nwritten] == data[..][off..off + nwritten];
      }
    }

    method Send(h: u64, data: array<byte>, off: nat, count: nat)
      returns (rv: Errno, nwritten: nat, ghost ps: seq<Pause>, ghost point: View, ghost waited: Errno, ghost call: SysCall)
      requires Valid() && off + count <= data.Length
      modifies table, table.slots, kernel, `pauses
      ensures Valid() && table.slots == old(table.slots) && kernel.patience <= old(kernel.patience)
      ensures h in Map() <==> h in old(Map())
      ensures h !in Map() ==> rv == EBadf && pauses == old(pauses) && Look() == old(Look())
      ensures h in Map() ==>
                && Rested(Sending, h, old(pauses), old(Look()), ps, pauses, point, waited)
                && Ends(Sending, h, count, waited, point, rv, call, Look())
      ensures rv != EAgain && rv != Abort && rv != Eof && (rv == EIntr ==> kernel.patience < old(kernel.patience))
      ensures if rv == Success then 0 < nwritten <= count else nwritten == 0
      ensures Outbound(h) == Extended(old(Outbound(h)), data[..], off, nwritten)
    {
      assert data as object != table.slots as object;
      nwritten, ps, point, waited, call := 0, [], Look(), Success, Sent(0, 0, 0, Success);
      var index;
      rv, index := table.FindInfo(h);
      if rv != Success {
        return;
      }
      while true
        invariant Valid() && table.slots == old(table.slots) && kernel.patience <= old(kernel.patience)
        invariant h in Map() && index == HandleIndex(h) && nwritten == 0 && waited == Success
        invariant Outbound(h) == old(Outbound(h))
        invariant Waited(Sending, h, old(pauses), old(Look()), ps, Success) && Look() == point
        decreases kernel.patience
      {
        rv, nwritten, call := TrySend(index, h, data, off, count);
        if rv != EAgain {
          return;
        }
        rv, ps := AwaitWrite(index, h, old(pauses), old(Look()), ps, point, call);
        point, waited := Look(), rv;
        if rv != Success {
          return;
        }
      }
    }
  }
}
