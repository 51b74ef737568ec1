/** The operating system's side of the socket layer. The contracts are all that is assumed of it. */
module Kernels {
  import opened Basics

  type byte = x: int | 0 <= x < 256

  const SSIZE_MAX: int := 0x7fff_ffff_ffff_ffff

  /** The codes that a failed system call can be mapped to. */
  predicate IsError(rv: Errno) {
    rv !in {Success, Eof, Abort}
  }

  /** A buffer with some bytes replaced, from `off` on. */
  function Filled(before: seq<byte>, off: nat, bytes: seq<byte>): seq<byte>
    requires off + |bytes| <= |before|
  {
    before[..off] + bytes + before[off + |bytes|..]
  }

  /** The stream after a call that sent `k` bytes of the buffer from `off` on. */
  function Extended(stream: seq<byte>, bytes: seq<byte>, off: nat, k: nat): seq<byte>
    requires off + k <= |bytes|
  {
    if k == 0 then stream else stream + bytes[off..off + k]
  }

  /** A system call and what it reported. */
  datatype SysCall =
    | Opened(listener: Option<int>, fd: int, errno: Errno)
    | MadeNonblocking(fd: int, errno: Errno)
    | SilencedPipe(fd: int, errno: Errno)
    | Closed(fd: int, errno: Errno)
    | Sent(fd: int, count: nat, n: int, errno: Errno)
    | Received(fd: int, count: nat, n: int, errno: Errno)

  /** What the wrappers make of the outcome of a system call. */
  function SendResult(n: int, errno: Errno): Errno {
    if n == -1 then errno else Success
  }

  function RecvResult(n: int, errno: Errno): Errno {
    if n == -1 then errno else if n == 0 then Eof else Success
  }

  /** The methods stand for system calls; only they write the log. */
  class Kernel {
    /** The descriptors that the socket layer has obtained and not yet closed. */
    var open: set<int>
    var nonblocking: set<int>
    /** For each descriptor, the bytes accepted for sending so far. */
    var sent: map<int, seq<byte>>
    /** For each descriptor, the bytes not yet received, in the order in which they will arrive. */
    var incoming: map<int, seq<byte>>
    /** How many more calls may report an interruption or that they would block. */
    var patience: nat
    ghost var log: seq<SysCall>

    ghost predicate Valid()
      reads this
    {
      forall fd :: fd in open ==> fd in sent && fd in incoming
    }

    constructor (patience: nat)
      ensures Valid() && open == {} && nonblocking == {} && this.patience == patience && log == []
    {
      open, nonblocking, sent, incoming, this.patience, log := {}, {}, map[], map[], patience, [];
    }

    /** Hands out a descriptor that is not in use, in blocking mode: a new socket, or a connection accepted on
        an open descriptor. */
    method Obtain(listener: Option<int>) returns (rv: Errno, fd: int)
      requires Valid() && (listener.Some? ==> listener.value in open)
      modifies this
      ensures Valid() && (rv == Success || IsError(rv)) && patience <= old(patience)
      ensures log == old(log) + [Opened(listener, fd, rv)]
      ensures rv != Success ==>
                open == old(open) && nonblocking == old(nonblocking) && sent == old(sent) && incoming == old(incoming)
      ensures rv == EAgain ==> patience < old(patience)
      ensures rv == Success ==>
                && fd >= 0 && fd !in old(open) && open == old(open) + {fd} && nonblocking == old(nonblocking) - {fd}
                && sent == old(sent)[fd := []] && fd in incoming && incoming == old(incoming)[fd := incoming[fd]]
    {
      var f: int := *;
      var bytes: seq<byte> := *;
      var again: bool := *;
      if f >= 0 && f !in open {
        open, nonblocking := open + {f}, nonblocking - {f};
        sent, incoming := sent[f := []], incoming[f := bytes];
        log := log + [Opened(listener, f, Success)];
        return Success, f;
      }
      fd := -1;
      if again && patience > 0 {
        patience := patience - 1;
        rv := EAgain;
      } else {
        var e: Errno := *;
        rv := if IsError(e) && e != EAgain then e else EMFile;
      }
      log := log + [Opened(listener, fd, rv)];
    }

    method SetNonblock(fd: int) returns (rv: Errno)
      requires fd in open
      modifies `nonblocking, `log
      ensures log == old(log) + [MadeNonblocking(fd, rv)]
      ensures rv == Success || IsError(rv)
      ensures nonblocking == if rv == Success then old(nonblocking) + {fd} else old(nonblocking)
    {
      var e: Errno := *;
      rv := if IsError(e) then e else Success;
      log := log + [MadeNonblocking(fd, rv)];
      if rv == Success {
        nonblocking := nonblocking + {fd};
      }
    }

    method NoSigpipe(fd: int) returns (rv: Errno)
      requires fd in open
      modifies `log
      ensures log == old(log) + [SilencedPipe(fd, rv)]
    {
      rv := *;
      log := log + [SilencedPipe(fd, rv)];
    }

    /** Gives an open descriptor back, whatever it reports. Closing anything else is an error of the caller. */
    method Close(fd: int) returns (rv: Errno)
      requires fd in open
      modifies `open, `log
      ensures open == old(open) - {fd} && (rv == Success || IsError(rv))
      ensures log == old(log) + [Closed(fd, rv)]
    {
      open := open - {fd};
      var e: Errno := *;
      rv := if IsError(e) then e else Success;
      log := log + [Closed(fd, rv)];
    }

    /** Accepts at least one byte of a nonempty buffer, or nothing. */
    method Send(fd: int, data: array<byte>, off: nat, count: nat) returns (n: int, errno: Errno)
      requires Valid() && fd in open && off + count <= data.Length && count > 0
      modifies `sent, `patience, `log
      ensures Valid() && patience <= old(patience)
      ensures log == old(log) + [Sent(fd, count, n, errno)]
      ensures n == -1 || 0 < n <= count
      ensures n == -1 ==> IsError(errno) && sent == old(sent) && (errno in {EAgain, EIntr} ==> patience < old(patience))
      ensures n > 0 ==> sent == old(sent)[fd := old(sent)[fd] + data[off..off + n]]
    {
      var k: int := *;
      if 0 < k <= count {
        sent := sent[fd := sent[fd] + data[off..off + k]];
        log := log + [Sent(fd, count, k, Success)];
        return k, Success;
      }
      errno := Failure();
      n := -1;
      log := log + [Sent(fd, count, n, errno)];
    }

    /** Delivers at least one of the bytes to come, in order, or reports that there are no more, or nothing. */
    method Recv(fd: int, data: array<byte>, off: nat, count: nat) returns (n: int, errno: Errno)
      requires Valid() && fd in open && off + count <= data.Length && count > 0
      modifies `incoming, `patience, `log, data
      ensures Valid() && patience <= old(patience)
      ensures log == old(log) + [Received(fd, count, n, errno)]
      ensures n == -1 || (0 <= n <= count && n <= |old(incoming)[fd]|)
      ensures n == -1 ==> IsError(errno) && (errno in {EAgain, EIntr} ==> patience < old(patience))
      ensures n == 0 ==> old(incoming)[fd] == []
      ensures n <= 0 ==> incoming == old(incoming) && data[..] == old(data[..])
      ensures n > 0 ==>
                && incoming == old(incoming)[fd := old(incoming)[fd][n..]]
                && data[..] == Filled(old(data[..]), off, old(incoming)[fd][..n])
    {
      if incoming[fd] == [] {
        log := log + [Received(fd, count, 0, Success)];
        return 0, Success;
      }
      var k: int := *;
      if 0 < k <= count && k <= |incoming[fd]| {
        var bytes := incoming[fd][..k];
        var i := 0;
        while i < k
          invariant 0 <= i <= k
          invariant data[..] == Filled(old(data[..]), off, bytes[..i])
          modifies data
        {
          data[off + i] := bytes[i];
          i := i + 1;
        }
        incoming := incoming[fd := incoming[fd][k..]];
        log := log + [Received(fd, count, k, Success)];
        return k, Success;
      }
      errno := Failure();
      n := -1;
      log := log + [Received(fd, count, n, errno)];
    }

    method Failure() returns (errno: Errno)
      modifies `patience
      ensures IsError(errno) && patience <= old(patience)
      ensures errno in {EAgain, EIntr} ==> patience < old(patience)
    {
      var e: Errno := *;
      errno := if IsError(e) && (patience > 0 || e !in {EAgain, EIntr}) then e else EConnReset;
      if errno in {EAgain, EIntr} {
        patience := patience - 1;
      }
    }
  }

  // The wrappers around the system calls: clamp the count, map the result.

  method RecvPosix(kernel: Kernel, fd: int, data: array<byte>, off: nat, count: nat)
    returns (res: Errno, nread: nat, ghost call: SysCall)
    requires kernel.Valid() && fd in kernel.open && off + count <= data.Length
    modifies kernel`incoming, kernel`patience, kernel`log, data
    ensures kernel.Valid() && kernel.patience <= old(kernel.patience)
    ensures res != Success ==> nread == 0 && kernel.incoming == old(kernel.incoming) && data[..] == old(data[..])
    ensures res == Success ==>
              && 0 < nread <= Min(count, SSIZE_MAX) && nread <= |old(kernel.incoming)[fd]|
              && kernel.incoming == old(kernel.incoming)[fd := old(kernel.incoming)[fd][nread..]]
              && data[..] == Filled(old(data[..]), off, old(kernel.incoming)[fd][..nread])
    ensures count == 0 ==> res == EInval && kernel.log == old(kernel.log)
    ensures count > 0 ==>
              && kernel.log == old(kernel.log) + [call]
              && call.Received? && call.fd == fd && call.count == Min(count, SSIZE_MAX)
              && res == RecvResult(call.n, call.errno) && (res == Success ==> nread == call.n)
    ensures res == Eof ==> kernel.incoming[fd] == []
    ensures res in {EAgain, EIntr} ==> kernel.patience < old(kernel.patience)
    ensures res != Abort
  {
    nread, call := 0, Received(fd, 0, 0, Success);
    if count <= 0 {
      return EInval, nread, call;
    }
    var amount := if count <= SSIZE_MAX then count else SSIZE_MAX;
    var rv, errno := kernel.Recv(fd, data, off, amount);
    call := Received(fd, amount, rv, errno);
    nread := if rv > 0 then rv else 0;
    res := if rv == -1 then errno else if rv == 0 then Eof else Success;
  }

  method SendPosix(kernel: Kernel, fd: int, data: array<byte>, off: nat, count: nat)
    returns (res: Errno, nwritten: nat, ghost call: SysCall)
    requires kernel.Valid() && fd in kernel.open && off + count <= data.Length
    modifies kernel`sent, kernel`patience, kernel`log
    ensures kernel.Valid() && kernel.patience <= old(kernel.patience)
    ensures res != Success ==> nwritten == 0 && kernel.sent == old(kernel.sent)
    ensures res == Success ==>
              && 0 < nwritten <= Min(count, SSIZE_MAX)
              && kernel.sent == old(kernel.sent)[fd := old(kernel.sent)[fd] + data[off..off + nwritten]]
    ensures count == 0 ==> res == EInval && kernel.log == old(kernel.log)
    ensures count > 0 ==>
              && kernel.log == old(kernel.log) + [call]
              && call.Sent? && call.fd == fd && call.count == Min(count, SSIZE_MAX)
              && res == SendResult(call.n, call.errno) && (res == Success ==> nwritten == call.n)
    ensures res in {EAgain, EIntr} ==> kernel.patience < old(kernel.patience)
    ensures res !in {Abort, Eof}
  {
    nwritten, call := 0, Sent(fd, 0, 0, Success);
    if count <= 0 {
      return EInval, nwritten, call;
    }
    var amount := if count <= SSIZE_MAX then count else SSIZE_MAX;
    var rv, errno := kernel.Send(fd, data, off, amount);
    call := Sent(fd, amount, rv, errno);
    nwritten := if rv > 0 then rv else 0;
    res := if rv == -1 then errno else Success;
  }
}
