/** Who owns which descriptor, what can be observed of all sockets together, and how a call that pauses
    changes it. */
module Ownership {
  import opened Basics
  import opened SocketTable
  import opened Kernels

  ghost function Fds(m: map<u64, Entry>): set<int> {
    set h | h in m :: m[h].fd
  }

  /** The open descriptors are exactly those of the live sockets, each owned by one of them, and nonblocking. */
  ghost predicate Owned(m: map<u64, Entry>, open: set<int>, nonblocking: set<int>) {
    && open == Fds(m) && open <= nonblocking
    && forall g, h :: g in m && h in m && m[g].fd == m[h].fd ==> g == h
  }

  lemma OwnInsert(m: map<u64, Entry>, open: set<int>, nonblocking: set<int>, h: u64, e: Entry)
    requires Owned(m, open, nonblocking) && h !in m && e.fd !in open
    ensures Owned(m[h := e], open + {e.fd}, nonblocking + {e.fd})
  {
    var m' := m[h := e];
    assert m'[h].fd == e.fd;
    forall fd | fd in open ensures fd in Fds(m') {
      var g :| g in m && m[g].fd == fd;
      assert m'[g] == m[g];
    }
  }

  /** A descriptor that is open and nonblocking already gets its owner. */
  lemma OwnAdopt(m: map<u64, Entry>, open: set<int>, nonblocking: set<int>, h: u64, e: Entry)
    requires Owned(m, open - {e.fd}, nonblocking) && h !in m && e.fd in open && e.fd in nonblocking
    ensures Owned(m[h := e], open, nonblocking)
  {
    OwnInsert(m, open - {e.fd}, nonblocking, h, e);
    assert open - {e.fd} + {e.fd} == open;
    assert nonblocking + {e.fd} == nonblocking;
  }

  lemma OwnRemove(m: map<u64, Entry>, open: set<int>, nonblocking: set<int>, h: u64)
    requires Owned(m, open, nonblocking) && h in m
    ensures m[h].fd in open && Owned(m - {h}, open - {m[h].fd}, nonblocking)
  {
    var m' := m - {h};
    forall fd | fd in open && fd != m[h].fd ensures fd in Fds(m') {
      var g :| g in m && m[g].fd == fd;
      assert m'[g] == m[g];
    }
  }

  lemma FdOwned(m: map<u64, Entry>, h: u64)
    requires h in m
    ensures m[h].fd in Fds(m)
  {
  }

  lemma OwnTouch(m: map<u64, Entry>, open: set<int>, nonblocking: set<int>, h: u64, e: Entry)
    requires Owned(m, open, nonblocking) && h in m && e.fd == m[h].fd
    ensures Owned(m[h := e], open, nonblocking)
  {
    var m' := m[h := e];
    assert m'[h].fd == m[h].fd;
    forall fd | fd in open ensures fd in Fds(m') {
      var g :| g in m && m[g].fd == fd;
      assert m'[g].fd == fd;
    }
  }

  // What can be observed of all sockets together.

  /** The live sockets, the table's cursor, the open descriptors, for every live handle the bytes it has sent
      and the bytes it has still to receive, and the system calls made so far. */
  datatype View = View(
    sockets: map<u64, Entry>, cursor: nat, open: set<int>,
    sent: map<u64, seq<byte>>, incoming: map<u64, seq<byte>>, calls: seq<SysCall>)

  /** Streams kept by descriptor, seen by handle. */
  ghost function ByHandle(m: map<u64, Entry>, streams: map<int, seq<byte>>): map<u64, seq<byte>> {
    map h | h in m :: if m[h].fd in streams then streams[m[h].fd] else []
  }

  /** Changing the stream of a descriptor changes that of its owner and of nobody else. */
  lemma PutOne(m: map<u64, Entry>, open: set<int>, nonblocking: set<int>, streams: map<int, seq<byte>>, h: u64, bytes: seq<byte>)
    requires Owned(m, open, nonblocking) && h in m
    ensures ByHandle(m, streams[m[h].fd := bytes]) == ByHandle(m, streams)[h := bytes]
  {
    var streams' := streams[m[h].fd := bytes];
    forall g | g in m ensures ByHandle(m, streams')[g] == ByHandle(m, streams)[h := bytes][g] {
      if g != h {
        assert m[g].fd != m[h].fd;
      }
    }
  }

  lemma PutOther(m: map<u64, Entry>, streams: map<int, seq<byte>>, fd: int, bytes: seq<byte>)
    requires fd !in Fds(m)
    ensures ByHandle(m, streams[fd := bytes]) == ByHandle(m, streams)
  {
    forall h | h in m ensures m[h].fd != fd {
      FdOwned(m, h);
    }
  }

  lemma AddOne(m: map<u64, Entry>, streams: map<int, seq<byte>>, h: u64, e: Entry)
    requires h !in m && e.fd in streams
    ensures ByHandle(m[h := e], streams) == ByHandle(m, streams)[h := streams[e.fd]]
  {
  }

  lemma RemoveOne(m: map<u64, Entry>, streams: map<int, seq<byte>>, h: u64)
    ensures ByHandle(m - {h}, streams) == ByHandle(m, streams) - {h}
  {
  }

  lemma TouchOne(m: map<u64, Entry>, streams: map<int, seq<byte>>, h: u64, e: Entry)
    requires h in m && e.fd == m[h].fd
    ensures ByHandle(m[h := e], streams) == ByHandle(m, streams)
  {
  }

  /** The view after a new socket has joined: nothing sent, `bytes` to come. */
  function WithSocket(v: View, h: u64, fd: int, cursor: nat, bytes: seq<byte>): View {
    View(v.sockets[h := Entry(fd, U64_MAX, U64_MAX)], cursor, v.open + {fd}, v.sent[h := []], v.incoming[h := bytes], v.calls)
  }

  /** The view after a socket has left with its descriptor. */
  function Left(v: View, h: u64): View
    requires h in v.sockets
  {
    View(v.sockets - {h}, v.cursor, v.open - {v.sockets[h].fd}, v.sent - {h}, v.incoming - {h}, v.calls)
  }

  /** The view after one more system call that changed nothing else. */
  function Called(v: View, c: SysCall): View {
    v.(calls := v.calls + [c])
  }

  ghost function WithCalls(v: View, calls: seq<SysCall>): View {
    v.(calls := calls)
  }

  /** The view after nothing but the cursor has moved and calls were made. */
  ghost function Moved(v: View, cursor: nat, calls: seq<SysCall>): View {
    v.(cursor := cursor, calls := calls)
  }

  lemma Regroup(a: seq<SysCall>, b: seq<SysCall>, c: seq<SysCall>)
    ensures (a + b) + c == a + (b + c)
  {
  }

  /** The view of a table and a kernel. */
  ghost function ViewOf(
    m: map<u64, Entry>, cursor: nat, open: set<int>, sent: map<int, seq<byte>>, incoming: map<int, seq<byte>>,
    calls: seq<SysCall>): View
  {
    View(m, cursor, open, ByHandle(m, sent), ByHandle(m, incoming), calls)
  }

  lemma ViewJoined(
    m: map<u64, Entry>, sock: u64, fd: int, cursor: nat, cursor': nat, open: set<int>,
    sent: map<int, seq<byte>>, incoming: map<int, seq<byte>>, calls: seq<SysCall>, calls': seq<SysCall>)
    requires sock !in m && fd in open && fd in sent && sent[fd] == [] && fd in incoming
    ensures ViewOf(m[sock := Entry(fd, U64_MAX, U64_MAX)], cursor', open, sent, incoming, calls')
         == WithCalls(WithSocket(ViewOf(m, cursor, open - {fd}, sent, incoming, calls), sock, fd, cursor', incoming[fd]), calls')
  {
    AddOne(m, sent, sock, Entry(fd, U64_MAX, U64_MAX));
    AddOne(m, incoming, sock, Entry(fd, U64_MAX, U64_MAX));
    assert open - {fd} + {fd} == open;
  }

  lemma ViewMoved(
    m: map<u64, Entry>, cursor: nat, cursor': nat, open: set<int>,
    sent: map<int, seq<byte>>, incoming: map<int, seq<byte>>, calls: seq<SysCall>, calls': seq<SysCall>)
    ensures ViewOf(m, cursor', open, sent, incoming, calls') == Moved(ViewOf(m, cursor, open, sent, incoming, calls), cursor', calls')
  {
  }

  lemma ViewSent(
    m: map<u64, Entry>, cursor: nat, open: set<int>, nonblocking: set<int>, sent: map<int, seq<byte>>,
    incoming: map<int, seq<byte>>, calls: seq<SysCall>, c: SysCall, h: u64, bytes: seq<byte>)
    requires Owned(m, open, nonblocking) && h in m
    ensures var v, v' := ViewOf(m, cursor, open, sent, incoming, calls),
                         ViewOf(m, cursor, open, sent[m[h].fd := bytes], incoming, calls + [c]);
            v' == Called(v, c).(sent := v'.sent) && v'.sent == v.sent[h := bytes]
  {
    PutOne(m, open, nonblocking, sent, h, bytes);
  }

  lemma ViewReceived(
    m: map<u64, Entry>, cursor: nat, open: set<int>, nonblocking: set<int>, sent: map<int, seq<byte>>,
    incoming: map<int, seq<byte>>, calls: seq<SysCall>, c: SysCall, h: u64, bytes: seq<byte>)
    requires Owned(m, open, nonblocking) && h in m
    ensures var v, v' := ViewOf(m, cursor, open, sent, incoming, calls),
                         ViewOf(m, cursor, open, sent, incoming[m[h].fd := bytes], calls + [c]);
            v' == Called(v, c).(incoming := v'.incoming) && v'.incoming == v.incoming[h := bytes]
  {
    PutOne(m, open, nonblocking, incoming, h, bytes);
  }

  lemma CallsAside(v: View, calls: seq<SysCall>, sock: u64, fd: int, cursor: nat, bytes: seq<byte>, calls': seq<SysCall>)
    ensures WithCalls(WithSocket(WithCalls(v, calls), sock, fd, cursor, bytes), calls')
         == WithCalls(WithSocket(v, sock, fd, cursor, bytes), calls')
    ensures Moved(WithCalls(v, calls), cursor, calls') == Moved(v, cursor, calls')
  {
  }

  lemma ViewCalls(
    m: map<u64, Entry>, cursor: nat, open: set<int>, sent: map<int, seq<byte>>, incoming: map<int, seq<byte>>,
    calls: seq<SysCall>, calls': seq<SysCall>)
    ensures ViewOf(m, cursor, open, sent, incoming, calls') == WithCalls(ViewOf(m, cursor, open, sent, incoming, calls), calls')
  {
  }

  // Calls that pause.

  /** Everything as it was when a coroutine was suspended, and when it continued; how long it was ready to
      wait, and how the wait ended. */
  datatype Pause = Pause(before: View, after: View, timeout: u64, rv: Errno)

  datatype Side = Sending | Receiving | Accepting

  /** What a coroutine suspended on a socket may rely on: the handle stays live on its descriptor, the cursor
      does not go back, calls made stay made, and the bytes of its direction stay as they are. It ends because
      the socket is ready or because the time is over. */
  ghost predicate Legal(side: Side, h: u64, p: Pause) {
    && p.rv in {Success, ETimedOut}
    && h in p.before.sockets && h in p.after.sockets && p.after.sockets[h].fd == p.before.sockets[h].fd
    && p.before.cursor <= p.after.cursor && p.before.calls <= p.after.calls
    && match side
       case Sending => h in p.before.sent && h in p.after.sent && p.after.sent[h] == p.before.sent[h]
       case Receiving => h in p.before.incoming && h in p.after.incoming && p.after.incoming[h] == p.before.incoming[h]
       case Accepting => true
  }

  /** Pause `k` is legal, and if it is not the last one the socket was ready when it ended. */
  ghost predicate LegalAt(side: Side, h: u64, ps: seq<Pause>, k: nat)
    requires k < |ps|
  {
    Legal(side, h, ps[k]) && (k + 1 < |ps| ==> ps[k].rv == Success)
  }

  ghost predicate AllLegal(side: Side, h: u64, ps: seq<Pause>) {
    forall k :: 0 <= k < |ps| ==> LegalAt(side, h, ps, k)
  }

  /** How the last pause ended. */
  predicate LastEnded(ps: seq<Pause>, rv: Errno) {
    if ps == [] then rv == Success else ps[|ps| - 1].rv == rv
  }

  lemma LegalJoin(side: Side, h: u64, ps: seq<Pause>, qs: seq<Pause>)
    requires AllLegal(side, h, ps) && AllLegal(side, h, qs) && LastEnded(ps, Success)
    ensures AllLegal(side, h, ps + qs)
  {
    forall k | 0 <= k < |ps + qs| ensures LegalAt(side, h, ps + qs, k) {
      if k < |ps| {
        assert LegalAt(side, h, ps, k);
      } else {
        assert LegalAt(side, h, qs, k - |ps|);
      }
    }
  }

  lemma LegalMore(side: Side, h: u64, ps: seq<Pause>, p: Pause)
    requires AllLegal(side, h, ps) && LastEnded(ps, Success) && Legal(side, h, p)
    ensures AllLegal(side, h, ps + [p])
  {
    assert LegalAt(side, h, [p], 0);
    LegalJoin(side, h, ps, [p]);
  }

  /** A system call of this kind on this descriptor. */
  predicate OwnCall(side: Side, fd: int, c: SysCall) {
    match side
    case Sending => c.Sent? && c.fd == fd
    case Receiving => c.Received? && c.fd == fd
    case Accepting => c.Opened? && c.listener == Some(fd)
  }

  /** What the layer above the system call gets to know of it. */
  function ResultOf(side: Side, c: SysCall): Errno {
    match side
    case Sending => if c.Sent? then SendResult(c.n, c.errno) else c.errno
    case Receiving => if c.Received? then RecvResult(c.n, c.errno) else c.errno
    case Accepting => c.errno
  }

  function TimeoutOf(side: Side, e: Entry): u64 {
    if side == Sending then e.writeTimeout else e.readTimeout
  }

  /** The pause follows a call, made in the view `v`, that would have blocked, and is as long as the socket's
      timeout says. */
  ghost predicate Blocks(side: Side, h: u64, v: View, p: Pause) {
    && h in v.sockets && p.timeout == TimeoutOf(side, v.sockets[h])
    && |p.before.calls| > 0
    && var c := p.before.calls[|p.before.calls| - 1];
       OwnCall(side, v.sockets[h].fd, c) && ResultOf(side, c) == EAgain && p.before == Called(v, c)
  }

  /** From `first` to `last` a call was tried again and again: each time it would have blocked, and the
      coroutine paused. */
  ghost predicate Retries(side: Side, h: u64, first: View, ps: seq<Pause>, last: View)
    decreases |ps|
  {
    if ps == [] then first == last
    else Blocks(side, h, first, ps[0]) && Retries(side, h, ps[0].after, ps[1..], last)
  }

  lemma {:induction false} RetriesMore(side: Side, h: u64, first: View, ps: seq<Pause>, last: View, p: Pause)
    requires Retries(side, h, first, ps, last) && Blocks(side, h, last, p)
    ensures Retries(side, h, first, ps + [p], p.after)
    decreases |ps|
  {
    var all := ps + [p];
    if ps == [] {
      assert Retries(side, h, all[0].after, all[1..], p.after);
    } else {
      assert all[1..] == ps[1..] + [p];
      RetriesMore(side, h, ps[0].after, ps[1..], last, p);
    }
  }

  /** The pauses determine where the last attempt starts: there is one blocked call before each. */
  lemma {:induction false} PausesDecide(side: Side, h: u64, first: View, ps: seq<Pause>, last: View)
    requires Retries(side, h, first, ps, last)
    ensures last == if ps == [] then first else ps[|ps| - 1].after
    ensures forall k :: 0 <= k < |ps| ==> Blocks(side, h, if k == 0 then first else ps[k - 1].after, ps[k])
    decreases |ps|
  {
    if ps != [] {
      PausesDecide(side, h, ps[0].after, ps[1..], last);
      forall k | 0 <= k < |ps| ensures Blocks(side, h, if k == 0 then first else ps[k - 1].after, ps[k]) {
        assert k > 0 ==> ps[k] == ps[1..][k - 1];
      }
    }
  }

  /** Since the pauses were `base` and the view `first`, there have been only retries and the legal pauses
      `ps`, of which the last ended with `rv`. */
  ghost predicate Rested(
    side: Side, h: u64, base: seq<Pause>, first: View, ps: seq<Pause>, now: seq<Pause>, last: View, rv: Errno)
  {
    now == base + ps && Retries(side, h, first, ps, last) && AllLegal(side, h, ps) && LastEnded(ps, rv)
  }

  lemma RestedMore(
    side: Side, h: u64, base: seq<Pause>, first: View, ps: seq<Pause>, now: seq<Pause>, last: View, p: Pause)
    requires Rested(side, h, base, first, ps, now, last, Success) && Blocks(side, h, last, p) && Legal(side, h, p)
    ensures Rested(side, h, base, first, ps + [p], now + [p], p.after, p.rv)
  {
    RetriesMore(side, h, first, ps, last, p);
    LegalMore(side, h, ps, p);
  }

  ghost predicate SameBut(h: u64, a: map<u64, seq<byte>>, b: map<u64, seq<byte>>) {
    a == b || (h in b && b == a[h := b[h]])
  }

  /** The last attempt: one system call on the socket's descriptor, whose outcome is the result. */
  ghost predicate Attempt(side: Side, h: u64, count: nat, v: View, rv: Errno, c: SysCall, v': View) {
    && h in v.sockets && OwnCall(side, v.sockets[h].fd, c) && rv == ResultOf(side, c)
    && match side
       case Sending =>
         && c.Sent? && c.count == Min(count, SSIZE_MAX) && v' == Called(v, c).(sent := v'.sent)
         && if rv == Success then SameBut(h, v.sent, v'.sent) else v'.sent == v.sent
       case Receiving =>
         && c.Received? && c.count == Min(count, SSIZE_MAX) && v' == Called(v, c).(incoming := v'.incoming)
         && if rv == Success then SameBut(h, v.incoming, v'.incoming) else v'.incoming == v.incoming
       case Accepting => true
  }

  /** How a call on a live socket ends after its retries: in the last pause, without a system call because
      there is nothing to transfer, or with the last attempt. */
  ghost predicate Ends(
    side: Side, h: u64, count: nat, waited: Errno, point: View, rv: Errno, c: SysCall, last: View)
  {
    if waited != Success then rv == waited && last == point
    else if count == 0 then rv == EInval && last == point
    else rv != EAgain && Attempt(side, h, count, point, rv, c, last)
  }

  // Opening descriptors.

  /** The calls that adopt a new descriptor: it becomes nonblocking, or its failure is reported; it is closed
      again when anything fails. */
  predicate AdoptTrace(fd: int, t: seq<SysCall>, rv: Errno) {
    && |t| >= 2 && t[0].MadeNonblocking? && t[0].fd == fd
    && if t[0].errno != Success then |t| == 2 && t[1].Closed? && t[1].fd == fd && rv == t[0].errno
       else
         && t[1].SilencedPipe? && t[1].fd == fd
         && (rv == Success ==> |t| == 2)
         && (rv != Success && rv != Abort ==> rv == EMFile && |t| == 3 && t[2].Closed? && t[2].fd == fd)
  }

  /** The calls of one attempt at a new socket, and the error they lead to. */
  predicate EnterTrace(listener: Option<int>, fd: int, t: seq<SysCall>, rv: Errno) {
    && t != [] && t[0].Opened? && t[0].listener == listener && t[0].fd == fd
    && if t[0].errno != Success then |t| == 1 && rv == t[0].errno else AdoptTrace(fd, t[1..], rv)
  }

  // Several calls on one stream.

  /** The calls made since `a` are all of this kind and on this descriptor. */
  ghost predicate OwnCalls(side: Side, fd: int, a: seq<SysCall>, b: seq<SysCall>) {
    a <= b && forall k :: |a| <= k < |b| ==> OwnCall(side, fd, b[k])
  }

  /** At most one stream of one socket has changed, by system calls on it. */
  ghost predicate Moves(side: Side, h: u64, a: View, b: View) {
    || a == b
    || (h in a.sockets && OwnCalls(side, a.sockets[h].fd, a.calls, b.calls)
        && match side
           case Sending => b == a.(calls := b.calls, sent := b.sent) && SameBut(h, a.sent, b.sent)
           case Receiving => b == a.(calls := b.calls, incoming := b.incoming) && SameBut(h, a.incoming, b.incoming)
           case Accepting => b == a.(calls := b.calls))
  }

  lemma MovesOn(side: Side, h: u64, a: View, b: View, c: View)
    requires Moves(side, h, a, b) && Moves(side, h, b, c)
    ensures Moves(side, h, a, c)
  {
  }

  lemma BlockMoves(side: Side, h: u64, v: View, p: Pause)
    requires Blocks(side, h, v, p)
    ensures Moves(side, h, v, p.before)
  {
  }

  lemma AttemptMoves(side: Side, h: u64, count: nat, v: View, rv: Errno, c: SysCall, v': View)
    requires side != Accepting && Attempt(side, h, count, v, rv, c, v')
    ensures Moves(side, h, v, v')
  {
  }

  /** From `first` to `last`, whatever did not happen during the pauses changed only that stream. */
  ghost predicate Path(side: Side, h: u64, first: View, ps: seq<Pause>, last: View)
    decreases |ps|
  {
    if ps == [] then Moves(side, h, first, last)
    else Moves(side, h, first, ps[0].before) && Path(side, h, ps[0].after, ps[1..], last)
  }

  lemma {:induction false} PathFrom(side: Side, h: u64, a: View, b: View, ps: seq<Pause>, c: View)
    requires Moves(side, h, a, b) && Path(side, h, b, ps, c)
    ensures Path(side, h, a, ps, c)
  {
    MovesOn(side, h, a, b, if ps == [] then c else ps[0].before);
  }

  lemma {:induction false} PathAppend(side: Side, h: u64, a: View, ps: seq<Pause>, b: View, qs: seq<Pause>, c: View)
    requires Path(side, h, a, ps, b) && Path(side, h, b, qs, c)
    ensures Path(side, h, a, ps + qs, c)
    decreases |ps|
  {
    if ps == [] {
      assert ps + qs == qs;
      PathFrom(side, h, a, b, qs, c);
    } else {
      assert (ps + qs)[1..] == ps[1..] + qs;
      PathAppend(side, h, ps[0].after, ps[1..], b, qs, c);
    }
  }

  lemma {:induction false} RetriesThenMoves(side: Side, h: u64, first: View, ps: seq<Pause>, point: View, last: View)
    requires Retries(side, h, first, ps, point) && Moves(side, h, point, last)
    ensures Path(side, h, first, ps, last)
    decreases |ps|
  {
    if ps != [] {
      BlockMoves(side, h, first, ps[0]);
      RetriesThenMoves(side, h, ps[0].after, ps[1..], point, last);
    }
  }

  lemma EndsMoves(side: Side, h: u64, count: nat, waited: Errno, point: View, rv: Errno, c: SysCall, last: View)
    requires side != Accepting && Ends(side, h, count, waited, point, rv, c, last)
    ensures Moves(side, h, point, last)
  {
    if waited == Success && count > 0 {
      AttemptMoves(side, h, count, point, rv, c, last);
    }
  }

  /** Since the pauses were `base` and the view `first`, the pauses `ps` have been added, and the calls
      in between have used only that stream. */
  ghost predicate Story(
    side: Side, h: u64, base: seq<Pause>, first: View, ps: seq<Pause>, now: seq<Pause>, last: View, rv: Errno)
  {
    now == base + ps && Path(side, h, first, ps, last) && AllLegal(side, h, ps) && LastEnded(ps, rv)
  }

  /** One more call on the same stream. */
  lemma StoryGrows(
    side: Side, h: u64, base: seq<Pause>, first: View, ps: seq<Pause>, now: seq<Pause>, v: View,
    qs: seq<Pause>, now': seq<Pause>, point: View, waited: Errno, last: View)
    requires Story(side, h, base, first, ps, now, v, Success) && Rested(side, h, now, v, qs, now', point, waited)
    requires Moves(side, h, point, last)
    ensures Story(side, h, base, first, ps + qs, now', last, waited)
  {
    RetriesThenMoves(side, h, v, qs, point, last);
    PathAppend(side, h, first, ps, v, qs, last);
    LegalJoin(side, h, ps, qs);
  }

  /** A failure is explained by the last pause, which timed out, or by the last system call, which was made
      after it on the socket's own descriptor and reported it. */
  ghost predicate Explained(side: Side, h: u64, rv: Errno, ps: seq<Pause>, last: View) {
    || (ps != [] && last == ps[|ps| - 1].after && rv == ps[|ps| - 1].rv != Success)
    || (|last.calls| > (if ps == [] then 0 else |ps[|ps| - 1].after.calls|)
        && h in last.sockets && OwnCall(side, last.sockets[h].fd, last.calls[|last.calls| - 1])
        && rv == ResultOf(side, last.calls[|last.calls| - 1]))
  }

  lemma EndsExplained(
    side: Side, h: u64, count: nat, base: seq<Pause>, first: View, ps: seq<Pause>, now: seq<Pause>,
    waited: Errno, point: View, rv: Errno, c: SysCall, last: View)
    requires side != Accepting && count > 0 && Rested(side, h, base, first, ps, now, point, waited)
    requires Ends(side, h, count, waited, point, rv, c, last)
    ensures Explained(side, h, rv, ps, last)
    ensures ps == [] ==> |last.calls| > |first.calls|
  {
    PausesDecide(side, h, first, ps, point);
  }

  /** System calls are never taken back. */
  lemma {:induction false} PathCalls(side: Side, h: u64, first: View, ps: seq<Pause>, last: View)
    requires Path(side, h, first, ps, last)
    ensures ps != [] ==> |ps[|ps| - 1].after.calls| <= |last.calls|
    decreases |ps|
  {
    if ps != [] {
      PathCalls(side, h, ps[0].after, ps[1..], last);
    }
  }

  /** What explains the failure of a call also explains that of the longer transfer it ends. */
  lemma StoryExplained(
    side: Side, h: u64, count: nat, base: seq<Pause>, first: View, ps: seq<Pause>, now: seq<Pause>, v: View,
    qs: seq<Pause>, now': seq<Pause>, point: View, waited: Errno, rv: Errno, c: SysCall, last: View)
    requires side != Accepting && count > 0 && Story(side, h, base, first, ps, now, v, Success)
    requires Rested(side, h, now, v, qs, now', point, waited) && Ends(side, h, count, waited, point, rv, c, last)
    ensures Story(side, h, base, first, ps + qs, now', last, waited)
    ensures Explained(side, h, rv, ps + qs, last)
    ensures waited != Success ==> rv == ETimedOut
  {
    EndsMoves(side, h, count, waited, point, rv, c, last);
    StoryGrows(side, h, base, first, ps, now, v, qs, now', point, waited, last);
    EndsExplained(side, h, count, now, v, qs, now', waited, point, rv, c, last);
    PathCalls(side, h, first, ps, v);
    if qs == [] {
      assert ps + qs == ps;
    } else {
      assert LegalAt(side, h, qs, |qs| - 1);
    }
  }
}
