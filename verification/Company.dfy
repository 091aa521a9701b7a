/** All connections on one buffer pool, in any number of loops: whatever one of them does, every other one keeps its
    bytes, its interest and all invariants between callbacks. */
module Companies {
  import opened Framing
  import opened IoBuffers
  import opened Kernel
  import opened TcpBuffers
  import opened EventLoops
  import opened TcpConns

  /** Two connections share the pool and possibly a loop, but neither buffers nor a socket nor, in one loop, a
      descriptor. */
  ghost predicate Separate(c: TcpConn, d: TcpConn)
    reads c, d
  {
    && c.ibuf.pool == d.ibuf.pool
    && c.ibuf != d.ibuf && c.ibuf != d.obuf && c.obuf != d.ibuf && c.obuf != d.obuf
    && c.sock != d.sock
    && (c.loop != null && c.loop == d.loop ==> c.connfd != d.connfd)
  }

  /** What belongs to a connection alone. */
  datatype Content = Content(input: seq<byte>, output: seq<byte>, sent: seq<byte>, dispatched: seq<Frame>, accepted: seq<Frame>)

  ghost function ContentOf(d: TcpConn): Content
    reads d, d.sock, d.ibuf, d.ibuf.buf, d.ibuf.Repr(), d.obuf, d.obuf.buf, d.obuf.Repr()
  {
    Content(if d.ibuf.HeldOk() then d.ibuf.Bytes() else [], if d.obuf.HeldOk() then d.obuf.Bytes() else [],
            d.sock.sent, d.dispatched, d.accepted)
  }

  /** The storage of `d` is none of what an operation on `c` may touch. */
  lemma StorageApart(c: TcpConn, d: TcpConn)
    requires c.Buffers() && d.Buffers() && Separate(c, d)
    ensures d.ibuf.Repr() !! c.Owned() && d.obuf.Repr() !! c.Owned()
    ensures d.ibuf !in c.Owned() && d.obuf !in c.Owned() && d !in c.Owned() && d.sock !in c.Owned()
    ensures d.loop != null ==> d.loop !in c.Owned()
  {
    hide BufferPool.Valid, Holds, FreeSet, TcpBuffer.Footprint;
    Apart(c.ibuf, d.ibuf);
    Apart(c.ibuf, d.obuf);
    Apart(c.obuf, d.ibuf);
    Apart(c.obuf, d.obuf);
    d.Outside(c.ibuf);
    d.Outside(c.obuf);
  }

  /** What a connection needs of the pool to be valid again after an operation on others. */
  lemma StillHolds(m0: map<IoBuffer, object>, c: TcpConn, d: TcpConn)
    requires c.Alone(m0) && c.ibuf.pool.Valid() && Separate(c, d) && d.ibuf.pool == d.obuf.pool
    requires Holds(m0, d.ibuf.buf, d.ibuf) && Holds(m0, d.obuf.buf, d.obuf) && d.ibuf != d.obuf
    requires d.ibuf.HeldOk() && d.obuf.HeldOk()
    ensures d.Buffers()
  {
    hide BufferPool.Valid;
  }

  /** Another entry of a table of which only one has changed. */
  lemma OtherEntry(evs0: map<int, IoEvent>, evs: map<int, IoEvent>, fd: int, g: int, pending: bool)
    requires evs - {fd} == evs0 - {fd} && g != fd && InterestOk(evs0, g, pending)
    ensures InterestOk(evs, g, pending)
  {
    assert g in evs0 - {fd} && (evs0 - {fd})[g] == evs0[g];
    assert g in evs - {fd} && (evs - {fd})[g] == evs[g];
  }

  /** The parts of validity that are not about the pool. */
  ghost predicate Own(d: TcpConn)
    reads d, d.sock, d.ibuf, d.ibuf.buf, d.ibuf.Repr(), d.obuf, d.obuf.buf, d.obuf.Repr()
  {
    && d.ibuf.HeldOk() && d.obuf.HeldOk()
    && (if d.Live() then d.InputOk() && d.Fifo() else d.Clean())
  }

  lemma OwnSplit(d: TcpConn)
    requires d.Valid()
    ensures Own(d) && d.Buffers() && d.ibuf != d.obuf && d.ibuf.pool == d.obuf.pool
    ensures Holds(d.ibuf.pool.holder, d.ibuf.buf, d.ibuf) && Holds(d.ibuf.pool.holder, d.obuf.buf, d.obuf)
    ensures d.loop != null ==> d.loop.Valid() && InterestOk(d.loop.ioEvs, d.connfd, d.obuf.Length() > 0)
  {
    hide BufferPool.Valid, Holds, Parse, EncodeAll, InterestOk;
  }

  lemma OwnJoin(d: TcpConn)
    requires Own(d) && d.Buffers()
    requires d.loop != null ==> d.loop.Valid() && InterestOk(d.loop.ioEvs, d.connfd, d.obuf.Length() > 0)
    ensures d.Valid()
  {
    hide BufferPool.Valid, Holds, Parse, EncodeAll, InterestOk;
  }

  ghost predicate Company(all: set<TcpConn>)
    reads all, set c | c in all && c.loop != null :: c.loop, set c | c in all :: c.sock,
          set c | c in all :: c.ibuf, set c | c in all && c.ibuf.buf != null :: c.ibuf.buf, set c, o | c in all && o in c.ibuf.Repr() :: o,
          set c | c in all :: c.ibuf.pool, set c, b | c in all && b in c.ibuf.pool.created :: b,
          set c | c in all :: c.obuf, set c | c in all && c.obuf.buf != null :: c.obuf.buf, set c, o | c in all && o in c.obuf.Repr() :: o
  {
    && (forall c :: c in all ==> c.Valid())
    && (forall c, d :: c in all && d in all && c != d ==> Separate(c, d))
  }

  /** A read comes with what the message callbacks send in it. */
  datatype Op = Read(k: KernelRead, replies: seq<seq<Frame>>) | Write | Send(f: Frame)

  ghost predicate Allowed(op: Op) {
    (op.Read? ==> AllSizes(op.replies)) && (op.Send? ==> |op.f.body| + U8M < 0x8000_0000)
  }

  /** All that concerns others of one step of `c` that began with the table `evs`. */
  ghost predicate Stepped(c: TcpConn, lp: EventLoop, fd: int, sock: Socket, evs: map<int, IoEvent>, m: map<IoBuffer, object>)
    reads c, c.loop, c.sock, c.ibuf, c.ibuf.buf, c.ibuf.Repr(), c.ibuf.pool, c.ibuf.pool.created, c.obuf, c.obuf.buf, c.obuf.Repr(), lp
  {
    && c.Valid() && c.Alone(m) && c.sock == sock
    && lp.Valid() && lp.ioEvs - {fd} == evs - {fd}
    && (c.loop != null ==> c.loop == lp && c.connfd == fd)
  }

  /** How an operation ends: a callback with its verdict, a send with its result. */
  datatype End = Ran(v: Verdict) | Sent(r: SendResult)

  /** The process goes on. */
  predicate Alive(end: End) {
    match end
    case Ran(v) => Survives(v)
    case Sent(r) => r.Accepted? || r.Refused?
  }

  /** What an operation depends on: the output side, what a read comes to, and how often and how much the socket has
      been written. */
  datatype Was = Was(out: Output, dispatched: seq<Frame>, read: Outcome, answers: nat, sent: seq<byte>)

  ghost function WasOf(c: TcpConn, op: Op): Was
    reads c, c.sock, c.ibuf, c.ibuf.buf, c.ibuf.Repr(), c.obuf, c.obuf.buf, c.obuf.Repr()
    requires c.ibuf.HeldOk()
  {
    Was(c.Out(), c.dispatched,
        if op.Read? then ReadOutcome(c.dispatched, c.ibuf.Bytes(), op.k, c.registered) else Outcome([], [], Status.Open),
        |c.sock.answers|, c.sock.sent)
  }

  /** How a read of `c` ends: as the incremental parser says, with the replies sent, unless the process ends. */
  ghost predicate ReadDone(c: TcpConn, op: Op, v: Verdict, b: Was)
    reads c, c.ibuf, c.ibuf.buf, c.ibuf.pool, c.ibuf.Repr(), c.obuf, c.obuf.buf, c.obuf.Repr()
    requires op.Read? && AllSizes(op.replies)
  {
    && (v.Quit? ==> c.ibuf.pool.AtLimit())
    && (v.Quit? || v.Torn? || (v == ToVerdict(b.read.status) && c.dispatched == b.read.msgs))
    && b.dispatched <= c.dispatched && Replied(b.out, op.replies, |c.dispatched| - |b.dispatched|, v, c.Out())
    && (v.Running? ==> c.ibuf.HeldOk() && c.ibuf.Bytes() == b.read.residue)
  }

  /** How a write ends: by the answers of the socket. */
  ghost predicate WriteDone(c: TcpConn, v: Verdict, b: Was)
    reads c, c.sock, c.obuf, c.obuf.buf, c.obuf.Repr()
  {
    && !v.Quit? && !v.Torn? && (v.Abort? <==> !b.out.packed && b.out.pending != [])
    && (!v.Abort? ==>
          c.dispatched == b.dispatched
          && Answered(c.sock, b.answers, |b.sent|, v.Gone?, v.Running? && c.Out().pending == []))
    && (v.Running? ==> b.sent <= c.sock.sent && c.sock.sent + c.Out().pending == b.sent + b.out.pending
                       && c.accepted == b.out.accepted)
  }

  /** How a send ends. */
  ghost predicate SendDone(c: TcpConn, op: Op, r: SendResult, b: Was)
    reads c, c.ibuf.pool, c.obuf, c.obuf.buf, c.obuf.Repr()
    requires op.Send? && |op.f.body| < 0x8000_0000
  {
    && (r.Fatal? ==> c.ibuf.pool.AtLimit())
    && (r.Fatal? || r == SendTo(b.out.pending, b.out.packed, op.f).result)
    && c.dispatched == b.dispatched
    && (r.Accepted? || r.Refused? ==> c.Out() == SendOne(b.out, op.f))
  }

  /** What the operation did to `c` itself. */
  ghost predicate Done(c: TcpConn, op: Op, end: End, b: Was)
    reads c, c.sock, c.ibuf, c.ibuf.buf, c.ibuf.pool, c.ibuf.Repr(), c.obuf, c.obuf.buf, c.obuf.Repr()
    requires Allowed(op)
  {
    match op
    case Read(_, _) => end.Ran? && ReadDone(c, op, end.v, b)
    case Write => end.Ran? && WriteDone(c, end.v, b)
    case Send(_) => end.Sent? && SendDone(c, op, end.r, b)
  }

  /** One callback or send of one connection. */
  method Apply(c: TcpConn, op: Op) returns (end: End)
    requires c.Valid() && c.Live() && Allowed(op)
    modifies c, c.loop, c.sock, c.counter, c.ibuf, c.obuf, c.ibuf.pool, c.Owned()
    ensures Done(c, op, end, old(WasOf(c, op)))
    ensures Alive(end) ==> Stepped(c, old(c.loop), old(c.connfd), old(c.sock), old(c.loop.ioEvs), old(c.ibuf.pool.holder))
  {
    match op {
      case Read(k, replies) =>
        var v := ApplyRead(c, k, replies);
        end := Ran(v);
      case Write =>
        var v := ApplyWrite(c);
        end := Ran(v);
      case Send(f) =>
        var r := ApplySend(c, f);
        end := Sent(r);
    }
  }

  method ApplyRead(c: TcpConn, k: KernelRead, replies: seq<seq<Frame>>) returns (v: Verdict)
    requires c.Valid() && c.Live() && AllSizes(replies)
    modifies c, c.loop, c.counter, c.ibuf, c.obuf, c.ibuf.pool, c.Owned()
    ensures ReadDone(c, Read(k, replies), v, old(WasOf(c, Read(k, replies))))
    ensures Survives(v) ==> Stepped(c, old(c.loop), old(c.connfd), old(c.sock), old(c.loop.ioEvs), old(c.ibuf.pool.holder))
  {
    hide BufferPool.Valid, BufferPool.AtLimit, Holds, Parse, EncodeAll, InterestOk, AllSizes, OnlyBoth, TcpBuffer.Footprint,
         ReadOutcome, Replied;
    c.EpochFacts();
    ghost var n;
    v, n := c.HandleRead(k, replies);
  }

  method ApplyWrite(c: TcpConn) returns (v: Verdict)
    requires c.Valid() && c.Live()
    modifies c, c.loop, c.sock, c.counter, c.ibuf, c.obuf, c.ibuf.pool, c.Owned()
    ensures WriteDone(c, v, old(WasOf(c, Write)))
    ensures Survives(v) ==> Stepped(c, old(c.loop), old(c.connfd), old(c.sock), old(c.loop.ioEvs), old(c.ibuf.pool.holder))
  {
    hide BufferPool.Valid, Holds, Parse, EncodeAll, InterestOk, Reduced, OnlyBoth, TcpBuffer.Footprint, Answered;
    c.EpochFacts();
    NeitherOfBoth(c.ibuf.pool.holder, c.ibuf, c.obuf);
    v := c.HandleWrite();
  }

  method ApplySend(c: TcpConn, f: Frame) returns (r: SendResult)
    requires c.Valid() && c.Live() && |f.body| + U8M < 0x8000_0000
    modifies c`accepted, c.loop, c.obuf, c.ibuf.pool, c.obuf.Footprint()
    ensures SendDone(c, Send(f), r, old(WasOf(c, Send(f))))
    ensures r.Accepted? || r.Refused? ==>
              Stepped(c, old(c.loop), old(c.connfd), old(c.sock), old(c.loop.ioEvs), old(c.ibuf.pool.holder))
  {
    hide BufferPool.Valid, BufferPool.AtLimit, Holds, Parse, EncodeAll, Encode, InterestOk, Merged, OnlyBoth, TcpBuffer.Footprint, SendTo;
    c.EpochFacts();
    c.Outside(c.obuf);
    OthersKept(c.loop.ioEvs, c.connfd, c.Out().pending == []);
    r := c.SendData(f.body, f.cmdid);
  }

  /** A step of `c`: where it is registered, and what the shared tables say when it begins. */
  datatype Start = Start(c: TcpConn, lp: EventLoop, fd: int, sock: Socket, evs: map<int, IoEvent>, holders: map<IoBuffer, object>)

  ghost function OtherLoop(d: TcpConn, lp: EventLoop): set<object>
    reads d
  {
    if d.loop == null || d.loop == lp then {}
    else
      var l: EventLoop := d.loop;
      {l}
  }

  /** All objects of `d` but the pool, and but the loop if a step in `lp` may change it. */
  ghost function Footing(d: TcpConn, lp: EventLoop): set<object>
    reads d, d.ibuf, d.obuf
  {
    {d, d.sock, d.ibuf, d.obuf} + d.ibuf.Repr() + d.obuf.Repr() + OtherLoop(d, lp)
  }

  /** What makes `d` valid again after a step that begins as `b` says. It is about `d` alone. */
  ghost predicate Ready(d: TcpConn, b: Start)
    reads d, d.ibuf, d.obuf, Footing(d, b.lp)
  {
    && Own(d)
    && d.ibuf != d.obuf && d.ibuf.pool == d.obuf.pool == b.c.ibuf.pool && d.sock != b.sock
    && b.c.ibuf != d.ibuf && b.c.ibuf != d.obuf && b.c.obuf != d.ibuf && b.c.obuf != d.obuf
    && Holds(b.holders, d.ibuf.buf, d.ibuf) && Holds(b.holders, d.obuf.buf, d.obuf)
    && (d.loop == b.lp ==> d.connfd != b.fd && InterestOk(b.evs, d.connfd, d.obuf.Length() > 0))
    && (d.loop != null && d.loop != b.lp ==> d.loop.Valid() && InterestOk(d.loop.ioEvs, d.connfd, d.obuf.Length() > 0))
  }

  lemma GetReady(d: TcpConn, b: Start)
    requires d.Valid() && Separate(b.c, d) && b.c.loop == b.lp && b.c.connfd == b.fd && b.c.sock == b.sock
    requires b.evs == b.lp.ioEvs && b.holders == b.c.ibuf.pool.holder
    ensures Ready(d, b)
  {
    hide BufferPool.Valid, Holds, Parse, EncodeAll, InterestOk, TcpConn.InputOk, TcpConn.Fifo;
    OwnSplit(d);
  }

  lemma FromReady(d: TcpConn, b: Start)
    requires Ready(d, b) && Stepped(b.c, b.lp, b.fd, b.sock, b.evs, b.holders)
    ensures d.Valid() && Separate(b.c, d) && Separate(d, b.c)
  {
    hide BufferPool.Valid, Holds, Parse, EncodeAll, InterestOk, OnlyBoth, TcpConn.InputOk, TcpConn.Fifo;
    StillHolds(b.holders, b.c, d);
    if d.loop == b.lp {
      OtherEntry(b.evs, b.lp.ioEvs, b.fd, d.connfd, d.obuf.Length() > 0);
    }
    OwnJoin(d);
  }

  lemma FootingApart(c: TcpConn, d: TcpConn)
    requires c.Valid() && d.Valid() && c.Live() && c != d && Separate(c, d)
    ensures Footing(d, c.loop) !! c.Owned() + {c, c.loop, c.sock, c.counter, c.ibuf, c.obuf, c.ibuf.pool}
  {
    hide BufferPool.Valid, Holds, Parse, EncodeAll, InterestOk, TcpConn.Owned, TcpConn.InputOk, TcpConn.Fifo;
    StorageApart(c, d);
    BuffersOnly(d.ibuf);
    BuffersOnly(d.obuf);
  }

  lemma BuffersOnly(t: TcpBuffer)
    ensures forall o :: o in t.Repr() ==> o is IoBuffer || o is array<byte>
  {
  }

  lemma Members(all: set<TcpConn>)
    requires Company(all)
    ensures forall c :: c in all ==> c.Valid()
    ensures forall c, d :: c in all && d in all && c != d ==> Separate(c, d)
  {
  }

  lemma Assembled(all: set<TcpConn>)
    requires forall c :: c in all ==> c.Valid()
    requires forall c, d :: c in all && d in all && c != d ==> Separate(c, d)
    ensures Company(all)
  {
  }

  lemma SteppedIs(b: Start)
    requires Stepped(b.c, b.lp, b.fd, b.sock, b.evs, b.holders)
    ensures b.c.Valid()
  {
  }

  lemma GetReadyToOpen(d: TcpConn, b: Start)
    requires d.Valid() && Separate(b.c, d) && d.sock != b.sock && b.fd !in b.evs
    requires b.evs == b.lp.ioEvs && b.holders == b.c.ibuf.pool.holder
    ensures Ready(d, b)
  {
    hide BufferPool.Valid, Holds, Parse, EncodeAll, TcpConn.InputOk, TcpConn.Fifo;
    OwnSplit(d);
  }

  lemma FootingApartToOpen(c: TcpConn, d: TcpConn, lp: EventLoop)
    requires d.Valid() && c != d
    ensures Footing(d, lp) !! {c, lp, c.counter}
  {
    hide BufferPool.Valid, Holds, Parse, EncodeAll, InterestOk, TcpConn.InputOk, TcpConn.Fifo;
    BuffersOnly(d.ibuf);
    BuffersOnly(d.obuf);
  }

  /** A connection opened in a slot of the company, new or reused, on a descriptor that its loop does not have. */
  method Open(ghost all: set<TcpConn>, c: TcpConn, fd: int, lp: EventLoop, s: Socket, ghost d: TcpConn)
    requires Company(all) && c in all && d in all && !c.Live()
    requires fd >= 0 && lp.Valid() && fd !in lp.ioEvs && s.sent == [] && forall x :: x in all ==> x.sock != s
    modifies c, lp, c.counter
    ensures Company(all) && c.Live() && c.loop == lp && c.connfd == fd && c.sock == s
    ensures c.dispatched == [] && c.accepted == [] && c.arrived == [] && c.ibuf.Length() == 0 && c.obuf.Length() == 0
    ensures lp.ioEvs == old(lp.ioEvs)[fd := IoEvent({EPOLLIN}, TCP_RCB, Unset)]
    ensures c.counter.currConns == old(c.counter.currConns) + 1
    ensures d != c ==> ContentOf(d) == old(ContentOf(d))
  {
    hide Company, Ready, Own, TcpConn.Owned, ContentOf, BufferPool.Valid, Holds, Parse, EncodeAll, InterestOk,
         TcpConn.InputOk, TcpConn.Fifo, OnlyBoth, TcpConn.Valid;
    Members(all);
    ghost var b := Start(c, lp, fd, s, lp.ioEvs, c.ibuf.pool.holder);
    forall x | x in all && x != c
      ensures Ready(x, b) && Footing(x, b.lp) !! {c, lp, c.counter}
    {
      GetReadyToOpen(x, b);
      FootingApartToOpen(c, x, lp);
    }
    NeitherOfBoth(b.holders, c.ibuf, c.obuf);
    c.Init(fd, lp, s);
    LoopValid(c);
    assert Stepped(b.c, b.lp, b.fd, b.sock, b.evs, b.holders);
    forall x | x in all && x != c ensures x.Valid() && Separate(c, x) && Separate(x, c) {
      assert Ready(x, b);
      FromReady(x, b);
    }
    Assembled(all);
  }

  lemma LoopValid(c: TcpConn)
    requires c.Valid() && c.Live()
    ensures c.loop.Valid()
  {
    hide BufferPool.Valid, Holds, Parse, EncodeAll, InterestOk, TcpConn.InputOk, TcpConn.Fifo;
  }

  /** A slot used for the first time joins the company. */
  method Join(ghost all: set<TcpConn>, pool: BufferPool, counter: ConnCounter, registered: set<int>, s: Socket) returns (c: TcpConn)
    requires Company(all) && pool.Valid() && forall x :: x in all ==> x.ibuf.pool == pool && x.sock != s
    ensures fresh(c) && !c.Live() && Company(all + {c})
  {
    hide BufferPool.Valid, Holds, Parse, EncodeAll, InterestOk, TcpConn.InputOk, TcpConn.Fifo, Company, TcpConn.Valid;
    Members(all);
    c := new TcpConn(pool, counter, registered, s);
    forall x | x in all ensures x.Valid() {
      assert unchanged(x, x.sock, x.ibuf, x.obuf, x.ibuf.pool);
      assert unchanged(x.ibuf.Repr()) && unchanged(x.obuf.Repr()) && unchanged(x.ibuf.pool.created);
    }
    Assembled(all + {c});
  }

  /** One step of the company: the operation does what it should to its own connection; all connections are as good as
      before; and of any other connection `d` neither what it has read, buffers and sent nor what it has dispatched and
      accepted has changed. */
  method Step(ghost all: set<TcpConn>, c: TcpConn, op: Op, ghost d: TcpConn) returns (end: End)
    requires Company(all) && c in all && d in all && c.Live() && Allowed(op)
    modifies c, c.loop, c.sock, c.counter, c.ibuf, c.obuf, c.ibuf.pool, c.Owned()
    ensures Done(c, op, end, old(WasOf(c, op)))
    ensures Alive(end) ==> Company(all)
    ensures Alive(end) && d != c ==> ContentOf(d) == old(ContentOf(d))
  {
    hide Done, WasOf, Alive, Allowed;
    hide Company, Ready, Stepped, Own, TcpConn.Valid, TcpConn.Owned, ContentOf;
    Members(all);
    ghost var b := Start(c, c.loop, c.connfd, c.sock, c.loop.ioEvs, c.ibuf.pool.holder);
    forall x | x in all && x != c
      ensures Ready(x, b)
      ensures Footing(x, b.lp) !! c.Owned() + {c, c.loop, c.sock, c.counter, c.ibuf, c.obuf, c.ibuf.pool}
    {
      GetReady(x, b);
      FootingApart(c, x);
    }
    end := Apply(c, op);
    if Alive(end) {
      SteppedIs(b);
      forall x | x in all && x != c ensures x.Valid() && Separate(c, x) && Separate(x, c) {
        assert Ready(x, b);
        FromReady(x, b);
      }
      Assembled(all);
    }
  }
}
