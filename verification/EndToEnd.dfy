/** The two ends of one connection, as objects: what a client's `send_data` accepted is what the server's
    callbacks get. */
module EndToEnd {
  import opened Framing
  import opened IoBuffers
  import opened Kernel
  import opened EventLoops
  import opened TcpBuffers
  import opened TcpConns
  import opened TcpClients
  import Pipe

  /** At any moment between callbacks, with `wire` the bytes the client's socket took and the server has not read:
      if the messages accepted are receivable, the server has dispatched a prefix of them; and when nothing is
      pending or in flight, exactly them, holding no read buffer. */
  lemma ClientToServer(cli: TcpClient, conn: TcpConn, wire: seq<byte>)
    requires cli.Valid() && cli.netOk && conn.Valid() && conn.Live()
    requires cli.sock.sent == conn.arrived + wire
    requires AllReceivable(cli.accepted, conn.registered)
    ensures conn.dispatched <= cli.accepted
    ensures cli.obuf.length == 0 && wire == [] ==> conn.dispatched == cli.accepted && conn.ibuf.buf == null
  {
    hide BufferPool.Valid, Holds, EncodeAll, Parse;
    var pending := cli.obuf.Bytes();
    Assoc(conn.arrived, wire, pending);
    ArrivedPrefix(cli.accepted, conn.arrived, wire + pending, conn.registered);
  }

  /** The same from one server connection to another parser of the same kind: replies arrive in order too. */
  lemma ServerToPeer(from: TcpConn, to: TcpConn, wire: seq<byte>)
    requires from.Valid() && from.Live() && from.obuf.HeldOk() && from.obuf.Packed() && to.Valid() && to.Live()
    requires from.sock.sent == to.arrived + wire
    requires AllReceivable(from.accepted, to.registered)
    ensures to.dispatched <= from.accepted
    ensures from.obuf.Length() == 0 && wire == [] ==> to.dispatched == from.accepted
  {
    hide BufferPool.Valid, Holds, EncodeAll, Parse;
    var pending := from.obuf.Bytes();
    Assoc(to.arrived, wire, pending);
    ArrivedPrefix(from.accepted, to.arrived, wire + pending, to.registered);
  }

  ghost predicate AllSendable(fs: seq<Frame>, registered: set<int>) {
    forall f :: f in fs ==> Pipe.Sendable(f, registered)
  }

  /** Any front of what is in flight that fits beside the residue keeps a reader open, with a prefix of what was
      accepted dispatched. */
  lemma FrontKeepsOpen(accepted: seq<Frame>, arrived: seq<byte>, wire: seq<byte>, pending: seq<byte>, n: nat, registered: set<int>)
    requires AllSendable(accepted, registered) && Writable(accepted)
    requires EncodeAll(accepted) == arrived + wire + pending
    requires 0 < n <= |wire| && |Parse(arrived, registered).residue| + n <= U8M
    ensures var o := HandleRead(Parse(arrived, registered), wire[..n], registered);
            o.status == Open && o.msgs <= accepted
  {
    hide Parse, EncodeAll, HandleRead;
    var p := Pipe.Pipe(accepted, pending, wire, arrived, Parse(arrived, registered));
    Pipe.InvRead(p, n, registered);
    Pipe.InvMeans(Pipe.Step(p, Pipe.Read(n), registered), registered);
  }

  /** The next read of a server connection that hears from such a client: whatever front of the bytes in flight it
      gets, it stays open, and has dispatched a prefix of what the client's `send_data` accepted. */
  lemma NextReadStaysOpen(cli: TcpClient, conn: TcpConn, wire: seq<byte>, n: nat)
    requires cli.Valid() && cli.netOk && conn.Valid() && conn.Live()
    requires cli.sock.sent == conn.arrived + wire && AllSendable(cli.accepted, conn.registered)
    requires 0 < n <= |wire| && conn.ibuf.Length() + n <= U8M
    ensures var o := ReadOutcome(conn.dispatched, conn.ibuf.Bytes(), Data(wire[..n]), conn.registered);
            o.status == Open && o.msgs <= cli.accepted
  {
    hide BufferPool.Valid, Holds, EncodeAll, Parse, HandleRead;
    FrontKeepsOpen(cli.accepted, conn.arrived, wire, cli.obuf.Bytes(), n, conn.registered);
  }

  /** The same for two server connections. */
  lemma NextReplyStaysOpen(from: TcpConn, to: TcpConn, wire: seq<byte>, n: nat)
    requires from.Valid() && from.Live() && from.obuf.HeldOk() && from.obuf.Packed() && to.Valid() && to.Live()
    requires from.sock.sent == to.arrived + wire && AllSendable(from.accepted, to.registered)
    requires 0 < n <= |wire| && to.ibuf.Length() + n <= U8M
    ensures var o := ReadOutcome(to.dispatched, to.ibuf.Bytes(), Data(wire[..n]), to.registered);
            o.status == Open && o.msgs <= from.accepted
  {
    hide BufferPool.Valid, Holds, EncodeAll, Parse, HandleRead;
    FrontKeepsOpen(from.accepted, to.arrived, wire, from.obuf.Bytes(), n, to.registered);
  }

  /** A client's buffer is none of the pooled ones, nor is its storage. */
  ghost predicate Foreign(b: IoBuffer, conn: TcpConn)
    reads conn, conn.ibuf, conn.ibuf.pool, conn.obuf, conn.obuf.pool
  {
    && b !in conn.ibuf.pool.created && (forall x :: x in conn.ibuf.pool.created ==> x.data != b.data)
    && b !in conn.Owned() && b.data !in conn.Owned()
  }

  /** A buffer of the pool after an operation of `conn` was in use before, or belongs to what `conn` may touch. */
  lemma CreatedWithin(conn: TcpConn, m0: map<IoBuffer, object>, x: IoBuffer)
    requires conn.Buffers() && conn.Alone(m0) && x in conn.ibuf.pool.created
    ensures x in m0 || (x in conn.Owned() && x.data in conn.Owned())
  {
    hide Chains, Shape, OwnStores, Accounted;
  }

  lemma InUseIsCreated(conn: TcpConn)
    requires conn.Buffers()
    ensures forall x :: x in conn.ibuf.pool.holder ==> x in conn.ibuf.pool.created
  {
    hide Chains, Shape, OwnStores, Accounted;
  }

  lemma StillForeign(b: IoBuffer, conn: TcpConn, m0: map<IoBuffer, object>)
    requires conn.Buffers() && conn.Alone(m0)
    requires b !in conn.Owned() && b.data !in conn.Owned()
    requires forall x :: x in m0 ==> x != b && x.data != b.data
    ensures Foreign(b, conn)
  {
    hide TcpConn.Buffers, TcpConn.Alone, TcpConn.Owned;
    forall x | x in conn.ibuf.pool.created ensures x != b && x.data != b.data {
      CreatedWithin(conn, m0, x);
    }
  }

  /** The two ends of one connection, with `wire` in flight from the client to the server. */
  ghost predicate Linked(cli: TcpClient, conn: TcpConn, wire: seq<byte>)
    reads cli, cli.obuf, cli.obuf.data, cli.loop, cli.sock, conn, conn.loop, conn.sock, conn.ibuf, conn.ibuf.buf, conn.ibuf.Repr(),
          conn.ibuf.pool, conn.ibuf.pool.created, conn.obuf, conn.obuf.buf, conn.obuf.Repr(), conn.obuf.pool
  {
    && cli.Valid() && cli.netOk && conn.Valid() && conn.Live()
    && cli.loop != conn.loop && cli.sock != conn.sock && Foreign(cli.obuf, conn)
    && cli.sock.sent == conn.arrived + wire && AllSendable(cli.accepted, conn.registered)
  }

  /** The next read, performed: unless the process ends in a message callback, both ends are again as they were, with
      less in flight, and the replies of the callbacks are sent. */
  method Deliver(cli: TcpClient, conn: TcpConn, wire: seq<byte>, n: nat, replies: seq<seq<Frame>>)
    returns (v: Verdict, ghost heard: nat)
    requires Linked(cli, conn, wire) && 0 < n <= |wire| && conn.ibuf.HeldOk() && conn.ibuf.Length() + n <= U8M
    requires AllSizes(replies)
    modifies conn, conn.loop, conn.counter, conn.ibuf, conn.obuf, conn.ibuf.pool, conn.Owned()
    ensures v.Running? || v.Torn? || v.Quit?
    ensures v.Quit? ==> conn.ibuf.pool.AtLimit()
    ensures |conn.dispatched| == |old(conn.dispatched)| + heard && Replied(old(conn.Out()), replies, heard, v, conn.Out())
    ensures v.Running? ==> Linked(cli, conn, wire[n..]) && fresh(conn.Owned() - old(conn.Owned())) && conn.loop == old(conn.loop)
    ensures v.Running? ==> old(conn.dispatched) <= conn.dispatched && conn.arrived == old(conn.arrived) + wire[..n]
  {
    hide BufferPool.Valid, BufferPool.AtLimit, Holds, EncodeAll, Parse, HandleRead, ReadOutcome, InterestOk, TcpConn.Owned, OnlyBoth,
         Replied, AllSizes, TcpConn.Valid, TcpConn.Sending, FreeSet, AllSendable;
    NextReadStaysOpen(cli, conn, wire, n);
    CallerApart(cli, conn);
    ValidBuffers(conn);
    InUseIsCreated(conn);
    ghost var m := conn.ibuf.pool.holder;
    v, heard := conn.HandleRead(Data(wire[..n]), replies);
    if v.Running? {
      assert wire == wire[..n] + wire[n..];
      Assoc(old(conn.arrived), wire[..n], wire[n..]);
      ValidBuffers(conn);
      StillForeign(cli.obuf, conn, m);
    }
  }

  lemma ValidBuffers(conn: TcpConn)
    requires conn.Valid()
    ensures conn.Buffers()
  {
  }

  ghost function Pending(cli: TcpClient): seq<byte>
    reads cli, cli.obuf, cli.obuf.data
  {
    if cli.obuf.Ok() then cli.obuf.Bytes() else []
  }

  /** A send of the client; a refused one changes nothing. */
  method Say(cli: TcpClient, conn: TcpConn, ghost wire: seq<byte>, f: Frame) returns (ret: int)
    requires Linked(cli, conn, wire) && Pipe.Sendable(f, conn.registered)
    modifies cli`accepted, cli.obuf`length, cli.obuf.data, cli.loop
    ensures Linked(cli, conn, wire) && conn.Out() == old(conn.Out()) && (ret == 0 || ret == -1)
    ensures ret == 0 <==> |old(Pending(cli))| + 8 + |f.body| <= 4194304
    ensures ret == 0 ==> cli.accepted == old(cli.accepted) + [f] && Pending(cli) == old(Pending(cli)) + Encode(f)
    ensures ret != 0 ==> cli.accepted == old(cli.accepted) && Pending(cli) == old(Pending(cli))
  {
    hide BufferPool.Valid, Holds, EncodeAll, Encode, Parse, InterestOk, FreeSet, Merged;
    OwnIsApart(cli, conn);
    ret := cli.SendData(f.body, f.cmdid);
  }

  /** What the client writes is in flight to the server. */
  method Flush(cli: TcpClient, conn: TcpConn, wire: seq<byte>) returns (ret: int, wire': seq<byte>)
    requires Linked(cli, conn, wire) && cli.obuf.length > 0
    modifies cli, cli.obuf`length, cli.obuf`head, cli.obuf.data, cli.loop, cli.sock
    ensures ret == 0 ==> Linked(cli, conn, wire')
    ensures wire <= wire' && wire' + Pending(cli) == wire + old(Pending(cli))
    ensures old(cli.sock.answers) <= cli.sock.answers
    ensures Answered(cli.sock, |old(cli.sock.answers)|, |old(cli.sock.sent)|, ret != 0, Pending(cli) == [])
    ensures |wire'| - |wire| == |cli.sock.sent| - |old(cli.sock.sent)|
    ensures cli.accepted == old(cli.accepted) && cli.sock == old(cli.sock) && conn.Out() == old(conn.Out())
  {
    hide BufferPool.Valid, Holds, EncodeAll, Parse, InterestOk, FreeSet, Reduced, Answered;
    OwnIsApart(cli, conn);
    ghost var was := Pending(cli);
    var before := cli.sock.sent;
    ret := cli.HandleWrite();
    var more := cli.sock.sent[|before|..];
    wire' := wire + more;
    assert cli.sock.sent == before + more;
    Assoc(conn.arrived, wire, more);
    SameRest(before, more, Pending(cli), was);
    Assoc(wire, more, Pending(cli));
  }

  lemma SameRest(a: seq<byte>, b: seq<byte>, c: seq<byte>, d: seq<byte>)
    requires (a + b) + c == a + d
    ensures b + c == d
  {
    assert (a + b) + c == a + (b + c);
    assert (a + (b + c))[|a|..] == b + c && (a + d)[|a|..] == d;
  }

  /** Nothing the client writes to is anything the server connection depends on. */
  lemma OwnIsApart(cli: TcpClient, conn: TcpConn)
    requires Foreign(cli.obuf, conn) && conn.Buffers()
    ensures cli.obuf !in conn.ibuf.pool.created && cli.obuf !in conn.ibuf.Repr() && cli.obuf !in conn.obuf.Repr()
    ensures cli.obuf.data !in conn.ibuf.Repr() && cli.obuf.data !in conn.obuf.Repr()
    ensures cli.obuf != conn.ibuf.buf && cli.obuf != conn.obuf.buf
  {
    hide BufferPool.Valid, Holds, FreeSet;
  }

  lemma CallerApart(cli: TcpClient, conn: TcpConn)
    ensures cli !in conn.Owned() && cli.sock !in conn.Owned() && cli.loop !in conn.Owned()
  {
    hide TcpBuffer.Footprint;
    NotInFootprint(conn.ibuf, cli);
    NotInFootprint(conn.obuf, cli);
    NotInFootprint(conn.ibuf, cli.sock);
    NotInFootprint(conn.obuf, cli.sock);
    NotInFootprint(conn.ibuf, cli.loop);
    NotInFootprint(conn.obuf, cli.loop);
  }

  lemma SendableReceivable(fs: seq<Frame>, registered: set<int>)
    requires AllSendable(fs, registered)
    ensures AllReceivable(fs, registered)
  {
  }

  lemma LinkedMeans(cli: TcpClient, conn: TcpConn, wire: seq<byte>)
    requires Linked(cli, conn, wire)
    ensures conn.dispatched <= cli.accepted
    ensures cli.obuf.length == 0 && wire == [] ==> conn.dispatched == cli.accepted && conn.ibuf.buf == null
  {
    hide TcpClient.Valid, TcpConn.Valid, Foreign, AllSendable;
    SendableReceivable(cli.accepted, conn.registered);
    ClientToServer(cli, conn, wire);
  }

  /** What can happen between the two ends: the client sends a message, its socket takes some output, the server
      reads a front of what is in flight and its callbacks reply. */
  datatype Act = Say(f: Frame) | Flush | Hear(n: nat, replies: seq<seq<Frame>>)

  /** All that an act depends on and changes. */
  datatype Link = Link(accepted: seq<Frame>, pending: seq<byte>, answers: seq<WriteResult>, wire: seq<byte>,
                       arrived: seq<byte>, dispatched: seq<Frame>, out: Output)

  ghost function LinkOf(cli: TcpClient, conn: TcpConn, wire: seq<byte>): Link
    reads cli, cli.obuf, cli.obuf.data, cli.sock, conn, conn.obuf, conn.obuf.buf, conn.obuf.Repr()
  {
    Link(cli.accepted, Pending(cli), cli.sock.answers, wire, conn.arrived, conn.dispatched, conn.Out())
  }

  ghost predicate AllowedAct(act: Act) {
    act.Hear? ==> AllSizes(act.replies)
  }

  /** One of the replies to the first `k` messages of a read, at least one, finds a gap at the front of the output. */
  ghost predicate TornBy(out: Output, replies: seq<seq<Frame>>, k: nat)
    requires AllSizes(replies)
  {
    k > 0 && Tears(out, Said(replies, k))
  }

  /** One act, exactly: a message is accepted if it is registered, has 1 to 65528 bytes and fits the buffer of 4 MiB; the
      kernel takes what it answers; a read takes a front that fits beside the residue. What cannot happen changes
      nothing. */
  ghost predicate Acted(a: Link, act: Act, b: Link, registered: set<int>)
    requires AllowedAct(act)
  {
    match act
    case Say(f) =>
      if f.cmdid in registered && 1 <= |f.body| <= 65528 && |a.pending| + 8 + |f.body| <= 4194304
      then b == a.(accepted := a.accepted + [f], pending := a.pending + Encode(f))
      else b == a
    case Flush =>
      var k := |a.pending| - |b.pending|;
      && 0 <= k && a.answers <= b.answers && k == Taken(b.answers[|a.answers|..])
      && b == a.(pending := a.pending[k..], wire := a.wire + a.pending[..k], answers := b.answers)
    case Hear(n, replies) =>
      if 0 < n <= |a.wire| && |Parse(a.arrived, registered).residue| + n <= 8388608
      then
        && b.dispatched == Parse(b.arrived, registered).msgs && a.dispatched <= b.dispatched
        && b.out == SendAll(a.out, Said(replies, |b.dispatched| - |a.dispatched|))
        && b == a.(wire := a.wire[n..], arrived := a.arrived + a.wire[..n], dispatched := b.dispatched, out := b.out)
      else b == a
  }

  /** What an act that ends in a failed assertion of the server must have been. */
  ghost predicate TornIn(a: Link, act: Act)
    requires AllowedAct(act)
  {
    act.Hear? && exists k :: TornBy(a.out, act.replies, k)
  }

  /** One act on the objects. It fails only if the client's socket does, or in a message callback of the server. */
  method Perform(cli: TcpClient, conn: TcpConn, act: Act, wire: seq<byte>) returns (v: Verdict, wire': seq<byte>)
    requires Linked(cli, conn, wire) && AllowedAct(act)
    modifies cli, cli.obuf, cli.obuf.data, cli.loop, cli.sock
    modifies conn, conn.loop, conn.counter, conn.ibuf, conn.obuf, conn.ibuf.pool, conn.Owned()
    ensures !v.Abort? && (v.Quit? ==> act.Hear? && conn.ibuf.pool.AtLimit())
    ensures v.Gone? ==> act.Flush? && Failing(cli.sock, |old(cli.sock.answers)|)
    ensures v.Torn? ==> TornIn(old(LinkOf(cli, conn, wire)), act)
    ensures v.Running? ==> Linked(cli, conn, wire')
    ensures v.Running? ==> Acted(old(LinkOf(cli, conn, wire)), act, LinkOf(cli, conn, wire'), conn.registered)
    ensures v.Running? ==> conn.loop == old(conn.loop) && cli.sock == old(cli.sock) && fresh(conn.Owned() - old(conn.Owned()))
  {
    hide Linked, Acted, TcpConn.Owned, TcpConn.Out, TornBy, Failing, BufferPool.AtLimit;
    LinkedFacts(cli, conn, wire);
    match act {
      case Say(f) =>
        v, wire' := Running, wire;
        PerformSay(cli, conn, f, wire);
      case Flush =>
        v, wire' := PerformFlush(cli, conn, wire);
      case Hear(n, replies) =>
        v, wire' := PerformHear(cli, conn, n, replies, wire);
    }
  }

  method PerformSay(cli: TcpClient, conn: TcpConn, f: Frame, ghost wire: seq<byte>)
    requires Linked(cli, conn, wire)
    modifies cli, cli.obuf, cli.obuf.data, cli.loop
    ensures Linked(cli, conn, wire) && cli.sock == old(cli.sock) && conn.Owned() == old(conn.Owned())
    ensures Acted(old(LinkOf(cli, conn, wire)), Act.Say(f), LinkOf(cli, conn, wire), conn.registered)
  {
    hide Linked, TcpConn.Out, Encode, Pending;
    LinkedFacts(cli, conn, wire);
    Pipe.SendableIs(f, conn.registered);
    if 1 <= |f.body| <= 65528 && f.cmdid in conn.registered {
      var ret := Say(cli, conn, wire, f);
    }
  }

  method PerformFlush(cli: TcpClient, conn: TcpConn, wire: seq<byte>) returns (v: Verdict, wire': seq<byte>)
    requires Linked(cli, conn, wire)
    modifies cli, cli.obuf, cli.obuf.data, cli.loop, cli.sock
    ensures v.Running? || v.Gone?
    ensures v.Gone? ==> Failing(cli.sock, |old(cli.sock.answers)|)
    ensures v.Running? ==> Linked(cli, conn, wire') && cli.sock == old(cli.sock) && conn.Owned() == old(conn.Owned())
    ensures v.Running? ==> Acted(old(LinkOf(cli, conn, wire)), Act.Flush, LinkOf(cli, conn, wire'), conn.registered)
  {
    hide Linked, Acted, Taken, Failing, Answered, TcpConn.Out, Pending;
    LinkedFacts(cli, conn, wire);
    v, wire' := Running, wire;
    ghost var a, k, n := LinkOf(cli, conn, wire), |cli.sock.answers|, |cli.sock.sent|;
    if cli.obuf.length > 0 {
      var ret;
      ret, wire' := Flush(cli, conn, wire);
      AnsweredIs(cli.sock, k, n, ret != 0, Pending(cli) == []);
      GoneIs(cli.sock, k, n, ret != 0, Pending(cli) == []);
      Moved(a, LinkOf(cli, conn, wire'), conn.registered);
      if ret != 0 {
        v := Gone;
      }
    } else {
      NothingTaken(cli.sock);
      Moved(a, a, conn.registered);
    }
  }

  lemma GoneIs(sock: Socket, k: nat, n: nat, gone: bool, drained: bool)
    requires Answered(sock, k, n, gone, drained)
    ensures gone <==> Failing(sock, k)
  {
    hide Written, Full;
  }

  lemma NothingTaken(sock: Socket)
    ensures Taken(sock.answers[|sock.answers|..]) == 0
  {
  }

  /** What the kernel took has left the front of the output and is in flight. */
  lemma Moved(a: Link, b: Link, registered: set<int>)
    requires a.wire <= b.wire && b.wire + b.pending == a.wire + a.pending && a.answers <= b.answers
    requires |b.wire| - |a.wire| == Taken(b.answers[|a.answers|..])
    requires b == a.(pending := b.pending, wire := b.wire, answers := b.answers)
    ensures Acted(a, Act.Flush, b, registered)
  {
    hide Taken;
    var k := |b.wire| - |a.wire|;
    var all := a.wire + a.pending;
    assert (b.wire + b.pending)[..|b.wire|] == b.wire && (b.wire + b.pending)[|b.wire|..] == b.pending;
    assert |b.wire| + |b.pending| == |all|;
    assert all[..|a.wire| + k] == a.wire + a.pending[..k] && all[|a.wire| + k..] == a.pending[k..];
  }

  method PerformHear(cli: TcpClient, conn: TcpConn, n: nat, replies: seq<seq<Frame>>, wire: seq<byte>)
    returns (v: Verdict, wire': seq<byte>)
    requires Linked(cli, conn, wire) && AllSizes(replies)
    modifies conn, conn.loop, conn.counter, conn.ibuf, conn.obuf, conn.ibuf.pool, conn.Owned()
    ensures v.Running? || v.Torn? || v.Quit?
    ensures v.Quit? ==> conn.ibuf.pool.AtLimit()
    ensures v.Torn? ==> exists k :: TornBy(old(conn.Out()), replies, k)
    ensures v.Running? ==> Linked(cli, conn, wire') && conn.loop == old(conn.loop) && fresh(conn.Owned() - old(conn.Owned()))
    ensures v.Running? ==> Acted(old(LinkOf(cli, conn, wire)), Act.Hear(n, replies), LinkOf(cli, conn, wire'), conn.registered)
  {
    hide Linked, TcpConn.Out, TcpConn.Owned, Pending, BufferPool.AtLimit, AllSizes, SendAll, Tears, Said, Parse;
    LinkedFacts(cli, conn, wire);
    ResidueIs(cli, conn, wire);
    v, wire' := Running, wire;
    if 0 < n <= |wire| && conn.ibuf.Length() + n <= U8M {
      ghost var heard;
      PendingApart(cli, conn, wire);
      v, heard := Deliver(cli, conn, wire, n, replies);
      wire' := wire[n..];
      if v.Torn? {
        assert TornBy(old(conn.Out()), replies, heard);
      }
      if v.Running? {
        LinkedFacts(cli, conn, wire');
        ResidueIs(cli, conn, wire');
      }
    }
  }

  /** What the server holds is the residue of the one-shot parse. */
  lemma ResidueIs(cli: TcpClient, conn: TcpConn, wire: seq<byte>)
    requires Linked(cli, conn, wire) && conn.ibuf.HeldOk()
    ensures conn.ibuf.Length() == |Parse(conn.arrived, conn.registered).residue|
    ensures conn.dispatched == Parse(conn.arrived, conn.registered).msgs
  {
    hide Parse, Foreign, TcpClient.Valid, BufferPool.Valid, Holds;
  }

  /** The client's output is none of what the server may touch. */
  lemma PendingApart(cli: TcpClient, conn: TcpConn, wire: seq<byte>)
    requires Linked(cli, conn, wire)
    ensures cli.obuf !in conn.Owned() && cli.obuf.data !in conn.Owned()
  {
    hide TcpConn.Valid, TcpClient.Valid, TcpConn.Owned;
  }

  /** Any schedule of these on the objects, each act exactly as `Acted` says, `trace` being the states between them: at
      the end the server has dispatched a prefix of what the client's `send_data` accepted, and exactly that once
      nothing is pending or in flight. The schedule ends early only if the client's socket fails, or the process ends
      in a message callback of the server: at the memory limit, or on a gap that a refused reply has left. */
  method Exchange(cli: TcpClient, conn: TcpConn, acts: seq<Act>) returns (v: Verdict, wire: seq<byte>, ghost trace: seq<Link>)
    requires Linked(cli, conn, []) && forall i :: 0 <= i < |acts| ==> AllowedAct(acts[i])
    modifies cli, cli.obuf, cli.obuf.data, cli.loop, cli.sock
    modifies conn, conn.loop, conn.counter, conn.ibuf, conn.obuf, conn.ibuf.pool, conn.Owned()
    ensures 0 < |trace| <= |acts| + 1 && trace[0] == old(LinkOf(cli, conn, []))
    ensures forall i :: 0 <= i < |trace| - 1 ==> Acted(trace[i], acts[i], trace[i + 1], conn.registered)
    ensures v.Running? <==> |trace| == |acts| + 1
    ensures v.Running? ==> Linked(cli, conn, wire) && trace[|acts|] == LinkOf(cli, conn, wire)
    ensures v.Running? ==> conn.dispatched <= cli.accepted
    ensures v.Running? && Pending(cli) == [] && wire == [] ==> conn.dispatched == cli.accepted
    ensures !v.Abort? && (v.Quit? ==> acts[|trace| - 1].Hear? && conn.ibuf.pool.AtLimit())
    ensures v.Gone? ==> acts[|trace| - 1].Flush? && Failing(cli.sock, |trace[|trace| - 1].answers|)
    ensures v.Torn? ==> TornIn(trace[|trace| - 1], acts[|trace| - 1])
  {
    hide Linked, Acted, LinkOf, TcpConn.Owned, TcpConn.Out, TornIn, AllowedAct, Failing, BufferPool.AtLimit;
    v, wire, trace := Running, [], [LinkOf(cli, conn, [])];
    for i := 0 to |acts|
      invariant v.Running? && Linked(cli, conn, wire)
      invariant |trace| == i + 1 && trace[0] == old(LinkOf(cli, conn, [])) && trace[i] == LinkOf(cli, conn, wire)
      invariant forall j :: 0 <= j < i ==> Acted(trace[j], acts[j], trace[j + 1], conn.registered)
      invariant conn.loop == old(conn.loop) && cli.sock == old(cli.sock) && fresh(conn.Owned() - old(conn.Owned()))
    {
      ghost var own := conn.Owned();
      LinkParts(cli, conn, wire);
      label Acting:
      v, wire := Perform(cli, conn, acts[i], wire);
      if !v.Running? {
        return;
      }
      assert forall o :: o in conn.Owned() && o !in own ==> fresh@Acting(o);
      assert forall o :: o in conn.Owned() && o !in own ==> fresh(o);
      trace := trace + [LinkOf(cli, conn, wire)];
    }
    LinkedMeans(cli, conn, wire);
    PendingIs(cli, conn, wire);
  }

  lemma LinkParts(cli: TcpClient, conn: TcpConn, wire: seq<byte>)
    ensures LinkOf(cli, conn, wire).out == conn.Out() && LinkOf(cli, conn, wire).answers == cli.sock.answers
  {
  }

  lemma PendingIs(cli: TcpClient, conn: TcpConn, wire: seq<byte>)
    requires Linked(cli, conn, wire)
    ensures |Pending(cli)| == cli.obuf.length
  {
    hide TcpConn.Valid, Foreign;
  }

  lemma LinkedFacts(cli: TcpClient, conn: TcpConn, wire: seq<byte>)
    requires Linked(cli, conn, wire)
    ensures conn.ibuf.HeldOk() && conn.loop != null && |Pending(cli)| == cli.obuf.length
    ensures cli !in conn.Owned() && cli.sock !in conn.Owned() && cli.loop !in conn.Owned()
    ensures cli.loop != conn.loop && cli.sock != conn.sock
  {
    CallerApart(cli, conn);
  }
}
