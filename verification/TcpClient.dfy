/** The sending side of `tcp_client`, within one connection: a fixed 4 MiB output buffer. */
module TcpClients {
  import opened Framing
  import opened IoBuffers
  import opened Kernel
  import opened TcpBuffers
  import opened EventLoops
  import opened TcpConns

  const CLIENT_RCB := Callback(3)
  const CLIENT_WCB := Callback(4)
  const CLIENT_CAPACITY: nat := 4194304

  class TcpClient {
    var netOk: bool
    const obuf: IoBuffer
    const loop: EventLoop
    var sockfd: int
    var sock: Socket
    /** Messages for which `send_data` returned 0 in this connection, in order. */
    ghost var accepted: seq<Frame>

    ghost predicate Valid()
      reads this, obuf, obuf.data, loop, sock
    {
      && obuf.Ok() && obuf.capacity == CLIENT_CAPACITY && obuf.head == 0 && loop.Valid()
      && (netOk ==> Writable(accepted) && sock.sent + obuf.Bytes() == EncodeAll(accepted))
      && (netOk ==> (EPOLLOUT in MaskOf(loop.ioEvs, sockfd) <==> obuf.length > 0))
      && (netOk && obuf.length > 0 ==> loop.ioEvs[sockfd].writeCb == CLIENT_WCB)
    }

    /** The client will be called when something can be read. */
    ghost predicate Listening()
      reads this, loop
    {
      sockfd in loop.ioEvs && EPOLLIN in loop.ioEvs[sockfd].mask && loop.ioEvs[sockfd].readCb == CLIENT_RCB
    }

    constructor (evloop: EventLoop, s: Socket)
      requires evloop.Valid()
      ensures Valid() && !netOk && obuf.length == 0 && loop == evloop && fresh(obuf) && fresh(obuf.data)
      ensures obuf.capacity == 4194304
    {
      loop := evloop;
      obuf := new IoBuffer(CLIENT_CAPACITY);
      netOk, sockfd, sock, accepted := false, -1, s, [];
    }

    /** `connection_cb` when the first connection is up, until the user's callback: nothing can have been sent
        before, but the callback may send. */
    method Opened(fd: int, s: Socket)
      requires Valid() && !netOk && obuf.length == 0 && s.sent == []
      modifies this, loop
      ensures Valid() && netOk && sock == s && sockfd == fd && accepted == []
      ensures loop.ioEvs == old(loop.ioEvs) - {fd}
    {
      loop.DelIoev(fd);
      netOk := true;
      sockfd, sock, accepted := fd, s, [];
      assert EncodeAll([]) == [];
    }

    /** `connection_cb` after the user's callback. */
    method Registered()
      requires Valid() && netOk
      modifies loop
      ensures Valid() && Listening()
      ensures forall g :: g != sockfd ==> (g in loop.ioEvs <==> g in old(loop.ioEvs))
      ensures forall g :: g != sockfd && g in loop.ioEvs ==> loop.ioEvs[g] == old(loop.ioEvs)[g]
    {
      loop.AddIoev(sockfd, CLIENT_RCB, {EPOLLIN});
      if obuf.length > 0 {
        loop.AddIoev(sockfd, CLIENT_WCB, {EPOLLOUT});
      }
    }

    /** All or nothing: -1 exactly when there is no connection or not enough room, and then nothing changes.
        Head and body together must not overflow a C `int`. */
    method SendData(data: seq<byte>, cmdid: int32) returns (ret: int)
      requires Valid() && |data| + HEAD < 0x8000_0000
      modifies this`accepted, obuf`length, obuf.data, loop
      ensures Valid() && (old(Listening()) ==> Listening())
      ensures ret == if netOk && |data| + 8 <= 4194304 - old(obuf.length) then 0 else -1
      ensures ret == 0 ==>
                && accepted == old(accepted) + [Frame(cmdid, data)]
                && obuf.Bytes() == old(obuf.Bytes()) + Encode(Frame(cmdid, data))
                && loop.ioEvs == if old(obuf.length) == 0 then old(loop.ioEvs)[sockfd := Merged(old(loop.ioEvs), sockfd, CLIENT_WCB, {EPOLLOUT})]
                                 else old(loop.ioEvs)
      ensures ret == -1 ==>
                accepted == old(accepted) && obuf.length == old(obuf.length) && obuf.Bytes() == old(obuf.Bytes())
                && loop.ioEvs == old(loop.ioEvs)
    {
      hide Head, EncodeAll, Encode;
      if !netOk {
        return -1;
      }
      var need := obuf.length == 0;
      if |data| + HEAD > obuf.capacity - obuf.length {
        return -1;
      }
      ghost var was := obuf.Bytes();
      var f := Frame(cmdid, data);
      obuf.Append(Head(f));
      obuf.Append(data);
      EncodeParts(f);
      Assoc(was, Head(f), data);
      if need {
        loop.AddIoev(sockfd, CLIENT_WCB, {EPOLLOUT});
      }
      EncodeAllAppend(accepted, f);
      Assoc(sock.sent, was, Encode(f));
      accepted := accepted + [f];
      ret := 0;
    }

    lemma EncodeParts(f: Frame)
      requires |f.body| < 0x8000_0000
      ensures Encode(f) == Head(f) + f.body
    {
    }

    /** Write until the socket is full or nothing is pending; then drop write interest. An error of the socket
        ends the connection. */
    method HandleWrite() returns (ret: int)
      requires Valid() && netOk && obuf.length > 0
      modifies this, obuf`length, obuf`head, obuf.data, loop, sock
      ensures Valid() && (ret == 0 <==> netOk) && -1 <= ret <= 0
      ensures sock == old(sock) && sock.sent + obuf.Bytes() == old(sock.sent) + old(obuf.Bytes())
      ensures old(sock.sent) <= sock.sent
      ensures accepted == old(accepted) && sockfd == old(sockfd)
      ensures ret == 0 ==> loop.ioEvs == if obuf.length == 0 then Reduced(old(loop.ioEvs), sockfd, {EPOLLOUT}) else old(loop.ioEvs)
      ensures ret == -1 ==> loop.ioEvs == old(loop.ioEvs) - {sockfd}
      ensures ret == 0 ==> (old(Listening()) ==> Listening())
      ensures old(sock.answers) <= sock.answers
      ensures Answered(sock, |old(sock.answers)|, |old(sock.sent)|, ret == -1, obuf.length == 0)
    {
      hide EncodeAll, Reduced, Writing, Written, Failing, Full;
      ghost var all, k, n := sock.sent + obuf.Bytes(), |sock.answers|, |sock.sent|;
      ReducedMask(loop.ioEvs, sockfd);
      NoAnswer(sock);
      while obuf.length > 0
        invariant obuf.Ok() && obuf.head == 0 && loop.Valid() && loop.ioEvs == old(loop.ioEvs)
        invariant netOk && sock == old(sock) && accepted == old(accepted) && sockfd == old(sockfd)
        invariant sock.sent + obuf.Bytes() == all && old(sock.sent) <= sock.sent && old(sock.answers) <= sock.answers
        invariant Writing(sock, k, n)
        decreases obuf.length
      {
        WritingIs(sock, k, n);
        ghost var answers, sent := sock.answers, |sock.sent|;
        var w := WriteSome();
        OneAnswer(sock, k, n, answers, sent, w);
        if w.Failed? {
          loop.DelIoev(sockfd);
          netOk := false;
          return -1;
        } else if w.Again? || w.n == 0 {
          FinishWrite();
          return 0;
        }
      }
      WritingIs(sock, k, n);
      FinishWrite();
      ret := 0;
    }

    /** The end of `handle_write`. */
    method FinishWrite()
      requires obuf.Ok() && obuf.capacity == CLIENT_CAPACITY && obuf.head == 0 && loop.Valid() && netOk
      requires Writable(accepted) && sock.sent + obuf.Bytes() == EncodeAll(accepted)
      requires EPOLLOUT in MaskOf(loop.ioEvs, sockfd) && loop.ioEvs[sockfd].writeCb == CLIENT_WCB
      modifies loop
      ensures Valid() && (old(Listening()) ==> Listening())
      ensures loop.ioEvs == if obuf.length == 0 then Reduced(old(loop.ioEvs), sockfd, {EPOLLOUT}) else old(loop.ioEvs)
    {
      hide EncodeAll;
      ReducedMask(loop.ioEvs, sockfd);
      if obuf.length == 0 {
        loop.DelIoevMask(sockfd, {EPOLLOUT});
      }
    }

    /** One `write`, and what it took leaves the front of the buffer. */
    method WriteSome() returns (w: WriteResult)
      requires obuf.Ok() && obuf.head == 0
      modifies obuf`length, obuf`head, obuf.data, sock
      ensures obuf.Ok() && obuf.head == 0
      ensures obuf.length == old(obuf.length) - if w.Wrote? then w.n else 0
      ensures sock.sent + obuf.Bytes() == old(sock.sent) + old(obuf.Bytes()) && old(sock.sent) <= sock.sent
      ensures sock.answers == old(sock.answers) + [w] && |sock.sent| == |old(sock.sent)| + if w.Wrote? then w.n else 0
    {
      ghost var bytes, sent := obuf.Bytes(), sock.sent;
      assert obuf.data[..obuf.length] == bytes;
      w := sock.Write(obuf.data[..obuf.length]);
      FrontMoved(sent, bytes, if w.Wrote? then w.n else 0);
      if w.Wrote? && w.n > 0 {
        obuf.Pop(w.n);
        obuf.Adjust();
      }
    }
  }

  lemma ReducedMask(evs: map<int, IoEvent>, fd: int)
    ensures MaskOf(Reduced(evs, fd, {EPOLLOUT}), fd) == MaskOf(evs, fd) - {EPOLLOUT}
  {
  }
}
