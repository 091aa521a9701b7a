/** `tcp_conn`: the read, write and send callbacks of one server connection, and its life cycle. */
module TcpConns {
  import opened Framing
  import opened IoBuffers
  import opened Kernel
  import opened TcpBuffers
  import opened EventLoops

  const TCP_RCB := Callback(1)
  const TCP_WCB := Callback(2)

  /** `tcp_server::_curr_conns`, changed under its mutex. */
  class ConnCounter {
    var currConns: int

    constructor ()
      ensures currConns == 0
    {
      currConns := 0;
    }

    method IncConn()
      modifies this
      ensures currConns == old(currConns) + 1
    {
      currConns := currConns + 1;
    }

    method DecConn()
      modifies this
      ensures currConns == old(currConns) - 1
    {
      currConns := currConns - 1;
    }
  }

  /** How a callback ends. An assertion of the source that fails is `Abort`, or `Torn` if it is the one that a send
      out of a message callback trips; an `exit` is `Quit`. */
  datatype Verdict = Running | Gone | Abort | Torn | Quit

  /** The process goes on. */
  predicate Survives(v: Verdict) {
    v.Running? || v.Gone?
  }

  function ToVerdict(s: Status): Verdict {
    match s case Open => Running case Closed => Gone case Aborted => Abort
  }

  /** The entry of a connection in the interest table: always readable, writable exactly while output is
      pending, each with its own callback. */
  ghost predicate InterestOk(evs: map<int, IoEvent>, fd: int, pending: bool) {
    && fd in evs
    && EPOLLIN in evs[fd].mask && evs[fd].readCb == TCP_RCB
    && (EPOLLOUT in evs[fd].mask <==> pending)
    && (pending ==> evs[fd].writeCb == TCP_WCB)
  }

  /** Write interest is added with the write callback, and removed without touching read interest. */
  lemma InterestKept(evs: map<int, IoEvent>, fd: int, pending: bool)
    requires InterestOk(evs, fd, pending)
    ensures InterestOk(WithWrite(evs, fd, !pending), fd, true)
    ensures InterestOk(Reduced(evs, fd, {EPOLLOUT}), fd, false)
  {
    assert EPOLLIN in evs[fd].mask - {EPOLLOUT};
  }

  lemma ReducedOk(evs: map<int, IoEvent>, fd: int)
    ensures InterestOk(evs, fd, true) || InterestOk(evs, fd, false) ==> InterestOk(Reduced(evs, fd, {EPOLLOUT}), fd, false)
  {
    if InterestOk(evs, fd, true) {
      InterestKept(evs, fd, true);
    } else if InterestOk(evs, fd, false) {
      InterestKept(evs, fd, false);
    }
  }

  function WithWrite(evs: map<int, IoEvent>, fd: int, wasIdle: bool): map<int, IoEvent> {
    if wasIdle then evs[fd := Merged(evs, fd, TCP_WCB, {EPOLLOUT})] else evs
  }

  lemma Assoc(a: seq<byte>, b: seq<byte>, c: seq<byte>)
    ensures (a + b) + c == a + (b + c)
  {
  }

  function Before(done: seq<Frame>, o: Outcome): Outcome {
    o.(msgs := done + o.msgs)
  }

  /** What one `handle_read` comes to, from what has been dispatched, the residue, and what the kernel answers. */
  function ReadOutcome(was: seq<Frame>, residue: seq<byte>, k: KernelRead, registered: set<int>): Outcome {
    if k.Data? then HandleRead(Outcome(was, residue, Open), k.bytes, registered)
    else Outcome(was, [], Closed)
  }

  lemma ReadCases(was: seq<Frame>, residue: seq<byte>, k: KernelRead, registered: set<int>)
    ensures var o := ReadOutcome(was, residue, k, registered);
            if k.Data? && k.bytes != [] && |k.bytes| + |residue| <= U8M then
              var p := Consume(residue + k.bytes, registered);
              o.msgs == was + p.msgs && o.residue == p.residue && o.status == p.status
            else o.msgs == was && o.status == Closed
    ensures k.Data? ==>
              ReadOutcome(was, residue, k, registered) == HandleRead(Outcome(was, residue, Open), k.bytes, registered)
  {
  }

  /** A read that leaves the connection open leaves it where the one-shot parse of all bytes would be. */
  lemma ReadContinues(arrived: seq<byte>, more: seq<byte>, registered: set<int>)
    requires Parse(arrived, registered).status == Open && more != []
    requires HandleRead(Parse(arrived, registered), more, registered).status == Open
    ensures HandleRead(Parse(arrived, registered), more, registered) == Parse(arrived + more, registered)
  {
    hide Parse, Consume, EndsOnEmptyBody;
    ReadStep(arrived, more, registered);
  }

  /** One turn of the loop of `handle_read`. */
  lemma ConsumeStep(s: seq<byte>, registered: set<int>)
    ensures match Next(s, registered)
            case NeedMore => Consume(s, registered) == Outcome([], s, Open)
            case Bad => Consume(s, registered) == Outcome([], [], Closed)
            case Whole(f) =>
              if |s| == HEAD then Consume(s, registered) == Outcome([f], [], Aborted)
              else Consume(s, registered) == Before([f], Consume(Without(s, HEAD + |f.body|), registered))
  {
  }

  /** With `now` dispatched, what is left to consume completes the outcome `o` that began from `start`. */
  ghost predicate Ahead(o: Outcome, start: seq<Frame>, now: seq<Frame>, left: Outcome) {
    start <= now && start + o.msgs == now + left.msgs && o.residue == left.residue && o.status == left.status
  }

  lemma AheadStart(o: Outcome, start: seq<Frame>)
    ensures Ahead(o, start, start, o)
  {
  }

  lemma AheadStep(o: Outcome, start: seq<Frame>, was: seq<Frame>, now: seq<Frame>, left: Outcome)
    requires was <= now && |now| == |was| + 1
    requires Ahead(o, start, was, Before([now[|was|]], left))
    ensures Ahead(o, start, now, left)
  {
    assert was + ([now[|was|]] + left.msgs) == (was + [now[|was|]]) + left.msgs;
  }

  lemma AheadEnd(o: Outcome, start: seq<Frame>, was: seq<Frame>, left: Outcome)
    requires Ahead(o, start, was, left)
    ensures start <= was && start + o.msgs == was + left.msgs && o.residue == left.residue && o.status == left.status
  {
  }

  lemma ConsumeShort(s: seq<byte>, registered: set<int>)
    ensures |s| < HEAD ==> Consume(s, registered) == Outcome([], s, Open)
  {
  }

  /** A record of all that reading from a connection leaves alone; `others` is the rest of the interest table, and
      `holders` says who held which buffer of the pool. */
  datatype Epoch = Epoch(loop: EventLoop?, others: map<int, IoEvent>, fd: int, sock: Socket, sent: seq<byte>,
                         arrived: seq<byte>, conns: int, holders: map<IoBuffer, object>)

  /** The result of `send_data`: 0, -1, a failed assertion, or the exit of the process. */
  datatype SendResult = Accepted | Refused | Broken | Fatal

  /** What `send_data` makes of the pending output; `packed` says that it starts at the front of its buffer. */
  datatype SendEffect = SendEffect(result: SendResult, pending: seq<byte>, packed: bool)

  /** A message is accepted when head and body fit the largest class behind what is pending. Otherwise either the
      head is refused, or the body is and eight bytes are popped from the front. A gap at the front fails the
      assertion in `output_buffer::send_data`. */
  function SendTo(was: seq<byte>, packed: bool, f: Frame): SendEffect
    requires |f.body| < 0x8000_0000
  {
    if !packed then SendEffect(Broken, was, false)
    else if |was| + HEAD > U8M then SendEffect(Refused, was, true)
    else if |was| + HEAD + |f.body| <= U8M then SendEffect(Accepted, was + Encode(f), true)
    else if was == [] then SendEffect(Refused, was, true)
    else SendEffect(Refused, Without(was + Head(f), HEAD), false)
  }

  /** The output side of a connection. */
  datatype Output = Output(pending: seq<byte>, packed: bool, accepted: seq<Frame>)

  /** What one call of `send_data` makes of it. */
  function SendOne(o: Output, f: Frame): Output
    requires |f.body| < 0x8000_0000
  {
    var e := SendTo(o.pending, o.packed, f);
    Output(e.pending, e.packed, if e.result.Accepted? then o.accepted + [f] else o.accepted)
  }

  /** Lengths that a C `int` can still add to what a buffer can hold. */
  predicate Sizes(fs: seq<Frame>) {
    forall i :: 0 <= i < |fs| ==> |fs[i].body| + U8M < 0x8000_0000
  }

  /** And several calls. */
  function SendAll(o: Output, fs: seq<Frame>): Output
    requires Sizes(fs)
    decreases |fs|
  {
    if fs == [] then o else SendOne(SendAll(o, fs[..|fs| - 1]), fs[|fs| - 1])
  }

  lemma SendAllNone(o: Output)
    ensures Sizes([]) && SendAll(o, []) == o
  {
  }

  lemma SendAllMore(o: Output, fs: seq<Frame>, f: Frame)
    requires Sizes(fs) && |f.body| + U8M < 0x8000_0000
    ensures Sizes(fs + [f]) && SendAll(o, fs + [f]) == SendOne(SendAll(o, fs), f)
  {
    hide SendOne;
    assert (fs + [f])[..|fs|] == fs;
  }

  lemma {:induction false} SendAllJoin(o: Output, a: seq<Frame>, b: seq<Frame>)
    requires Sizes(a) && Sizes(b)
    ensures Sizes(a + b) && SendAll(o, a + b) == SendAll(SendAll(o, a), b)
    decreases |b|
  {
    hide SendOne;
    if b == [] {
      assert a + b == a;
    } else {
      var n := |b| - 1;
      SendAllJoin(o, a, b[..n]);
      SendAllMore(o, a + b[..n], b[n]);
      assert a + b == a + b[..n] + [b[n]];
    }
  }

  /** One of these calls finds a gap at the front of the output, and so ends the process. */
  ghost predicate Tears(o: Output, fs: seq<Frame>)
    requires Sizes(fs)
  {
    exists k :: 0 <= k < |fs| && !SendAll(o, fs[..k]).packed
  }

  lemma TearsNone(o: Output)
    ensures Sizes([]) && !Tears(o, []) && SendAll(o, []) == o
  {
  }

  lemma TearsMore(o: Output, fs: seq<Frame>, f: Frame)
    requires Sizes(fs) && |f.body| + U8M < 0x8000_0000 && !Tears(o, fs)
    ensures Sizes(fs + [f]) && (Tears(o, fs + [f]) <==> !SendAll(o, fs).packed)
  {
    hide SendAll;
    var all := fs + [f];
    assert all[..|fs|] == fs;
    forall k | 0 <= k < |fs| ensures SendAll(o, all[..k]).packed {
      assert all[..k] == fs[..k];
    }
  }

  lemma TornStays(o: Output, fs: seq<Frame>, i: nat)
    requires Sizes(fs) && i < |fs| && !SendAll(o, fs[..i]).packed
    ensures Tears(o, fs)
  {
  }

  lemma TearsJoin(o: Output, a: seq<Frame>, b: seq<Frame>)
    requires Sizes(a) && Sizes(b) && !Tears(o, a)
    ensures Sizes(a + b) && (Tears(o, a + b) <==> Tears(SendAll(o, a), b))
  {
    hide SendAll;
    forall k | 0 <= k < |a + b|
      ensures k < |a| ==> SendAll(o, (a + b)[..k]).packed
      ensures k >= |a| ==> SendAll(o, (a + b)[..k]) == SendAll(SendAll(o, a), b[..k - |a|])
    {
      if k < |a| {
        assert (a + b)[..k] == a[..k];
      } else {
        assert (a + b)[..k] == a + b[..k - |a|];
        SendAllJoin(o, a, b[..k - |a|]);
      }
    }
    if Tears(SendAll(o, a), b) {
      var j :| 0 <= j < |b| && !SendAll(SendAll(o, a), b[..j]).packed;
      assert !SendAll(o, (a + b)[..|a| + j]).packed;
    }
  }

  predicate AllSizes(replies: seq<seq<Frame>>) {
    forall i :: 0 <= i < |replies| ==> Sizes(replies[i])
  }

  /** What the callback for the `i`-th message of a read sends. */
  function ReplyAt(replies: seq<seq<Frame>>, i: nat): (fs: seq<Frame>)
    requires AllSizes(replies)
    ensures Sizes(fs)
  {
    if i < |replies| then replies[i] else []
  }

  /** What the callbacks for the first `n` messages send. */
  function Said(replies: seq<seq<Frame>>, n: nat): (fs: seq<Frame>)
    requires AllSizes(replies)
    ensures Sizes(fs)
  {
    if n == 0 then [] else Said(replies, n - 1) + ReplyAt(replies, n - 1)
  }

  /** What the replies to the `n` messages of a read come to, from the output side `out` to `now`: they are all sent, and
      end the process exactly when one of them finds a gap; so at least one message has been dispatched then. */
  ghost predicate Replied(out: Output, replies: seq<seq<Frame>>, n: nat, v: Verdict, now: Output)
    requires AllSizes(replies)
  {
    && (v.Quit? || (v.Torn? <==> Tears(out, Said(replies, n))))
    && (v.Torn? ==> n > 0)
    && (v.Running? ==> now == SendAll(out, Said(replies, n)))
    && (v.Gone? ==> now.accepted == SendAll(out, Said(replies, n)).accepted)
  }

  lemma RepliedNone(out: Output, replies: seq<seq<Frame>>, v: Verdict, now: Output)
    requires AllSizes(replies) && (v.Quit? || (v.Gone? && now.accepted == out.accepted))
    ensures Replied(out, replies, 0, v, now)
  {
    SaidNone(out, replies);
  }

  /** The read goes on after `n` messages and their replies. */
  lemma RepliedAll(out: Output, replies: seq<seq<Frame>>, n: nat)
    requires AllSizes(replies) && !Tears(out, Said(replies, n))
    ensures Replied(out, replies, n, Running, SendAll(out, Said(replies, n)))
  {
  }

  /** The read ends in the turn after `n` messages and their replies: without another message, or in the callback
      of one. */
  lemma RepliedEnd(out: Output, replies: seq<seq<Frame>>, n: nat, v: Verdict, now: Output)
    requires AllSizes(replies) && !Tears(out, Said(replies, n)) && !v.Running?
    requires v.Torn? ==> Tears(SendAll(out, Said(replies, n)), ReplyAt(replies, n))
    requires v.Abort? ==> !Tears(SendAll(out, Said(replies, n)), ReplyAt(replies, n))
    requires v.Gone? ==> now.accepted == SendAll(out, Said(replies, n)).accepted
    ensures Replied(out, replies, if v.Gone? then n else n + 1, v, now)
  {
    hide Tears, SendAll, Said, ReplyAt;
    SaidMore(out, replies, n);
  }

  lemma SaidNone(o: Output, replies: seq<seq<Frame>>)
    requires AllSizes(replies)
    ensures Said(replies, 0) == [] && SendAll(o, Said(replies, 0)) == o && !Tears(o, Said(replies, 0))
  {
  }

  /** One more message and its reply. */
  lemma SaidMore(o: Output, replies: seq<seq<Frame>>, n: nat)
    requires AllSizes(replies) && !Tears(o, Said(replies, n))
    ensures SendAll(o, Said(replies, n + 1)) == SendAll(SendAll(o, Said(replies, n)), ReplyAt(replies, n))
    ensures Tears(o, Said(replies, n + 1)) <==> Tears(SendAll(o, Said(replies, n)), ReplyAt(replies, n))
  {
    hide Tears, SendAll;
    SendAllJoin(o, Said(replies, n), ReplyAt(replies, n));
    TearsJoin(o, Said(replies, n), ReplyAt(replies, n));
  }

  /** Frames that fit behind what is pending are all accepted, and are what is pending then. */
  lemma {:induction false} SendAllAccepts(o: Output, fs: seq<Frame>)
    requires Sizes(fs) && Writable(fs) && o.packed && |o.pending| + |EncodeAll(fs)| <= 8388608
    ensures SendAll(o, fs) == Output(o.pending + EncodeAll(fs), true, o.accepted + fs)
    decreases |fs|
  {
    hide EncodeAll, Encode, SendTo;
    if fs == [] {
      EncodeNothing();
      assert o.pending + [] == o.pending && o.accepted + [] == o.accepted;
    } else {
      var n := |fs| - 1;
      var front := fs[..n];
      assert fs[n] in fs && forall f :: f in front ==> f in fs;
      assert fs == front + [fs[n]];
      EncodeAllAppend(front, fs[n]);
      EncodeLength(fs[n]);
      SendAllAccepts(o, front);
      var e := o.pending + EncodeAll(front);
      SendFacts(e, true, fs[n]);
      Assoc(o.pending, EncodeAll(front), Encode(fs[n]));
      assert (o.accepted + front) + [fs[n]] == o.accepted + fs;
    }
  }

  lemma EncodeNothing()
    ensures EncodeAll([]) == []
  {
  }

  lemma EncodeLength(f: Frame)
    requires |f.body| < 0x8000_0000
    ensures |Encode(f)| == 8 + |f.body|
  {
  }

  /** In particular from the start of a connection. */
  lemma FirstSends(fs: seq<Frame>)
    requires Sizes(fs) && Writable(fs) && |EncodeAll(fs)| <= 8388608
    ensures SendAll(Output([], true, []), fs) == Output(EncodeAll(fs), true, fs)
  {
    SendAllAccepts(Output([], true, []), fs);
    assert [] + EncodeAll(fs) == EncodeAll(fs) && [] + fs == fs;
  }

  /** Sending never takes back what was accepted, and never closes a gap at the front: after a rollback that left
      one, nothing is accepted any more. */
  lemma {:induction false} SendAllKeeps(o: Output, fs: seq<Frame>)
    requires Sizes(fs)
    ensures o.accepted <= SendAll(o, fs).accepted
    ensures !o.packed ==> SendAll(o, fs) == o
    decreases |fs|
  {
    if fs != [] {
      SendAllKeeps(o, fs[..|fs| - 1]);
    }
  }

  /** A refused `send_data` leaves the output as it was exactly when nothing was pending or not even the head
      fitted; otherwise the connection cannot send again. */
  lemma RefusalIsUndoneIff(was: seq<byte>, f: Frame, g: Frame)
    requires |f.body| < 0x8000_0000 && |g.body| < 0x8000_0000
    requires SendTo(was, true, f).result == Refused
    ensures var e := SendTo(was, true, f);
            && (e == SendEffect(Refused, was, true) <==> was == [] || |was| + HEAD > U8M)
            && |e.pending| == |was|
            && (e != SendEffect(Refused, was, true) ==> SendTo(e.pending, e.packed, g).result == Broken)
  {
  }

  /** The rollback at its worst: with output pending, what goes out next no longer begins with it. */
  lemma RollbackLosesOutput(f: Frame)
    requires U8M - HEAD - 9 < |f.body| < U8M
    ensures var was := Encode(Frame(7, [1]));
            SendTo(was, true, f).result == Refused && !(was <= SendTo(was, true, f).pending)
  {
    var was := Encode(Frame(7, [1]));
    var e := SendTo(was, true, f);
    assert was[0] == 7 && was[8] == 1;
    assert e.pending[0] == (was + Head(f))[8];
  }

  /** The entry of a connection that has just been registered. */
  lemma FirstEntry(evs: map<int, IoEvent>, fd: int)
    requires fd !in evs
    ensures Merged(evs, fd, TCP_RCB, {EPOLLIN}) == IoEvent({EPOLLIN}, TCP_RCB, Unset)
    ensures InterestOk(evs[fd := Merged(evs, fd, TCP_RCB, {EPOLLIN})], fd, false)
  {
    assert {} + {EPOLLIN} == {EPOLLIN};
  }

  /** Write interest concerns one entry of the table. */
  lemma OthersKept(evs: map<int, IoEvent>, fd: int, wasIdle: bool)
    ensures WithWrite(evs, fd, wasIdle) - {fd} == evs - {fd}
    ensures Reduced(evs, fd, {EPOLLOUT}) - {fd} == evs - {fd}
  {
  }

  lemma SendFacts(was: seq<byte>, packed: bool, f: Frame)
    requires |f.body| < 0x8000_0000
    ensures var e := SendTo(was, packed, f);
            && (e.result.Broken? <==> !packed)
            && (e.result.Accepted? <==> packed && |was| + 8 + |f.body| <= 8388608)
            && (e.result.Refused? ==> |e.pending| == |was|)
            && (e.result.Accepted? ==> e.packed && e.pending == was + Encode(f) && e.pending != [])
            && (e.result.Refused? ==> (e.pending == [] <==> was == []) && (e.packed ==> e.pending == was))
            && !e.result.Fatal?
  {
  }

  /** Every answer took something. */
  ghost predicate AllTook(log: seq<WriteResult>) {
    forall i :: 0 <= i < |log| ==> log[i].Wrote? && log[i].n > 0
  }

  /** Since answer `k`, when `n` bytes had been sent, every answer took something, and that is what was sent. */
  ghost predicate Writing(sock: Socket, k: nat, n: nat)
    reads sock
  {
    k <= |sock.answers| && AllTook(sock.Since(k)) && |sock.sent| == n + Taken(sock.Since(k))
  }

  /** The same, but for the last answer. */
  ghost predicate Written(sock: Socket, k: nat, n: nat)
    reads sock
  {
    k <= |sock.answers| && TookUntil(sock.Since(k)) && |sock.sent| == n + Taken(sock.Since(k))
  }

  ghost predicate Failing(sock: Socket, k: nat)
    reads sock
  {
    k < |sock.answers| && sock.answers[|sock.answers| - 1].Failed?
  }

  ghost predicate Full(sock: Socket, k: nat)
    reads sock
  {
    k < |sock.answers| && sock.answers[|sock.answers| - 1] in {Again, Wrote(0)}
  }

  /** One more answer `r`. */
  lemma OneAnswer(sock: Socket, k: nat, n: nat, answers: seq<WriteResult>, sent: nat, r: WriteResult)
    requires sock.answers == answers + [r] && |sock.sent| == sent + if r.Wrote? then r.n else 0
    requires k <= |answers| && AllTook(answers[k..]) && sent == n + Taken(answers[k..])
    ensures Written(sock, k, n)
    ensures r.Wrote? && r.n > 0 ==> Writing(sock, k, n)
    ensures Failing(sock, k) <==> r.Failed?
    ensures Full(sock, k) <==> r in {Again, Wrote(0)}
  {
    TakenMore(answers[k..], r);
    assert sock.answers[k..] == answers[k..] + [r];
  }

  lemma NoAnswer(sock: Socket)
    ensures Writing(sock, |sock.answers|, |sock.sent|)
  {
  }

  lemma WritingIs(sock: Socket, k: nat, n: nat)
    requires Writing(sock, k, n)
    ensures k <= |sock.answers| && AllTook(sock.answers[k..]) && |sock.sent| == n + Taken(sock.answers[k..])
    ensures Written(sock, k, n) && !Failing(sock, k)
  {
  }

  /** How a write callback ends, by the answers since `k`: it goes if the last one is a failure; else it has drained
      the output, or the last answer took nothing. Every answer before the last took something. */
  ghost predicate Answered(sock: Socket, k: nat, n: nat, gone: bool, drained: bool)
    reads sock
  {
    && Written(sock, k, n)
    && (gone <==> Failing(sock, k))
    && (gone || drained || Full(sock, k))
  }

  /** Spelled out, with `n` the bytes sent before. */
  lemma AnsweredIs(sock: Socket, k: nat, n: nat, gone: bool, drained: bool)
    requires Answered(sock, k, n, gone, drained)
    ensures k <= |sock.answers|
    ensures var log := sock.answers[k..];
            && |sock.sent| == n + Taken(log)
            && (forall i :: 0 <= i < |log| - 1 ==> log[i].Wrote? && log[i].n > 0)
            && (gone <==> log != [] && log[|log| - 1].Failed?)
            && (!gone && !drained ==> log != [] && (log[|log| - 1].Again? || log[|log| - 1] == Wrote(0)))
  {
  }

  class TcpConn {
    var connfd: int
    var loop: EventLoop?
    var sock: Socket
    const ibuf: TcpBuffer
    const obuf: TcpBuffer
    const counter: ConnCounter
    /** The command ids the dispatcher knows. */
    const registered: set<int>
    /** Messages given to user callbacks on this connection, in order. */
    var dispatched: seq<Frame>
    /** Messages for which `send_data` returned 0, in order. */
    ghost var accepted: seq<Frame>
    /** Every byte read on this connection. */
    ghost var arrived: seq<byte>

    ghost predicate Buffers()
      reads this, ibuf, ibuf.buf, ibuf.pool, ibuf.pool.created, obuf, obuf.buf
    {
      ibuf != obuf && ibuf.pool == obuf.pool && ibuf.Valid() && obuf.Valid()
    }

    ghost predicate Live()
      reads this
    {
      loop != null
    }

    /** The input half, between callbacks: what has been dispatched and what is left over are the one-shot parse of
        everything read so far, and a read buffer is held exactly while something is left over. */
    ghost predicate InputOk()
      reads this, ibuf, ibuf.buf, ibuf.Repr()
    {
      && ibuf.HeldOk() && ibuf.Packed()
      && (ibuf.buf != null <==> ibuf.Bytes() != [])
      && Parse(arrived, registered) == Outcome(dispatched, ibuf.Bytes(), Open)
    }

    /** Bytes written, then bytes pending: the accepted frames. */
    ghost predicate Fifo()
      reads this, sock, obuf, obuf.buf, obuf.Repr()
    {
      && obuf.HeldOk()
      && (obuf.Packed() ==> Writable(accepted) && sock.sent + obuf.Bytes() == EncodeAll(accepted))
    }

    ghost predicate Interest()
      reads this, loop, obuf, obuf.buf
    {
      loop != null ==> loop.Valid() && InterestOk(loop.ioEvs, connfd, obuf.Length() > 0)
    }

    /** The output half, which also holds inside a message callback. */
    ghost predicate Sending()
      reads this, loop, sock, ibuf, ibuf.buf, ibuf.pool, ibuf.pool.created, obuf, obuf.buf, obuf.Repr()
    {
      Buffers() && Live() && Fifo() && Interest()
    }

    ghost predicate Clean()
      reads this, ibuf, obuf
    {
      connfd == -1 && ibuf.buf == null && obuf.buf == null
    }

    ghost predicate Valid()
      reads this, loop, sock, ibuf, ibuf.buf, ibuf.Repr(), ibuf.pool, ibuf.pool.created, obuf, obuf.buf, obuf.Repr()
    {
      if Live() then Sending() && InputOk() else Buffers() && Clean()
    }

    /** Of all owners of buffers, only the two of this connection hold other buffers than `was` says. */
    ghost predicate Alone(was: map<IoBuffer, object>)
      reads this, ibuf.pool
    {
      OnlyBoth(was, ibuf.pool.holder, ibuf, obuf)
    }

    ghost function Out(): Output
      reads this, obuf, obuf.buf, obuf.Repr()
    {
      Output(if obuf.HeldOk() then obuf.Bytes() else [], obuf.Packed(), accepted)
    }

    /** The connection is as `e` recorded it, with a good output side; what it has sent and buffers may differ. */
    ghost predicate Undisturbed(e: Epoch)
      reads this, loop, sock, counter, ibuf, ibuf.buf, ibuf.pool, ibuf.pool.created, obuf, obuf.buf, obuf.Repr()
    {
      && Sending()
      && loop == e.loop && loop.ioEvs - {e.fd} == e.others
      && connfd == e.fd && sock == e.sock && sock.sent == e.sent && arrived == e.arrived && counter.currConns == e.conns
      && Alone(e.holders)
    }

    ghost function Snapshot(): Epoch
      reads this, loop, sock, counter, ibuf.pool
      requires loop != null
    {
      Epoch(loop, loop.ioEvs - {connfd}, connfd, sock, sock.sent, arrived, counter.currConns, ibuf.pool.holder)
    }

    /** Deregistered and no longer counted. */
    ghost predicate CleanedUp(e: Epoch)
      reads this, e.loop, counter, ibuf.pool
    {
      && e.loop != null && loop == null && e.loop.Valid() && e.loop.ioEvs == e.others
      && sock == e.sock && counter.currConns == e.conns - 1 && Alone(e.holders)
    }

    /** The read buffer and its contents. */
    ghost predicate InputIs(b: IoBuffer?, bytes: seq<byte>, packed: bool)
      reads this, ibuf, ibuf.buf, ibuf.Repr()
    {
      ibuf.buf == b && ibuf.HeldOk() && ibuf.Bytes() == bytes && ibuf.Packed() == packed
    }

    /** The residue is under 64 KiB. */
    lemma ResidueIsSmall()
      requires Valid() && Live()
      ensures ibuf.Length() < 65536
    {
      hide BufferPool.Valid, Holds, Parse;
      ResidueBound(arrived, registered);
    }

    ghost function Owned(): set<object>
      reads this, ibuf, ibuf.pool, obuf, obuf.pool
    {
      ibuf.Footprint() + obuf.Footprint()
    }

    /** The object for a slot seen for the first time. `Init` follows. */
    constructor (pool: BufferPool, counter: ConnCounter, registered: set<int>, sock: Socket)
      requires pool.Valid()
      ensures Valid() && !Live() && ibuf.pool == pool && fresh(ibuf) && fresh(obuf)
      ensures this.counter == counter && this.registered == registered && this.sock == sock
    {
      hide BufferPool.Valid;
      this.counter := counter;
      this.registered := registered;
      this.sock := sock;
      ibuf := new TcpBuffer(pool);
      obuf := new TcpBuffer(pool);
      connfd, loop, dispatched, accepted, arrived := -1, null, [], [], [];
      new;
    }

    /** The pooled storage is none of the other objects a connection works with. */
    lemma Outside(t: TcpBuffer)
      ensures this !in t.Footprint() && sock !in t.Footprint() && ibuf !in t.Footprint() && obuf !in t.Footprint()
      ensures counter !in t.Footprint() && (loop != null ==> loop !in t.Footprint())
    {
      hide TcpBuffer.Footprint;
      NotInFootprint(t, this);
      NotInFootprint(t, sock);
      NotInFootprint(t, ibuf);
      NotInFootprint(t, obuf);
      NotInFootprint(t, counter);
      if loop != null {
        NotInFootprint(t, loop);
      }
    }

    /** `init` on a slot that is not in use: for a new object and for a reused one. */
    method Init(fd: int, evloop: EventLoop, s: Socket)
      requires Valid() && !Live()
      requires fd >= 0 && evloop.Valid() && fd !in evloop.ioEvs && s.sent == []
      modifies this, evloop, counter
      ensures Valid() && Live()
      ensures connfd == fd && loop == evloop && sock == s
      ensures dispatched == [] && accepted == [] && arrived == [] && ibuf.Length() == 0 && obuf.Length() == 0
      ensures evloop.ioEvs == old(evloop.ioEvs)[fd := IoEvent({EPOLLIN}, TCP_RCB, Unset)]
      ensures counter.currConns == old(counter.currConns) + 1
    {
      hide BufferPool.Valid, Holds, Parse, InterestOk, Merged, Sending, TcpBuffer.Repr;
      connfd := fd;
      loop := evloop;
      sock := s;
      dispatched, accepted, arrived := [], [], [];
      ParseEmpty(registered);
      FirstEntry(evloop.ioEvs, fd);
      loop.AddIoev(connfd, TCP_RCB, {EPOLLIN});
      counter.IncConn();
      assert EncodeAll(accepted) == [];
      SendingAgain();
      InputAgain();
    }

    /** `clean_conn`. The descriptor is closed last, when nothing of this object refers to it any more. */
    method CleanConn()
      requires Buffers() && Live() && loop.Valid()
      modifies this, loop, counter, ibuf, obuf, ibuf.pool, Owned()
      ensures Valid() && !Live()
      ensures old(loop).Valid() && old(loop).ioEvs == old(loop.ioEvs) - {old(connfd)}
      ensures counter.currConns == old(counter.currConns) - 1
      ensures dispatched == old(dispatched) && accepted == old(accepted) && sock == old(sock)
      ensures Alone(old(ibuf.pool.holder))
    {
      hide BufferPool.Valid, Holds, OnlyChanges, OnlyBoth, FreeSet;
      Outside(ibuf);
      Outside(obuf);
      Apart(ibuf, obuf);
      counter.DecConn();
      loop.DelIoev(connfd);
      loop := null;
      ghost var m := ibuf.pool.holder;
      NeitherOfBoth(m, ibuf, obuf);
      ibuf.Clear();
      PeerKept(m, ibuf, obuf);
      Apart(obuf, ibuf);
      ghost var m1 := ibuf.pool.holder;
      OneOfBoth(m, m, m1, ibuf, ibuf, obuf);
      obuf.Clear();
      PeerKept(m1, obuf, ibuf);
      OneOfBoth(m, m1, ibuf.pool.holder, obuf, ibuf, obuf);
      connfd := -1;
    }

    lemma FrameParts(all: seq<byte>, f: Frame)
      requires Next(all, registered) == Whole(f)
      ensures HEAD + |f.body| <= |all| && f.body == all[HEAD..HEAD + |f.body|]
      ensures Without(Without(all, HEAD), |f.body|) == Without(all, HEAD + |f.body|)
    {
    }

    // ---------- reading ----------

    /** `ibuf.pop(n)`, which leaves the rest of the connection alone. */
    method PopInput(ghost e: Epoch, n: int)
      requires Undisturbed(e) && ibuf.HeldOk() && ibuf.buf != null && 0 <= n <= ibuf.Length()
      modifies ibuf, ibuf.pool, ibuf.Footprint()
      ensures Undisturbed(e) && Out() == old(Out())
      ensures ibuf.HeldOk() && ibuf.Bytes() == Without(old(ibuf.Bytes()), n)
      ensures ibuf.buf == null <==> n == old(ibuf.Length())
      ensures Owned() <= old(Owned())
    {
      hide BufferPool.Valid, Holds, OnlyChanges, OnlyBoth, FreeSet, InterestOk, EncodeAll;
      Outside(ibuf);
      Apart(ibuf, obuf);
      ghost var m := ibuf.pool.holder;
      ibuf.Pop(n);
      PeerKept(m, ibuf, obuf);
      OneOfBoth(e.holders, m, ibuf.pool.holder, ibuf, ibuf, obuf);
    }

    /** The head of a whole frame is popped and the message is on record. */
    method DispatchHead(ghost e: Epoch, cmdid: int32, len: nat, ghost f: Frame)
      requires Undisturbed(e) && ibuf.HeldOk() && Next(ibuf.Bytes(), registered) == Whole(f)
      requires cmdid == f.cmdid && len == |f.body|
      modifies this`dispatched, ibuf, ibuf.pool, ibuf.Footprint()
      ensures Undisturbed(e) && Out() == old(Out()) && dispatched == old(dispatched) + [f] && loop == old(loop)
      ensures ibuf.HeldOk() && ibuf.Bytes() == Without(old(ibuf.Bytes()), HEAD)
      ensures ibuf.buf == null <==> old(ibuf.Length()) == HEAD
      ensures Owned() <= old(Owned())
    {
      hide Undisturbed, Next, Owned, TcpBuffer.Footprint, Out;
      ghost var all := ibuf.Bytes();
      FrameParts(all, f);
      Outside(ibuf);
      PopInput(e, HEAD);
      var body := if ibuf.buf == null then [] else ibuf.Front(len);
      assert Without(all, HEAD)[..len] == f.body;
      Log(e, Frame(cmdid, body));
    }

    /** A whole frame at the front: pop the head, call back, pop the body. The callback may send on this connection.
        `Abort` is where the source's assertion fails: the head was all there was, and popping it has given the
        buffer back. */
    method DispatchOne(ghost e: Epoch, cmdid: int32, len: nat, ghost f: Frame, reply: seq<Frame>) returns (v: Verdict)
      requires Undisturbed(e) && ibuf.HeldOk() && Next(ibuf.Bytes(), registered) == Whole(f)
      requires cmdid == f.cmdid && len == |f.body| && Sizes(reply)
      modifies this`dispatched, this`accepted, loop, ibuf, obuf, ibuf.pool, Owned()
      ensures dispatched == old(dispatched) + [f]
      ensures !v.Gone? && (v.Abort? ==> old(ibuf.Length()) == HEAD) && (v.Quit? ==> ibuf.pool.AtLimit())
      ensures v.Quit? || (v.Torn? <==> Tears(old(Out()), reply))
      ensures v.Running? ==> Undisturbed(e) && ibuf.HeldOk() && old(ibuf.Length()) > HEAD
      ensures v.Running? ==> ibuf.Bytes() == Without(old(ibuf.Bytes()), HEAD + len) && (ibuf.buf == null <==> ibuf.Bytes() == [])
      ensures v.Running? ==> Out() == SendAll(old(Out()), reply) && loop == old(loop) && fresh(Owned() - old(Owned()))
    {
      hide BufferPool.AtLimit, Undisturbed, Next, Owned, TcpBuffer.Footprint, Sizes, SendAll, Tears, Out;
      FrameParts(ibuf.Bytes(), f);
      OnePool(e);
      Outside(ibuf);
      OwnedParts();
      DispatchHead(e, cmdid, len, f);
      Outside(obuf);
      OwnedParts();
      ghost var own := Owned();
      label Calling:
      v := Callback(e, reply);
      if !v.Running? {
        return;
      }
      if ibuf.buf == null {
        return Abort;
      }
      OwnedParts();
      assert forall o :: o in Owned() && o !in own ==> fresh@Calling(o);
      assert forall o :: o in Owned() && o !in own ==> fresh(o);
      Outside(ibuf);
      PopInput(e, len);
    }

    lemma OwnedParts()
      ensures ibuf.Footprint() <= Owned() && obuf.Footprint() <= Owned()
      ensures ibuf.Repr() <= Owned() && obuf.Repr() <= Owned()
    {
    }

    lemma OnePool(e: Epoch)
      requires Undisturbed(e)
      ensures ibuf.pool == obuf.pool
    {
    }

    lemma OwnedIs()
      requires ibuf.pool == obuf.pool
      ensures Owned() == ibuf.Repr() + obuf.Footprint()
    {
    }

    /** The dispatched message is on record before its callback is called. */
    method Log(ghost e: Epoch, f: Frame)
      requires Undisturbed(e) && ibuf.HeldOk()
      modifies this`dispatched
      ensures Undisturbed(e) && dispatched == old(dispatched) + [f] && Out() == old(Out()) && Owned() == old(Owned())
      ensures ibuf.buf == old(ibuf.buf) && ibuf.HeldOk() && ibuf.Bytes() == old(ibuf.Bytes())
    {
      hide BufferPool.Valid, Holds, OnlyBoth, InterestOk, EncodeAll;
      dispatched := dispatched + [f];
    }

    /** The user's callback for a message, as far as this connection is concerned: it sends `reply`. It ends the process
        at the memory limit, or when it sends after a rollback that has left a gap. */
    method Callback(ghost e: Epoch, reply: seq<Frame>) returns (v: Verdict)
      requires Undisturbed(e) && ibuf.HeldOk() && Sizes(reply)
      modifies this`accepted, loop, obuf, obuf.pool, obuf.Footprint()
      ensures !v.Gone? && !v.Abort? && (v.Quit? ==> obuf.pool.AtLimit())
      ensures v.Quit? || (v.Torn? <==> Tears(old(Out()), reply))
      ensures v.Running? ==> Undisturbed(e) && Out() == SendAll(old(Out()), reply)
      ensures v.Running? ==> ibuf.buf == old(ibuf.buf) && ibuf.HeldOk() && ibuf.Bytes() == old(ibuf.Bytes())
      ensures v.Running? ==> loop == old(loop) && fresh(Owned() - old(Owned())) && fresh(obuf.Footprint() - old(obuf.Footprint()))
    {
      hide BufferPool.AtLimit, Undisturbed, Owned, TcpBuffer.Footprint, SendAll, SendOne, Tears, Out, Merged;
      TearsNone(Out());
      assert reply[..0] == [];
      for i := 0 to |reply|
        invariant Undisturbed(e) && ibuf.HeldOk()
        invariant Out() == SendAll(old(Out()), reply[..i]) && !Tears(old(Out()), reply[..i])
        invariant ibuf.buf == old(ibuf.buf) && ibuf.Bytes() == old(ibuf.Bytes())
        invariant loop == old(loop) && fresh(Owned() - old(Owned())) && fresh(obuf.Footprint() - old(obuf.Footprint()))
      {
        Outside(obuf);
        ghost var own, mine := Owned(), obuf.Footprint();
        assert reply[..i + 1] == reply[..i] + [reply[i]];
        SendAllMore(old(Out()), reply[..i], reply[i]);
        TearsMore(old(Out()), reply[..i], reply[i]);
        label Sending:
        var r := Reply(e, reply[i]);
        if r.Fatal? {
          return Quit;
        } else if r.Broken? {
          TornStays(old(Out()), reply, i);
          return Torn;
        }
        assert forall o :: o in Owned() && o !in own ==> fresh@Sending(o);
        assert forall o :: o in Owned() && o !in own ==> fresh(o);
        assert forall o :: o in obuf.Footprint() && o !in mine ==> fresh@Sending(o);
        assert forall o :: o in obuf.Footprint() && o !in mine ==> fresh(o);
      }
      assert reply[..|reply|] == reply;
      v := Running;
    }

    /** `send_data` called from a message callback. */
    method Reply(ghost e: Epoch, f: Frame) returns (r: SendResult)
      requires Undisturbed(e) && ibuf.HeldOk() && |f.body| + U8M < 0x8000_0000
      modifies this`accepted, loop, obuf, obuf.pool, obuf.Footprint()
      ensures r.Fatal? || (r.Broken? <==> !old(Out()).packed)
      ensures r.Fatal? ==> obuf.pool.AtLimit()
      ensures r.Accepted? || r.Refused? ==> Undisturbed(e) && Out() == SendOne(old(Out()), f)
      ensures r.Accepted? || r.Refused? ==> ibuf.buf == old(ibuf.buf) && ibuf.HeldOk() && ibuf.Bytes() == old(ibuf.Bytes())
      ensures r.Accepted? || r.Refused? ==>
                loop == old(loop) && fresh(Owned() - old(Owned())) && fresh(obuf.Footprint() - old(obuf.Footprint()))
    {
      hide BufferPool.AtLimit, Sending, SendTo, SendOne, OnlyBoth, Merged, TcpBuffer.Footprint, Owned, Valid;
      SendNeeds(e);
      Outside(obuf);
      OthersKept(loop.ioEvs, connfd, obuf.Bytes() == []);
      SendFacts(obuf.Bytes(), obuf.Packed(), f);
      r := SendData(f.body, f.cmdid);
      if r.Accepted? || r.Refused? {
        BothTwice(e.holders, old(ibuf.pool.holder));
      }
    }

    lemma SendNeeds(e: Epoch)
      requires Undisturbed(e)
      ensures Sending() && Live() && obuf.HeldOk()
      ensures Out() == Output(obuf.Bytes(), obuf.Packed(), accepted)
    {
      hide BufferPool.Valid, Holds, OnlyBoth, InterestOk, EncodeAll;
    }

    lemma BothTwice(m0: map<IoBuffer, object>, m1: map<IoBuffer, object>)
      requires OnlyBoth(m0, m1, ibuf, obuf) && Alone(m1)
      ensures Alone(m0)
    {
    }

    /** What one turn does: either it takes the first message off what is left to consume, or it decides, or the
        process ends in a callback. */
    ghost predicate Turned(all: seq<byte>, was: seq<Frame>, v: Verdict, more: bool)
      reads this, ibuf, ibuf.buf, ibuf.Repr()
    {
      var o := Consume(all, registered);
      if more then
        && v == Running && ibuf.HeldOk() && |ibuf.Bytes()| < |all| && |dispatched| == |was| + 1 && was <= dispatched
        && o == Before([dispatched[|was|]], Consume(ibuf.Bytes(), registered))
      else if v.Quit? || v.Torn? then
        was <= dispatched <= was + o.msgs && |dispatched| == |was| + 1
      else
        && v == ToVerdict(o.status) && dispatched == was + o.msgs && |o.msgs| == (if v.Abort? then 1 else 0)
        && (v == Running ==> ibuf.HeldOk() && ibuf.Bytes() == all && o == Outcome([], all, Open))
    }

    lemma OutIs()
      ensures Out().accepted == accepted
    {
    }

    /** One turn of the loop of `handle_read`: `more` says to go on. */
    method Turn(ghost e: Epoch, reply: seq<Frame>) returns (v: Verdict, more: bool)
      requires Undisturbed(e) && ibuf.HeldOk() && ibuf.Length() >= HEAD && Sizes(reply)
      modifies this, loop, counter, ibuf, obuf, ibuf.pool, Owned()
      ensures Turned(old(ibuf.Bytes()), old(dispatched), v, more)
      ensures v.Quit? ==> ibuf.pool.AtLimit()
      ensures v.Torn? ==> Tears(old(Out()), reply)
      ensures more || v.Abort? ==> !Tears(old(Out()), reply)
      ensures v.Running? ==> Undisturbed(e) && Out() == if more then SendAll(old(Out()), reply) else old(Out())
      ensures v.Running? ==> loop == old(loop) && fresh(Owned() - old(Owned()))
      ensures v.Running? ==> ibuf.HeldOk() && (more ==> (ibuf.buf == null <==> ibuf.Bytes() == []))
      ensures v.Running? && !more ==> ibuf.buf == old(ibuf.buf)
      ensures v.Gone? ==> Valid() && CleanedUp(e) && accepted == old(Out()).accepted
    {
      OutIs();
      hide BufferPool.AtLimit, Undisturbed, CleanedUp, Valid, DecodeWord, Consume, Owned, Sizes, SendAll, Tears, Out, TcpBuffer.Footprint;
      ConsumeStep(ibuf.Bytes(), registered);
      ghost var all := ibuf.Bytes();
      var head := ibuf.Front(HEAD);
      assert head[..4] == all[..4] && head[4..8] == all[4..8];
      var cmdid, len := DecodeWord(head[..4]), DecodeWord(head[4..8]);
      if len > LIMIT || len < 0 {
        Reject(e);
        return Gone, false;
      }
      if ibuf.Length() < HEAD + len {
        return Running, false;
      }
      if cmdid !in registered {
        Reject(e);
        return Gone, false;
      }
      ghost var f := Next(all, registered).frame;
      v := DispatchOne(e, cmdid, len, f, reply);
      more := v.Running?;
    }

    /** `clean_conn` at the end of the connection. */
    method Reject(ghost e: Epoch)
      requires Undisturbed(e)
      modifies this, loop, counter, ibuf, obuf, ibuf.pool, Owned()
      ensures Valid() && CleanedUp(e) && dispatched == old(dispatched) && accepted == old(accepted)
    {
      hide Buffers, Owned, Fifo, InterestOk, OnlyBoth;
      CleanConn();
      BothTwice(e.holders, old(ibuf.pool.holder));
    }

    /** The loop of `handle_read`. */
    method ParseLoop(ghost e: Epoch, replies: seq<seq<Frame>>) returns (v: Verdict, n: nat)
      requires Undisturbed(e) && ibuf.HeldOk() && ibuf.Bytes() != [] && AllSizes(replies)
      modifies this, loop, counter, ibuf, obuf, ibuf.pool, Owned()
      ensures v.Quit? ==> ibuf.pool.AtLimit()
      ensures v.Quit? || v.Torn? || v == ToVerdict(Consume(old(ibuf.Bytes()), registered).status)
      ensures old(dispatched) <= dispatched <= old(dispatched) + Consume(old(ibuf.Bytes()), registered).msgs
      ensures v.Quit? || v.Torn? || dispatched == old(dispatched) + Consume(old(ibuf.Bytes()), registered).msgs
      ensures |dispatched| == |old(dispatched)| + n && Replied(old(Out()), replies, n, v, Out())
      ensures v.Running? ==> Undisturbed(e)
      ensures v.Running? ==> loop == old(loop) && fresh(Owned() - old(Owned()))
      ensures v.Running? ==> ibuf.HeldOk() && ibuf.Bytes() == Consume(old(ibuf.Bytes()), registered).residue
      ensures v.Running? ==> (ibuf.buf == null <==> ibuf.Bytes() == [])
      ensures v.Gone? ==> Valid() && CleanedUp(e)
    {
      hide BufferPool.AtLimit, Undisturbed, CleanedUp, Consume, Valid, Next, Owned, TcpBuffer.Repr, Sizes, AllSizes, SendAll, Tears,
           Said, ReplyAt, Replied, Out, Ahead;
      ghost var o, start, out, all := Consume(ibuf.Bytes(), registered), dispatched, Out(), Owned();
      v := Running;
      n := 0;
      SaidNone(out, replies);
      AheadStart(o, start);
      var more := true;
      while more && ibuf.Length() >= HEAD
        invariant v.Running? && Undisturbed(e)
        invariant ibuf.HeldOk() && (ibuf.buf == null <==> ibuf.Bytes() == [])
        invariant fresh(Owned() - all) && loop == old(loop) && |dispatched| == |start| + n
        invariant Out() == SendAll(out, Said(replies, n)) && !Tears(out, Said(replies, n))
        invariant Ahead(o, start, dispatched, Consume(ibuf.Bytes(), registered))
        invariant !more ==> Consume(ibuf.Bytes(), registered) == Outcome([], ibuf.Bytes(), Open)
        decreases |ibuf.Bytes()|, more
      {
        ghost var seen, was := ibuf.Bytes(), dispatched;
        ghost var own := Owned();
        SaidMore(out, replies, n);
        label Turning:
        v, more := Turn(e, ReplyAt(replies, n));
        assert v.Running? ==> forall x :: x in Owned() && x !in own ==> fresh@Turning(x);
        assert v.Running? ==> forall x :: x in Owned() && x !in own ==> fresh(x);
        if more {
          n := n + 1;
          AheadStep(o, start, was, dispatched, Consume(ibuf.Bytes(), registered));
        } else if v.Running? {
          assert ibuf.Bytes() == seen && dispatched == was + [] == was;
        } else {
          AheadEnd(o, start, was, Consume(seen, registered));
          OutIs();
          RepliedEnd(out, replies, n, v, Out());
          n := if v.Gone? then n else n + 1;
          return;
        }
      }
      ConsumeShort(ibuf.Bytes(), registered);
      AheadEnd(o, start, dispatched, Consume(ibuf.Bytes(), registered));
      RepliedAll(out, replies, n);
    }

    /** `ibuf.read_data`, which leaves the rest of the connection alone. */
    method ReadInput(ghost e: Epoch, k: KernelRead) returns (r: Result)
      requires Undisturbed(e) && ibuf.HeldOk() && ibuf.Packed()
      modifies ibuf, ibuf.pool, Owned()
      ensures Undisturbed(e) && ibuf.HeldOk() && Out() == old(Out())
      ensures dispatched == old(dispatched) && loop == old(loop)
      ensures r.Exit? ==> ibuf.pool.AtLimit()
      ensures !k.Data? ==> r.Exit? || r == Ret(-1)
      ensures k.Data? ==> r.Exit? || r == if |k.bytes| + |old(ibuf.Bytes())| > U8M then Ret(-1) else Ret(|k.bytes|)
      ensures r.Ret? && r.n > 0 ==> ibuf.Bytes() == old(ibuf.Bytes()) + k.bytes
      ensures fresh(Owned() - old(Owned()))
    {
      hide BufferPool.Valid, Holds, OnlyChanges, OnlyBoth, FreeSet, InterestOk, EncodeAll;
      Outside(ibuf);
      Apart(ibuf, obuf);
      ghost var m := ibuf.pool.holder;
      r := ibuf.ReadData(k);
      PeerKept(m, ibuf, obuf);
      OneOfBoth(e.holders, m, ibuf.pool.holder, ibuf, ibuf, obuf);
    }

    /** `ibuf.adjust`. */
    method AdjustInput(ghost e: Epoch)
      requires Undisturbed(e) && ibuf.HeldOk()
      modifies Owned()
      ensures Undisturbed(e) && ibuf.HeldOk() && ibuf.Packed() && ibuf.Bytes() == old(ibuf.Bytes())
      ensures ibuf.buf == old(ibuf.buf) && loop == old(loop) && dispatched == old(dispatched) && Out() == old(Out())
      ensures Owned() == old(Owned())
    {
      hide BufferPool.Valid, Holds, OnlyChanges, OnlyBoth, FreeSet, InterestOk, EncodeAll;
      Apart(ibuf, obuf);
      Apart(obuf, ibuf);
      Outside(ibuf);
      ibuf.Adjust();
    }

    lemma StillValid(e: Epoch)
      requires Undisturbed(e) && InputOk()
      ensures Valid() && Live()
    {
      hide BufferPool.Valid, Holds, InterestOk, EncodeAll, Parse, OnlyBoth;
    }

    lemma EpochFacts()
      requires Valid() && Live()
      ensures Undisturbed(Snapshot()) && Sending() && Buffers() && loop.Valid()
      ensures ibuf.HeldOk() && ibuf.Packed() && InputOk()
      ensures Parse(arrived, registered) == Outcome(dispatched, ibuf.Bytes(), Open)
    {
      hide BufferPool.Valid, Holds, InterestOk, EncodeAll, Parse;
      NeitherOfBoth(ibuf.pool.holder, ibuf, obuf);
    }

    lemma InputAgain()
      requires ibuf.HeldOk() && ibuf.Packed() && (ibuf.buf == null <==> ibuf.Bytes() == [])
      requires Parse(arrived, registered) == Outcome(dispatched, ibuf.Bytes(), Open)
      ensures InputOk()
    {
    }

    /** The read callback: whatever the kernel answers and whatever the message callbacks send, dispatches and
        verdict are those of the incremental parser on the residue and the new bytes; a connection that goes on is
        valid again, with its output what the sends of its callbacks, `replies`, make of it; one that goes is
        deregistered, uncounted and holds no buffer. The process can end in a callback: `Torn` needs a gap that a
        rollback has left at the front of the output. */
    method HandleRead(k: KernelRead, replies: seq<seq<Frame>>) returns (v: Verdict, ghost n: nat)
      requires Valid() && Live() && AllSizes(replies)
      modifies this, loop, counter, ibuf, obuf, ibuf.pool, Owned()
      ensures v.Quit? ==> ibuf.pool.AtLimit()
      ensures v.Quit? || v.Torn? || v == ToVerdict(ReadOutcome(old(dispatched), old(ibuf.Bytes()), k, registered).status)
      ensures old(dispatched) <= dispatched <= ReadOutcome(old(dispatched), old(ibuf.Bytes()), k, registered).msgs
      ensures v.Quit? || v.Torn? || dispatched == ReadOutcome(old(dispatched), old(ibuf.Bytes()), k, registered).msgs
      ensures |dispatched| == |old(dispatched)| + n && Replied(old(Out()), replies, n, v, Out())
      ensures v.Running? ==> k.Data? && Valid() && Live()
      ensures v.Running? ==> Undisturbed(old(Snapshot()).(arrived := old(arrived) + k.bytes))
      ensures v.Running? ==> fresh(Owned() - old(Owned()))
      ensures v.Running? ==> ibuf.Bytes() == ReadOutcome(old(dispatched), old(ibuf.Bytes()), k, registered).residue
      ensures v.Gone? ==> Valid() && CleanedUp(old(Snapshot()))
    {
      hide BufferPool.AtLimit, Undisturbed, CleanedUp, Valid, Owned, Consume, InterestOk, EncodeAll, TcpBuffer.Repr, TcpBuffer.Footprint, InputOk,
           ReadOutcome, Framing.HandleRead, Parse, AllSizes, Replied, Out, Sending;
      EpochFacts();
      ReadCases(dispatched, ibuf.Bytes(), k, registered);
      ghost var e, out := Snapshot(), Out();
      n := 0;
      var r := ReadInput(e, k);
      OutIs();
      if r.Exit? {
        RepliedNone(out, replies, Quit, Out());
        return Quit, 0;
      }
      if r.n == -1 {
        Reject(e);
        OutIs();
        RepliedNone(out, replies, Gone, Out());
        return Gone, 0;
      } else if r.n == 0 {
        Reject(e);
        OutIs();
        RepliedNone(out, replies, Gone, Out());
        return Gone, 0;
      }
      ghost var own := Owned();
      label Parsing:
      v, n := Process(e, k.bytes, replies);
      assert v.Running? ==> forall o :: o in Owned() && o !in own ==> fresh@Parsing(o);
      assert v.Running? ==> forall o :: o in Owned() && o !in own ==> fresh(o);
    }

    /** `handle_read` after a successful read. */
    method Process(ghost e: Epoch, ghost bytes: seq<byte>, replies: seq<seq<Frame>>) returns (v: Verdict, ghost n: nat)
      requires Undisturbed(e) && ibuf.HeldOk() && ibuf.Bytes() != [] && AllSizes(replies)
      requires Parse(e.arrived, registered).status == Open && bytes != []
      requires var o := Consume(ibuf.Bytes(), registered);
               Framing.HandleRead(Parse(e.arrived, registered), bytes, registered) == Outcome(dispatched + o.msgs, o.residue, o.status)
      modifies this, loop, counter, ibuf, obuf, ibuf.pool, Owned()
      ensures v.Quit? ==> ibuf.pool.AtLimit()
      ensures v.Quit? || v.Torn? || v == ToVerdict(Consume(old(ibuf.Bytes()), registered).status)
      ensures old(dispatched) <= dispatched <= old(dispatched) + Consume(old(ibuf.Bytes()), registered).msgs
      ensures v.Quit? || v.Torn? || dispatched == old(dispatched) + Consume(old(ibuf.Bytes()), registered).msgs
      ensures |dispatched| == |old(dispatched)| + n && Replied(old(Out()), replies, n, v, Out())
      ensures v.Running? ==> Valid() && Live() && Undisturbed(e.(arrived := e.arrived + bytes)) && fresh(Owned() - old(Owned()))
      ensures v.Running? ==> ibuf.HeldOk() && ibuf.Bytes() == Consume(old(ibuf.Bytes()), registered).residue
      ensures v.Gone? ==> Valid() && CleanedUp(e)
    {
      hide BufferPool.AtLimit, Undisturbed, CleanedUp, Valid, Owned, Consume, TcpBuffer.Repr, TcpBuffer.Footprint, InputOk,
           Framing.HandleRead, Parse, AllSizes, Replied, Out, Sending;
      v, n := ParseLoop(e, replies);
      if v.Running? {
        FinishRead(e, bytes);
      }
    }

    /** The end of a `handle_read` that keeps the connection. */
    method FinishRead(ghost e: Epoch, ghost bytes: seq<byte>)
      requires Undisturbed(e) && ibuf.HeldOk() && (ibuf.buf == null <==> ibuf.Bytes() == [])
      requires Parse(e.arrived, registered).status == Open && bytes != []
      requires Outcome(dispatched, ibuf.Bytes(), Open) == Framing.HandleRead(Parse(e.arrived, registered), bytes, registered)
      modifies this`arrived, Owned()
      ensures Valid() && Live() && Undisturbed(e.(arrived := e.arrived + bytes)) && Out() == old(Out())
      ensures Owned() == old(Owned())
      ensures dispatched == old(dispatched) && ibuf.HeldOk() && ibuf.Bytes() == old(ibuf.Bytes())
    {
      hide Undisturbed, Valid, Owned, InterestOk, EncodeAll, TcpBuffer.Repr, InputOk, Parse, Framing.HandleRead;
      ReadContinues(e.arrived, bytes, registered);
      AdjustInput(e);
      NoteArrived(e, bytes);
      InputAgain();
      StillValid(e.(arrived := e.arrived + bytes));
    }

    ghost method NoteArrived(e: Epoch, bytes: seq<byte>)
      requires Undisturbed(e)
      modifies this`arrived
      ensures Undisturbed(e.(arrived := e.arrived + bytes)) && arrived == e.arrived + bytes && Out() == old(Out())
      ensures Owned() == old(Owned())
    {
      hide BufferPool.Valid, Holds, OnlyBoth, InterestOk, EncodeAll;
      arrived := arrived + bytes;
    }

    // ---------- sending ----------

    /** `obuf.send_data`, which leaves the input side alone. */
    method AppendOutput(data: seq<byte>) returns (r: Result)
      requires Buffers() && obuf.Packed()
      modifies obuf, obuf.pool, obuf.Footprint()
      ensures Buffers() && obuf.Packed()
      ensures r.Exit? <==> old(obuf.NoMemoryFor(|data|))
      ensures r.Exit? ==> obuf.pool.AtLimit() && obuf.pool.totalMem == old(obuf.pool.totalMem)
      ensures old(obuf.pool.totalMem) <= obuf.pool.totalMem <= old(obuf.pool.totalMem) + U8M / 1024
      ensures r.Exit? || r == if |data| + |old(obuf.Bytes())| > U8M then Ret(-1) else Ret(0)
      ensures obuf.Bytes() == old(obuf.Bytes()) + if r == Ret(0) then data else []
      ensures r == Ret(0) ==> obuf.buf != null
      ensures InputIs(old(ibuf.buf), old(ibuf.Bytes()), old(ibuf.Packed()))
      ensures OnlyChanges(old(ibuf.pool.holder), ibuf.pool.holder, obuf)
      ensures fresh(obuf.Footprint() - old(obuf.Footprint()))
    {
      hide BufferPool.Valid, Holds, OnlyChanges, FreeSet;
      Outside(obuf);
      Apart(obuf, ibuf);
      ghost var m := obuf.pool.holder;
      r := obuf.SendData(data);
      PeerKept(m, obuf, ibuf);
    }

    /** `obuf.pop(n)`, likewise: it takes from the front and leaves a gap there. */
    method PopOutput(n: int)
      requires Buffers() && obuf.Packed() && obuf.buf != null && 0 < n <= obuf.Length()
      modifies obuf, obuf.pool, obuf.Footprint()
      ensures Buffers()
      ensures obuf.Bytes() == Without(old(obuf.Bytes()), n)
      ensures obuf.Packed() <==> n == old(obuf.Length())
      ensures InputIs(old(ibuf.buf), old(ibuf.Bytes()), old(ibuf.Packed()))
      ensures OnlyChanges(old(ibuf.pool.holder), ibuf.pool.holder, obuf)
      ensures obuf.Footprint() <= old(obuf.Footprint())
    {
      hide BufferPool.Valid, Holds, OnlyChanges, FreeSet;
      Outside(obuf);
      Apart(obuf, ibuf);
      ghost var m := obuf.pool.holder;
      obuf.Pop(n);
      PeerKept(m, obuf, ibuf);
    }

    /** The body of `send_data` up to the registration: head, then content, then the rollback. */
    method AppendFrame(f: Frame) returns (r: Result)
      requires |f.body| < 0x8000_0000
      requires Buffers() && obuf.Packed()
      modifies obuf, obuf.pool, obuf.Footprint()
      ensures r.Ret? ==> Buffers() && r == if SendTo(old(obuf.Bytes()), true, f).result.Accepted? then Ret(0) else Ret(-1)
      ensures r.Ret? ==> (r == Ret(0) <==> |old(obuf.Bytes())| + 8 + |f.body| <= 8388608)
      ensures r == Ret(0) ==> obuf.Packed() && obuf.Bytes() == old(obuf.Bytes()) + Encode(f)
      ensures r == Ret(-1) && (|old(obuf.Bytes())| + 8 > 8388608 || old(obuf.Bytes()) == []) ==>
                obuf.Packed() && obuf.Bytes() == old(obuf.Bytes())
      ensures r == Ret(-1) && |old(obuf.Bytes())| + 8 <= 8388608 && old(obuf.Bytes()) != [] ==>
                !obuf.Packed() && obuf.Bytes() == (old(obuf.Bytes()) + Head(f))[8..]
      ensures r.Ret? ==> obuf.Bytes() == SendTo(old(obuf.Bytes()), true, f).pending
      ensures r.Ret? ==> obuf.Packed() == SendTo(old(obuf.Bytes()), true, f).packed
      ensures InputIs(old(ibuf.buf), old(ibuf.Bytes()), old(ibuf.Packed()))
      ensures r.Exit? ==> obuf.pool.AtLimit() && old(obuf.pool.totalMem) + 2 * (U8M / 1024) >= MEM_LIMIT
      ensures Alone(old(ibuf.pool.holder))
      ensures fresh(obuf.Footprint() - old(obuf.Footprint()))
    {
      hide BufferPool.Valid, Holds, OnlyChanges, OnlyBoth, FreeSet, Head, TcpBuffer.Footprint, TcpBuffer.NoMemoryFor, BufferPool.AtLimit;
      ghost var was, m := obuf.Bytes(), ibuf.pool.holder;
      NeitherOfBoth(m, ibuf, obuf);
      r := AppendOutput(Head(f));
      obuf.pool.BelowLimit();
      ghost var m1 := ibuf.pool.holder;
      OneOfBoth(m, m, m1, obuf, ibuf, obuf);
      if r != Ret(0) {
        return;
      }
      ghost var mine := obuf.Footprint();
      label HeadIn:
      r := AppendOutput(f.body);
      obuf.pool.BelowLimit();
      assert forall o :: o in obuf.Footprint() && o !in mine ==> fresh@HeadIn(o);
      assert forall o :: o in obuf.Footprint() && o !in mine ==> fresh(o);
      ghost var m2 := ibuf.pool.holder;
      OneOfBoth(m, m1, m2, obuf, ibuf, obuf);
      if r == Ret(-1) {
        PopOutput(HEAD);
        OneOfBoth(m, m2, ibuf.pool.holder, obuf, ibuf, obuf);
      } else {
        Assoc(was, Head(f), f.body);
      }
    }

    /** The pieces of the output half. */
    lemma SendingAgain()
      requires Buffers() && loop != null && loop.Valid()
      requires InterestOk(loop.ioEvs, connfd, obuf.Bytes() != [])
      requires obuf.Packed() ==> Writable(accepted) && sock.sent + obuf.Bytes() == EncodeAll(accepted)
      ensures Sending()
    {
      hide BufferPool.Valid, Holds, InterestOk, EncodeAll;
    }

    lemma SendingFacts()
      requires Sending()
      ensures Buffers() && loop != null && loop.Valid() && obuf.HeldOk() && ibuf.HeldOk()
      ensures InterestOk(loop.ioEvs, connfd, obuf.Bytes() != [])
      ensures obuf.Packed() ==> Writable(accepted) && sock.sent + obuf.Bytes() == EncodeAll(accepted)
    {
      hide BufferPool.Valid, Holds, InterestOk, EncodeAll;
    }

    /** `send_data`, from a message callback or from anywhere between callbacks: accepted, refused or fatal as
        `SendTo` says, unless the process runs out of its memory limit. Write interest is registered when a message is
        accepted and nothing was pending. The input side is left alone. The length, added to what a buffer can hold,
        must not overflow a C `int`. */
    method SendData(data: seq<byte>, cmdid: int32) returns (r: SendResult)
      requires Sending() && |data| + U8M < 0x8000_0000
      modifies this`accepted, loop, obuf, obuf.pool, obuf.Footprint()
      ensures r.Fatal? || r == SendTo(old(Out()).pending, old(Out()).packed, Frame(cmdid, data)).result
      ensures r.Fatal? || (r.Accepted? <==> old(Out()).packed && |old(Out()).pending| + 8 + |data| <= 8388608)
      ensures r.Fatal? || (r.Broken? <==> !old(Out()).packed)
      ensures r.Accepted? ==>
                Out() == Output(old(Out()).pending + Encode(Frame(cmdid, data)), true, old(accepted) + [Frame(cmdid, data)])
      ensures r.Fatal? ==> obuf.pool.AtLimit() && old(obuf.pool.totalMem) + 2 * (U8M / 1024) >= MEM_LIMIT
      ensures r.Accepted? || r.Refused? ==> Sending() && Out() == SendOne(old(Out()), Frame(cmdid, data))
      ensures r.Accepted? ==> loop.ioEvs == WithWrite(old(loop.ioEvs), connfd, old(Out()).pending == [])
      ensures r.Refused? ==> loop.ioEvs == old(loop.ioEvs)
      ensures InputIs(old(ibuf.buf), old(ibuf.Bytes()), old(ibuf.Packed()))
      ensures r.Accepted? || r.Refused? ==> (old(Valid()) ==> Valid())
      ensures Alone(old(ibuf.pool.holder))
      ensures fresh(Owned() - old(Owned())) && fresh(obuf.Footprint() - old(obuf.Footprint()))
    {
      hide BufferPool.Valid, BufferPool.AtLimit, Holds, OnlyChanges, OnlyBoth, FreeSet, Head, Encode, EncodeAll, TcpBuffer.Footprint, Next, Parse,
           InterestOk, Merged, Reduced, SendTo, Sending;
      SendingFacts();
      Outside(obuf);
      OwnedIs();
      NeitherOfBoth(ibuf.pool.holder, ibuf, obuf);
      SendFacts(obuf.Bytes(), obuf.Packed(), Frame(cmdid, data));
      var f := Frame(cmdid, data);
      var needListen := obuf.Length() == 0;
      if obuf.buf != null && obuf.buf.head != 0 {
        return Broken;
      }
      ghost var was, evs := obuf.Bytes(), loop.ioEvs;
      InterestKept(evs, connfd, was != []);
      var ret := AppendFrame(f);
      OwnedIs();
      assert Owned() - old(Owned()) <= obuf.Footprint() - old(obuf.Footprint());
      if ret.Exit? {
        return Fatal;
      }
      if ret.n != 0 {
        SendingAgain();
        return Refused;
      }
      Accept(f, needListen, was);
      r := Accepted;
    }

    /** The end of a successful `send_data`. */
    method Accept(f: Frame, needListen: bool, ghost was: seq<byte>)
      requires Buffers() && Live() && loop.Valid() && |f.body| < 0x8000_0000
      requires needListen <==> was == []
      requires obuf.Packed() && obuf.Bytes() == was + Encode(f) && obuf.Bytes() != []
      requires InterestOk(WithWrite(loop.ioEvs, connfd, needListen), connfd, true)
      requires Writable(accepted) && sock.sent + was == EncodeAll(accepted)
      modifies this`accepted, loop
      ensures obuf.Footprint() == old(obuf.Footprint()) && Owned() == old(Owned())
      ensures Sending() && accepted == old(accepted) + [f] && loop.ioEvs == WithWrite(old(loop.ioEvs), connfd, needListen)
      ensures InputIs(old(ibuf.buf), old(ibuf.Bytes()), old(ibuf.Packed()))
    {
      hide BufferPool.Valid, Holds, Encode, EncodeAll, Next, InterestOk, Merged;
      if needListen {
        loop.AddIoev(connfd, TCP_WCB, {EPOLLOUT});
      }
      EncodeAllAppend(accepted, f);
      accepted := accepted + [f];
      Assoc(sock.sent, was, Encode(f));
      SendingAgain();
    }

    // ---------- writing ----------

    /** One round of the loop of `handle_write`. */
    method WriteTurn(ghost k: nat, ghost n: nat) returns (ret: int)
      requires Buffers() && obuf.Packed() && obuf.Length() > 0 && Writing(sock, k, n)
      modifies sock, obuf.Repr()
      ensures Buffers() && obuf.buf == old(obuf.buf) && obuf.Packed()
      ensures sock.sent + obuf.Bytes() == old(sock.sent) + old(obuf.Bytes()) && old(sock.sent) <= sock.sent
      ensures old(sock.answers) <= sock.answers && Written(sock, k, n)
      ensures ret == -1 <==> Failing(sock, k)
      ensures ret == 0 <==> Full(sock, k)
      ensures ret > 0 ==> Writing(sock, k, n) && obuf.Length() < old(obuf.Length())
      ensures ret >= -1 && InputIs(old(ibuf.buf), old(ibuf.Bytes()), old(ibuf.Packed()))
    {
      hide BufferPool.Valid, Holds, OnlyChanges, FreeSet, TcpBuffer.Footprint, Writing, Written, Failing, Full, AllTook, TookUntil, Taken;
      Outside(obuf);
      Apart(obuf, ibuf);
      ReprInFootprint(obuf);
      WritingIs(sock, k, n);
      ghost var answers, sent := sock.answers, |sock.sent|;
      ret := obuf.WriteFd(sock);
      OneAnswer(sock, k, n, answers, sent, sock.answers[|answers|]);
    }

    /** The loop of `handle_write`: 0 when the socket is full or nothing is left, -1 on an error of the socket; not
        `ok` where the assertion on a gap at the front fails. */
    method WriteLoop() returns (ret: int, ok: bool)
      requires Buffers()
      modifies sock, obuf.Repr()
      ensures !ok <==> !old(obuf.Packed()) && old(obuf.Bytes()) != []
      ensures ok ==> Buffers() && obuf.buf == old(obuf.buf) && obuf.Packed() == old(obuf.Packed())
      ensures ok ==> sock.sent + obuf.Bytes() == old(sock.sent) + old(obuf.Bytes()) && -1 <= ret <= 0
      ensures ok ==> old(sock.sent) <= sock.sent && old(sock.answers) <= sock.answers
      ensures ok ==> Written(sock, |old(sock.answers)|, |old(sock.sent)|)
      ensures ok ==> (ret == -1 <==> Failing(sock, |old(sock.answers)|))
      ensures ok && ret == 0 ==> obuf.Bytes() == [] || Full(sock, |old(sock.answers)|)
      ensures ok && old(obuf.Bytes()) == [] ==> ret == 0 && obuf.Bytes() == []
      ensures InputIs(old(ibuf.buf), old(ibuf.Bytes()), old(ibuf.Packed()))
    {
      hide BufferPool.Valid, Holds, OnlyChanges, FreeSet, TcpBuffer.Footprint, Writing, Written, Failing, Full, AllTook, TookUntil, Taken;
      Outside(obuf);
      ReprInFootprint(obuf);
      ghost var all, k, n := sock.sent + obuf.Bytes(), |sock.answers|, |sock.sent|;
      NoAnswer(sock);
      while obuf.Length() > 0
        invariant Buffers() && obuf.buf == old(obuf.buf) && obuf.Packed() == old(obuf.Packed())
        invariant sock.sent + obuf.Bytes() == all && old(sock.sent) <= sock.sent
        invariant !obuf.Packed() ==> obuf.Bytes() == old(obuf.Bytes())
        invariant old(obuf.Bytes()) == [] ==> obuf.Bytes() == []
        invariant old(sock.answers) <= sock.answers && Writing(sock, k, n)
        invariant InputIs(old(ibuf.buf), old(ibuf.Bytes()), old(ibuf.Packed()))
        decreases obuf.Length()
      {
        if obuf.buf.head != 0 {
          return -1, false;
        }
        ret := WriteTurn(k, n);
        if ret == -1 {
          return -1, true;
        }
        if ret == 0 {
          return 0, true;
        }
      }
      WritingIs(sock, k, n);
      return 0, true;
    }

    /** All that writing leaves alone while it keeps the connection. */
    ghost predicate WroteOnly(e: Epoch, was: Output, wasSent: seq<byte>)
      reads this, loop, sock, counter, ibuf.pool, obuf, obuf.buf, obuf.Repr()
    {
      && loop != null && Snapshot() == e.(sent := sock.sent)
      && Out().packed == was.packed && accepted == was.accepted
      && sock.sent + Out().pending == wasSent + was.pending && wasSent <= sock.sent
    }

    /** The write callback: writes until the socket is full or nothing is pending, and in that case drops write
        interest. The buffer stays attached, emptied or not. */
    method HandleWrite() returns (v: Verdict)
      requires Valid() && Live()
      modifies this, loop, sock, counter, ibuf, obuf, ibuf.pool, Owned()
      ensures v.Abort? <==> !old(obuf.Packed()) && old(obuf.Bytes()) != []
      ensures !v.Quit? && !v.Torn?
      ensures !v.Abort? ==> old(sock.answers) <= old(sock).answers
      ensures !v.Abort? ==>
                Answered(old(sock), |old(sock.answers)|, |old(sock.sent)|, v.Gone?, v.Running? && Out().pending == [])
      ensures v.Running? ==> Valid() && InputIs(old(ibuf.buf), old(ibuf.Bytes()), old(ibuf.Packed())) && dispatched == old(dispatched)
      ensures v.Running? ==> WroteOnly(old(Snapshot()), old(Out()), old(sock.sent)) && obuf.buf == old(obuf.buf)
      ensures v.Running? ==>
                loop.ioEvs == if Out().pending == [] then Reduced(old(loop.ioEvs), connfd, {EPOLLOUT}) else old(loop.ioEvs)
      ensures v.Gone? ==> Valid() && CleanedUp(old(Snapshot())) && dispatched == old(dispatched) && accepted == old(accepted)
    {
      hide BufferPool.Valid, Holds, OnlyChanges, OnlyBoth, FreeSet, EncodeAll, TcpBuffer.Footprint, Next, Parse,
           InterestOk, Merged, Reduced, Written, Failing, Full;
      EpochFacts();
      Outside(obuf);
      Outside(ibuf);
      ReprInFootprint(obuf);
      InterestKept(loop.ioEvs, connfd, obuf.Bytes() != []);
      var ret, ok := WriteLoop();
      if !ok {
        return Abort;
      }
      if ret == -1 {
        CleanConn();
        return Gone;
      }
      DropInterest();
      v := Running;
    }

    /** The end of `handle_write`: write interest goes with the last pending byte. */
    method DropInterest()
      requires Buffers() && InputOk() && Live() && loop.Valid()
      requires InterestOk(loop.ioEvs, connfd, true) || (obuf.Bytes() == [] && InterestOk(loop.ioEvs, connfd, false))
      requires obuf.Packed() ==> Writable(accepted) && sock.sent + obuf.Bytes() == EncodeAll(accepted)
      modifies loop
      ensures Valid() && loop.ioEvs - {connfd} == old(loop.ioEvs) - {connfd}
      ensures loop.ioEvs == if obuf.Bytes() == [] then Reduced(old(loop.ioEvs), connfd, {EPOLLOUT}) else old(loop.ioEvs)
      ensures Out() == old(Out()) && InputIs(old(ibuf.buf), old(ibuf.Bytes()), old(ibuf.Packed()))
    {
      hide BufferPool.Valid, Holds, EncodeAll, Next, Parse, InterestOk, Reduced;
      OthersKept(loop.ioEvs, connfd, false);
      ReducedOk(loop.ioEvs, connfd);
      if obuf.Length() == 0 {
        loop.DelIoevMask(connfd, {EPOLLOUT});
      }
      SendingAgain();
    }
  }
}
