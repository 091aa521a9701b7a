/** One connection end to end: frames accepted by a writer, its pending output, the bytes in flight, and the
    parser of the reader, under any schedule of sends, partial writes and reads. */
module Pipe {
  import opened Framing

  /** `arrived` records every byte the reader has read so far. */
  datatype Pipe = Pipe(sent: seq<Frame>, pending: seq<byte>, wire: seq<byte>, arrived: seq<byte>, reader: Outcome)

  const START := Pipe([], [], [], [], Outcome([], [], Open))

  datatype Event = Send(f: Frame) | Write(n: nat) | Read(n: nat)

  /** What a caller of `send_data` must keep to: a registered command and a body of 1 to 65528 bytes. */
  predicate Sendable(f: Frame, registered: set<int>) {
    Receivable(f, registered) && f.body != []
  }

  lemma SendableIs(f: Frame, registered: set<int>)
    ensures Sendable(f, registered) <==> f.cmdid in registered && 1 <= |f.body| <= 65528
  {
  }

  /** A write takes any nonempty front of the pending output; a read takes any nonempty front of what is in
      flight that fits the largest buffer beside the residue. */
  ghost predicate Enabled(p: Pipe, e: Event, registered: set<int>) {
    match e
    case Send(f) => Sendable(f, registered)
    case Write(n) => 0 < n <= |p.pending|
    case Read(n) => 0 < n <= |p.wire| && |p.reader.residue| + n <= U8M
  }

  function Step(p: Pipe, e: Event, registered: set<int>): Pipe {
    match e
    case Send(f) =>
      if |f.body| < 0x8000_0000 then p.(sent := p.sent + [f], pending := p.pending + Encode(f)) else p
    case Write(n) =>
      if n <= |p.pending| then p.(pending := p.pending[n..], wire := p.wire + p.pending[..n]) else p
    case Read(n) =>
      if n <= |p.wire| then
        p.(wire := p.wire[n..], arrived := p.arrived + p.wire[..n],
           reader := HandleRead(p.reader, p.wire[..n], registered))
      else p
  }

  ghost predicate Inv(p: Pipe, registered: set<int>) {
    && (forall f :: f in p.sent ==> Sendable(f, registered))
    && Writable(p.sent)
    && EncodeAll(p.sent) == p.arrived + p.wire + p.pending
    && p.reader == Parse(p.arrived, registered)
  }

  lemma InvStart(registered: set<int>)
    ensures Inv(START, registered)
  {
    ParseEmpty(registered);
    assert EncodeAll([]) == [];
  }

  lemma InvMeans(p: Pipe, registered: set<int>)
    requires Inv(p, registered)
    ensures p.reader.status == Open && p.reader.msgs <= p.sent
    ensures p.wire == [] && p.pending == [] ==> p.reader.msgs == p.sent && p.reader.residue == []
    ensures !EndsOnEmptyBody(p.arrived, registered)
  {
    hide EncodeAll, Parse;
    assert p.arrived + p.wire + p.pending == p.arrived + (p.wire + p.pending);
    ArrivedPrefix(p.sent, p.arrived, p.wire + p.pending, registered);
    var ms := p.reader.msgs;
    if ms != [] {
      assert ms[|ms| - 1] == p.sent[|ms| - 1];
      assert p.sent[|ms| - 1] in p.sent;
    }
  }

  lemma InvSend(p: Pipe, f: Frame, registered: set<int>)
    requires Inv(p, registered) && Sendable(f, registered)
    ensures Inv(Step(p, Send(f), registered), registered)
  {
    hide Parse, Consume, Encode, EncodeAll;
    EncodeAllAppend(p.sent, f);
    assert p.arrived + p.wire + (p.pending + Encode(f)) == (p.arrived + p.wire + p.pending) + Encode(f);
  }

  lemma InvRead(p: Pipe, n: nat, registered: set<int>)
    requires Inv(p, registered) && Enabled(p, Read(n), registered)
    ensures Inv(Step(p, Read(n), registered), registered)
  {
    hide Parse, HandleRead, EndsOnEmptyBody, EncodeAll, Sendable;
    var p' := Step(p, Read(n), registered);
    assert p.wire == p.wire[..n] + p.wire[n..];
    InvMeans(p, registered);
    ReadStep(p.arrived, p.wire[..n], registered);
    AfterReadNoEmptyEnd(p, p', registered);
  }

  lemma InvStep(p: Pipe, e: Event, registered: set<int>)
    requires Inv(p, registered) && Enabled(p, e, registered)
    ensures Inv(Step(p, e, registered), registered)
  {
    hide Parse, Consume, EncodeAll, Encode, Sendable, HandleRead;
    match e
    case Send(f) => InvSend(p, f, registered);
    case Write(n) => assert p.pending == p.pending[..n] + p.pending[n..];
    case Read(n) => InvRead(p, n, registered);
  }

  /** No sent frame has an empty body, so no read can end on one. */
  lemma AfterReadNoEmptyEnd(p: Pipe, p': Pipe, registered: set<int>)
    requires Inv(p, registered)
    requires p'.sent == p.sent && EncodeAll(p.sent) == p'.arrived + p'.wire + p'.pending
    ensures !EndsOnEmptyBody(p'.arrived, registered)
  {
    InvMeans(p'.(reader := Parse(p'.arrived, registered)), registered);
  }

  function Run(p: Pipe, es: seq<Event>, registered: set<int>): Pipe
    decreases |es|
  {
    if es == [] then p else Step(Run(p, es[..|es| - 1], registered), es[|es| - 1], registered)
  }

  ghost predicate Schedule(p: Pipe, es: seq<Event>, registered: set<int>) {
    forall i :: 0 <= i < |es| ==> Enabled(Run(p, es[..i], registered), es[i], registered)
  }

  lemma {:induction false} InvRun(es: seq<Event>, registered: set<int>)
    requires Schedule(START, es, registered)
    ensures Inv(Run(START, es, registered), registered)
    decreases |es|
  {
    hide Inv, Step, Enabled;
    if es == [] {
      InvStart(registered);
    } else {
      var n := |es| - 1;
      var front := es[..n];
      assert forall i :: 0 <= i <= n ==> front[..i] == es[..i];
      InvRun(front, registered);
      InvStep(Run(START, front, registered), es[n], registered);
    }
  }

  /** The frames of the `Send` events, in order. */
  function Sends(es: seq<Event>): seq<Frame>
    decreases |es|
  {
    if es == [] then []
    else Sends(es[..|es| - 1]) + if es[|es| - 1].Send? then [es[|es| - 1].f] else []
  }

  lemma {:induction false} SentIsSends(es: seq<Event>, registered: set<int>)
    requires Schedule(START, es, registered)
    ensures Run(START, es, registered).sent == Sends(es)
    decreases |es|
  {
    hide Inv, HandleRead;
    if es != [] {
      var n := |es| - 1;
      var front := es[..n];
      assert forall i :: 0 <= i <= n ==> front[..i] == es[..i];
      SentIsSends(front, registered);
      assert Enabled(Run(START, es[..n], registered), es[n], registered);
    }
  }

  /** Round trip: under every schedule the reader has dispatched a prefix of what was sent and keeps the
      connection; once nothing is pending or in flight it has dispatched exactly what was sent. */
  lemma RoundTrip(es: seq<Event>, registered: set<int>)
    requires Schedule(START, es, registered)
    ensures var p := Run(START, es, registered);
            && p.reader.status == Open
            && p.reader.msgs <= Sends(es)
            && (p.pending == [] && p.wire == [] ==> p.reader.msgs == Sends(es) && p.reader.residue == [])
  {
    hide Inv, Run, Sends;
    InvRun(es, registered);
    SentIsSends(es, registered);
    InvMeans(Run(START, es, registered), registered);
  }

  /** Nothing gets stuck: while anything is pending or in flight, a write or a one-byte read is possible. */
  lemma Progress(es: seq<Event>, registered: set<int>)
    requires Schedule(START, es, registered)
    ensures var p := Run(START, es, registered);
            (p.pending == [] && p.wire == []) || Enabled(p, Write(1), registered) || Enabled(p, Read(1), registered)
  {
    hide Run, Parse;
    InvRun(es, registered);
    ResidueBound(Run(START, es, registered).arrived, registered);
  }

  /** What each event moves. */
  lemma StepMoves(p: Pipe, e: Event, registered: set<int>)
    requires Inv(p, registered) && Enabled(p, e, registered)
    ensures e.Send? ==> Step(p, e, registered) == p.(sent := p.sent + [e.f], pending := p.pending + Encode(e.f))
    ensures e.Write? ==> Step(p, e, registered) == p.(pending := p.pending[e.n..], wire := p.wire + p.pending[..e.n])
    ensures e.Read? ==>
              Step(p, e, registered) == Pipe(p.sent, p.pending, p.wire[e.n..], p.arrived + p.wire[..e.n],
                                             Parse(p.arrived + p.wire[..e.n], registered))
  {
    hide Parse, HandleRead, EncodeAll, Encode;
    if e.Read? {
      InvRead(p, e.n, registered);
    }
  }

  lemma OneMore(es: seq<Event>, e: Event, registered: set<int>)
    requires Schedule(START, es, registered) && Enabled(Run(START, es, registered), e, registered)
    ensures Schedule(START, es + [e], registered)
    ensures Run(START, es + [e], registered) == Step(Run(START, es, registered), e, registered)
    ensures !e.Send? ==> Sends(es + [e]) == Sends(es)
  {
    hide Step, Enabled;
    assert (es + [e])[..|es|] == es;
    assert forall i :: 0 <= i < |es| ==> (es + [e])[..i] == es[..i];
  }

  lemma {:induction false} DrainWire(es: seq<Event>, registered: set<int>) returns (more: seq<Event>)
    requires Schedule(START, es, registered) && Run(START, es, registered).pending == []
    ensures Schedule(START, es + more, registered) && Sends(es + more) == Sends(es)
    ensures var p := Run(START, es + more, registered); p.pending == [] && p.wire == []
    decreases |Run(START, es, registered).wire|
  {
    hide Run, Schedule, Sends, Inv;
    var p := Run(START, es, registered);
    if p.wire == [] {
      more := [];
      assert es + more == es;
    } else {
      InvRun(es, registered);
      ReadOne(p, registered);
      OneMore(es, Read(1), registered);
      StepMoves(p, Read(1), registered);
      var rest := DrainWire(es + [Read(1)], registered);
      more := [Read(1)] + rest;
      assert es + more == es + [Read(1)] + rest;
    }
  }

  lemma ReadOne(p: Pipe, registered: set<int>)
    requires Inv(p, registered) && p.wire != []
    ensures Enabled(p, Read(1), registered)
  {
    hide Parse, EncodeAll;
    ResidueBound(p.arrived, registered);
  }

  /** Everything can arrive: after any schedule there are writes and reads that leave nothing pending or in flight, and
      then the reader has dispatched exactly what was sent. */
  lemma Drains(es: seq<Event>, registered: set<int>) returns (more: seq<Event>)
    requires Schedule(START, es, registered)
    ensures Schedule(START, es + more, registered) && Sends(es + more) == Sends(es)
    ensures var p := Run(START, es + more, registered);
            p.pending == [] && p.wire == [] && p.reader.msgs == Sends(es) && p.reader.status == Open
  {
    hide Run, Schedule, Sends, Inv;
    var p := Run(START, es, registered);
    if p.pending == [] {
      more := DrainWire(es, registered);
    } else {
      var w := Write(|p.pending|);
      InvRun(es, registered);
      OneMore(es, w, registered);
      StepMoves(p, w, registered);
      var rest := DrainWire(es + [w], registered);
      more := [w] + rest;
      assert es + more == es + [w] + rest;
    }
    RoundTrip(es + more, registered);
  }
}
