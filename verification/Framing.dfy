/** The wire format (an 8-byte head: command id, body length, both 32-bit little-endian two's complement) and
    the incremental parser of `tcp_conn::handle_read`, as functions on byte sequences. */
module Framing {
  type byte = x: int | 0 <= x < 256
  type int32 = x: int | -0x8000_0000 <= x < 0x8000_0000

  /** COMMU_HEAD_LENGTH */
  const HEAD: nat := 8
  /** MSG_LENGTH_LIMIT */
  const LIMIT: nat := 65536 - HEAD

  /** A message as the dispatcher sees it. */
  datatype Frame = Frame(cmdid: int32, body: seq<byte>)

  // ---------- 32-bit words ----------

  function Unsigned(x: int32): nat {
    if x < 0 then x + 0x1_0000_0000 else x
  }

  function EncodeWord(x: int32): (s: seq<byte>)
    ensures |s| == 4
  {
    var u := Unsigned(x);
    [u % 256, u / 256 % 256, u / 65536 % 256, u / 16777216 % 256]
  }

  function DecodeWord(s: seq<byte>): int32
    requires |s| == 4
  {
    var u: int := (s[0] as int) + 256 * (s[1] as int) + 65536 * (s[2] as int) + 16777216 * (s[3] as int);
    if u >= 0x8000_0000 then u - 0x1_0000_0000 else u
  }

  lemma Digits(u: nat)
    requires u < 0x1_0000_0000
    ensures u == u % 256 + 256 * (u / 256 % 256) + 65536 * (u / 65536 % 256) + 16777216 * (u / 16777216 % 256)
  {
    assert u / 65536 == u / 256 / 256;
    assert u / 16777216 == u / 256 / 256 / 256;
  }

  lemma WordRoundTrip(x: int32)
    ensures DecodeWord(EncodeWord(x)) == x
  {
    Digits(Unsigned(x));
  }

  /** The number four bytes stand for, the least significant byte first. */
  function Value(s: seq<byte>): nat
    requires |s| == 4
  {
    s[0] as int + 256 * s[1] as int + 65536 * s[2] as int + 16777216 * s[3] as int
  }

  /** Byte by byte: little-endian, two's complement. */
  lemma WordBytes(x: int32)
    ensures Value(EncodeWord(x)) == if x >= 0 then x else x + 0x1_0000_0000
    ensures EncodeWord(0x01020304) == [4, 3, 2, 1] && EncodeWord(-2) == [254, 255, 255, 255]
  {
    Digits(Unsigned(x));
  }

  lemma BytesDigits(s: seq<byte>)
    requires |s| == 4
    ensures var u := Value(s);
            u < 0x1_0000_0000 && u % 256 == s[0] as int && u / 256 % 256 == s[1] as int
            && u / 65536 % 256 == s[2] as int && u / 16777216 % 256 == s[3] as int
  {
    var u := Value(s);
    var a, b, c, d := s[0] as int, s[1] as int, s[2] as int, s[3] as int;
    assert u == a + 256 * (b + 256 * (c + 256 * d));
    assert u / 256 == b + 256 * (c + 256 * d);
    assert u / 65536 == u / 256 / 256 && u / 256 / 256 == c + 256 * d;
    assert u / 16777216 == u / 65536 / 256 == d;
  }

  /** Every four bytes are the encoding of the word they decode to. */
  lemma BytesRoundTrip(s: seq<byte>)
    requires |s| == 4
    ensures EncodeWord(DecodeWord(s)) == s
  {
    BytesDigits(s);
    assert Unsigned(DecodeWord(s)) == Value(s);
  }

  // ---------- frames ----------

  /** The head and body as `send_data` writes them. The length field is a C `int`. */
  function Head(f: Frame): (s: seq<byte>)
    requires |f.body| < 0x8000_0000
    ensures |s| == HEAD
  {
    EncodeWord(f.cmdid) + EncodeWord(|f.body|)
  }

  function Encode(f: Frame): seq<byte>
    requires |f.body| < 0x8000_0000
  {
    Head(f) + f.body
  }

  ghost predicate Writable(fs: seq<Frame>) {
    forall f :: f in fs ==> |f.body| < 0x8000_0000
  }

  function EncodeAll(fs: seq<Frame>): seq<byte>
    requires Writable(fs)
  {
    if fs == [] then [] else
      assert fs[0] in fs && forall f :: f in fs[1..] ==> f in fs;
      Encode(fs[0]) + EncodeAll(fs[1..])
  }

  lemma {:induction false} EncodeAllAppend(fs: seq<Frame>, f: Frame)
    requires Writable(fs) && |f.body| < 0x8000_0000
    ensures Writable(fs + [f])
    ensures EncodeAll(fs + [f]) == EncodeAll(fs) + Encode(f)
  {
    hide Encode;
    if fs == [] {
      assert fs + [f] == [f] && [f][1..] == [];
      assert EncodeAll([]) == [];
    } else {
      assert fs[0] in fs && forall g :: g in fs[1..] ==> g in fs;
      assert (fs + [f])[1..] == fs[1..] + [f];
      EncodeAllAppend(fs[1..], f);
    }
  }

  // ---------- one frame ----------

  /** What the front of the buffer is. */
  datatype Front = NeedMore | Bad | Whole(frame: Frame)

  /** The tests of the loop in `handle_read`, in its order: a head must be complete, the length in range, the
      body complete, and only then must the command id be registered. */
  function Next(s: seq<byte>, registered: set<int>): Front {
    if |s| < HEAD then NeedMore
    else
      var len := DecodeWord(s[4..8]);
      if len > LIMIT || len < 0 then Bad
      else if |s| < HEAD + len then NeedMore
      else if DecodeWord(s[..4]) !in registered then Bad
      else Whole(Frame(DecodeWord(s[..4]), s[HEAD..HEAD + len]))
  }

  /** The decision about the front of the buffer does not depend on what follows it. */
  lemma NextMonotone(a: seq<byte>, b: seq<byte>, registered: set<int>)
    requires !Next(a, registered).NeedMore?
    ensures Next(a + b, registered) == Next(a, registered)
  {
    assert (a + b)[..4] == a[..4] && (a + b)[4..8] == a[4..8];
    if Next(a, registered).Whole? {
      var n := HEAD + DecodeWord(a[4..8]);
      assert (a + b)[HEAD..n] == a[HEAD..n];
    }
  }

  lemma WholeLength(s: seq<byte>, registered: set<int>)
    requires Next(s, registered).Whole?
    ensures HEAD + |Next(s, registered).frame.body| <= |s|
    ensures |Next(s, registered).frame.body| <= LIMIT
  {
  }

  /** What a connection accepts from its peer. */
  predicate Receivable(f: Frame, registered: set<int>) {
    |f.body| <= LIMIT && f.cmdid in registered
  }

  lemma ReceivableIs(f: Frame, registered: set<int>)
    ensures Receivable(f, registered) <==> |f.body| <= 65528 && f.cmdid in registered
  {
  }

  /** What a head decides, any command id and any 32-bit length in it, with `tail` behind it: a length out of range
      first; then an incomplete body; then an unknown command. */
  lemma NextOfHead(cmdid: int32, len: int32, tail: seq<byte>, registered: set<int>)
    ensures Next(EncodeWord(cmdid) + EncodeWord(len) + tail, registered) ==
              if len < 0 || len > 65528 then Bad
              else if |tail| < len as int then NeedMore
              else if cmdid !in registered then Bad
              else Whole(Frame(cmdid, tail[..len]))
  {
    hide EncodeWord, DecodeWord;
    var s := EncodeWord(cmdid) + EncodeWord(len) + tail;
    assert s[..4] == EncodeWord(cmdid);
    assert s[4..8] == EncodeWord(len);
    WordRoundTrip(cmdid);
    WordRoundTrip(len);
    if 0 <= len <= |tail| {
      assert s[HEAD..HEAD + len] == tail[..len];
    }
  }

  lemma NextOfShort(s: seq<byte>, registered: set<int>)
    ensures |s| < 8 ==> Next(s, registered) == NeedMore
  {
  }

  /** A written frame is recognised exactly when it may be received. */
  lemma NextOfEncoded(f: Frame, rest: seq<byte>, registered: set<int>)
    requires |f.body| < 0x8000_0000
    ensures Next(Encode(f) + rest, registered) ==
              if |f.body| <= 65528 && f.cmdid in registered then Whole(f) else Bad
  {
    hide EncodeWord, Next;
    NextOfHead(f.cmdid, |f.body|, f.body + rest, registered);
    assert Encode(f) + rest == EncodeWord(f.cmdid) + EncodeWord(|f.body|) + (f.body + rest);
    assert (f.body + rest)[..|f.body|] == f.body;
  }

  // ---------- the one-shot parser ----------

  datatype Status = Open | Closed | Aborted

  /** Dispatched messages, unparsed residue, and what became of the connection. */
  datatype Outcome = Outcome(msgs: seq<Frame>, residue: seq<byte>, status: Status)

  function Prepend(f: Frame, o: Outcome): Outcome {
    o.(msgs := [f] + o.msgs)
  }

  /** The reference: parse a whole stream at once. */
  function Parse(s: seq<byte>, registered: set<int>): (o: Outcome)
    ensures o.status != Aborted
    decreases |s|
  {
    match Next(s, registered)
    case NeedMore => Outcome([], s, Open)
    case Bad => Outcome([], [], Closed)
    case Whole(f) =>
      WholeLength(s, registered);
      Prepend(f, Parse(s[HEAD + |f.body|..], registered))
  }

  /** The loop of `handle_read` as written. Popping the head may already give the buffer back; popping an empty
      body after that trips the assertion in `tcp_buffer::pop`. */
  function Consume(s: seq<byte>, registered: set<int>): Outcome
    decreases |s|
  {
    match Next(s, registered)
    case NeedMore => Outcome([], s, Open)
    case Bad => Outcome([], [], Closed)
    case Whole(f) =>
      WholeLength(s, registered);
      if |s| == HEAD then Outcome([f], [], Aborted)
      else Prepend(f, Consume(s[HEAD + |f.body|..], registered))
  }

  /** The stream ends just after a frame with an empty body. */
  predicate EndsOnEmptyBody(s: seq<byte>, registered: set<int>) {
    var o := Parse(s, registered);
    o.status == Open && o.residue == [] && o.msgs != [] && o.msgs[|o.msgs| - 1].body == []
  }

  /** The loop as written aborts exactly on a buffer that ends on an empty body, and agrees with the reference
      on every other. */
  lemma {:induction false} ConsumeExact(s: seq<byte>, registered: set<int>)
    ensures Consume(s, registered).status == Aborted <==> EndsOnEmptyBody(s, registered)
    ensures !EndsOnEmptyBody(s, registered) ==> Consume(s, registered) == Parse(s, registered)
    decreases |s|
  {
    var n := Next(s, registered);
    if n.Whole? {
      WholeLength(s, registered);
      var rest := s[HEAD + |n.frame.body|..];
      var o := Parse(rest, registered);
      ConsumeExact(rest, registered);
      if |s| == HEAD {
        assert rest == [];
      } else if rest == [] {
        assert o == Outcome([], [], Open);
        assert n.frame.body != [];
      } else {
        ResidueOrMessages(rest, registered);
      }
    }
  }

  lemma ResidueOrMessages(s: seq<byte>, registered: set<int>)
    requires s != []
    ensures var o := Parse(s, registered); o.status == Open && o.residue == [] ==> o.msgs != []
  {
  }

  /** After a parse that keeps the connection, less than one maximal frame is left over. */
  lemma {:induction false} ResidueBound(s: seq<byte>, registered: set<int>)
    ensures var o := Parse(s, registered);
            && |o.residue| <= |s|
            && |o.residue| < 65536
            && (o.status == Open ==> Next(o.residue, registered).NeedMore?)
    decreases |s|
  {
    var n := Next(s, registered);
    if n.Whole? {
      WholeLength(s, registered);
      ResidueBound(s[HEAD + |n.frame.body|..], registered);
    }
  }

  // ---------- chunking ----------

  /** Continue a parse with more bytes. */
  function Resume(o: Outcome, more: seq<byte>, registered: set<int>): Outcome {
    if o.status != Open then o
    else
      var p := Parse(o.residue + more, registered);
      p.(msgs := o.msgs + p.msgs)
  }

  /** One turn of the reference. */
  lemma ParseTurn(s: seq<byte>, registered: set<int>)
    ensures match Next(s, registered)
            case NeedMore => Parse(s, registered) == Outcome([], s, Open)
            case Bad => Parse(s, registered) == Outcome([], [], Closed)
            case Whole(f) =>
              HEAD + |f.body| <= |s| && Parse(s, registered) == Prepend(f, Parse(s[HEAD + |f.body|..], registered))
  {
    if Next(s, registered).Whole? {
      WholeLength(s, registered);
    }
  }

  /** Parsing in two pieces is parsing at once. */
  lemma {:induction false} ParseSplit(a: seq<byte>, b: seq<byte>, registered: set<int>)
    ensures Parse(a + b, registered) == Resume(Parse(a, registered), b, registered)
    decreases |a|
  {
    hide Next, Parse;
    ParseTurn(a, registered);
    ParseTurn(a + b, registered);
    match Next(a, registered)
    case NeedMore =>
      assert [] + Parse(a + b, registered).msgs == Parse(a + b, registered).msgs;
    case Bad =>
      NextMonotone(a, b, registered);
    case Whole(f) =>
      NextMonotone(a, b, registered);
      var k := HEAD + |f.body|;
      assert (a + b)[k..] == a[k..] + b;
      ParseSplit(a[k..], b, registered);
      ResumePrepend(f, Parse(a[k..], registered), b, registered);
  }

  lemma ResumePrepend(f: Frame, o: Outcome, more: seq<byte>, registered: set<int>)
    ensures Resume(Prepend(f, o), more, registered) == Prepend(f, Resume(o, more, registered))
  {
    hide Parse;
    if o.status == Open {
      var p := Parse(o.residue + more, registered);
      assert [f] + (o.msgs + p.msgs) == ([f] + o.msgs) + p.msgs;
    }
  }

  /** What has been dispatched from a prefix of the stream is a prefix of what the whole stream dispatches. */
  lemma ParsePrefix(a: seq<byte>, b: seq<byte>, registered: set<int>)
    ensures Parse(a, registered).msgs <= Parse(a + b, registered).msgs
  {
    ParseSplit(a, b, registered);
  }

  /** The largest size class. */
  const U8M: nat := 8388608

  /** One call of `handle_read` that finds `chunk` readable: what does not fit the largest size class closes the
      connection, like an end of file (an empty chunk). */
  function HandleRead(o: Outcome, chunk: seq<byte>, registered: set<int>): Outcome {
    if o.status != Open then o
    else if chunk == [] || |o.residue| + |chunk| > U8M then Outcome(o.msgs, [], Closed)
    else
      var p := Consume(o.residue + chunk, registered);
      p.(msgs := o.msgs + p.msgs)
  }

  function HandleReads(chunks: seq<seq<byte>>, registered: set<int>): Outcome
    decreases |chunks|
  {
    if chunks == [] then Outcome([], [], Open)
    else HandleRead(HandleReads(chunks[..|chunks| - 1], registered), chunks[|chunks| - 1], registered)
  }

  function Join(chunks: seq<seq<byte>>): seq<byte>
    decreases |chunks|
  {
    if chunks == [] then [] else Join(chunks[..|chunks| - 1]) + chunks[|chunks| - 1]
  }

  /** Every read found data, and it fitted the largest class beside the residue of the reads before it. */
  ghost predicate Readable(chunks: seq<seq<byte>>, registered: set<int>) {
    forall i :: 0 <= i < |chunks| ==>
      chunks[i] != [] && |Parse(Join(chunks[..i]), registered).residue| + |chunks[i]| <= U8M
  }

  /** Reads of up to 8 MiB less 65535 bytes always fit. */
  lemma SmallReadsFit(chunks: seq<seq<byte>>, registered: set<int>)
    requires forall i :: 0 <= i < |chunks| ==> 0 < |chunks[i]| <= 8388608 - 65535
    ensures Readable(chunks, registered)
  {
    forall i | 0 <= i < |chunks|
      ensures chunks[i] != [] && |Parse(Join(chunks[..i]), registered).residue| + |chunks[i]| <= U8M
    {
      ResidueBound(Join(chunks[..i]), registered);
    }
  }

  /** No read ended just after a frame with an empty body. */
  ghost predicate NoEmptyEnd(chunks: seq<seq<byte>>, registered: set<int>) {
    forall k :: 0 <= k <= |chunks| ==> !EndsOnEmptyBody(Join(chunks[..k]), registered)
  }

  lemma ParseEmpty(registered: set<int>)
    ensures Parse([], registered) == Outcome([], [], Open)
    ensures !EndsOnEmptyBody([], registered)
  {
  }

  /** Ending on an empty body is decided by the last read and the residue before it. */
  lemma EmptyEndSplit(a: seq<byte>, b: seq<byte>, registered: set<int>)
    requires b != []
    ensures EndsOnEmptyBody(a + b, registered) <==>
              Parse(a, registered).status == Open && EndsOnEmptyBody(Parse(a, registered).residue + b, registered)
  {
    ParseSplit(a, b, registered);
    var o := Parse(a, registered);
    ResidueOrMessages(o.residue + b, registered);
  }

  /** One read that fits, after `s` has been read: as the reference, unless it ends on an empty body. */
  lemma ReadStep(s: seq<byte>, last: seq<byte>, registered: set<int>)
    requires last != [] && |Parse(s, registered).residue| + |last| <= U8M
    ensures EndsOnEmptyBody(s + last, registered) ==>
              HandleRead(Parse(s, registered), last, registered).status == Aborted
    ensures !EndsOnEmptyBody(s + last, registered) ==>
              HandleRead(Parse(s, registered), last, registered) == Parse(s + last, registered)
  {
    hide Parse, Consume, EndsOnEmptyBody;
    ParseSplit(s, last, registered);
    ConsumeExact(Parse(s, registered).residue + last, registered);
    EmptyEndSplit(s, last, registered);
  }

  lemma NoEmptyEndSplit(chunks: seq<seq<byte>>, registered: set<int>)
    requires chunks != []
    ensures NoEmptyEnd(chunks, registered) <==>
              NoEmptyEnd(chunks[..|chunks| - 1], registered) && !EndsOnEmptyBody(Join(chunks), registered)
  {
    hide EndsOnEmptyBody, Join;
    var n := |chunks| - 1;
    var init := chunks[..n];
    forall k | 0 <= k <= n ensures init[..k] == chunks[..k] {
    }
    assert chunks[..n + 1] == chunks;
  }

  lemma ReadableInit(chunks: seq<seq<byte>>, registered: set<int>)
    requires chunks != [] && Readable(chunks, registered)
    ensures Readable(chunks[..|chunks| - 1], registered)
    ensures var n := |chunks| - 1;
            chunks[n] != [] && |Parse(Join(chunks[..n]), registered).residue| + |chunks[n]| <= U8M
  {
    hide Parse, Join;
    var n := |chunks| - 1;
    var init := chunks[..n];
    forall i | 0 <= i < n ensures init[..i] == chunks[..i] && init[i] == chunks[i] {
    }
  }

  /** For any bytes, however they are cut into reads: dispatches and the decision to close depend on the
      concatenated stream alone and equal the one-shot parser, unless some read ends on an empty body; and
      exactly then does the process abort. */
  lemma {:induction false} ChunkingIndependence(chunks: seq<seq<byte>>, registered: set<int>)
    requires Readable(chunks, registered)
    ensures NoEmptyEnd(chunks, registered) ==>
              HandleReads(chunks, registered) == Parse(Join(chunks), registered)
    ensures HandleReads(chunks, registered).status == Aborted <==> !NoEmptyEnd(chunks, registered)
    decreases |chunks|
  {
    hide Parse, Consume, EndsOnEmptyBody, NoEmptyEnd, HandleRead, Readable;
    if chunks == [] {
      NoEmptyEndNil(registered);
    } else {
      var n := |chunks| - 1;
      var init := chunks[..n];
      NoEmptyEndSplit(chunks, registered);
      ReadableInit(chunks, registered);
      ChunkingIndependence(init, registered);
      if NoEmptyEnd(init, registered) {
        ReadStep(Join(init), chunks[n], registered);
      } else {
        NotOpenStays(HandleReads(init, registered), chunks[n], registered);
      }
    }
  }

  lemma NotOpenStays(o: Outcome, chunk: seq<byte>, registered: set<int>)
    requires o.status != Open
    ensures HandleRead(o, chunk, registered) == o
  {
  }

  lemma NoEmptyEndNil(registered: set<int>)
    ensures NoEmptyEnd([], registered) && Parse(Join([]), registered) == Outcome([], [], Open)
  {
    ParseEmpty(registered);
    var none: seq<seq<byte>> := [];
    assert none[..0] == none && Join(none) == [];
  }

  /** Two ways of cutting one stream that both avoid ending a read on an empty body dispatch the same messages
      and leave the connection in the same state. */
  lemma SameStreamSameOutcome(c1: seq<seq<byte>>, c2: seq<seq<byte>>, registered: set<int>)
    requires Readable(c1, registered) && Readable(c2, registered) && Join(c1) == Join(c2)
    requires NoEmptyEnd(c1, registered) && NoEmptyEnd(c2, registered)
    ensures HandleReads(c1, registered) == HandleReads(c2, registered)
  {
    ChunkingIndependence(c1, registered);
    ChunkingIndependence(c2, registered);
  }

  // ---------- encoded streams ----------

  ghost predicate AllReceivable(fs: seq<Frame>, registered: set<int>) {
    forall f :: f in fs ==> Receivable(f, registered)
  }

  /** A written frame at the front is dispatched first. */
  lemma ParseFirst(f: Frame, rest: seq<byte>, registered: set<int>)
    requires Receivable(f, registered)
    ensures Parse(Encode(f) + rest, registered) == Prepend(f, Parse(rest, registered))
  {
    hide EncodeWord, Next, Parse;
    NextOfEncoded(f, rest, registered);
    ParseTurn(Encode(f) + rest, registered);
    assert (Encode(f) + rest)[HEAD + |f.body|..] == rest;
  }

  /** Parsing what was written gives back what was written. */
  lemma {:induction false} ParseEncoded(fs: seq<Frame>, registered: set<int>)
    requires AllReceivable(fs, registered)
    ensures Writable(fs)
    ensures Parse(EncodeAll(fs), registered) == Outcome(fs, [], Open)
    decreases |fs|
  {
    hide Encode, Next, Parse;
    if fs == [] {
      ParseEmpty(registered);
    } else {
      var rest := fs[1..];
      assert fs[0] in fs && forall f :: f in rest ==> f in fs;
      ParseEncoded(rest, registered);
      ParseFirst(fs[0], EncodeAll(rest), registered);
      assert fs == [fs[0]] + rest;
    }
  }

  /** At any point of a stream of encoded frames: what was dispatched is a prefix of what was written, the
      connection stays open, and everything written has been dispatched once everything has arrived. */
  lemma ArrivedPrefix(fs: seq<Frame>, arrived: seq<byte>, inFlight: seq<byte>, registered: set<int>)
    requires AllReceivable(fs, registered) && Writable(fs)
    requires EncodeAll(fs) == arrived + inFlight
    ensures var o := Parse(arrived, registered);
            && o.status == Open
            && o.msgs <= fs
            && (inFlight == [] ==> o.msgs == fs && o.residue == [])
  {
    ParseEncoded(fs, registered);
    ParseSplit(arrived, inFlight, registered);
    assert inFlight == [] ==> arrived + inFlight == arrived;
  }

  /** A single frame survives a send and one read exactly when its command is registered and its body has
      1 to 65528 bytes. */
  lemma FrameSurvivesIff(f: Frame, registered: set<int>)
    requires |f.body| < 0x8000_0000
    ensures Consume(Encode(f), registered) == Outcome([f], [], Open) <==>
              f.cmdid in registered && 1 <= |f.body| <= 65528
  {
    assert Encode(f) + [] == Encode(f);
    NextOfEncoded(f, [], registered);
    if Receivable(f, registered) {
      var rest := Encode(f)[HEAD + |f.body|..];
      assert rest == [];
      assert Consume(rest, registered) == Outcome([], [], Open);
      assert [f] + [] == [f];
    }
  }
}
