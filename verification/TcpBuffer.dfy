/** `tcp_buffer` and what `input_buffer` and `output_buffer` add to it: one pooled buffer at most, taken when
    needed, replaced by a larger one when full, given back when emptied. */
module TcpBuffers {
  import opened Framing
  import opened IoBuffers
  import opened Kernel

  /** What the kernel answers: FIONREAD fails; FIONREAD says `rn` and the read fails; or the read returns the
      announced bytes (none at end of file). */
  datatype KernelRead = IoctlError | ReadError(rn: nat) | Data(bytes: seq<byte>)

  /** The return value of the source, or the exit of the process in `alloc`. */
  datatype Result = Ret(n: int) | Exit

  datatype Room = Ready | NoRoom | OutOfMemory

  /** What the pool guarantees of a buffer in use. */
  lemma HeldFacts(pool: BufferPool, b: IoBuffer)
    requires pool.Valid() && b in pool.holder
    ensures b in pool.created && b.Ok() && b.capacity in CLASSES && b.next == null
    ensures b !in pool.FreeRepr() && b.data !in pool.FreeRepr()
  {
    hide Chain, Chains, Accounted;
  }

  lemma HeldApart(pool: BufferPool, a: IoBuffer, b: IoBuffer)
    requires pool.Valid() && a in pool.holder && b in pool.created && a != b
    ensures a.data != b.data
  {
    hide Chain, Chains, Accounted;
  }

  lemma HeadIsFree(pool: BufferPool, n: int)
    requires pool.Valid()
    ensures pool.HeadOf(n) <= pool.FreeRepr()
  {
    hide Accounted, Shape, OwnStores;
    var c := SizeClass(n);
    if c.Some? && pool.pool[c.value] != null {
      var h := pool.pool[c.value];
      assert Chain(h, pool.free[c.value], c.value);
      assert h in pool.free[c.value];
    }
  }

  /** `who` holds `b` and nothing else, or nothing. */
  ghost predicate Holds(m: map<IoBuffer, object>, b: IoBuffer?, who: object) {
    && (b != null ==> b in m && m[b] == who)
    && (forall x :: x in m && m[x] == who ==> x == b)
  }

  /** Taking `b` and giving `a` back concerns nobody else. */
  lemma HolderSwap(m: map<IoBuffer, object>, a: IoBuffer, b: IoBuffer, who: object)
    requires Holds(m, a, who) && b !in m
    ensures Holds(m[b := who] - {a}, b, who)
    ensures OnlyChanges(m, m[b := who] - {a}, who)
  {
  }

  lemma HolderDrop(m: map<IoBuffer, object>, b: IoBuffer, who: object)
    requires Holds(m, b, who)
    ensures b in m
    ensures Holds(m - {b}, null, who) && OnlyChanges(m, m - {b}, who)
  {
  }

  /** `a` and `b` are the only owners whose entries differ. */
  ghost predicate OnlyBoth(m0: map<IoBuffer, object>, m1: map<IoBuffer, object>, a: object, b: object) {
    && (forall x :: x in m0 && m0[x] != a && m0[x] != b ==> x in m1 && m1[x] == m0[x])
    && (forall x :: x in m1 && m1[x] != a && m1[x] != b ==> x in m0 && m0[x] == m1[x])
  }

  lemma OneOfBoth(m0: map<IoBuffer, object>, m1: map<IoBuffer, object>, m2: map<IoBuffer, object>, who: object, a: object, b: object)
    requires OnlyBoth(m0, m1, a, b) && OnlyChanges(m1, m2, who) && (who == a || who == b)
    ensures OnlyBoth(m0, m2, a, b)
  {
  }

  lemma NeitherOfBoth(m: map<IoBuffer, object>, a: object, b: object)
    ensures OnlyBoth(m, m, a, b)
  {
  }

  lemma OnlyNothing(m: map<IoBuffer, object>, who: object)
    ensures OnlyChanges(m, m, who)
  {
  }

  /** `s` without its first `n` bytes. */
  function Without(s: seq<byte>, n: int): seq<byte> {
    if 0 <= n <= |s| then s[n..] else []
  }

  /** Bytes that leave the front of a buffer for a socket. */
  lemma FrontMoved(sent: seq<byte>, bytes: seq<byte>, n: nat)
    requires n <= |bytes|
    ensures (sent + bytes[..n]) + bytes[n..] == sent + bytes && sent <= sent + bytes[..n]
    ensures n == 0 ==> sent + bytes[..n] == sent
  {
  }

  class TcpBuffer {
    const pool: BufferPool
    var buf: IoBuffer?

    /** Of all buffers handed out, this object holds exactly the one it points to. */
    ghost predicate Owns()
      reads this, pool
    {
      Holds(pool.holder, buf, this)
    }

    ghost predicate Valid()
      reads this, buf, pool, pool.created
    {
      pool.Valid() && Owns() && HeldOk()
    }

    ghost function Repr(): set<object>
      reads this
    {
      if buf == null then {} else {buf, buf.data}
    }

    /** All an operation may touch besides this object and the pool. */
    ghost function Footprint(): set<object>
      reads this, pool
    {
      Repr() + pool.FreeRepr()
    }

    ghost predicate HeldOk()
      reads this, buf
    {
      buf != null ==> buf.Ok()
    }

    ghost function Bytes(): seq<byte>
      reads this, buf, Repr()
      requires HeldOk()
    {
      if buf == null then [] else buf.Bytes()
    }

    ghost predicate Packed()
      reads this, buf
    {
      buf != null ==> buf.head == 0
    }

    constructor (pool: BufferPool)
      ensures this.pool == pool && buf == null
    {
      this.pool := pool;
      buf := null;
    }

    function Length(): int
      reads this, buf
    {
      if buf == null then 0 else buf.length
    }

    /** The first `n` bytes, as `data()` lets the parser see them. */
    function Front(n: nat): (s: seq<byte>)
      requires buf != null && buf.Ok() && n <= buf.length
      reads this, buf, Repr()
      ensures |s| == n && s == Bytes()[..n]
    {
      buf.data[buf.head..buf.head + n]
    }

    /** How far `head` has moved. */
    ghost function Skipped(): int
      reads this, buf
    {
      if buf == null then 0 else buf.head
    }

    method Clear()
      requires Valid()
      modifies this, pool, Footprint()
      ensures Valid() && buf == null
      ensures OnlyChanges(old(pool.holder), pool.holder, this) && old(pool.created) <= pool.created
      ensures Footprint() <= old(Footprint())
    {
      hide BufferPool.Valid, BufferPool.ValidBut, FreeSet;
      if buf != null {
        pool.Revert(buf);
        buf := null;
      }
    }

    /** Requires what the source asserts. */
    method Pop(len: int)
      requires Valid() && buf != null && 0 <= len <= Length()
      modifies this, pool, Footprint()
      ensures Valid()
      ensures buf == if len == old(Length()) then null else old(buf)
      ensures HeldOk() && Bytes() == Without(old(Bytes()), len)
      ensures buf != null ==> Skipped() == old(Skipped()) + len
      ensures OnlyChanges(old(pool.holder), pool.holder, this) && old(pool.created) <= pool.created
      ensures Footprint() <= old(Footprint())
    {
      hide BufferPool.Valid, BufferPool.ValidBut, FreeSet, Holds, OnlyChanges;
      OnlyNothing(pool.holder, this);
      HolderDrop(pool.holder, buf, this);
      HeldFacts(pool, buf);
      pool.Borrow(buf);
      buf.Pop(len);
      pool.Return(buf);
      if buf.length == 0 {
        pool.Revert(buf);
        buf := null;
      }
    }

    /** `input_buffer::adjust`. */
    method Adjust()
      requires Valid()
      modifies Repr()
      ensures Valid() && Packed()
      ensures Bytes() == old(Bytes())
    {
      hide BufferPool.Valid, BufferPool.ValidBut, FreeSet;
      if buf != null {
        HeldFacts(pool, buf);
        pool.Borrow(buf);
        buf.Adjust();
        pool.Return(buf);
      }
    }

    /** `n` more bytes need a buffer, or a larger one. */
    ghost predicate Needs(n: int)
      reads this, buf
    {
      buf == null || buf.capacity - buf.length < n
    }

    /** Exactly then a request for `n` more bytes ends the process in `alloc`. */
    ghost predicate NoMemoryFor(n: int)
      reads this, buf, pool
    {
      Needs(n) && pool.ExhaustedFor(n + Length())
    }

    /** The growth step of `read_data` and `output_buffer::send_data`: take a buffer, or replace the present one
        by a larger one, copying its contents and giving it back. */
    method EnsureRoom(n: nat) returns (r: Room)
      requires Valid() && Packed()
      modifies this, pool, Footprint()
      ensures Valid() && Packed() && Bytes() == old(Bytes())
      ensures r.NoRoom? <==> n + old(Length()) > U8M
      ensures r.Ready? ==> buf != null && n <= buf.capacity - buf.length
      ensures !r.Ready? ==> buf == old(buf)
      ensures r.OutOfMemory? <==> old(NoMemoryFor(n))
      ensures r.OutOfMemory? ==> pool.AtLimit()
      ensures !r.Ready? ==> pool.totalMem == old(pool.totalMem)
      ensures old(pool.totalMem) <= pool.totalMem <= old(pool.totalMem) + U8M / 1024
      ensures OnlyChanges(old(pool.holder), pool.holder, this) && old(pool.created) <= pool.created
      ensures fresh(Footprint() - old(Footprint()))
    {
      hide BufferPool.Valid, BufferPool.ValidBut, FreeSet, SizeClass, BufferPool.CameFrom, BufferPool.ExhaustedFor, BufferPool.AtLimit;
      if buf == null {
        HeadIsFree(pool, n);
        var a := pool.Alloc(n, this);
        match a {
          case NoClass => return NoRoom;
          case Exhausted => return OutOfMemory;
          case Got(b) => buf := b;
        }
      } else {
        HeldFacts(pool, buf);
        if buf.capacity - buf.length < n {
          r := Grow(n);
          return;
        }
      }
      r := Ready;
    }

    method Grow(n: nat) returns (r: Room)
      requires Valid() && Packed() && buf != null && buf.capacity - buf.length < n
      modifies this, pool, Footprint()
      ensures Valid() && Packed() && Bytes() == old(Bytes())
      ensures r.NoRoom? <==> n + old(Length()) > U8M
      ensures r.Ready? ==> buf != null && n <= buf.capacity - buf.length
      ensures !r.Ready? ==> buf == old(buf)
      ensures r.OutOfMemory? <==> old(NoMemoryFor(n))
      ensures r.OutOfMemory? ==> pool.AtLimit()
      ensures !r.Ready? ==> pool.totalMem == old(pool.totalMem)
      ensures old(pool.totalMem) <= pool.totalMem <= old(pool.totalMem) + U8M / 1024
      ensures OnlyChanges(old(pool.holder), pool.holder, this) && old(pool.created) <= pool.created
      ensures fresh(Footprint() - old(Footprint()))
    {
      hide BufferPool.Valid, BufferPool.ValidBut, FreeSet, SizeClass, BufferPool.CameFrom, BufferPool.ExhaustedFor, BufferPool.AtLimit;
      HeldFacts(pool, buf);
      HeadIsFree(pool, n + buf.length);
      ghost var bytes := buf.Bytes();
      var a := pool.Alloc(n + buf.length, this);
      assert buf.Bytes() == bytes;
      match a {
        case NoClass => return NoRoom;
        case Exhausted => return OutOfMemory;
        case Got(b) =>
          HolderSwap(old(pool.holder), buf, b, this);
          hide Holds, OnlyChanges;
          Replace(b, old(pool.holder));
      }
      r := Ready;
    }

    /** Copy into the new buffer, give the old one back, and switch. */
    method Replace(b: IoBuffer, ghost m: map<IoBuffer, object>)
      requires pool.Valid() && HeldOk() && Packed() && buf != null
      requires buf in m && b !in m && pool.holder == m[b := this]
      requires Holds(m[b := this] - {buf}, b, this)
      requires buf.length <= b.capacity
      modifies this, pool, buf, b, b.data
      ensures Valid() && Packed() && buf == b && Bytes() == old(Bytes())
      ensures pool.holder == m[b := this] - {old(buf)} && pool.created == old(pool.created)
      ensures pool.totalMem == old(pool.totalMem)
      ensures pool.FreeRepr() == old(pool.FreeRepr()) + {old(buf), old(buf.data)}
    {
      hide BufferPool.Valid, BufferPool.ValidBut, FreeSet, Holds;
      HeldFacts(pool, buf);
      HeldFacts(pool, b);
      HeldApart(pool, b, buf);
      pool.Borrow(b);
      b.Copy(buf);
      pool.Return(b);
      pool.Revert(buf);
      assert b.Bytes() == old(Bytes());
      buf := b;
    }

    /** memcpy behind the contents. */
    method AppendBytes(bytes: seq<byte>)
      requires Valid() && Packed() && buf != null && |bytes| <= buf.capacity - buf.length
      modifies Repr()
      ensures Valid() && Packed() && Bytes() == old(Bytes()) + bytes
    {
      hide BufferPool.Valid, BufferPool.ValidBut, FreeSet;
      HeldFacts(pool, buf);
      pool.Borrow(buf);
      buf.Append(bytes);
      pool.Return(buf);
    }

    /** `input_buffer::read_data`. The assertion on `head` is the precondition. */
    method ReadData(k: KernelRead) returns (r: Result)
      requires Valid() && Packed()
      modifies this, pool, Footprint()
      ensures Valid() && Packed()
      ensures r.Exit? <==> !k.IoctlError? && old(NoMemoryFor(if k.Data? then |k.bytes| else k.rn))
      ensures r.Exit? ==> pool.AtLimit()
      ensures !k.Data? ==> r.Exit? || r == Ret(-1)
      ensures k.Data? ==> r.Exit? || r == if |k.bytes| + old(Length()) > U8M then Ret(-1) else Ret(|k.bytes|)
      ensures r.Ret? && r.n >= 0 ==> buf != null
      ensures Bytes() == old(Bytes()) + if k.Data? && r.Ret? && r.n >= 0 then k.bytes else []
      ensures OnlyChanges(old(pool.holder), pool.holder, this) && old(pool.created) <= pool.created
      ensures fresh(Footprint() - old(Footprint()))
    {
      hide BufferPool.Valid, BufferPool.ValidBut, FreeSet, Holds, OnlyChanges, BufferPool.ExhaustedFor, BufferPool.AtLimit;
      if k.IoctlError? {
        OnlyNothing(pool.holder, this);
        return Ret(-1);
      }
      var room := EnsureRoom(if k.Data? then |k.bytes| else k.rn);
      match room {
        case OutOfMemory => return Exit;
        case NoRoom => return Ret(-1);
        case Ready =>
      }
      if k.ReadError? {
        return Ret(-1);
      }
      if |k.bytes| > 0 {
        AppendBytes(k.bytes);
      }
      return Ret(|k.bytes|);
    }

    /** `output_buffer::send_data`. */
    method SendData(data: seq<byte>) returns (r: Result)
      requires Valid() && Packed()
      modifies this, pool, Footprint()
      ensures Valid() && Packed()
      ensures r.Exit? <==> old(NoMemoryFor(|data|))
      ensures r.Exit? ==> pool.AtLimit() && pool.totalMem == old(pool.totalMem)
      ensures old(pool.totalMem) <= pool.totalMem <= old(pool.totalMem) + U8M / 1024
      ensures r.Exit? || r == if |data| + old(Length()) > U8M then Ret(-1) else Ret(0)
      ensures r == Ret(0) ==> buf != null && Bytes() == old(Bytes()) + data
      ensures r != Ret(0) ==> buf == old(buf) && Bytes() == old(Bytes())
      ensures OnlyChanges(old(pool.holder), pool.holder, this) && old(pool.created) <= pool.created
      ensures fresh(Footprint() - old(Footprint()))
    {
      hide BufferPool.Valid, BufferPool.ValidBut, FreeSet, Holds, OnlyChanges, BufferPool.ExhaustedFor, BufferPool.AtLimit;
      var room := EnsureRoom(|data|);
      match room {
        case OutOfMemory => return Exit;
        case NoRoom => return Ret(-1);
        case Ready =>
      }
      AppendBytes(data);
      return Ret(0);
    }

    /** Pop and compact, keeping the buffer even when it is emptied. */
    method DropFront(n: int)
      requires Valid() && Packed() && buf != null && 0 <= n <= Length()
      modifies Repr()
      ensures Valid() && Packed() && Bytes() == Without(old(Bytes()), n)
    {
      hide BufferPool.Valid, BufferPool.ValidBut, FreeSet, OnlyChanges;
      HeldFacts(pool, buf);
      pool.Borrow(buf);
      buf.Pop(n);
      buf.Adjust();
      pool.Return(buf);
    }

    /** `output_buffer::write_fd`: the bytes written leave the front of the buffer, which stays attached even
        when emptied. A full socket (EAGAIN) counts as 0. */
    method WriteFd(sock: Socket) returns (ret: int)
      requires Valid() && buf != null && buf.head == 0
      modifies sock, Repr()
      ensures Valid() && Packed()
      ensures |sock.answers| == |old(sock.answers)| + 1 && old(sock.answers) <= sock.answers
      ensures ret == match sock.answers[|old(sock.answers)|] case Wrote(n) => n case Again => 0 case Failed => -1
      ensures -1 <= ret <= old(Length())
      ensures sock.sent == old(sock.sent) + old(Bytes())[..if ret > 0 then ret else 0]
      ensures sock.sent + Bytes() == old(sock.sent) + old(Bytes()) && old(sock.sent) <= sock.sent
      ensures Length() == old(Length()) - if ret > 0 then ret else 0
    {
      hide BufferPool.Valid, BufferPool.ValidBut, FreeSet, Holds, OnlyChanges;
      ghost var bytes, sent := Bytes(), sock.sent;
      var w := sock.Write(buf.data[buf.head..buf.head + buf.length]);
      ret := match w case Wrote(n) => n case Again => 0 case Failed => -1;
      FrontMoved(sent, bytes, if ret > 0 then ret else 0);
      if ret > 0 {
        DropFront(ret);
      }
    }
  }

  // ---------- several owners of one pool ----------

  lemma NotInFootprint(t: TcpBuffer, o: object)
    requires !(o is IoBuffer) && !(o is array<byte>)
    ensures o !in t.Footprint()
  {
  }

  lemma ReprInFootprint(t: TcpBuffer)
    ensures t.Repr() <= t.Footprint()
  {
  }

  /** What an operation on `t` may touch has nothing to do with another owner `u`. */
  lemma Apart(t: TcpBuffer, u: TcpBuffer)
    requires t.Valid() && u.Valid() && t.pool == u.pool && t != u
    ensures u.Repr() !! t.Footprint() && u !in t.Footprint()
  {
    hide BufferPool.Valid, FreeSet;
    NotInFootprint(t, u);
    if u.buf != null {
      HeldFacts(u.pool, u.buf);
      if t.buf != null {
        HeldFacts(t.pool, t.buf);
        HeldApart(u.pool, u.buf, t.buf);
      }
    }
  }

  lemma HoldsKept(m0: map<IoBuffer, object>, m1: map<IoBuffer, object>, t: object, b: IoBuffer?, u: object)
    requires Holds(m0, b, u) && OnlyChanges(m0, m1, t) && t != u
    ensures Holds(m1, b, u)
  {
  }

  /** After an operation on `t` that began with holders `m0`, another owner still owns what it points to. */
  lemma PeerKept(m0: map<IoBuffer, object>, t: TcpBuffer, u: TcpBuffer)
    requires Holds(m0, u.buf, u) && OnlyChanges(m0, u.pool.holder, t) && t != u
    requires u.pool.Valid() && u.HeldOk()
    ensures u.Valid()
  {
    hide BufferPool.Valid, OnlyChanges, Holds;
    HoldsKept(m0, u.pool.holder, t, u.buf, u);
  }

  /** Every buffer handed out is held by one of `all`. */
  ghost predicate HeldBy(m: map<IoBuffer, object>, all: set<TcpBuffer>) {
    forall b :: b in m ==> exists t :: t in all && m[b] == t
  }

  /** A pool and everything that holds its buffers. */
  ghost predicate World(pool: BufferPool, all: set<TcpBuffer>)
    reads pool, pool.created, all, set t | t in all && t.buf != null :: t.buf
  {
    && (forall t :: t in all ==> t.pool == pool && t.Valid())
    && HeldBy(pool.holder, all)
    && pool.Valid()
  }

  /** Conservation: every buffer ever created is on exactly one free list, once, or pointed to by exactly one
      owner, and never both; no two free slots or owners name the same buffer. */
  lemma Conservation(pool: BufferPool, all: set<TcpBuffer>)
    requires World(pool, all)
    ensures forall b :: b in pool.created ==>
              ((exists t :: t in all && t.buf == b) <==> b !in pool.free[b.capacity])
    ensures forall t, u :: t in all && u in all && t.buf != null && t.buf == u.buf ==> t == u
    ensures forall t :: t in all && t.buf != null ==> t.buf in pool.created
    ensures forall c :: c in pool.free ==> forall i, j :: 0 <= i < j < |pool.free[c]| ==> pool.free[c][i] != pool.free[c][j]
    ensures forall c :: c in pool.free ==> forall b :: b in pool.free[c] ==> b in pool.created && b.capacity == c
    ensures pool.totalMem == SumK(pool.log) && pool.totalMem < MEM_LIMIT
  {
    forall b | b in pool.created
      ensures (exists t :: t in all && t.buf == b) <==> b !in pool.free[b.capacity]
    {
      if b in pool.holder {
        var t: TcpBuffer :| t in all && pool.holder[b] == t;
        assert t.buf == b;
      }
    }
  }
}
