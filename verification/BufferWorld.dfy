/** All owners of one pool together: whatever one connection does with its buffers, conservation holds and no
    other connection's bytes change. */
module BufferWorlds {
  import opened Framing
  import opened IoBuffers
  import opened Kernel
  import opened TcpBuffers

  datatype Op = Read(k: KernelRead) | Send(data: seq<byte>) | Write(sock: Socket) | Pop(len: int) | Adjust | Clear

  /** What the source asserts before each operation. */
  ghost predicate Allowed(t: TcpBuffer, op: Op)
    reads t, t.buf
  {
    match op
    case Read(_) => t.Packed()
    case Send(_) => t.Packed()
    case Write(_) => t.buf != null && t.buf.head == 0
    case Pop(len) => t.buf != null && 0 <= len <= t.buf.length
    case Adjust => true
    case Clear => true
  }

  /** Nothing can be appended: the total would exceed the largest class, or the process ends for want of memory. */
  ghost predicate Refuses(t: TcpBuffer, op: Op)
    reads t, t.buf, t.pool
  {
    match op
    case Read(Data(bytes)) => |bytes| + t.Length() > 8388608 || t.NoMemoryFor(|bytes|)
    case Send(data) => |data| + t.Length() > 8388608 || t.NoMemoryFor(|data|)
    case _ => false
  }

  /** The contents after an operation; of a write, what the kernel took is not determined. */
  ghost function Effect(op: Op, was: seq<byte>, refuses: bool, now: seq<byte>): seq<byte> {
    match op
    case Read(Data(bytes)) => if refuses then was else was + bytes
    case Read(_) => was
    case Send(data) => if refuses then was else was + data
    case Write(_) => now
    case Pop(len) => Without(was, len)
    case Adjust => was
    case Clear => []
  }

  /** One operation on one owner. */
  method Apply(t: TcpBuffer, op: Op)
    requires t.Valid() && Allowed(t, op)
    modifies t, t.pool, t.Footprint(), if op.Write? then {op.sock} else {}
    ensures t.Valid() && OnlyChanges(old(t.pool.holder), t.pool.holder, t)
    ensures old(t.pool.created) <= t.pool.created
    ensures t.Bytes() == Effect(op, old(t.Bytes()), old(Refuses(t, op)), t.Bytes())
    ensures op.Adjust? ==> t.Packed()
    ensures op.Clear? ==> t.buf == null
    ensures op.Write? ==> op.sock.sent + t.Bytes() == old(if op.Write? then op.sock.sent else []) + old(t.Bytes())
  {
    hide BufferPool.Valid, FreeSet, OnlyChanges, Holds, BufferPool.AtLimit, BufferPool.ExhaustedFor;
    OnlyNothing(t.pool.holder, t);
    match op {
      case Read(k) => var r := t.ReadData(k);
      case Send(data) => var r := t.SendData(data);
      case Write(sock) => var r := t.WriteFd(sock);
      case Pop(len) => t.Pop(len);
      case Adjust => t.Adjust();
      case Clear => t.Clear();
    }
  }

  lemma HoldersStay(m0: map<IoBuffer, object>, m1: map<IoBuffer, object>, all: set<TcpBuffer>, t: TcpBuffer)
    requires HeldBy(m0, all) && OnlyChanges(m0, m1, t) && t in all
    ensures HeldBy(m1, all)
  {
  }

  lemma ApartFromAll(all: set<TcpBuffer>, t: TcpBuffer)
    requires t in all && forall u :: u in all ==> u.Valid() && u.pool == t.pool
    ensures forall u :: u in all && u != t ==> u.Repr() !! t.Footprint() && u !in t.Footprint()
  {
    hide BufferPool.Valid, FreeSet, Holds;
    forall u | u in all && u != t ensures u.Repr() !! t.Footprint() && u !in t.Footprint() {
      Apart(t, u);
    }
  }

  /** After an operation on `t` that began with holders `m0`, the whole is as good as before. */
  lemma WorldKept(m0: map<IoBuffer, object>, pool: BufferPool, all: set<TcpBuffer>, t: TcpBuffer)
    requires t in all && t.Valid() && HeldBy(m0, all) && OnlyChanges(m0, pool.holder, t)
    requires forall u :: u in all ==> u.pool == pool
    requires forall u :: u in all && u != t ==> Holds(m0, u.buf, u) && u.HeldOk()
    ensures World(pool, all)
  {
    hide BufferPool.Valid, Holds, OnlyChanges, HeldBy;
    HoldersStay(m0, pool.holder, all, t);
    forall u | u in all && u != t ensures u.Valid() {
      PeerKept(m0, t, u);
    }
  }

  /** One step of the whole: any other owner `u` keeps its bytes, and the accounts still balance. */
  method Step(pool: BufferPool, ghost all: set<TcpBuffer>, t: TcpBuffer, op: Op, ghost u: TcpBuffer)
    requires World(pool, all) && t in all && u in all && Allowed(t, op)
    modifies t, pool, t.Footprint(), if op.Write? then {op.sock} else {}
    ensures World(pool, all) && old(pool.created) <= pool.created
    ensures t.HeldOk() && t.Bytes() == Effect(op, old(t.Bytes()), old(Refuses(t, op)), t.Bytes())
    ensures u != t ==> u.buf == old(u.buf)
    ensures u != t ==> u.Valid() && u.Bytes() == old(u.Bytes())
  {
    hide BufferPool.Valid, FreeSet, Holds, TcpBuffer.Footprint, OnlyChanges, HeldBy;
    ApartFromAll(all, t);
    ghost var m := pool.holder;
    assert forall v :: v in all ==> Holds(m, v.buf, v) && v.HeldOk();
    Apply(t, op);
    WorldKept(m, pool, all, t);
  }

  /** A new connection brings an owner that holds nothing. */
  method Attach(pool: BufferPool, ghost all: set<TcpBuffer>) returns (t: TcpBuffer)
    requires World(pool, all)
    ensures fresh(t) && t.buf == null && World(pool, all + {t})
  {
    hide BufferPool.Valid, FreeSet;
    t := new TcpBuffer(pool);
  }
}
