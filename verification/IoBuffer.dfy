/** `io_buffer` and the size-class allocator `buffer_pool`: linked free lists, relinked in place. */
module IoBuffers {
  import opened Framing
  import opened Options

  class IoBuffer {
    const capacity: nat
    const data: array<byte>
    var length: int
    var head: int
    var next: IoBuffer?

    constructor (size: nat)
      ensures capacity == size && Ok() && length == 0 && head == 0 && next == null
      ensures fresh(data)
    {
      capacity := size;
      data := new byte[size];
      length, head, next := 0, 0, null;
    }

    ghost predicate Ok()
      reads this
    {
      data.Length == capacity && 0 <= head && 0 <= length && head + length <= capacity
    }

    ghost function Bytes(): seq<byte>
      requires Ok()
      reads this, data
    {
      data[head..head + length]
    }

    /** memmove of the contents to the front. */
    method Adjust()
      requires Ok()
      modifies this`head, data
      ensures Ok() && head == 0
      ensures Bytes() == old(Bytes())
    {
      ghost var bytes := Bytes();
      if head != 0 {
        if length != 0 {
          forall i | 0 <= i < length {
            data[i] := data[head + i];
          }
        }
        assert forall i :: 0 <= i < length ==> data[i] == bytes[i];
        head := 0;
      }
    }

    method Copy(other: IoBuffer)
      requires Ok() && other.Ok() && other.length <= capacity && data != other.data
      modifies this`head, this`length, data
      ensures Ok() && head == 0
      ensures Bytes() == old(other.Bytes())
    {
      ghost var bytes := other.Bytes();
      forall i | 0 <= i < other.length {
        data[i] := other.data[other.head + i];
      }
      assert forall i :: 0 <= i < other.length ==> data[i] == bytes[i];
      head := 0;
      length := other.length;
    }

    method Pop(len: int)
      requires Ok() && 0 <= len <= length
      modifies this`head, this`length
      ensures Ok() && head == old(head) + len
      ensures Bytes() == old(Bytes())[len..]
    {
      length := length - len;
      head := head + len;
    }

    /** Emptied, and linked in front of a list. */
    method PutBefore(list: IoBuffer?)
      modifies this
      ensures length == 0 && head == 0 && next == list
    {
      length, head, next := 0, 0, list;
    }

    /** memcpy behind the contents, as the writers and the reader do it: at `data + length`, so with `head` 0. */
    method Append(bytes: seq<byte>)
      requires Ok() && head == 0 && |bytes| <= capacity - length
      modifies this`length, data
      ensures Ok() && Bytes() == old(Bytes()) + bytes
    {
      ghost var was := Bytes();
      forall k | length <= k < length + |bytes| {
        data[k] := bytes[k - length];
      }
      assert forall k :: 0 <= k < length + |bytes| ==> data[k] == (was + bytes)[k];
      length := length + |bytes|;
    }
  }

  // ---------- size classes ----------

  const CLASSES: set<int> := {4096, 16384, 65536, 262144, 1048576, 4194304, 8388608}

  /** EXTRA_MEM_LIMIT, in KiB */
  const MEM_LIMIT: nat := 5 * 1024 * 1024

  /** The class `alloc` picks: the least one that is large enough. */
  function SizeClass(n: int): (r: Option<int>)
    ensures r.None? <==> n > 8388608
    ensures r.Some? ==> r.value in {4096, 16384, 65536, 262144, 1048576, 4194304, 8388608} && n <= r.value
    ensures r.Some? ==> forall c :: c in CLASSES && n <= c ==> r.value <= c
  {
    if n <= 4096 then Some(4096)
    else if n <= 16384 then Some(16384)
    else if n <= 65536 then Some(65536)
    else if n <= 262144 then Some(262144)
    else if n <= 1048576 then Some(1048576)
    else if n <= 4194304 then Some(4194304)
    else if n <= 8388608 then Some(8388608)
    else None
  }

  /** Memory in KiB over a list of buffers. */
  ghost function SumK(s: seq<IoBuffer>): int {
    if s == [] then 0 else SumK(s[..|s| - 1]) + s[|s| - 1].capacity / 1024
  }

  lemma SumKAppend(s: seq<IoBuffer>, b: IoBuffer)
    ensures SumK(s + [b]) == SumK(s) + b.capacity / 1024
  {
    assert (s + [b])[..|s|] == s;
  }

  lemma {:induction false} SumKUniform(s: seq<IoBuffer>, t: seq<IoBuffer>, c: int)
    requires forall i :: 0 <= i < |t| ==> t[i].capacity == c
    ensures SumK(s + t) == SumK(s) + |t| * (c / 1024)
    decreases |t|
  {
    if t == [] {
      assert s + t == s;
    } else {
      var n := |t| - 1;
      assert s + t == (s + t[..n]) + [t[n]];
      SumKAppend(s + t[..n], t[n]);
      SumKUniform(s, t[..n], c);
      assert |t| * (c / 1024) == n * (c / 1024) + c / 1024;
    }
  }

  /** `who` is the only owner whose entries differ. */
  ghost predicate OnlyChanges(m0: map<IoBuffer, object>, m1: map<IoBuffer, object>, who: object) {
    && (forall b :: b in m0 && m0[b] != who ==> b in m1 && m1[b] == m0[b])
    && (forall b :: b in m1 && m1[b] != who ==> b in m0 && m0[b] == m1[b])
  }

  datatype AllocResult = Got(buf: IoBuffer) | NoClass | Exhausted

  // ---------- free lists ----------

  function Follower(s: seq<IoBuffer>, i: nat): IoBuffer? {
    if i + 1 < |s| then s[i + 1] else null
  }

  /** One free list: linked through `next` in the order of `s`, acyclic, of one capacity, all empty. */
  ghost predicate Chain(h: IoBuffer?, s: seq<IoBuffer>, c: int)
    reads s
  {
    && h == (if s == [] then null else s[0])
    && (forall i, j :: 0 <= i < j < |s| ==> s[i] != s[j])
    && (forall i :: 0 <= i < |s| ==>
          && s[i].capacity == c && s[i].length == 0 && s[i].head == 0
          && s[i].next == Follower(s, i))
  }

  lemma ChainTail(h: IoBuffer, s: seq<IoBuffer>, c: int)
    requires Chain(h, s, c)
    ensures s != [] && h == s[0] && h.capacity == c && h.length == 0 && h.head == 0
    ensures Chain(h.next, s[1..], c)
    ensures forall x :: x in s ==> x == h || x in s[1..]
    ensures forall x :: x in s[1..] ==> x in s && x != h
  {
    var t := s[1..];
    assert forall i :: 0 <= i < |t| ==> t[i] == s[i + 1];
    assert forall i :: 0 <= i < |t| ==> Follower(t, i) == Follower(s, i + 1);
  }

  lemma FollowerCons(b: IoBuffer, s: seq<IoBuffer>, i: nat)
    requires i <= |s|
    ensures Follower([b] + s, i) == if i == 0 then (if s == [] then null else s[0]) else Follower(s, i - 1)
    ensures ([b] + s)[i] == if i == 0 then b else s[i - 1]
  {
  }

  lemma ChainCons(b: IoBuffer, h: IoBuffer?, s: seq<IoBuffer>, c: int)
    requires Chain(h, s, c) && b !in s
    requires b.capacity == c && b.length == 0 && b.head == 0 && b.next == h
    ensures Chain(b, [b] + s, c)
    ensures forall x :: x in [b] + s ==> x == b || x in s
    ensures forall x :: x in s || x == b ==> x in [b] + s
  {
    hide Follower;
    var t := [b] + s;
    forall i | 0 <= i < |t|
      ensures t[i].capacity == c && t[i].length == 0 && t[i].head == 0 && t[i].next == Follower(t, i)
    {
      FollowerCons(b, s, i);
    }
    assert forall i :: 0 <= i < |s| ==> s[i] in s;
    assert forall i :: 1 <= i < |t| ==> t[i] == s[i - 1];
  }

  lemma ChainNil(c: int, s: seq<IoBuffer>)
    requires Chain(null, s, c)
    ensures s == []
  {
  }

  lemma ChainSnoc(h: IoBuffer, s: seq<IoBuffer>, c: int, b: IoBuffer)
    requires s != [] && h == s[0] && b !in s
    requires forall i, j :: 0 <= i < j < |s| ==> s[i] != s[j]
    requires forall i :: 0 <= i < |s| ==> s[i].capacity == c && s[i].length == 0 && s[i].head == 0
    requires forall i :: 0 <= i < |s| - 1 ==> s[i].next == Follower(s, i)
    requires s[|s| - 1].next == b
    requires b.capacity == c && b.length == 0 && b.head == 0 && b.next == null
    ensures Chain(h, s + [b], c)
  {
    var t := s + [b];
    assert forall i :: 0 <= i < |s| - 1 ==> Follower(t, i) == Follower(s, i);
    assert forall i :: 0 <= i < |s| ==> s[i] in s;
  }

  ghost function Nodes(free: map<int, seq<IoBuffer>>, but: Option<int>): (r: set<IoBuffer>)
    ensures forall k :: k in free && but != Some(k) ==> forall b :: b in free[k] ==> b in r
  {
    set k, b | k in free && but != Some(k) && b in free[k] :: b
  }

  lemma ChainOne(h: IoBuffer, c: int)
    requires h.capacity == c && h.length == 0 && h.head == 0 && h.next == null
    ensures Chain(h, [h], c)
  {
  }

  /** The free lists of all classes but `c`. */
  ghost predicate ChainsBut(pool: map<int, IoBuffer?>, free: map<int, seq<IoBuffer>>, c: int)
    reads Nodes(free, Some(c))
  {
    forall k :: k in free && k != c ==> k in pool && Chain(pool[k], free[k], k)
  }

  ghost predicate Chains(pool: map<int, IoBuffer?>, free: map<int, seq<IoBuffer>>)
    reads Nodes(free, None)
  {
    pool.Keys == free.Keys && forall k :: k in free ==> Chain(pool[k], free[k], k)
  }

  lemma ChainsSplit(pool: map<int, IoBuffer?>, free: map<int, seq<IoBuffer>>, c: int)
    requires Chains(pool, free)
    ensures pool.Keys == free.Keys && ChainsBut(pool, free, c)
    ensures c in free ==> Chain(pool[c], free[c], c)
  {
    hide Chain;
  }

  lemma ChainsJoin(pool: map<int, IoBuffer?>, free: map<int, seq<IoBuffer>>, c: int, h: IoBuffer?, s: seq<IoBuffer>)
    requires pool.Keys == free.Keys && ChainsBut(pool, free, c) && Chain(h, s, c)
    ensures Chains(pool[c := h], free[c := s])
  {
    hide Chain;
  }

  /** Buffers are within bounds, and off any list while handed out. */
  ghost predicate Shape(created: set<IoBuffer>, holder: map<IoBuffer, object>)
    reads created
  {
    && (forall b :: b in created ==> b.Ok())
    && (forall b :: b in holder && b in created ==> b.next == null)
  }

  /** The same for every buffer but `b`. */
  ghost predicate ShapeBut(created: set<IoBuffer>, holder: map<IoBuffer, object>, b: IoBuffer)
    reads created - {b}
  {
    && (forall x :: x in created - {b} ==> x.Ok())
    && (forall x :: x in holder && x in created - {b} ==> x.next == null)
  }

  lemma ShapeSplit(created: set<IoBuffer>, holder: map<IoBuffer, object>, b: IoBuffer)
    requires Shape(created, holder)
    ensures ShapeBut(created, holder, b)
    ensures b in created ==> b.Ok()
  {
  }

  lemma ShapeJoin(created: set<IoBuffer>, holder: map<IoBuffer, object>, holder': map<IoBuffer, object>, b: IoBuffer)
    requires ShapeBut(created, holder, b) && b.Ok()
    requires holder'.Keys - {b} <= holder.Keys && (b in holder' ==> b.next == null)
    ensures Shape(created, holder')
  {
  }

  lemma ShapeUnion(created: set<IoBuffer>, holder: map<IoBuffer, object>, s: seq<IoBuffer>)
    requires Shape(created, holder) && holder.Keys <= created
    requires forall i :: 0 <= i < |s| ==> s[i].Ok()
    ensures Shape(created + (set b | b in s), holder)
  {
  }

  lemma ListFacts(h: IoBuffer?, s: seq<IoBuffer>, c: int)
    requires Chain(h, s, c)
    ensures forall i :: 0 <= i < |s| ==> s[i].capacity == c
    ensures forall i, j :: 0 <= i < j < |s| ==> s[i] != s[j]
  {
  }

  /** Every buffer ever created is held or on the free list of its class, never both. */
  ghost predicate Partitioned(free: map<int, seq<IoBuffer>>, holder: map<IoBuffer, object>, created: set<IoBuffer>) {
    && (forall c :: c in free ==> forall b :: b in free[c] ==> b in created && b !in holder && b.capacity == c)
    && (forall b :: b in created && b !in holder ==> b.capacity in free && b in free[b.capacity])
    && (forall b :: b in holder ==> b in created)
    && (forall b :: b in created ==> b.capacity in free)
  }

  lemma PartitionedTake(free: map<int, seq<IoBuffer>>, holder: map<IoBuffer, object>, created: set<IoBuffer>,
                        c: int, b: IoBuffer, who: object)
    requires Partitioned(free, holder, created) && c in free && b in free[c]
    requires forall x :: x in free[c] ==> x == b || x in free[c][1..]
    requires forall x :: x in free[c][1..] ==> x in free[c] && x != b
    ensures Partitioned(free[c := free[c][1..]], holder[b := who], created)
    ensures b in created && b !in holder
  {
  }

  /** What is on a list was created and is not held, and a buffer is on the list of its class only. */
  lemma NodesFacts(free: map<int, seq<IoBuffer>>, holder: map<IoBuffer, object>, created: set<IoBuffer>, but: Option<int>)
    requires Partitioned(free, holder, created)
    ensures forall b :: b in Nodes(free, but) ==> b in created && b !in holder && but != Some(b.capacity)
  {
    forall b | b in Nodes(free, but) ensures b in created && b !in holder && but != Some(b.capacity) {
      var k :| k in free && but != Some(k) && b in free[k];
    }
  }

  lemma PartitionedCreate(free: map<int, seq<IoBuffer>>, holder: map<IoBuffer, object>, created: set<IoBuffer>,
                          b: IoBuffer, who: object)
    requires Partitioned(free, holder, created) && b.capacity in free && b !in created
    ensures Partitioned(free, holder[b := who], created + {b})
    ensures b !in holder && holder.Keys <= created
  {
  }

  lemma PartitionedRevert(free: map<int, seq<IoBuffer>>, holder: map<IoBuffer, object>, created: set<IoBuffer>, b: IoBuffer)
    requires Partitioned(free, holder, created) && b in holder
    ensures b in created && b.capacity in free && b !in free[b.capacity]
    ensures Partitioned(free[b.capacity := [b] + free[b.capacity]], holder - {b}, created)
  {
  }

  lemma PartitionedClass(free: map<int, seq<IoBuffer>>, holder: map<IoBuffer, object>, created: set<IoBuffer>,
                         c: int, s: seq<IoBuffer>)
    requires Partitioned(free, holder, created) && c !in free
    requires forall i :: 0 <= i < |s| ==> s[i] !in created && s[i].capacity == c
    ensures holder.Keys <= created
    ensures Partitioned(free[c := s], holder, created + (set b | b in s))
  {
  }

  /** No two buffers share storage. */
  ghost predicate OwnStores(created: set<IoBuffer>) {
    forall a, b :: a in created && b in created && a != b ==> a.data != b.data
  }

  lemma OwnStoresUnion(created: set<IoBuffer>, s: seq<IoBuffer>)
    requires OwnStores(created)
    requires forall i, j :: 0 <= i < j < |s| ==> s[i].data != s[j].data
    requires forall b, i :: b in created && 0 <= i < |s| ==> b.data != s[i].data
    ensures OwnStores(created + (set b | b in s))
  {
  }

  /** `log` lists the created buffers without repetition, and `total` is their memory in KiB. */
  ghost predicate Accounted(log: seq<IoBuffer>, created: set<IoBuffer>, total: int) {
    && (forall i, j :: 0 <= i < j < |log| ==> log[i] != log[j])
    && (forall b :: b in created ==> b in log) && (forall b :: b in log ==> b in created)
    && total == SumK(log)
  }

  lemma AccountedAppend(log: seq<IoBuffer>, created: set<IoBuffer>, total: int, b: IoBuffer)
    requires Accounted(log, created, total) && b !in created
    ensures Accounted(log + [b], created + {b}, total + b.capacity / 1024)
  {
    SumKAppend(log, b);
  }

  lemma AccountedUniform(log: seq<IoBuffer>, created: set<IoBuffer>, total: int, t: seq<IoBuffer>, c: int)
    requires Accounted(log, created, total)
    requires forall i :: 0 <= i < |t| ==> t[i].capacity == c && t[i] !in created
    requires forall i, j :: 0 <= i < j < |t| ==> t[i] != t[j]
    ensures Accounted(log + t, created + (set b | b in t), total + (c / 1024) * |t|)
  {
    SumKUniform(log, t, c);
  }

  /** How many buffers of each class the constructor makes. */
  function InitialCount(c: int): nat {
    if c == 4096 then 5000
    else if c == 16384 then 1000
    else if c == 65536 then 500
    else if c == 262144 then 200
    else if c == 1048576 then 50
    else if c == 4194304 then 20
    else 10
  }

  ghost predicate Filled(free: map<int, seq<IoBuffer>>) {
    forall c :: c in free ==> |free[c]| == InitialCount(c)
  }

  lemma EmptyPool()
    ensures Filled(map[])
    ensures Partitioned(map[], map[], {}) && Chains(map[], map[]) && Shape({}, map[]) && OwnStores({})
    ensures Accounted([], {}, 0)
  {
  }

  /** The buffers nobody holds, and their storage. */
  ghost function FreeSet(created: set<IoBuffer>, holder: map<IoBuffer, object>): set<object> {
    (set b | b in created && b !in holder :: b as object) + (set b | b in created && b !in holder :: b.data as object)
  }

  lemma FreeSetAlloc(created: set<IoBuffer>, holder: map<IoBuffer, object>, b: IoBuffer, who: object)
    ensures FreeSet(created + {b}, holder[b := who]) <= FreeSet(created, holder)
    ensures b in created && b !in holder ==> b in FreeSet(created, holder) && b.data in FreeSet(created, holder)
  {
  }

  lemma FreeSetRevert(created: set<IoBuffer>, holder: map<IoBuffer, object>, b: IoBuffer)
    requires b in holder && b in created
    ensures FreeSet(created, holder - {b}) == FreeSet(created, holder) + {b, b.data}
  {
    var before, after := FreeSet(created, holder), FreeSet(created, holder - {b});
    assert b in after && b.data in after;
  }

  // ---------- the allocator ----------

  /** `free[c]` is the free list of class `c` from its head; `holder` names the owner of every buffer handed
      out; `log` lists every buffer ever created. */
  class BufferPool {
    var pool: map<int, IoBuffer?>
    var totalMem: nat
    ghost var free: map<int, seq<IoBuffer>>
    ghost var holder: map<IoBuffer, object>
    ghost var created: set<IoBuffer>
    ghost var log: seq<IoBuffer>

    ghost predicate Consistent()
      reads this, created
    {
      && Partitioned(free, holder, created)
      && Chains(pool, free)
      && Shape(created, holder)
      && OwnStores(created)
      && Accounted(log, created, totalMem)
    }

    ghost predicate Valid()
      reads this, created
    {
      Consistent() && free.Keys == CLASSES && totalMem < MEM_LIMIT
    }

    /** Valid, but for the bounds of one buffer in use. Its holder may change that buffer meanwhile. */
    ghost predicate ValidBut(b: IoBuffer)
      reads this, created - {b}
    {
      && b in holder
      && Partitioned(free, holder, created)
      && Nodes(free, None) <= created - {b}
      && Chains(pool, free)
      && ShapeBut(created, holder, b)
      && OwnStores(created)
      && Accounted(log, created, totalMem)
      && free.Keys == CLASSES && totalMem < MEM_LIMIT
    }

    lemma Borrow(b: IoBuffer)
      requires Valid() && b in holder
      ensures ValidBut(b)
    {
      NodesFacts(free, holder, created, None);
      ShapeSplit(created, holder, b);
      hide Chains, Accounted, OwnStores, Shape, ShapeBut, Nodes;
    }

    lemma Return(b: IoBuffer)
      requires ValidBut(b) && b.Ok() && b.next == null
      ensures Valid()
    {
      hide Chains, Accounted, OwnStores, Shape, ShapeBut, Nodes;
      ShapeJoin(created, holder, holder, b);
    }

    /** All free buffers and their storage. */
    ghost function FreeRepr(): set<object>
      reads this
    {
      FreeSet(created, holder)
    }

    /** The buffer `alloc(n)` would take from a free list, if any. */
    ghost function HeadOf(n: int): set<IoBuffer>
      reads this
    {
      var c := SizeClass(n);
      if c.Some? && c.value in pool && pool[c.value] != null then {pool[c.value]} else {}
    }

    constructor ()
      ensures Valid()
      ensures totalMem == 334240 && holder == map[] && Filled(free)
      ensures free.Keys == {4096, 16384, 65536, 262144, 1048576, 4194304, 8388608}
      ensures |free[4096]| == 5000 && |free[16384]| == 1000 && |free[65536]| == 500 && |free[262144]| == 200
      ensures |free[1048576]| == 50 && |free[4194304]| == 20 && |free[8388608]| == 10
    {
      pool, totalMem := map[], 0;
      free, holder, created, log := map[], map[], {}, [];
      new;
      EmptyPool();
      hide Partitioned, Chains, Shape, OwnStores, Accounted;
      assert Consistent();
      hide Consistent, Filled;
      AddKilobytes();
      AddMegabytes();
      FilledCounts();
    }

    lemma FilledCounts()
      requires Filled(free) && free.Keys == CLASSES
      ensures |free[4096]| == 5000 && |free[16384]| == 1000 && |free[65536]| == 500 && |free[262144]| == 200
      ensures |free[1048576]| == 50 && |free[4194304]| == 20 && |free[8388608]| == 10
    {
    }

    /** The limit in numbers: the total of 5 GiB, in KiB, is never reached. */
    lemma LimitIs(n: int)
      requires Valid()
      ensures totalMem < 5242880
      ensures ExhaustedFor(n) <==>
                SizeClass(n).Some? && free[SizeClass(n).value] == [] && totalMem + SizeClass(n).value / 1024 >= 5242880
    {
      hide Consistent;
    }

    /** The blocks of the constructor for the classes below 1 MiB. */
    method AddKilobytes()
      requires Consistent() && Filled(free) && free.Keys == {} && holder == map[] && totalMem == 0
      modifies this
      ensures Consistent() && Filled(free) && holder == map[]
      ensures free.Keys == {4096, 16384, 65536, 262144} && totalMem == 119200
    {
      hide Consistent, Filled;
      AddClass(4096);
      AddClass(16384);
      AddClass(65536);
      AddClass(262144);
    }

    /** The blocks for the other three. */
    method AddMegabytes()
      requires Consistent() && Filled(free) && free.Keys == {4096, 16384, 65536, 262144} && holder == map[]
      requires totalMem == 119200
      modifies this
      ensures Consistent() && Filled(free) && holder == map[]
      ensures free.Keys == CLASSES && totalMem == 334240
    {
      hide Consistent, Filled;
      AddClass(1048576);
      AddClass(4194304);
      AddClass(8388608);
    }

    /** One list-building loop of the constructor. */
    static method BuildList(c: nat, n: nat) returns (h: IoBuffer, ghost s: seq<IoBuffer>)
      requires n > 0
      ensures |s| == n && Chain(h, s, c)
      ensures forall i :: 0 <= i < n ==> fresh(s[i]) && fresh(s[i].data) && s[i].Ok()
      ensures forall i, j :: 0 <= i < j < n ==> s[i].data != s[j].data
    {
      hide Chain, Follower;
      h := new IoBuffer(c);
      s := [h];
      assert Chain(h, s, c) by { ChainOne(h, c); }
      var prev := h;
      for i := 1 to n
        invariant |s| == i && prev == s[i - 1] && Chain(h, s, c)
        invariant forall k :: 0 <= k < i ==> fresh(s[k]) && fresh(s[k].data) && s[k].Ok()
        invariant forall k, j :: 0 <= k < j < i ==> s[k].data != s[j].data
      {
        var b := AppendNode(h, s, c, prev);
        s := s + [b];
        prev := b;
      }
    }

    /** One round of that loop. */
    static method AppendNode(h: IoBuffer, ghost s: seq<IoBuffer>, c: nat, prev: IoBuffer) returns (b: IoBuffer)
      requires s != [] && Chain(h, s, c) && prev == s[|s| - 1]
      modifies prev`next
      ensures Chain(h, s + [b], c) && fresh(b) && fresh(b.data) && b.Ok()
    {
      assert forall k :: 0 <= k < |s| - 1 ==> s[k] != prev;
      b := new IoBuffer(c);
      prev.next := b;
      ChainSnoc(h, s, c, b);
    }

    /** One block of the constructor. */
    method AddClass(c: nat)
      requires Consistent() && Filled(free) && c in CLASSES && c !in free
      modifies this
      ensures Consistent() && Filled(free)
      ensures free.Keys == old(free.Keys) + {c} && holder == old(holder)
      ensures totalMem == old(totalMem) + (c / 1024) * InitialCount(c)
    {
      var n := InitialCount(c);
      hide FreeSet, Nodes, Chain, Chains, ChainsBut, Accounted, Partitioned, OwnStores, Shape;
      NodesFacts(free, holder, created, Some(c));
      ChainsSplit(pool, free, c);
      ghost var pool0, free0, created0 := pool, free, created;
      assert Nodes(free0, Some(c)) <= created0;
      var h, s := BuildList(c, n);
      ListFacts(h, s, c);
      AccountedUniform(log, created, totalMem, s, c);
      PartitionedClass(free, holder, created, c, s);
      OwnStoresUnion(created, s);
      ShapeUnion(created, holder, s);
      pool, totalMem := pool[c := h], totalMem + (c / 1024) * n;
      free, created, log := free[c := s], created + (set b | b in s), log + s;
      assert ChainsBut(pool0, free0, c);
      ChainsJoin(pool0, free0, c, h, s);
    }

    method Alloc(n: int, ghost who: object) returns (r: AllocResult)
      requires Valid()
      modifies this, HeadOf(n)
      ensures Valid()
      ensures r.NoClass? <==> n > U8M
      ensures !r.Got? ==> unchanged(this)
      ensures r.Exhausted? <==> old(ExhaustedFor(n))
      ensures r.Got? ==> SizeClass(n) == Some(r.buf.capacity) && HandedOut(old(created), old(holder), r.buf, who)
      ensures r.Got? ==> CameFrom(r.buf, old(free), old(log), old(totalMem))
      ensures r.Exhausted? ==> AtLimit()
      ensures old(totalMem) <= totalMem <= old(totalMem) + U8M / 1024
      ensures r.Got? ==>
                || (fresh(r.buf) && fresh(r.buf.data) && old(free)[r.buf.capacity] == [])
                || (r.buf in old(FreeRepr()) && r.buf.data in old(FreeRepr()))
      ensures FreeRepr() <= old(FreeRepr())
    {
      hide Chain, Accounted, Partitioned, Shape, Chains, ChainsBut, OwnStores, FreeSet;
      var index := SizeClass(n);
      if index.None? {
        return NoClass;
      }
      var c := index.value;
      ChainsSplit(pool, free, c);
      if pool[c] == null {
        ChainNil(c, free[c]);
        if totalMem + c / 1024 >= MEM_LIMIT {
          ExhaustedIsLimit(n);
          return Exhausted;
        }
        var newBuf := Create(c, who);
        FreeSetAlloc(old(created), old(holder), newBuf, who);
        return Got(newBuf);
      }
      var target := Take(c, who);
      FreeSetAlloc(old(created), old(holder), target, who);
      return Got(target);
    }

    /** The list of the class for `n` is empty, and another buffer of that class would reach the memory limit. */
    ghost predicate ExhaustedFor(n: int)
      reads this
    {
      var c := SizeClass(n);
      c.Some? && c.value in free && free[c.value] == [] && totalMem + c.value / 1024 >= MEM_LIMIT
    }

    /** The same for some class: the only states in which `alloc` ends the process. */
    ghost predicate AtLimit()
      reads this
    {
      exists c :: c in free && free[c] == [] && totalMem + c / 1024 >= MEM_LIMIT
    }

    lemma ExhaustedIsLimit(n: int)
      requires ExhaustedFor(n)
      ensures AtLimit()
    {
    }

    /** With one buffer of the largest class to spare, the limit is out of reach for every class. */
    lemma BelowLimit()
      requires Valid()
      ensures AtLimit() ==> totalMem + U8M / 1024 >= MEM_LIMIT
    {
      hide Consistent;
    }

    /** `b` was the head of the list of its class, which is now without it, or that list was empty and `b` is new. */
    ghost predicate CameFrom(b: IoBuffer, wasFree: map<int, seq<IoBuffer>>, wasLog: seq<IoBuffer>, wasTotal: nat)
      reads this
    {
      var c := b.capacity;
      && c in wasFree
      && if wasFree[c] == [] then free == wasFree && log == wasLog + [b] && totalMem == wasTotal + c / 1024
         else b == wasFree[c][0] && free == wasFree[c := wasFree[c][1..]] && log == wasLog && totalMem == wasTotal
    }

    /** What every caller of `alloc` gets: an empty buffer that was free or new, and is now held by `who`. */
    ghost predicate HandedOut(wasCreated: set<IoBuffer>, wasHolder: map<IoBuffer, object>, b: IoBuffer, who: object)
      reads this, b
    {
      && b.Ok() && b.length == 0 && b.head == 0 && b.next == null
      && b !in wasHolder && holder == wasHolder[b := who]
      && created == wasCreated + {b}
    }

    /** The branch of `alloc` for an empty list. */
    method Create(c: nat, ghost who: object) returns (newBuf: IoBuffer)
      requires Valid() && c in free && free[c] == [] && totalMem + c / 1024 < MEM_LIMIT
      modifies this
      ensures Valid() && CameFrom(newBuf, old(free), old(log), old(totalMem))
      ensures fresh(newBuf) && fresh(newBuf.data) && newBuf.capacity == c
      ensures HandedOut(old(created), old(holder), newBuf, who)
    {
      hide FreeSet, Nodes, Chain, Chains, Shape, ShapeBut, Accounted, Partitioned, OwnStores;
      NodesFacts(free, holder, created, None);
      newBuf := new IoBuffer(c);
      assert created + (set b | b in [newBuf]) == created + {newBuf};
      OwnStoresUnion(created, [newBuf]);
      AccountedAppend(log, created, totalMem, newBuf);
      PartitionedCreate(free, holder, created, newBuf, who);
      ShapeUnion(created, holder, [newBuf]);
      ShapeSplit(created + {newBuf}, holder, newBuf);
      ShapeJoin(created + {newBuf}, holder, holder[newBuf := who], newBuf);
      totalMem := totalMem + c / 1024;
      holder := holder[newBuf := who];
      created := created + {newBuf};
      log := log + [newBuf];
    }

    /** The branch of `alloc` that unlinks the head of a list. */
    method Take(c: nat, ghost who: object) returns (target: IoBuffer)
      requires Valid() && c in free && pool[c] != null
      modifies `pool, `free, `holder, pool[c]
      ensures Valid()
      ensures target == old(pool)[c] && target in old(created) && target !in old(holder) && target.capacity == c
      ensures HandedOut(old(created), old(holder), target, who)
      ensures old(free)[c] != [] && CameFrom(target, old(free), old(log), old(totalMem))
    {
      hide FreeSet, Nodes, Chain, Chains, ChainsBut, Shape, ShapeBut, Accounted, Partitioned, OwnStores;
      ChainsSplit(pool, free, c);
      target := pool[c];
      ChainTail(target, free[c], c);
      PartitionedTake(free, holder, created, c, target, who);
      NodesFacts(free, holder, created, Some(c));
      ghost var pool0, free0, holder0 := pool, free, holder;
      ShapeSplit(created, holder, target);
      pool := pool[c := target.next];
      free := free[c := free[c][1..]];
      holder := holder[target := who];
      target.next := null;
      ChainsJoin(pool0, free0, c, pool[c], free[c]);
      ShapeJoin(created, holder0, holder, target);
    }

    method Revert(buffer: IoBuffer)
      requires Valid() && buffer in holder
      modifies `pool, `free, `holder, buffer
      ensures Valid()
      ensures holder == old(holder) - {buffer}
      ensures created == old(created) && log == old(log) && totalMem == old(totalMem)
      ensures FreeRepr() == old(FreeRepr()) + {buffer, buffer.data}
      ensures buffer.capacity in old(free) && free == old(free)[buffer.capacity := [buffer] + old(free)[buffer.capacity]]
    {
      hide FreeSet, Nodes, Chain, Chains, ChainsBut, Shape, ShapeBut, Accounted, Partitioned, OwnStores;
      var index := buffer.capacity;
      PartitionedRevert(free, holder, created, buffer);
      NodesFacts(free, holder, created, Some(index));
      ChainsSplit(pool, free, index);
      ghost var pool0, free0, holder0 := pool, free, holder;
      ShapeSplit(created, holder, buffer);
      buffer.PutBefore(pool[index]);
      ChainCons(buffer, pool[index], free[index], index);
      pool, free, holder := pool[index := buffer], free[index := [buffer] + free[index]], holder - {buffer};
      ChainsJoin(pool0, free0, index, buffer, free[index]);
      ShapeJoin(created, holder0, holder, buffer);
      FreeSetRevert(created, holder0, buffer);
    }
  }
}
