/** The binary min-heap of `timer_queue`, as functions on the vector `_event_lst`.
    The class in TimerQueue.dfy performs the same work in place and is proved equal to these functions. */
module TimerHeap {

  /** `cb` stands for the callback together with its argument. */
  datatype TimerEvent = TimerEvent(timerId: int, ts: nat, interval: nat, cb: nat)

  /** Division by two as C++ does it: toward zero. */
  function TruncHalf(n: int): int {
    if n < 0 then -((-n) / 2) else n / 2
  }

  /** The parent slot. The parent of slot 0 is slot 0, because `(0 - 1) / 2` truncates to 0. */
  function Parent(pos: nat): (p: nat)
    ensures pos == 0 ==> p == 0
    ensures pos > 0 ==> p < pos && (pos == 2 * p + 1 || pos == 2 * p + 2)
  {
    TruncHalf(pos - 1)
  }

  ghost predicate Ordered(s: seq<TimerEvent>) {
    forall i :: 0 <= i < |s| ==> s[Parent(i)].ts <= s[i].ts
  }

  ghost predicate DistinctIds(s: seq<TimerEvent>) {
    forall i, j :: 0 <= i < j < |s| ==> s[i].timerId != s[j].timerId
  }

  lemma {:induction false} RootIsMin(s: seq<TimerEvent>, i: nat)
    requires Ordered(s) && i < |s|
    ensures s[0].ts <= s[i].ts
    decreases i
  {
    if i > 0 {
      RootIsMin(s, Parent(i));
    }
  }

  function Swap(s: seq<TimerEvent>, i: nat, j: nat): (r: seq<TimerEvent>)
    requires i < |s| && j < |s|
    ensures |r| == |s|
    ensures multiset(r) == multiset(s)
    ensures DistinctIds(s) ==> DistinctIds(r)
  {
    s[i := s[j]][j := s[i]]
  }

  /** The upward loop of `heap_add`. */
  function SiftUp(s: seq<TimerEvent>, pos: nat): (r: seq<TimerEvent>)
    requires pos < |s|
    ensures |r| == |s|
    ensures multiset(r) == multiset(s)
    ensures DistinctIds(s) ==> DistinctIds(r)
    decreases pos
  {
    if s[pos].ts < s[Parent(pos)].ts then SiftUp(Swap(s, pos, Parent(pos)), Parent(pos)) else s
  }

  /** The slot `heap_hold` exchanges with `pos`: the smaller child if it is smaller than `pos`, else `pos`. */
  function MinSlot(s: seq<TimerEvent>, pos: nat): (m: nat)
    requires pos <= |s|
    ensures m != pos ==> pos < m < |s| && Parent(m) == pos && s[m].ts < s[pos].ts
    ensures forall c :: pos < c < |s| && Parent(c) == pos ==> s[m].ts <= s[c].ts
    ensures pos < |s| ==> m < |s|
  {
    var left := 2 * pos + 1;
    var right := 2 * pos + 2;
    var m0 := if left < |s| && s[pos].ts > s[left].ts then left else pos;
    if right < |s| && s[m0].ts > s[right].ts then right else m0
  }

  /** `heap_hold`. A position one past the end is legal and has no effect. */
  function SiftDown(s: seq<TimerEvent>, pos: nat): (r: seq<TimerEvent>)
    requires pos <= |s|
    ensures |r| == |s|
    ensures multiset(r) == multiset(s)
    ensures DistinctIds(s) ==> DistinctIds(r)
    decreases |s| - pos
  {
    var m := MinSlot(s, pos);
    if m != pos then SiftDown(Swap(s, pos, m), m) else s
  }

  function HeapAdd(s: seq<TimerEvent>, te: TimerEvent): (r: seq<TimerEvent>)
    ensures |r| == |s| + 1
    ensures multiset(r) == multiset(s) + multiset{te}
  {
    SiftUp(s + [te], |s|)
  }

  /** The vector after the rear item has overwritten slot `pos` and the rear has been dropped. */
  function MoveRear(s: seq<TimerEvent>, pos: nat): (t: seq<TimerEvent>)
    requires pos < |s|
    ensures |t| == |s| - 1
    ensures multiset(t) == multiset(s) - multiset{s[pos]}
    ensures DistinctIds(s) ==> DistinctIds(t)
  {
    var rear := s[|s| - 1];
    var t := s[pos := rear][..|s| - 1];
    assert s[pos := rear] == t + [rear];
    assert multiset(s[pos := rear]) == multiset(t) + multiset{rear};
    assert multiset(s) - multiset{s[pos]} + multiset{rear} == multiset(t) + multiset{rear};
    CancelOne(multiset(t), multiset(s) - multiset{s[pos]}, rear);
    t
  }

  lemma CancelOne(a: multiset<TimerEvent>, b: multiset<TimerEvent>, x: TimerEvent)
    requires a + multiset{x} == b + multiset{x}
    ensures a == b
  {
    assert a == (a + multiset{x}) - multiset{x};
    assert b == (b + multiset{x}) - multiset{x};
  }

  /** `heap_del` as written: it only sifts down. */
  function HeapDel(s: seq<TimerEvent>, pos: nat): (r: seq<TimerEvent>)
    requires pos < |s|
    ensures |r| == |s| - 1
    ensures multiset(r) == multiset(s) - multiset{s[pos]}
    ensures DistinctIds(s) ==> DistinctIds(r)
  {
    SiftDown(MoveRear(s, pos), pos)
  }

  /** `heap_del` with the upward loop of `heap_add` added, starting from the same slot. */
  function HeapDelIntended(s: seq<TimerEvent>, pos: nat): (r: seq<TimerEvent>)
    requires pos < |s|
    ensures |r| == |s| - 1
    ensures multiset(r) == multiset(s) - multiset{s[pos]}
    ensures DistinctIds(s) ==> DistinctIds(r)
  {
    var t := HeapDel(s, pos);
    if pos < |t| then SiftUp(t, pos) else t
  }

  function HeapPop(s: seq<TimerEvent>): (r: seq<TimerEvent>)
    ensures s != [] ==> r == HeapDel(s, 0)
  {
    if |s| == 0 then s
    else if |s| > 1 then SiftDown(MoveRear(s, 0), 0)
    else []
  }

  // ---------- order ----------

  /** Ordered, except that slot `pos` may be smaller than its parent. */
  ghost predicate OrderedAbove(s: seq<TimerEvent>, pos: nat) {
    && pos < |s|
    && (forall i :: 0 <= i < |s| && i != pos ==> s[Parent(i)].ts <= s[i].ts)
    && (forall c :: pos < c < |s| && Parent(c) == pos ==> s[Parent(pos)].ts <= s[c].ts)
  }

  /** Ordered, except that slot `pos` may be larger than its children. */
  ghost predicate OrderedBelow(s: seq<TimerEvent>, pos: nat) {
    && (forall i :: 0 < i < |s| && Parent(i) != pos ==> s[Parent(i)].ts <= s[i].ts)
    && (forall c :: 0 < pos < c < |s| && Parent(c) == pos ==> s[Parent(pos)].ts <= s[c].ts)
  }

  lemma {:induction false} SiftUpOrders(s: seq<TimerEvent>, pos: nat)
    requires OrderedAbove(s, pos)
    ensures Ordered(SiftUp(s, pos))
    decreases pos
  {
    if s[pos].ts < s[Parent(pos)].ts {
      SiftUpOrders(Swap(s, pos, Parent(pos)), Parent(pos));
    }
  }

  lemma {:induction false} SiftDownOrders(s: seq<TimerEvent>, pos: nat)
    requires pos <= |s|
    requires OrderedBelow(s, pos)
    ensures Ordered(SiftDown(s, pos))
    decreases |s| - pos
  {
    var m := MinSlot(s, pos);
    if m != pos {
      SiftDownOrders(Swap(s, pos, m), m);
    }
  }

  /** Sifting down never touches a slot before its start. */
  lemma {:induction false} SiftDownKeepsFront(s: seq<TimerEvent>, pos: nat, k: nat)
    requires k < pos <= |s|
    ensures SiftDown(s, pos)[k] == s[k]
    decreases |s| - pos
  {
    var m := MinSlot(s, pos);
    if m != pos {
      SiftDownKeepsFront(Swap(s, pos, m), m, k);
    }
  }

  lemma HeapAddOrders(s: seq<TimerEvent>, te: TimerEvent)
    requires Ordered(s)
    ensures Ordered(HeapAdd(s, te))
  {
    SiftUpOrders(s + [te], |s|);
  }

  /** What a caller can check before `heap_del(pos)`: slot 0, the last slot, or a rear item that does not
      precede the parent of `pos`. */
  predicate DelKeepsOrder(s: seq<TimerEvent>, pos: nat)
    requires pos < |s|
  {
    pos == 0 || pos == |s| - 1 || s[Parent(pos)].ts <= s[|s| - 1].ts
  }

  /** Deletion as written keeps the heap exactly when the guard holds. */
  lemma HeapDelOrdersIff(s: seq<TimerEvent>, pos: nat)
    requires Ordered(s) && pos < |s|
    ensures Ordered(HeapDel(s, pos)) <==> DelKeepsOrder(s, pos)
  {
    var t := MoveRear(s, pos);
    MoveRearOrder(s, pos);
    if DelKeepsOrder(s, pos) {
      SiftDownOrders(t, pos);
    } else {
      assert SiftDown(t, pos) == t;
      assert t[pos].ts < t[Parent(pos)].ts;
    }
  }

  lemma MoveRearOrder(s: seq<TimerEvent>, pos: nat)
    requires Ordered(s) && pos < |s|
    ensures DelKeepsOrder(s, pos) ==> OrderedBelow(MoveRear(s, pos), pos)
    ensures !DelKeepsOrder(s, pos) ==> OrderedAbove(MoveRear(s, pos), pos) && MinSlot(MoveRear(s, pos), pos) == pos
  {
    hide DistinctIds;
    var t := MoveRear(s, pos);
    assert forall i :: 0 <= i < |t| ==> t[i] == s[if i == pos then |s| - 1 else i];
    forall c | pos < c < |t| && Parent(c) == pos
      ensures s[pos].ts <= t[c].ts && s[Parent(pos)].ts <= t[c].ts
    {
      assert s[Parent(pos)].ts <= s[pos].ts;
      assert s[Parent(c)].ts <= s[c].ts;
    }
  }

  /** With the upward sift added, deletion keeps the heap at every slot. */
  lemma HeapDelIntendedOrders(s: seq<TimerEvent>, pos: nat)
    requires Ordered(s) && pos < |s|
    ensures Ordered(HeapDelIntended(s, pos))
  {
    HeapDelOrdersIff(s, pos);
    MoveRearOrder(s, pos);
    var t := HeapDel(s, pos);
    if DelKeepsOrder(s, pos) {
      if pos < |t| {
        assert s[Parent(pos)].ts <= s[pos].ts;
        assert t[Parent(pos)].ts <= t[pos].ts;
      }
    } else {
      SiftUpOrders(t, pos);
    }
  }

  /** A deletion as written that loses the order: 3 ends up under 10. */
  lemma HeapDelLosesOrder()
    ensures
      var s := [TimerEvent(0, 1, 0, 0), TimerEvent(1, 10, 0, 0), TimerEvent(2, 2, 0, 0),
                TimerEvent(3, 11, 0, 0), TimerEvent(4, 12, 0, 0), TimerEvent(5, 3, 0, 0)];
      Ordered(s) && !Ordered(HeapDel(s, 3)) && HeapDel(s, 3)[3].ts == 3 && HeapDel(s, 3)[1].ts == 10
  {
    var s := [TimerEvent(0, 1, 0, 0), TimerEvent(1, 10, 0, 0), TimerEvent(2, 2, 0, 0),
              TimerEvent(3, 11, 0, 0), TimerEvent(4, 12, 0, 0), TimerEvent(5, 3, 0, 0)];
    hide DistinctIds, HeapDel;
    assert Parent(1) == 0 && Parent(2) == 0 && Parent(3) == 1 && Parent(4) == 1 && Parent(5) == 2;
    assert Ordered(s);
    HeapDelOrdersIff(s, 3);
    MoveRearOrder(s, 3);
  }

  // ---------- contents ----------

  /** The abstract queue: what is pending, by id. */
  ghost function Pending(s: seq<TimerEvent>): (m: map<int, TimerEvent>)
    requires DistinctIds(s)
    ensures forall e :: e in s <==> e.timerId in m && m[e.timerId] == e
    ensures forall id :: id in m ==> m[id].timerId == id
  {
    map i | 0 <= i < |s| :: s[i].timerId := s[i]
  }

  lemma SameElements(r: seq<TimerEvent>, s: seq<TimerEvent>)
    requires multiset(r) == multiset(s)
    ensures forall e :: e in r <==> e in s
  {
    forall e ensures e in r <==> e in s {
      assert e in r <==> e in multiset(r);
      assert e in s <==> e in multiset(s);
    }
  }

  lemma HeapAddElements(s: seq<TimerEvent>, te: TimerEvent)
    requires DistinctIds(s)
    requires forall e :: e in s ==> e.timerId != te.timerId
    ensures DistinctIds(HeapAdd(s, te))
    ensures forall e :: e in HeapAdd(s, te) <==> e in s || e == te
  {
    var u := s + [te];
    assert DistinctIds(u) by {
      assert forall i :: 0 <= i < |s| ==> s[i] in s;
    }
    SameElements(SiftUp(u, |s|), u);
  }

  lemma MoveRearElements(s: seq<TimerEvent>, pos: nat)
    requires DistinctIds(s) && pos < |s|
    ensures forall e :: e in MoveRear(s, pos) <==> e in s && e != s[pos]
  {
    var t := MoveRear(s, pos);
    forall e ensures e in t <==> e in s && e != s[pos] {
      if e in t {
        var i :| 0 <= i < |t| && t[i] == e;
        assert e == s[if i == pos then |s| - 1 else i];
      }
      if e in s && e != s[pos] {
        var i :| 0 <= i < |s| && s[i] == e;
        assert e == t[if i == |s| - 1 then pos else i];
      }
    }
  }

  lemma HeapDelElements(s: seq<TimerEvent>, pos: nat)
    requires DistinctIds(s) && pos < |s|
    ensures forall e :: e in HeapDel(s, pos) <==> e in s && e != s[pos]
    ensures forall e :: e in HeapDelIntended(s, pos) <==> e in s && e != s[pos]
  {
    MoveRearElements(s, pos);
    SameElements(HeapDel(s, pos), MoveRear(s, pos));
    SameElements(HeapDelIntended(s, pos), MoveRear(s, pos));
  }

  /** Insertion is map update on the abstract queue. */
  lemma HeapAddPending(s: seq<TimerEvent>, te: TimerEvent)
    requires DistinctIds(s)
    requires forall e :: e in s ==> e.timerId != te.timerId
    ensures DistinctIds(HeapAdd(s, te))
    ensures Pending(HeapAdd(s, te)) == Pending(s)[te.timerId := te]
  {
    HeapAddElements(s, te);
    PendingFromElements(HeapAdd(s, te), Pending(s)[te.timerId := te]);
  }

  /** Both deletions remove exactly the timer in the given slot. */
  lemma HeapDelPending(s: seq<TimerEvent>, pos: nat)
    requires DistinctIds(s) && pos < |s|
    ensures Pending(HeapDel(s, pos)) == Pending(s) - {s[pos].timerId}
    ensures Pending(HeapDelIntended(s, pos)) == Pending(s) - {s[pos].timerId}
  {
    HeapDelElements(s, pos);
    PendingFromElements(HeapDel(s, pos), Pending(s) - {s[pos].timerId});
    PendingFromElements(HeapDelIntended(s, pos), Pending(s) - {s[pos].timerId});
  }

  lemma PendingFromElements(s: seq<TimerEvent>, m: map<int, TimerEvent>)
    requires DistinctIds(s)
    requires forall id :: id in m ==> m[id].timerId == id && m[id] in s
    requires forall e :: e in s ==> e.timerId in m && m[e.timerId] == e
    ensures Pending(s) == m
  {
    var p := Pending(s);
    forall id | id in p ensures id in m && m[id] == p[id] {
      assert p[id] in s;
    }
    forall id | id in m ensures id in p {
      assert m[id] in s;
    }
  }
}
