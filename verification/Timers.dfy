/** The timer queue as a state machine: `add_timer`, `del_timer` and `get_timo` on values, and what holds
    over every run of them. */
module Timers {
  import opened TimerHeap

  /** `(uint64_t)-1`: no deadline is armed. */
  const SENTINEL: nat := 0xFFFF_FFFF_FFFF_FFFF

  datatype State = State(heap: seq<TimerEvent>, nextId: int, pioneer: nat)

  const INIT := State([], 0, SENTINEL)

  /** Deletion as the source has it, or with the missing upward sift. */
  datatype Variant = AsWritten | Intended

  // ---------- operations ----------

  function AddTimer(st: State, te: TimerEvent): State {
    var h := HeapAdd(st.heap, te.(timerId := st.nextId));
    State(h, st.nextId + 1, if h[0].ts < st.pioneer then h[0].ts else st.pioneer)
  }

  /** The slot holding `id`, or -1. */
  function Find(s: seq<TimerEvent>, id: int): (r: int)
    ensures r == -1 ==> forall e :: e in s ==> e.timerId != id
    ensures r != -1 ==> 0 <= r < |s| && s[r].timerId == id
  {
    if s == [] then -1
    else if s[|s| - 1].timerId == id then |s| - 1
    else
      assert s == s[..|s| - 1] + [s[|s| - 1]];
      Find(s[..|s| - 1], id)
  }

  function Delete(s: seq<TimerEvent>, pos: nat, v: Variant): seq<TimerEvent>
    requires pos < |s|
  {
    if v.AsWritten? then HeapDel(s, pos) else HeapDelIntended(s, pos)
  }

  function AfterDelete(st: State, h: seq<TimerEvent>): State {
    State(h, st.nextId,
          if h == [] then SENTINEL else if h[0].ts < st.pioneer then h[0].ts else st.pioneer)
  }

  function DelTimer(st: State, id: int, v: Variant): State {
    var pos := Find(st.heap, id);
    if pos == -1 then st else AfterDelete(st, Delete(st.heap, pos, v))
  }

  /** The first loop of `get_timo`: pop while the root is due. */
  function PopDue(s: seq<TimerEvent>, p: nat): (seq<TimerEvent>, seq<TimerEvent>)
    decreases |s|
  {
    if s != [] && s[0].ts == p then
      var (fired, rest) := PopDue(HeapPop(s), p);
      ([s[0]] + fired, rest)
    else ([], s)
  }

  /** The periodic ones among the fired, moved on by their interval. */
  function Reuse(fired: seq<TimerEvent>): seq<TimerEvent> {
    if fired == [] then []
    else (if fired[0].interval > 0 then [fired[0].(ts := fired[0].ts + fired[0].interval)] else [])
         + Reuse(fired[1..])
  }

  function AddAll(st: State, tes: seq<TimerEvent>): State
    decreases |tes|
  {
    if tes == [] then st else AddAll(AddTimer(st, tes[0]), tes[1..])
  }

  function GetTimo(st: State): (State, seq<TimerEvent>) {
    var (fired, rest) := PopDue(st.heap, st.pioneer);
    var st2 := AddAll(st.(heap := rest), Reuse(fired));
    (st2.(pioneer := if st2.heap == [] then SENTINEL else st2.heap[0].ts), fired)
  }

  // ---------- invariants ----------

  ghost predicate IdsBelow(s: seq<TimerEvent>, n: int) {
    forall e :: e in s ==> 0 <= e.timerId < n
  }

  ghost predicate InRange(s: seq<TimerEvent>) {
    forall e :: e in s ==> 0 < e.ts < SENTINEL
  }

  /** What the heap needs for `add_timer` to be sound, whatever the deadline is. */
  ghost predicate Wellformed(st: State) {
    st.nextId >= 0 && DistinctIds(st.heap) && IdsBelow(st.heap, st.nextId) && InRange(st.heap)
  }

  /** What every run keeps, deletions as written included. */
  ghost predicate Sound(st: State) {
    && Wellformed(st)
    && (st.heap == [] <==> st.pioneer == SENTINEL)
    && (st.heap != [] ==> 0 < st.pioneer <= st.heap[0].ts)
  }

  /** What holds as long as the heap order does. */
  ghost predicate Good(st: State) {
    Sound(st) && Ordered(st.heap)
  }

  /** A good state never has a deadline later than a pending timer. */
  lemma NeverLate(st: State)
    requires Good(st)
    ensures forall e :: e in st.heap ==> st.pioneer <= e.ts
  {
    forall e | e in st.heap ensures st.pioneer <= e.ts {
      var i :| 0 <= i < |st.heap| && st.heap[i] == e;
      RootIsMin(st.heap, i);
    }
  }

  // ---------- single operations ----------

  lemma AddTimerSound(st: State, te: TimerEvent)
    requires Wellformed(st)
    requires 0 < te.ts < SENTINEL
    ensures Wellformed(AddTimer(st, te))
    ensures AddTimer(st, te).nextId == st.nextId + 1
    ensures forall e :: e in AddTimer(st, te).heap <==> e in st.heap || e == te.(timerId := st.nextId)
    ensures Ordered(st.heap) ==> Ordered(AddTimer(st, te).heap)
  {
    var te' := te.(timerId := st.nextId);
    HeapAddElements(st.heap, te');
    hide Ordered;
    if Ordered(st.heap) {
      HeapAddOrders(st.heap, te');
    }
  }

  /** `add_timer` updates the abstract map under a fresh id. */
  lemma AddTimerPending(st: State, te: TimerEvent)
    requires Wellformed(st)
    ensures DistinctIds(AddTimer(st, te).heap)
    ensures Pending(AddTimer(st, te).heap) == Pending(st.heap)[st.nextId := te.(timerId := st.nextId)]
    ensures st.nextId !in Pending(st.heap)
  {
    HeapAddPending(st.heap, te.(timerId := st.nextId));
  }

  /** `add_timer` keeps both invariants. */
  lemma AddTimerKeeps(st: State, te: TimerEvent)
    requires Sound(st) && 0 < te.ts < SENTINEL
    ensures Sound(AddTimer(st, te))
    ensures Good(st) ==> Good(AddTimer(st, te))
  {
    AddTimerSound(st, te);
    var h := AddTimer(st, te).heap;
    assert h[0] in h;
  }

  /** From an ordered heap `add_timer` arms exactly the earlier of the old deadline and the new timer. */
  lemma AddTimerDeadline(st: State, te: TimerEvent)
    requires Good(st)
    ensures AddTimer(st, te).pioneer == if te.ts < st.pioneer then te.ts else st.pioneer
  {
    var te' := te.(timerId := st.nextId);
    var h := AddTimer(st, te).heap;
    NeverLate(st);
    HeapAddElements(st.heap, te');
    HeapAddOrders(st.heap, te');
    hide HeapAdd, Ordered, DistinctIds;
    assert h[0] in h;
    var i :| 0 <= i < |h| && h[i] == te';
    RootIsMin(h, i);
  }

  lemma DeleteElements(s: seq<TimerEvent>, pos: nat, v: Variant)
    requires DistinctIds(s) && pos < |s|
    ensures var h := Delete(s, pos, v);
            && |h| == |s| - 1 && DistinctIds(h)
            && (forall e :: e in h <==> e in s && e != s[pos])
            && Pending(h) == Pending(s) - {s[pos].timerId}
  {
    HeapDelElements(s, pos);
    HeapDelPending(s, pos);
  }

  /** The check a caller could make before deleting slot `pos`. */
  predicate Guard(s: seq<TimerEvent>, pos: nat, v: Variant)
    requires pos < |s|
  {
    v.AsWritten? ==> DelKeepsOrder(s, pos)
  }

  lemma FindIsPending(s: seq<TimerEvent>, id: int)
    requires DistinctIds(s)
    ensures Find(s, id) != -1 <==> id in Pending(s)
  {
    if id in Pending(s) {
      assert Pending(s)[id] in s;
    }
    if Find(s, id) != -1 {
      assert s[Find(s, id)] in s;
    }
  }

  /** `del_timer`: an unknown id changes nothing; a known one is removed and nothing else is. */
  lemma DelTimerExact(st: State, id: int, v: Variant)
    requires Sound(st)
    ensures Sound(DelTimer(st, id, v))
    ensures DelTimer(st, id, v).nextId == st.nextId
    ensures Pending(DelTimer(st, id, v).heap) == Pending(st.heap) - {id}
    ensures id !in Pending(st.heap) ==> DelTimer(st, id, v) == st
  {
    hide DistinctIds, Ordered, Find, HeapDel, HeapDelIntended, Pending, Delete;
    var pos := Find(st.heap, id);
    FindIsPending(st.heap, id);
    if pos != -1 {
      DeleteElements(st.heap, pos, v);
      var h := Delete(st.heap, pos, v);
      if h != [] { assert h[0] in h; }
    } else {
      assert Pending(st.heap) - {id} == Pending(st.heap);
    }
  }

  /** The order survives `del_timer` exactly when the guard holds. */
  lemma DelTimerOrderIff(st: State, id: int, v: Variant)
    requires Good(st) && Find(st.heap, id) != -1
    ensures Good(DelTimer(st, id, v)) <==> Guard(st.heap, Find(st.heap, id), v)
  {
    DelTimerExact(st, id, v);
    HeapDelOrdersIff(st.heap, Find(st.heap, id));
    HeapDelIntendedOrders(st.heap, Find(st.heap, id));
    hide Sound, Ordered, HeapDel, HeapDelIntended, DelKeepsOrder, Find;
  }

  /** From an ordered heap `del_timer` never lowers the deadline: its second re-arming branch is dead. */
  lemma DelTimerNeverLowers(st: State, id: int, v: Variant)
    requires Good(st)
    ensures var st' := DelTimer(st, id, v); st'.heap != [] ==> st'.pioneer == st.pioneer
  {
    var pos := Find(st.heap, id);
    if pos != -1 {
      DeleteElements(st.heap, pos, v);
      var h := Delete(st.heap, pos, v);
      if h != [] {
        NeverLate(st);
        assert h[0] in st.heap;
      }
    }
  }

  // ---------- expiry ----------

  lemma {:induction false} PopDueMultiset(s: seq<TimerEvent>, p: nat)
    ensures multiset(s) == multiset(PopDue(s, p).0) + multiset(PopDue(s, p).1)
    decreases |s|
  {
    hide HeapPop, HeapDel;
    if s != [] && s[0].ts == p {
      var t := HeapPop(s);
      assert s[0] in multiset(s);
      assert multiset(s) == multiset{s[0]} + multiset(t);
      PopDueMultiset(t, p);
      assert multiset([s[0]] + PopDue(t, p).0) == multiset{s[0]} + multiset(PopDue(t, p).0);
    }
  }

  /** Whatever the order: what fires is due at `p`, nothing is lost, nothing fires twice. */
  lemma {:induction false} PopDueSplits(s: seq<TimerEvent>, p: nat)
    requires DistinctIds(s)
    ensures DistinctIds(PopDue(s, p).1)
    ensures DistinctIds(PopDue(s, p).0)
    ensures forall e :: e in s <==> e in PopDue(s, p).0 || e in PopDue(s, p).1
    ensures forall e :: e in PopDue(s, p).0 ==> e.ts == p && e !in PopDue(s, p).1
    ensures PopDue(s, p).1 != [] ==> PopDue(s, p).1[0].ts != p
    decreases |s|
  {
    hide HeapPop, HeapDel, DistinctIds;
    if s != [] && s[0].ts == p {
      var t := HeapPop(s);
      HeapDelElements(s, 0);
      PopDueSplits(t, p);
      assert PopDue(s, p) == ([s[0]] + PopDue(t, p).0, PopDue(t, p).1);
      DistinctCons(s, PopDue(t, p).0);
    } else {
      DistinctNil();
    }
  }

  lemma DistinctNil()
    ensures DistinctIds([])
  {
  }

  lemma DistinctCons(s: seq<TimerEvent>, rest: seq<TimerEvent>)
    requires s != [] && DistinctIds(s) && DistinctIds(rest)
    requires forall e :: e in rest ==> e in s && e != s[0]
    ensures DistinctIds([s[0]] + rest)
  {
    forall i | 0 <= i < |rest| ensures rest[i].timerId != s[0].timerId {
      assert rest[i] in s;
    }
  }

  /** When `p` is no later than anything pending, the loop fires exactly what is due at `p`. */
  lemma {:induction false} PopDueExact(s: seq<TimerEvent>, p: nat)
    requires DistinctIds(s) && Ordered(s)
    requires forall e :: e in s ==> p <= e.ts
    ensures Ordered(PopDue(s, p).1)
    ensures forall e :: e in PopDue(s, p).0 <==> e in s && e.ts == p
    decreases |s|
  {
    hide HeapPop, HeapDel, DistinctIds;
    if s != [] && s[0].ts == p {
      var t := HeapPop(s);
      HeapDelElements(s, 0);
      HeapDelOrdersIff(s, 0);
      PopDueExact(t, p);
      assert PopDue(s, p) == ([s[0]] + PopDue(t, p).0, PopDue(t, p).1);
    } else if s != [] {
      forall e | e in s ensures e.ts != p {
        var i :| 0 <= i < |s| && s[i] == e;
        RootIsMin(s, i);
        assert s[0] in s;
      }
    }
  }

  lemma {:induction false} ReuseElements(fired: seq<TimerEvent>)
    ensures forall r :: r in Reuse(fired) <==>
              r.interval > 0 && r.ts >= r.interval && r.(ts := r.ts - r.interval) in fired
  {
    if fired != [] {
      ReuseElements(fired[1..]);
      var f := fired[0];
      assert fired == [f] + fired[1..];
      forall r ensures r in Reuse(fired) <==> (f.interval > 0 && r == f.(ts := f.ts + f.interval)) || r in Reuse(fired[1..]) {
        assert Reuse(fired) == (if f.interval > 0 then [f.(ts := f.ts + f.interval)] else []) + Reuse(fired[1..]);
      }
    }
  }

  lemma {:induction false} ReuseDistinct(fired: seq<TimerEvent>)
    requires DistinctIds(fired)
    ensures DistinctIds(Reuse(fired))
  {
    if fired != [] {
      var tail := fired[1..];
      assert DistinctIds(tail);
      ReuseDistinct(tail);
      ReuseElements(tail);
      forall i | 0 <= i < |Reuse(tail)| ensures Reuse(tail)[i].timerId != fired[0].timerId {
        var r := Reuse(tail)[i];
        assert r in Reuse(tail);
        var e := r.(ts := r.ts - r.interval);
        assert e in tail;
        var j :| 0 <= j < |tail| && tail[j] == e;
        assert fired[j + 1].timerId != fired[0].timerId;
      }
    }
  }

  /** `e` is one of the re-armed timers as it ends up in the heap: the `k`-th under id `nextId + k`. */
  predicate Rearmed(e: TimerEvent, reuse: seq<TimerEvent>, nextId: int) {
    nextId <= e.timerId < nextId + |reuse| && e == reuse[e.timerId - nextId].(timerId := e.timerId)
  }

  lemma RearmedCons(tes: seq<TimerEvent>, nextId: int)
    requires tes != []
    ensures forall e :: Rearmed(e, tes, nextId) <==> Rearmed(e, tes[1..], nextId + 1) || e == tes[0].(timerId := nextId)
  {
  }

  lemma RearmedNil(nextId: int)
    ensures forall e :: !Rearmed(e, [], nextId)
  {
  }

  lemma InRangeTail(tes: seq<TimerEvent>)
    requires InRange(tes) && tes != []
    ensures 0 < tes[0].ts < SENTINEL && InRange(tes[1..])
  {
    assert tes[0] in tes;
    assert forall e :: e in tes[1..] ==> e in tes;
  }

  lemma {:induction false} AddAllElements(st: State, tes: seq<TimerEvent>)
    requires Wellformed(st)
    requires InRange(tes)
    ensures Wellformed(AddAll(st, tes))
    ensures AddAll(st, tes).nextId == st.nextId + |tes|
    ensures Ordered(st.heap) ==> Ordered(AddAll(st, tes).heap)
    ensures forall e :: e in AddAll(st, tes).heap <==> e in st.heap || Rearmed(e, tes, st.nextId)
    decreases |tes|
  {
    hide Wellformed, Ordered, InRange, AddTimer, Rearmed;
    if tes != [] {
      InRangeTail(tes);
      AddTimerSound(st, tes[0]);
      RearmedCons(tes, st.nextId);
      AddAllElements(AddTimer(st, tes[0]), tes[1..]);
    } else {
      RearmedNil(st.nextId);
    }
  }

  /** No periodic timer that fires would be moved to the sentinel or beyond. */
  ghost predicate NoOverflow(st: State) {
    forall e :: e in PopDue(st.heap, st.pioneer).0 && e.interval > 0 ==> e.ts + e.interval < SENTINEL
  }

  lemma ReuseInRange(st: State, fired: seq<TimerEvent>)
    requires NoOverflow(st) && fired == PopDue(st.heap, st.pioneer).0
    ensures InRange(Reuse(fired))
  {
    hide PopDue;
    ReuseElements(fired);
    forall r | r in Reuse(fired) ensures 0 < r.ts < SENTINEL {
      assert r.(ts := r.ts - r.interval) in fired;
    }
  }

  /** `get_timo` keeps the invariant of every run, leaves the deadline equal to the root, and accounts for
      every timer: what stays is what did not fire plus the re-armed. */
  lemma GetTimoKeeps(st: State)
    requires Sound(st) && NoOverflow(st)
    ensures var (st', fired) := GetTimo(st);
            && Sound(st')
            && st'.nextId == st.nextId + |Reuse(fired)|
            && (st'.heap != [] ==> st'.pioneer == st'.heap[0].ts)
    ensures DistinctIds(GetTimo(st).1)
    ensures forall e :: e in GetTimo(st).1 ==> e in st.heap && e.ts == st.pioneer
    ensures forall e :: e in GetTimo(st).0.heap <==>
              (e in st.heap && e !in GetTimo(st).1) || Rearmed(e, Reuse(GetTimo(st).1), st.nextId)
  {
    hide PopDue, Reuse, AddAll, DistinctIds, Ordered, Rearmed, NoOverflow;
    var (fired, rest) := PopDue(st.heap, st.pioneer);
    PopDueSplits(st.heap, st.pioneer);
    ReuseInRange(st, fired);
    AddAllElements(st.(heap := rest), Reuse(fired));
    var st' := GetTimo(st).0;
    if st'.heap != [] { assert st'.heap[0] in st'.heap; }
  }

  /** `get_timo` in an ordered state: it fires exactly the timers at the armed deadline, each once, and the
      queue afterwards is the old one without them plus every periodic one at `ts + interval` under a fresh id. */
  lemma GetTimoExact(st: State)
    requires Good(st) && NoOverflow(st)
    ensures Good(GetTimo(st).0)
    ensures forall e :: e in GetTimo(st).1 <==> e in st.heap && e.ts == st.pioneer
    ensures forall e :: e in GetTimo(st).0.heap <==>
              (e in st.heap && e.ts != st.pioneer) || Rearmed(e, Reuse(GetTimo(st).1), st.nextId)
  {
    hide PopDue, Reuse, AddAll, DistinctIds, Ordered, NoOverflow;
    GetTimoKeeps(st);
    NeverLate(st);
    var (fired, rest) := PopDue(st.heap, st.pioneer);
    PopDueSplits(st.heap, st.pioneer);
    PopDueExact(st.heap, st.pioneer);
    ReuseInRange(st, fired);
    AddAllElements(st.(heap := rest), Reuse(fired));
  }

  /** The re-armed timers by their new ids. */
  ghost function RearmedMap(reuse: seq<TimerEvent>, nextId: int): (m: map<int, TimerEvent>)
    ensures forall id :: id in m <==> nextId <= id < nextId + |reuse|
    ensures forall id :: id in m ==> Rearmed(m[id], reuse, nextId) && m[id].timerId == id
  {
    if reuse == [] then map[]
    else
      var last := |reuse| - 1;
      assert reuse[..last] + [reuse[last]] == reuse;
      RearmedMap(reuse[..last], nextId)[nextId + last := reuse[last].(timerId := nextId + last)]
  }

  /** What `get_timo` does to the abstract map when it fires. */
  ghost function Expired(p: map<int, TimerEvent>, deadline: nat, fired: seq<TimerEvent>, nextId: int): map<int, TimerEvent> {
    (map id | id in p && p[id].ts != deadline :: p[id]) + RearmedMap(Reuse(fired), nextId)
  }

  /** `get_timo` refines one step on the abstract map. */
  lemma GetTimoRefines(st: State)
    requires Good(st) && NoOverflow(st)
    ensures DistinctIds(GetTimo(st).0.heap)
    ensures Pending(GetTimo(st).0.heap) == Expired(Pending(st.heap), st.pioneer, GetTimo(st).1, st.nextId)
  {
    hide GetTimo, Ordered, DistinctIds, Pending, Reuse, RearmedMap, NoOverflow;
    var (st', fired) := GetTimo(st);
    GetTimoExact(st);
    var p := Pending(st.heap);
    var m := Expired(p, st.pioneer, fired, st.nextId);
    forall id | id in m ensures m[id].timerId == id && m[id] in st'.heap {
      if id in p && p[id].ts != st.pioneer {
        assert p[id] in st.heap;
      }
    }
    forall e | e in st'.heap ensures e.timerId in m && m[e.timerId] == e {
      if e in st.heap && e.ts != st.pioneer {
        assert p[e.timerId] == e;
      }
    }
    PendingFromElements(st'.heap, m);
  }

  /** With a stale deadline `get_timo` fires nothing and only moves the deadline. */
  lemma GetTimoStale(st: State)
    requires Sound(st) && (st.heap != [] ==> st.pioneer != st.heap[0].ts)
    ensures GetTimo(st) == (st.(pioneer := if st.heap == [] then SENTINEL else st.heap[0].ts), [])
  {
    assert PopDue(st.heap, st.pioneer) == ([], st.heap);
    assert Reuse([]) == [];
  }
}
