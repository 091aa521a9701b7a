/** The armed deadline: heap order is exactly what keeps it from ever being late, and exactly which operations
    leave it at the root. */
module TimerDeadlines {
  import opened TimerHeap
  import opened Timers
  import opened TimerRuns

  // ---------- late deadlines ----------

  /** Some pending timer is due before the armed deadline. */
  ghost predicate Late(st: State) {
    exists e :: e in st.heap && e.ts < st.pioneer
  }

  /** No legal continuation whose deletions meet the guard makes the deadline late. */
  ghost predicate NeverLateAfter(st: State, v: Variant) {
    forall ops :: Legal(st, ops, v) && AllGuarded(st, ops, v) ==> !Late(Run(st, ops, v).0)
  }

  /** Slot `i` is earlier than its parent. */
  predicate Violated(s: seq<TimerEvent>, i: nat) {
    i < |s| && s[i].ts < s[Parent(i)].ts
  }

  lemma ViolatedUnless(s: seq<TimerEvent>)
    ensures Ordered(s) || exists i :: Violated(s, i)
  {
    if !Ordered(s) {
      var i :| 0 <= i < |s| && s[Parent(i)].ts > s[i].ts;
      assert Violated(s, i);
    }
  }

  /** A downward sift that starts from a latest timer does not repair a heap that is broken elsewhere. */
  lemma {:induction false} SiftDownKeepsViolation(s: seq<TimerEvent>, pos: nat, i: nat) returns (j: nat)
    requires pos < |s| && Violated(s, i) && Parent(i) != pos
    requires forall k :: 0 <= k < |s| ==> s[k].ts <= s[pos].ts
    ensures Violated(SiftDown(s, pos), j)
    decreases |s| - pos
  {
    hide DistinctIds;
    var m := MinSlot(s, pos);
    if m == pos {
      j := i;
    } else {
      var u := Swap(s, pos, m);
      if Parent(i) == m {
        var m2 := MinSlot(u, m);
        assert u[m2].ts <= u[i].ts;
        SiftDownKeepsFront(u, m, pos);
        SiftDownKeepsFront(Swap(u, m, m2), m2, m);
        j := m;
      } else {
        j := SiftDownKeepsViolation(u, m, i);
      }
    }
  }

  /** The timer that replaces the root in the argument below. */
  const LAST: TimerEvent := TimerEvent(0, SENTINEL - 1, 0, 0)

  /** The root is later than some other pending timer. */
  ghost predicate RootBehind(s: seq<TimerEvent>) {
    exists e :: e in s && e.ts < s[0].ts
  }

  /** A latest timer stays where it is added. */
  lemma AddLatest(s: seq<TimerEvent>, te: TimerEvent)
    requires forall e :: e in s ==> e.ts <= te.ts
    ensures HeapAdd(s, te) == s + [te]
  {
    hide DistinctIds;
    var a := s + [te];
    if s != [] {
      assert a[Parent(|s|)] in s;
    }
  }

  /** A broken heap has a slot earlier than its parent, and not only below a root that is behind. */
  lemma BrokenBelow(s: seq<TimerEvent>) returns (i: nat)
    requires !Ordered(s) && !RootBehind(s)
    ensures Violated(s, i) && 0 < Parent(i) < i && s[0].ts <= s[i].ts < s[Parent(i)].ts
  {
    ViolatedUnless(s);
    i :| Violated(s, i);
    assert s[i] in s;
  }

  /** Replacing the root of a broken heap by a latest timer leaves it broken. */
  lemma BrokenStays(s: seq<TimerEvent>, te: TimerEvent)
    requires !Ordered(s) && !RootBehind(s) && forall e :: e in s ==> e.ts <= te.ts
    ensures s != [] && !Ordered(HeapDel(s + [te], 0))
  {
    hide DistinctIds, MinSlot, SiftDown, Swap, RootBehind;
    var i := BrokenBelow(s);
    var t := MoveRear(s + [te], 0);
    assert t == [te] + s[1..];
    assert forall k :: 1 <= k < |s| ==> t[k] == s[k] && s[k] in s;
    var j := SiftDownKeepsViolation(t, 0, i);
  }

  /** The timers before `LAST`. */
  ghost function Earlier(s: seq<TimerEvent>): set<TimerEvent> {
    set e | e in s && e.ts < LAST.ts
  }

  lemma FindRoot(s: seq<TimerEvent>)
    requires s != [] && DistinctIds(s)
    ensures Find(s, s[0].timerId) == 0
  {
    var r := Find(s, s[0].timerId);
    assert s[0] in s;
  }

  lemma RootDeletes(s: seq<TimerEvent>, v: Variant)
    requires s != []
    ensures Delete(s, 0, v) == HeapDel(s, 0) && Guard(s, 0, v)
  {
    hide HeapDel;
  }

  /** One round: a later state that is still broken, with fewer timers before `LAST`. */
  lemma Round(st: State, v: Variant) returns (ops: seq<Op>)
    requires Sound(st) && !Ordered(st.heap) && !RootBehind(st.heap)
    ensures |ops| == 2 && Legal(st, ops, v) && AllGuarded(st, ops, v)
    ensures var r := Run(st, ops, v).0; Sound(r) && !Ordered(r.heap) && Earlier(r.heap) < Earlier(st.heap)
  {
    hide Ordered, DistinctIds, Delete, HeapDel, HeapAdd, Guard, Find;
    var s := st.heap;
    var te := LAST.(timerId := st.nextId);
    AddLatest(s, te);
    BrokenStays(s, te);
    var id := s[0].timerId;
    var st1 := AddTimer(st, LAST);
    AddTimerKeeps(st, LAST);
    assert st1.heap == s + [te];
    FindRoot(st1.heap);
    RootDeletes(st1.heap, v);
    DelTimerExact(st1, id, v);
    var st2 := DelTimer(st1, id, v);
    assert st2.heap == HeapDel(s + [te], 0);
    DeleteElements(st1.heap, 0, v);
    BrokenMeansEarlier(s);
    assert s[0] in Earlier(s) && s[0] !in Earlier(st2.heap);
    ops := [Add(LAST), Del(id)];
    TwoOps(st, ops, v);
  }

  lemma BrokenMeansEarlier(s: seq<TimerEvent>)
    requires !Ordered(s) && !RootBehind(s) && forall e :: e in s ==> e.ts <= LAST.ts
    ensures s != [] && s[0] in Earlier(s)
  {
    var i := BrokenBelow(s);
    assert s[Parent(i)] in s;
  }

  lemma TwoOps(st: State, ops: seq<Op>, v: Variant)
    requires |ops| == 2 && LegalStep(st, ops[0]) && LegalStep(Step(st, ops[0], v).0, ops[1])
    requires StepGuard(st, ops[0], v) && StepGuard(Step(st, ops[0], v).0, ops[1], v)
    ensures Legal(st, ops, v) && AllGuarded(st, ops, v)
    ensures Run(st, ops, v).0 == Step(Step(st, ops[0], v).0, ops[1], v).0
  {
    hide Step, StepGuard, LegalStep;
    OneOp(Step(st, ops[0], v).0, ops[1], v);
    assert ops[1..] == [ops[1]];
  }

  lemma OneOp(st: State, op: Op, v: Variant)
    requires LegalStep(st, op) && StepGuard(st, op, v)
    ensures Legal(st, [op], v) && AllGuarded(st, [op], v) && Run(st, [op], v).0 == Step(st, op, v).0
  {
    hide Step, StepGuard, LegalStep;
    assert [op][1..] == [];
  }

  lemma {:induction false} Continue(st: State, a: seq<Op>, b: seq<Op>, v: Variant)
    requires Legal(st, a, v) && AllGuarded(st, a, v)
    requires Legal(Run(st, a, v).0, b, v) && AllGuarded(Run(st, a, v).0, b, v)
    ensures Legal(st, a + b, v) && AllGuarded(st, a + b, v)
    ensures Run(st, a + b, v).0 == Run(Run(st, a, v).0, b, v).0
    decreases |a|
  {
    hide Step, StepGuard, LegalStep;
    if a == [] {
      assert a + b == b;
    } else {
      assert (a + b)[1..] == a[1..] + b;
      Continue(Step(st, a[0], v).0, a[1..], b, v);
    }
  }

  /** With the root behind some timer, at most one wakeup that fires nothing makes the deadline late. */
  lemma RootBehindIsLate(st: State, v: Variant) returns (ops: seq<Op>)
    requires Sound(st) && RootBehind(st.heap)
    ensures Legal(st, ops, v) && AllGuarded(st, ops, v) && Late(Run(st, ops, v).0)
  {
    if st.pioneer == st.heap[0].ts {
      ops := [];
    } else {
      ops := [Wakeup];
      GetTimoStale(st);
      assert NoOverflow(st);
      OneOp(st, Wakeup, v);
      var e :| e in st.heap && e.ts < st.heap[0].ts;
      assert e in Run(st, ops, v).0.heap;
    }
  }

  /** From every broken heap some guarded continuation makes the deadline late. */
  lemma {:induction false} BrokenGetsLate(st: State, v: Variant) returns (ops: seq<Op>)
    requires Sound(st) && !Ordered(st.heap)
    ensures Legal(st, ops, v) && AllGuarded(st, ops, v) && Late(Run(st, ops, v).0)
    decreases |Earlier(st.heap)|
  {
    hide Sound, Ordered, Legal, AllGuarded, Run, Late, RootBehind;
    if RootBehind(st.heap) {
      ops := RootBehindIsLate(st, v);
    } else {
      var round := Round(st, v);
      var r := Run(st, round, v).0;
      Smaller(Earlier(r.heap), Earlier(st.heap));
      var rest := BrokenGetsLate(r, v);
      ops := round + rest;
      Continue(st, round, rest, v);
    }
  }

  lemma Smaller(a: set<TimerEvent>, b: set<TimerEvent>)
    requires a < b
    ensures |a| < |b|
  {
    var x :| x in b && x !in a;
    SubsetCardinality(a, b - {x});
  }

  /** Heap order is exactly what keeps the deadline from being late: in a state that any run can reach, the heap is
      ordered if and only if no guarded continuation ever has a timer pending before the deadline. */
  lemma OrderedIffNeverLate(st: State, v: Variant)
    requires Sound(st)
    ensures Ordered(st.heap) <==> NeverLateAfter(st, v)
  {
    hide Sound, Ordered, Legal, AllGuarded, Run, Late;
    if Ordered(st.heap) {
      forall ops | Legal(st, ops, v) && AllGuarded(st, ops, v) ensures !Late(Run(st, ops, v).0) {
        assert Good(st);
        RunGoodIff(st, ops, v);
        NotLate(Run(st, ops, v).0);
      }
    } else {
      var ops := BrokenGetsLate(st, v);
    }
  }

  lemma NotLate(st: State)
    requires Good(st)
    ensures !Late(st)
  {
    NeverLate(st);
  }

  /** Which deletions can make the deadline late: those that fail the guard, and only those. */
  lemma DelTimerLateIff(st: State, id: int, v: Variant)
    requires Good(st) && Find(st.heap, id) != -1
    ensures Guard(st.heap, Find(st.heap, id), v) <==> NeverLateAfter(DelTimer(st, id, v), v)
  {
    hide DelTimer, Find, Guard, Ordered, NeverLateAfter;
    DelTimerExact(st, id, v);
    DelTimerOrderIff(st, id, v);
    OrderedIffNeverLate(DelTimer(st, id, v), v);
  }

  /** Neither here nor anywhere later in the run is there a guarded continuation that makes the deadline late. */
  ghost predicate SafeThroughout(st: State, ops: seq<Op>, v: Variant)
    decreases |ops|
  {
    NeverLateAfter(st, v) && (ops != [] ==> SafeThroughout(Step(st, ops[0], v).0, ops[1..], v))
  }

  /** The deadline is safe throughout a run if and only if every deletion in it met the guard. */
  lemma RunLateIff(st: State, ops: seq<Op>, v: Variant)
    requires Good(st) && Legal(st, ops, v)
    ensures SafeThroughout(st, ops, v) <==> AllGuarded(st, ops, v)
  {
    hide SafeThroughout, AllGood, AllGuarded, Legal;
    SafeIsGood(st, ops, v);
    RunGoodIff(st, ops, v);
  }

  lemma {:induction false} SafeIsGood(st: State, ops: seq<Op>, v: Variant)
    requires Sound(st) && Legal(st, ops, v)
    ensures SafeThroughout(st, ops, v) <==> AllGood(st, ops, v)
    decreases |ops|
  {
    hide Sound, Ordered, Step, LegalStep, NeverLateAfter;
    OrderedIffNeverLate(st, v);
    if ops != [] {
      StepSound(st, ops[0], v);
      SafeIsGood(Step(st, ops[0], v).0, ops[1..], v);
    }
  }

  // ---------- deadlines at the root ----------

  /** The timerfd is set to the timer at the root. */
  predicate AtRoot(st: State) {
    st.heap != [] ==> st.pioneer == st.heap[0].ts
  }

  /** In an ordered state: something is due at the deadline, or nothing is pending. */
  lemma AtRootIff(st: State)
    requires Good(st)
    ensures AtRoot(st) <==> st.heap == [] || exists e :: e in st.heap && e.ts == st.pioneer
  {
    if st.heap != [] && exists e :: e in st.heap && e.ts == st.pioneer {
      var e :| e in st.heap && e.ts == st.pioneer;
      var i :| 0 <= i < |st.heap| && st.heap[i] == e;
      RootIsMin(st.heap, i);
    }
    if st.heap != [] {
      assert st.heap[0] in st.heap;
    }
  }

  /** Whether an operation leaves the deadline at the root, to be told before it is performed: an insertion if the
      new timer is no later than the deadline, or else if the deadline was there; a deletion if some other timer is
      due at the deadline, or no other is pending; a wakeup always. */
  ghost predicate LeavesAtRoot(st: State, op: Op) {
    match op
    case Add(te) => te.ts <= st.pioneer || AtRoot(st)
    case Del(id) => (forall e :: e in st.heap ==> e.timerId == id)
                    || exists e :: e in st.heap && e.timerId != id && e.ts == st.pioneer
    case Wakeup => true
  }

  lemma AddAtRootIff(st: State, te: TimerEvent)
    requires Good(st) && 0 < te.ts < SENTINEL
    ensures AtRoot(AddTimer(st, te)) <==> LeavesAtRoot(st, Add(te))
  {
    hide AddTimer, AtRoot, Ordered, DistinctIds;
    AddTimerKeeps(st, te);
    AddTimerSound(st, te);
    AddTimerDeadline(st, te);
    AtRootIff(st);
    var st' := AddTimer(st, te);
    AtRootIff(st');
    var te' := te.(timerId := st.nextId);
    assert te' in st'.heap;
    NeverLate(st);
    if st.heap != [] && AtRoot(st) {
      var e :| e in st.heap && e.ts == st.pioneer;
      assert e in st'.heap;
    }
  }

  /** A deletion that fails the guard does not move the root. */
  lemma UnguardedKeepsRoot(s: seq<TimerEvent>, pos: nat)
    requires Ordered(s) && DistinctIds(s) && pos < |s| && !DelKeepsOrder(s, pos)
    ensures HeapDel(s, pos) != [] && HeapDel(s, pos)[0] == s[0] && s[0].timerId != s[pos].timerId
  {
    MoveRearOrder(s, pos);
    SiftDownKeepsFront(MoveRear(s, pos), pos, 0);
  }

  /** `del_timer` leaves the deadline at the root if and only if another timer is due at the deadline, or no other
      timer is pending; whether or not it keeps the order. */
  lemma DelAtRootIff(st: State, id: int, v: Variant)
    requires Good(st)
    ensures AtRoot(DelTimer(st, id, v)) <==> LeavesAtRoot(st, Del(id))
  {
    hide DelTimer, Ordered, DistinctIds, Delete, Find, Guard;
    var pos := Find(st.heap, id);
    var st' := DelTimer(st, id, v);
    DelTimerShrinks(st, id, v);
    AtRootIff(st);
    if pos == -1 {
      assert st' == st by { Unknown(st, id, v); }
    } else {
      DelTimerOrderIff(st, id, v);
      DelTimerExact(st, id, v);
      DelTimerNeverLowers(st, id, v);
      if Guard(st.heap, pos, v) {
        AtRootIff(st');
        Emptied(st, st', id);
      } else {
        RootStays(st, id, v);
      }
    }
  }

  lemma Unknown(st: State, id: int, v: Variant)
    requires Find(st.heap, id) == -1
    ensures DelTimer(st, id, v) == st
  {
  }

  lemma Emptied(st: State, st': State, id: int)
    requires forall e :: e in st'.heap <==> e in st.heap && e.timerId != id
    ensures st'.heap == [] <==> forall e :: e in st.heap ==> e.timerId == id
  {
    if st'.heap != [] {
      assert st'.heap[0] in st'.heap;
    }
  }

  lemma RootStays(st: State, id: int, v: Variant)
    requires Good(st) && Find(st.heap, id) != -1 && !Guard(st.heap, Find(st.heap, id), v)
    ensures var h := DelTimer(st, id, v).heap; h != [] && st.heap != [] && h[0] == st.heap[0]
    ensures st.heap[0].timerId != id
  {
    hide HeapDel, Ordered, Find;
    var pos := Find(st.heap, id);
    UnguardedKeepsRoot(st.heap, pos);
    assert st.heap[pos].timerId == id;
  }

  /** One operation in an ordered state, exactly. */
  lemma StepAtRootIff(st: State, op: Op, v: Variant)
    requires Good(st) && LegalStep(st, op)
    ensures AtRoot(Step(st, op, v).0) <==> LeavesAtRoot(st, op)
  {
    hide Ordered, AddTimer, DelTimer, GetTimo, NoOverflow;
    match op
    case Add(te) => AddAtRootIff(st, te);
    case Del(id) => DelAtRootIff(st, id, v);
    case Wakeup => GetTimoKeeps(st);
  }

  ghost predicate AlwaysAtRoot(st: State, ops: seq<Op>, v: Variant)
    decreases |ops|
  {
    AtRoot(st) && (ops != [] ==> AlwaysAtRoot(Step(st, ops[0], v).0, ops[1..], v))
  }

  ghost predicate AllLeaveAtRoot(st: State, ops: seq<Op>, v: Variant)
    decreases |ops|
  {
    ops != [] ==> LeavesAtRoot(st, ops[0]) && AllLeaveAtRoot(Step(st, ops[0], v).0, ops[1..], v)
  }

  /** Over a run that keeps the order, the timerfd is always set to the root if and only if it is so at the beginning
      and every operation leaves it so; from there an insertion always does, and a deletion unless it takes the only
      timer due at the deadline while others are pending. */
  lemma {:induction false} RunAtRootIff(st: State, ops: seq<Op>, v: Variant)
    requires Good(st) && Legal(st, ops, v) && AllGuarded(st, ops, v)
    ensures AlwaysAtRoot(st, ops, v) <==> AtRoot(st) && AllLeaveAtRoot(st, ops, v)
    decreases |ops|
  {
    hide Good, Step, LegalStep, StepGuard, AtRoot, LeavesAtRoot;
    if ops != [] {
      StepGoodIff(st, ops[0], v);
      StepAtRootIff(st, ops[0], v);
      RunAtRootIff(Step(st, ops[0], v).0, ops[1..], v);
    }
  }

  /** Two insertions and the deletion of the first: the heap is ordered, the deadline is 1, the only pending timer
      is due at 2, and the wakeup at 1 fires nothing. */
  lemma DeadlineLagsBehind()
    ensures var ops := [Add(T(0, 1)), Add(T(0, 2)), Del(0)];
            var st := Run(INIT, ops, AsWritten).0;
            && Legal(INIT, ops, AsWritten) && AllGuarded(INIT, ops, AsWritten)
            && st == State([T(1, 2)], 2, 1) && !AtRoot(st) && GetTimo(st) == (State([T(1, 2)], 2, 2), [])
  {
    hide AddTimer, DelTimer, GetTimo, Find, Ordered, DelKeepsOrder;
    FirstTwo();
    DeleteFirst();
    Lagging();
    var ops := [Add(T(0, 1)), Add(T(0, 2)), Del(0)];
    var st1 := State([T(0, 1)], 1, 1);
    var later := ops[1..];
    assert later == [Add(T(0, 2)), Del(0)] && later[1..] == [Del(0)];
    OneOp(TWO, Del(0), AsWritten);
    assert Run(st1, later, AsWritten).0 == ONE && Legal(st1, later, AsWritten) && AllGuarded(st1, later, AsWritten);
  }

  const TWO: State := State([T(0, 1), T(1, 2)], 2, 1)
  const ONE: State := State([T(1, 2)], 2, 1)

  lemma FirstTwo()
    ensures AddTimer(INIT, T(0, 1)) == State([T(0, 1)], 1, 1)
    ensures AddTimer(State([T(0, 1)], 1, 1), T(0, 2)) == TWO
  {
    assert Parent(1) == 0;
    AddAtEnd(State([T(0, 1)], 1, 1), T(0, 2));
  }

  lemma DeleteFirst()
    ensures DelTimer(TWO, 0, AsWritten) == ONE && StepGuard(TWO, Del(0), AsWritten)
  {
    FindRoot(TWO.heap);
    assert MoveRear(TWO.heap, 0) == [T(1, 2)];
    assert HeapDel(TWO.heap, 0) == [T(1, 2)];
  }

  lemma Lagging()
    ensures !AtRoot(ONE) && GetTimo(ONE) == (State([T(1, 2)], 2, 2), [])
  {
    assert PopDue(ONE.heap, ONE.pioneer) == ([], ONE.heap);
    assert Reuse([]) == [];
  }
}
