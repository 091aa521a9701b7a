/** Whole runs of the timer queue: which invariants survive, in what order timers fire, that a one-shot queue
    drains, and that a periodic timer neither drifts nor multiplies. */
module TimerRuns {
  import opened TimerHeap
  import opened Timers

  datatype Op = Add(te: TimerEvent) | Del(id: int) | Wakeup

  function Step(st: State, op: Op, v: Variant): (State, seq<TimerEvent>) {
    match op
    case Add(te) => (AddTimer(st, te), [])
    case Del(id) => (DelTimer(st, id, v), [])
    case Wakeup => GetTimo(st)
  }

  /** A run returns its last state and everything that fired, in order. */
  function Run(st: State, ops: seq<Op>, v: Variant): (State, seq<TimerEvent>)
    decreases |ops|
  {
    if ops == [] then (st, [])
    else
      var (s1, f1) := Step(st, ops[0], v);
      var (s2, f2) := Run(s1, ops[1..], v);
      (s2, f1 + f2)
  }

  /** Timestamps stay above 0 and below the sentinel. */
  ghost predicate LegalStep(st: State, op: Op) {
    match op
    case Add(te) => 0 < te.ts < SENTINEL
    case Del(_) => true
    case Wakeup => NoOverflow(st)
  }

  ghost predicate Legal(st: State, ops: seq<Op>, v: Variant)
    decreases |ops|
  {
    ops == [] || (LegalStep(st, ops[0]) && Legal(Step(st, ops[0], v).0, ops[1..], v))
  }

  // ---------- invariants over runs ----------

  lemma StepSound(st: State, op: Op, v: Variant)
    requires Sound(st) && LegalStep(st, op)
    ensures Sound(Step(st, op, v).0)
  {
    hide Sound;
    match op
    case Add(te) => AddTimerKeeps(st, te);
    case Del(id) => DelTimerExact(st, id, v);
    case Wakeup => GetTimoKeeps(st);
  }

  /** Every legal run keeps ids distinct and below the next id, the sentinel exactly while nothing is pending,
      and the armed deadline at or before the root, even when deletions break the heap order. */
  lemma {:induction false} RunSound(st: State, ops: seq<Op>, v: Variant)
    requires Sound(st) && Legal(st, ops, v)
    ensures Sound(Run(st, ops, v).0)
    decreases |ops|
  {
    hide Sound, Step, LegalStep;
    if ops != [] {
      StepSound(st, ops[0], v);
      RunSound(Step(st, ops[0], v).0, ops[1..], v);
    }
  }

  /** The check a caller can make before one operation. */
  ghost predicate StepGuard(st: State, op: Op, v: Variant) {
    op.Del? && Find(st.heap, op.id) != -1 ==> Guard(st.heap, Find(st.heap, op.id), v)
  }

  lemma StepGoodIff(st: State, op: Op, v: Variant)
    requires Good(st) && LegalStep(st, op)
    ensures Good(Step(st, op, v).0) <==> StepGuard(st, op, v)
  {
    hide Sound, Ordered, Guard, AddTimer, GetTimo, Delete, NoOverflow;
    match op
    case Add(te) => AddTimerKeeps(st, te);
    case Del(id) => if Find(st.heap, id) != -1 { DelTimerOrderIff(st, id, v); }
    case Wakeup => GetTimoExact(st);
  }

  ghost predicate AllGood(st: State, ops: seq<Op>, v: Variant)
    decreases |ops|
  {
    Good(st) && (ops != [] ==> AllGood(Step(st, ops[0], v).0, ops[1..], v))
  }

  ghost predicate AllGuarded(st: State, ops: seq<Op>, v: Variant)
    decreases |ops|
  {
    ops != [] ==> StepGuard(st, ops[0], v) && AllGuarded(Step(st, ops[0], v).0, ops[1..], v)
  }

  /** Every state of a run is ordered, and so never late, exactly when every deletion met the guard. */
  lemma {:induction false} RunGoodIff(st: State, ops: seq<Op>, v: Variant)
    requires Good(st) && Legal(st, ops, v)
    ensures AllGood(st, ops, v) <==> AllGuarded(st, ops, v)
    ensures AllGood(st, ops, v) ==> Good(Run(st, ops, v).0)
    decreases |ops|
  {
    hide Good, Step, LegalStep, StepGuard;
    if ops != [] {
      var st1 := Step(st, ops[0], v).0;
      StepGoodIff(st, ops[0], v);
      if Good(st1) {
        RunGoodIff(st1, ops[1..], v);
      } else {
        assert !AllGood(st1, ops[1..], v);
      }
    }
  }

  /** The guard always holds when nothing is deleted, and for the intended deletion. */
  lemma {:induction false} GuardForFree(st: State, ops: seq<Op>, v: Variant)
    requires v.Intended? || forall i :: 0 <= i < |ops| ==> !ops[i].Del?
    ensures AllGuarded(st, ops, v)
    decreases |ops|
  {
    hide Step, Find;
    if ops != [] {
      GuardForFree(Step(st, ops[0], v).0, ops[1..], v);
    }
  }

  /** From an empty queue: with the intended deletion, or without deletions, every legal run is never late. */
  lemma NeverLateOnRuns(ops: seq<Op>, v: Variant)
    requires Legal(INIT, ops, v)
    requires v.Intended? || forall i :: 0 <= i < |ops| ==> !ops[i].Del?
    ensures var st := Run(INIT, ops, v).0;
            Good(st) && forall e :: e in st.heap ==> st.pioneer <= e.ts
  {
    hide Run, Step, Legal;
    GuardForFree(INIT, ops, v);
    RunGoodIff(INIT, ops, v);
    NeverLate(Run(INIT, ops, v).0);
  }

  // ---------- the deletion as written can make the deadline late ----------

  function T(id: int, ts: nat): TimerEvent {
    TimerEvent(id, ts, 0, 0)
  }

  /** Seven one-shot timers, as seven insertions in this order leave them. */
  const SEVEN: State := State([T(0, 1), T(1, 10), T(2, 2), T(3, 11), T(4, 12), T(5, 30), T(6, 3)], 7, 1)

  /** An insertion that does not sift. */
  lemma AddAtEnd(st: State, te: TimerEvent)
    requires st.heap != [] && st.heap[Parent(|st.heap|)].ts <= te.ts && st.pioneer <= st.heap[0].ts
    ensures AddTimer(st, te) == State(st.heap + [te.(timerId := st.nextId)], st.nextId + 1, st.pioneer)
  {
  }

  const ADDS: seq<Op> := [Add(T(0, 1)), Add(T(0, 10)), Add(T(0, 2)), Add(T(0, 11)), Add(T(0, 12)), Add(T(0, 30)), Add(T(0, 3))]

  /** The state after the first `k` insertions. */
  function Built(k: nat): State
    requires k <= 7
  {
    State(SEVEN.heap[..k], k, if k == 0 then SENTINEL else 1)
  }

  lemma BuiltStep(k: nat)
    requires k < 7
    ensures Step(Built(k), ADDS[k], AsWritten) == (Built(k + 1), [])
  {
    assert SEVEN.heap[..k + 1] == SEVEN.heap[..k] + [SEVEN.heap[k]];
    if k > 0 {
      assert Parent(1) == 0 && Parent(2) == 0 && Parent(3) == 1 && Parent(4) == 1 && Parent(5) == 2 && Parent(6) == 2;
      assert SEVEN.heap[k] == ADDS[k].te.(timerId := k);
      assert Built(k).heap[Parent(k)] == SEVEN.heap[Parent(k)];
      AddAtEnd(Built(k), ADDS[k].te);
    }
  }

  lemma AddsLegal(k: nat)
    requires k < 7
    ensures LegalStep(Built(k), ADDS[k])
  {
    hide Built;
  }

  lemma {:induction false} BuiltRun(k: nat)
    requires k <= 7
    ensures Run(Built(k), ADDS[k..], AsWritten) == (Built(7), [])
    ensures Legal(Built(k), ADDS[k..], AsWritten)
    decreases 7 - k
  {
    hide Step, Built, LegalStep;
    if k < 7 {
      BuiltStep(k);
      BuiltRun(k + 1);
      assert ADDS[k..][1..] == ADDS[k + 1..];
      AddsLegal(k);
      var none: seq<TimerEvent> := [];
      assert none + none == none;
    } else {
      assert ADDS[k..] == [];
    }
  }

  lemma SevenIsReachable()
    ensures Run(INIT, ADDS, AsWritten) == (SEVEN, []) && Legal(INIT, ADDS, AsWritten)
  {
    hide Run, Legal, Step;
    BuiltRun(0);
    assert Built(0) == INIT;
    assert Built(7) == SEVEN;
    assert ADDS[0..] == ADDS;
  }

  // The heap after the deletion, and after each of the three wakeups.
  const H1 := [T(0, 1), T(1, 10), T(2, 2), T(6, 3), T(4, 12), T(5, 30)]
  const H2 := [T(2, 2), T(1, 10), T(5, 30), T(6, 3), T(4, 12)]
  const H3 := [T(1, 10), T(6, 3), T(5, 30), T(4, 12)]
  const H4 := [T(6, 3), T(4, 12), T(5, 30)]

  lemma DelToH1()
    ensures HeapDel(SEVEN.heap, 3) == H1
  {
    SiftStep(SEVEN.heap, 3, H1, 3, H1);
  }

  lemma PopToH2()
    ensures HeapPop(H1) == H2
  {
    hide SiftDown, MinSlot, Swap;
    MinW();
    RearW();
    SiftStep(H1, 0, W, 2, H2);
  }

  const W := [T(5, 30), T(1, 10), T(2, 2), T(6, 3), T(4, 12)]

  lemma RearW()
    ensures |H1| == 6 && |W| == 5 && W == H1[0 := H1[5]][..5]
  {
  }

  lemma MinW()
    ensures MinSlot(W, 0) == 2 && Swap(W, 0, 2) == H2 && SiftDown(H2, 2) == H2
  {
    hide DistinctIds, SiftDown;
    SwapW();
    SiftDownStops(H2, 2);
  }

  lemma SwapW()
    ensures Swap(W, 0, 2) == H2
  {
    hide DistinctIds;
  }

  lemma SiftDownStops(s: seq<TimerEvent>, pos: nat)
    requires pos < |s| <= 2 * pos + 1
    ensures SiftDown(s, pos) == s
  {
  }

  const V := [T(4, 12), T(1, 10), T(5, 30), T(6, 3)]
  const U := [T(1, 10), T(4, 12), T(5, 30), T(6, 3)]

  lemma PopToH3()
    ensures HeapPop(H2) == H3
  {
    hide SiftDown, MinSlot, Swap;
    SiftU();
    MinV();
    RearV();
    SiftStep(H2, 0, V, 1, U);
  }

  lemma RearV()
    ensures |H2| == 5 && |V| == 4 && V == H2[0 := H2[4]][..4]
  {
  }

  lemma MinV()
    ensures MinSlot(V, 0) == 1 && Swap(V, 0, 1) == U
  {
  }

  lemma SiftU()
    ensures SiftDown(U, 1) == H3
  {
    assert MinSlot(U, 1) == 3;
    assert Swap(U, 1, 3) == H3;
    SiftDownStops(H3, 3);
  }

  lemma PopToH4()
    ensures HeapPop(H3) == H4
  {
    SiftStep(H3, 0, [T(4, 12), T(6, 3), T(5, 30)], 1, H4);
    assert SiftDown(H4, 1) == H4;
  }

  /** Deleting timer 3 as written, then waking up twice, leaves timer 6 (due at 3) pending under a deadline
      of 10; the next wakeup fires 10 while 3 is still pending. */
  lemma DeletionCanDelay()
    ensures var st1 := DelTimer(SEVEN, 3, AsWritten);
            var st2 := GetTimo(st1).0;
            var st3 := GetTimo(st2).0;
            st3.pioneer == 10 && T(6, 3) in st3.heap && GetTimo(st3).1 == [T(1, 10)]
  {
    hide GetTimo, DelTimer;
    DelThree();
    WakeupsAfter();
    assert H3[1] == T(6, 3);
  }

  lemma WakeupsAfter()
    ensures GetTimo(State(H1, 7, 1)).0 == State(H2, 7, 2)
    ensures GetTimo(State(H2, 7, 2)).0 == State(H3, 7, 10)
    ensures GetTimo(State(H3, 7, 10)).1 == [T(1, 10)]
  {
    hide HeapPop, GetTimo;
    PopToH2();
    PopToH3();
    PopToH4();
    OnePop(H1, H2, 7, 1);
    OnePop(H2, H3, 7, 2);
    OnePop(H3, H4, 7, 10);
  }

  lemma DelThree()
    ensures DelTimer(SEVEN, 3, AsWritten) == State(H1, 7, 1)
  {
    hide HeapDel, Find;
    FindThree();
    DelToH1();
  }

  /** The first exchange of a downward sift. */
  lemma SiftStep(s: seq<TimerEvent>, pos: nat, t: seq<TimerEvent>, m: nat, u: seq<TimerEvent>)
    requires pos < |s| && t == s[pos := s[|s| - 1]][..|s| - 1]
    requires pos < |t| && m == MinSlot(t, pos) && u == Swap(t, pos, m)
    ensures HeapDel(s, pos) == if m == pos then t else SiftDown(u, m)
  {
  }

  lemma FindThree()
    ensures Find(SEVEN.heap, 3) == 3
  {
    var r := Find(SEVEN.heap, 3);
    assert SEVEN.heap[3].timerId == 3;
    assert SEVEN.heap[3] in SEVEN.heap;
  }

  /** A wakeup that pops one one-shot timer. */
  lemma OnePop(h: seq<TimerEvent>, h': seq<TimerEvent>, n: int, p: nat)
    requires h != [] && h[0].ts == p && h[0].interval == 0
    requires h' != [] && h'[0].ts != p && HeapPop(h) == h'
    ensures GetTimo(State(h, n, p)) == (State(h', n, h'[0].ts), [h[0]])
  {
    hide HeapPop;
    assert PopDue(h', p) == ([], h');
    assert [h[0]] + [] == [h[0]];
    assert PopDue(h, p) == ([h[0]], h');
    assert Reuse([h[0]]) == [];
  }

  // ---------- firing order ----------

  ghost predicate Nondecreasing(s: seq<TimerEvent>) {
    forall i, j :: 0 <= i < j < |s| ==> s[i].ts <= s[j].ts
  }

  /** With no insertions, a run whose deletions meet the guard fires in nondecreasing order, and never earlier
      than anything that was pending. */
  lemma {:induction false} FiringOrder(st: State, ops: seq<Op>, v: Variant, bound: nat)
    requires Good(st) && Legal(st, ops, v) && AllGuarded(st, ops, v)
    requires forall i :: 0 <= i < |ops| ==> !ops[i].Add?
    requires forall e :: e in st.heap ==> bound <= e.ts
    ensures Nondecreasing(Run(st, ops, v).1)
    ensures forall e :: e in Run(st, ops, v).1 ==> bound <= e.ts
    decreases |ops|
  {
    hide Good, Step, LegalStep, StepGuard, GetTimo;
    if ops != [] {
      var (st1, f1) := Step(st, ops[0], v);
      StepGoodIff(st, ops[0], v);
      var next := StepBound(st, ops[0], v, bound);
      FiringOrder(st1, ops[1..], v, next);
    }
  }

  /** One step: what fires has one timestamp, and what stays is no earlier. */
  lemma StepBound(st: State, op: Op, v: Variant, bound: nat) returns (next: nat)
    requires Good(st) && LegalStep(st, op) && !op.Add?
    requires forall e :: e in st.heap ==> bound <= e.ts
    ensures bound <= next
    ensures forall e :: e in Step(st, op, v).1 ==> e.ts == next
    ensures forall e :: e in Step(st, op, v).0.heap ==> next <= e.ts
  {
    hide GetTimo, DistinctIds, Ordered, Reuse, DelTimer;
    match op
    case Del(id) =>
      next := bound;
      DelTimerShrinks(st, id, v);
    case Wakeup =>
      GetTimoExact(st);
      NeverLate(st);
      var fired := GetTimo(st).1;
      next := if fired == [] then bound else st.pioneer;
      if fired != [] { assert fired[0] in fired; }
      ReuseElements(fired);
      forall e | e in GetTimo(st).0.heap ensures next <= e.ts {
        if Rearmed(e, Reuse(fired), st.nextId) {
          var r := Reuse(fired)[e.timerId - st.nextId];
          assert r in Reuse(fired);
          assert r.(ts := r.ts - r.interval) in fired;
        }
      }
  }

  lemma DelTimerShrinks(st: State, id: int, v: Variant)
    requires Sound(st)
    ensures forall e :: e in DelTimer(st, id, v).heap <==> e in st.heap && e.timerId != id
  {
    hide Pending, DelTimer;
    DelTimerExact(st, id, v);
    var h := DelTimer(st, id, v).heap;
    var p, q := Pending(st.heap), Pending(h);
    forall e ensures e in h <==> e in st.heap && e.timerId != id {
      if e in h { assert q[e.timerId] == e; assert p[e.timerId] == e; }
      if e in st.heap && e.timerId != id { assert p[e.timerId] == e; assert q[e.timerId] == e; }
    }
  }

  // ---------- a one-shot queue drains ----------

  ghost function Times(s: seq<TimerEvent>): set<nat> {
    set e | e in s :: e.ts
  }

  lemma TimesEmpty(s: seq<TimerEvent>)
    ensures |Times(s)| == 0 ==> s == []
  {
    if s != [] {
      assert s[0].ts in Times(s);
    }
  }

  function Wakeups(n: nat): (ops: seq<Op>)
    ensures |ops| == n && forall i :: 0 <= i < n ==> ops[i] == Wakeup
  {
    seq(n, _ => Wakeup)
  }

  ghost predicate OneShot(s: seq<TimerEvent>) {
    forall e :: e in s ==> e.interval == 0
  }

  lemma {:induction false} ReuseNone(fired: seq<TimerEvent>)
    requires OneShot(fired)
    ensures Reuse(fired) == []
  {
    if fired != [] {
      assert fired[0] in fired && forall e :: e in fired[1..] ==> e in fired;
      ReuseNone(fired[1..]);
    }
  }

  lemma OneShotFits(st: State)
    requires Sound(st) && OneShot(st.heap)
    ensures NoOverflow(st)
  {
    hide PopDue;
    PopDueSplits(st.heap, st.pioneer);
  }

  /** One wakeup of one-shot timers in any order: nothing is lost, and with the deadline at the root something fires. */
  lemma AnyOrderWakeup(st: State)
    requires Sound(st) && OneShot(st.heap)
    ensures var (st', fired) := GetTimo(st);
            && Sound(st') && OneShot(st'.heap)
            && multiset(st.heap) == multiset(fired) + multiset(st'.heap)
            && (st'.heap != [] ==> st'.pioneer == st'.heap[0].ts)
            && |st'.heap| <= |st.heap|
            && (st.heap != [] && st.pioneer == st.heap[0].ts ==> |st'.heap| < |st.heap|)
  {
    OneShotFits(st);
    hide DistinctIds, Sound, NoOverflow, HeapPop, PopDue, Reuse;
    GetTimoKeeps(st);
    var (fired, rest) := PopDue(st.heap, st.pioneer);
    PopDueMultiset(st.heap, st.pioneer);
    OneShotParts(st.heap, fired, rest);
    ReuseNone(fired);
    PopDueSome(st.heap, st.pioneer);
  }

  lemma PopDueSome(s: seq<TimerEvent>, p: nat)
    ensures s != [] && s[0].ts == p ==> PopDue(s, p).0 != []
  {
    hide HeapPop;
  }

  lemma OneShotParts(s: seq<TimerEvent>, a: seq<TimerEvent>, b: seq<TimerEvent>)
    requires OneShot(s) && multiset(s) == multiset(a) + multiset(b)
    ensures OneShot(a) && OneShot(b) && |s| == |a| + |b|
  {
    assert forall e :: e in a || e in b ==> e in multiset(s);
    assert |multiset(s)| == |multiset(a)| + |multiset(b)|;
  }

  lemma TimesWithout(s: seq<TimerEvent>, t: seq<TimerEvent>, p: nat)
    requires forall e :: e in t <==> e in s && e.ts != p
    ensures Times(t) == Times(s) - {p}
  {
  }

  /** One wakeup of a queue of one-shot timers in order. */
  lemma OneShotWakeup(st: State)
    requires Good(st) && OneShot(st.heap)
    ensures var (st', fired) := GetTimo(st);
            && Good(st')
            && OneShot(st'.heap)
            && multiset(st.heap) == multiset(fired) + multiset(st'.heap)
            && (st'.heap != [] ==> st'.pioneer == st'.heap[0].ts)
            && Times(st'.heap) == Times(st.heap) - {st.pioneer}
  {
    OneShotFits(st);
    AnyOrderWakeup(st);
    hide GetTimo, Good, OneShot, NoOverflow;
    GetTimoExact(st);
    NothingRearmed(st);
    TimesWithout(st.heap, GetTimo(st).0.heap, st.pioneer);
  }

  lemma NothingRearmed(st: State)
    requires Sound(st) && NoOverflow(st) && OneShot(st.heap)
    ensures forall e :: !Rearmed(e, Reuse(GetTimo(st).1), st.nextId)
  {
    hide GetTimo, DistinctIds, Reuse, NoOverflow;
    GetTimoKeeps(st);
    assert OneShot(GetTimo(st).1);
    ReuseNone(GetTimo(st).1);
  }

  lemma RunNone(st: State)
    ensures Run(st, Wakeups(0), AsWritten) == (st, [])
  {
  }

  lemma RunWakeup(st: State, n: nat)
    requires n > 0
    ensures var (st1, f1) := GetTimo(st);
            var (s2, f2) := Run(st1, Wakeups(n - 1), AsWritten);
            Run(st, Wakeups(n), AsWritten) == (s2, f1 + f2)
  {
    hide GetTimo;
    assert Wakeups(n)[1..] == Wakeups(n - 1);
  }

  lemma {:induction false} DrainFresh(st: State, n: nat)
    requires Good(st) && OneShot(st.heap) && n >= |Times(st.heap)|
    requires st.heap != [] ==> st.pioneer == st.heap[0].ts
    ensures var (st', fired) := Run(st, Wakeups(n), AsWritten);
            st'.heap == [] && multiset(fired) == multiset(st.heap)
    decreases n
  {
    hide Good, GetTimo, OneShot, Run;
    if n == 0 {
      assert Run(st, Wakeups(0), AsWritten) == (st, []) by { RunNone(st); }
      TimesEmpty(st.heap);
    } else {
      OneShotWakeup(st);
      var (st1, f1) := GetTimo(st);
      if st.heap != [] {
        assert st.heap[0].ts in Times(st.heap);
        assert |Times(st1.heap)| < |Times(st.heap)|;
      } else {
        assert Times(st1.heap) == {};
      }
      DrainFresh(st1, n - 1);
      RunWakeup(st, n);
    }
  }

  /** A queue of one-shot timers is empty after (distinct timestamps + 1) wakeups, and what fired is a sorted
      permutation of what was pending. The extra wakeup is for a stale deadline. */
  lemma OneShotDrains(st: State)
    requires Good(st) && OneShot(st.heap)
    ensures var (st', fired) := Run(st, Wakeups(|Times(st.heap)| + 1), AsWritten);
            st'.heap == [] && multiset(fired) == multiset(st.heap) && Nondecreasing(fired)
  {
    hide Good, GetTimo, Run, OneShot;
    var n := |Times(st.heap)| + 1;
    OneShotWakeup(st);
    var (st1, f1) := GetTimo(st);
    assert |Times(st1.heap)| <= |Times(st.heap)| by {
      SubsetCardinality(Times(st1.heap), Times(st.heap));
    }
    DrainFresh(st1, n - 1);
    RunWakeup(st, n);
    OneShotLegal(st, n);
    GuardForFree(st, Wakeups(n), AsWritten);
    FiringOrder(st, Wakeups(n), AsWritten, 0);
  }

  lemma {:induction false} AnyOrderDrain(st: State, n: nat)
    requires Sound(st) && OneShot(st.heap) && n >= |st.heap|
    requires st.heap != [] ==> st.pioneer == st.heap[0].ts
    ensures var (st', fired) := Run(st, Wakeups(n), AsWritten);
            st'.heap == [] && multiset(fired) == multiset(st.heap)
    decreases n
  {
    hide Sound, GetTimo, OneShot, Run;
    if n == 0 {
      RunNone(st);
    } else {
      AnyOrderWakeup(st);
      AnyOrderDrain(GetTimo(st).0, n - 1);
      RunWakeup(st, n);
    }
  }

  /** What a deletion that breaks the order leaves of this: from every sound state, one-shot timers have all fired,
      each once, after (number of timers + 1) wakeups, though not in order. */
  lemma OneShotDrainsAnyOrder(st: State)
    requires Sound(st) && OneShot(st.heap)
    ensures var (st', fired) := Run(st, Wakeups(|st.heap| + 1), AsWritten);
            st'.heap == [] && multiset(fired) == multiset(st.heap)
  {
    hide Sound, GetTimo, Run, OneShot;
    AnyOrderWakeup(st);
    AnyOrderDrain(GetTimo(st).0, |st.heap|);
    RunWakeup(st, |st.heap| + 1);
  }

  lemma {:induction false} OneShotLegal(st: State, n: nat)
    requires Good(st) && OneShot(st.heap)
    ensures Legal(st, Wakeups(n), AsWritten)
    decreases n
  {
    OneShotFits(st);
    hide Good, GetTimo;
    if n > 0 {
      OneShotWakeup(st);
      assert Wakeups(n)[1..] == Wakeups(n - 1);
      OneShotLegal(GetTimo(st).0, n - 1);
    }
  }

  lemma {:induction false} SubsetCardinality<T>(a: set<T>, b: set<T>)
    requires a <= b
    ensures |a| <= |b|
  {
    if a != {} {
      var x :| x in a;
      SubsetCardinality(a - {x}, b - {x});
    }
  }

  // ---------- a periodic timer neither drifts nor multiplies ----------

  /** How many periodic timers fired before `e`. */
  ghost function Rank(fired: seq<TimerEvent>, e: TimerEvent): nat {
    if fired == [] || fired[0] == e then 0
    else (if fired[0].interval > 0 then 1 else 0) + Rank(fired[1..], e)
  }

  /** The next occurrence of a periodic timer that has fired: later by its interval, under the id that its turn in
      the second loop of `get_timo` gives it. */
  ghost function Heir(e: TimerEvent, fired: seq<TimerEvent>, nextId: int): TimerEvent {
    e.(ts := e.ts + e.interval, timerId := nextId + Rank(fired, e))
  }

  lemma {:induction false} RankIs(fired: seq<TimerEvent>, e: TimerEvent)
    requires e in fired && e.interval > 0
    ensures Rank(fired, e) < |Reuse(fired)| && Reuse(fired)[Rank(fired, e)] == e.(ts := e.ts + e.interval)
  {
    if fired[0] != e {
      RankIs(fired[1..], e);
    }
  }

  lemma {:induction false} RankFrom(fired: seq<TimerEvent>, k: nat) returns (e: TimerEvent)
    requires DistinctIds(fired) && k < |Reuse(fired)|
    ensures e in fired && e.interval > 0 && Rank(fired, e) == k && Reuse(fired)[k] == e.(ts := e.ts + e.interval)
  {
    var tail := fired[1..];
    var n := if fired[0].interval > 0 then 1 else 0;
    if k < n {
      e := fired[0];
    } else {
      assert DistinctIds(tail);
      e := RankFrom(tail, k - n);
      var j :| 0 <= j < |tail| && tail[j] == e;
      assert fired[j + 1] == e && fired[0].timerId != fired[j + 1].timerId;
    }
  }

  /** What `get_timo` re-arms are the heirs of the periodic timers that fired, one for each: no successor is missing,
      none is extra, and no two timers share one. */
  lemma RearmedAreHeirs(fired: seq<TimerEvent>, nextId: int)
    requires DistinctIds(fired)
    ensures forall x :: Rearmed(x, Reuse(fired), nextId) <==>
              exists e :: e in fired && e.interval > 0 && x == Heir(e, fired, nextId)
    ensures forall e, d :: (e in fired && d in fired && e.interval > 0 && d.interval > 0
                            && Heir(e, fired, nextId).timerId == Heir(d, fired, nextId).timerId) ==> e == d
  {
    hide Reuse, DistinctIds, Rank;
    forall x ensures Rearmed(x, Reuse(fired), nextId) <==>
                       exists e :: e in fired && e.interval > 0 && x == Heir(e, fired, nextId)
    {
      if Rearmed(x, Reuse(fired), nextId) {
        var e := RankFrom(fired, x.timerId - nextId);
        assert x == Heir(e, fired, nextId);
      }
      if e :| e in fired && e.interval > 0 && x == Heir(e, fired, nextId) {
        RankIs(fired, e);
      }
    }
    forall e, d | e in fired && d in fired && e.interval > 0 && d.interval > 0
                  && Heir(e, fired, nextId).timerId == Heir(d, fired, nextId).timerId
      ensures e == d
    {
      RankIs(fired, e);
      RankIs(fired, d);
      SameId(fired, e, d);
    }
  }

  lemma SameId(s: seq<TimerEvent>, e: TimerEvent, d: TimerEvent)
    requires DistinctIds(s) && e in s && d in s && e.timerId == d.timerId
    ensures e == d
  {
  }

  /** Whether an operation fires the pending timer `e`. */
  ghost predicate Fires(st: State, op: Op, e: TimerEvent) {
    op.Wakeup? && e in GetTimo(st).1
  }

  /** The pending occurrence of `e` after an operation. */
  ghost function Successor(st: State, op: Op, e: TimerEvent): TimerEvent {
    if Fires(st, op, e) then Heir(e, GetTimo(st).1, st.nextId) else e
  }

  /** The occurrences of `e` that fire over a run, in order. */
  ghost function Occurrences(st: State, ops: seq<Op>, v: Variant, e: TimerEvent): seq<TimerEvent>
    decreases |ops|
  {
    if ops == [] then []
    else (if Fires(st, ops[0], e) then [e] else [])
         + Occurrences(Step(st, ops[0], v).0, ops[1..], v, Successor(st, ops[0], e))
  }

  /** The occurrence of `e` that is pending after a run. */
  ghost function Current(st: State, ops: seq<Op>, v: Variant, e: TimerEvent): TimerEvent
    decreases |ops|
  {
    if ops == [] then e else Current(Step(st, ops[0], v).0, ops[1..], v, Successor(st, ops[0], e))
  }

  /** The run never deletes the pending occurrence of `e`. */
  ghost predicate Spares(st: State, ops: seq<Op>, v: Variant, e: TimerEvent)
    decreases |ops|
  {
    ops != [] ==>
      && (ops[0].Del? ==> ops[0].id != e.timerId)
      && Spares(Step(st, ops[0], v).0, ops[1..], v, Successor(st, ops[0], e))
  }

  /** `fs` fired at the timestamp of `e`, one interval later, and so on, and `last` is next. */
  ghost predicate OnSchedule(fs: seq<TimerEvent>, last: TimerEvent, e: TimerEvent) {
    && (forall k :: 0 <= k < |fs| ==> fs[k].ts == e.ts + k * e.interval && fs[k].interval == e.interval && fs[k].cb == e.cb)
    && last.cb == e.cb && last.interval == e.interval && last.ts == e.ts + |fs| * e.interval
  }

  /** All ids a timer has had. */
  ghost function Ids(fs: seq<TimerEvent>, last: TimerEvent): set<int> {
    (set f | f in fs :: f.timerId) + {last.timerId}
  }

  /** What fired under one of these ids. */
  ghost function FiredAs(out: seq<TimerEvent>, ids: set<int>): seq<TimerEvent> {
    if out == [] then [] else (if out[0].timerId in ids then [out[0]] else []) + FiredAs(out[1..], ids)
  }

  lemma {:induction false} FiredAsAppend(a: seq<TimerEvent>, b: seq<TimerEvent>, ids: set<int>)
    ensures FiredAs(a + b, ids) == FiredAs(a, ids) + FiredAs(b, ids)
  {
    if a == [] {
      assert a + b == b;
    } else {
      var head := if a[0].timerId in ids then [a[0]] else [];
      assert (a + b)[0] == a[0] && (a + b)[1..] == a[1..] + b;
      FiredAsAppend(a[1..], b, ids);
      var x, y := FiredAs(a[1..], ids), FiredAs(b, ids);
      assert FiredAs(a + b, ids) == head + (x + y);
      assert FiredAs(a, ids) == head + x;
      assert head + (x + y) == (head + x) + y;
    }
  }

  /** Only the ids that occur matter. */
  lemma {:induction false} FiredAsSame(out: seq<TimerEvent>, ids: set<int>, ids': set<int>)
    requires forall x :: x in out ==> (x.timerId in ids <==> x.timerId in ids')
    ensures FiredAs(out, ids) == FiredAs(out, ids')
  {
    if out != [] {
      assert out[0] in out && forall x :: x in out[1..] ==> x in out;
      FiredAsSame(out[1..], ids, ids');
    }
  }

  lemma {:induction false} FiredAsOne(out: seq<TimerEvent>, e: TimerEvent)
    requires DistinctIds(out) && forall x :: x in out && x.timerId == e.timerId ==> x == e
    ensures FiredAs(out, {e.timerId}) == if e in out then [e] else []
  {
    if out != [] {
      var tail := out[1..];
      assert out == [out[0]] + tail && out[0] in out;
      assert forall x :: x in tail ==> x in out;
      assert DistinctIds(tail) && forall i :: 0 <= i < |tail| ==> tail[i] == out[i + 1];
      FiredAsOne(tail, e);
    }
  }

  /** The id of a pending timer, or one not given out yet. */
  ghost predicate Known(st: State, id: int) {
    id >= st.nextId || exists y :: y in st.heap && y.timerId == id
  }

  /** What one operation does to a pending periodic timer it does not delete. */
  lemma StepSuccessor(st: State, op: Op, v: Variant, e: TimerEvent)
    requires Sound(st) && LegalStep(st, op) && e in st.heap && e.interval > 0
    requires op.Del? ==> op.id != e.timerId
    ensures Successor(st, op, e) in Step(st, op, v).0.heap
    ensures Fires(st, op, e) ==> Successor(st, op, e).timerId >= st.nextId > e.timerId && !Known(Step(st, op, v).0, e.timerId)
    ensures FiredAs(Step(st, op, v).1, {e.timerId}) == if Fires(st, op, e) then [e] else []
  {
    hide AddTimer, DelTimer, GetTimo, DistinctIds, Reuse, NoOverflow;
    match op
    case Add(te) => AddTimerSound(st, te);
    case Del(id) => DelTimerShrinks(st, id, v);
    case Wakeup =>
      GetTimoKeeps(st);
      var fired := GetTimo(st).1;
      forall x | x in fired && x.timerId == e.timerId ensures x == e {
        SameId(st.heap, x, e);
      }
      FiredAsOne(fired, e);
      RearmedAreHeirs(fired, st.nextId);
      if e in fired {
        Gone(st, e);
      }
  }

  lemma Gone(st: State, e: TimerEvent)
    requires Sound(st) && NoOverflow(st) && e in st.heap && e in GetTimo(st).1
    ensures !Known(GetTimo(st).0, e.timerId)
  {
    hide GetTimo, DistinctIds, Reuse, NoOverflow;
    GetTimoKeeps(st);
    var st' := GetTimo(st).0;
    forall y | y in st'.heap ensures y.timerId != e.timerId {
      if y in st.heap && y.timerId == e.timerId {
        SameId(st.heap, y, e);
      }
    }
  }

  /** Ids are never given out again. */
  lemma StepKnown(st: State, op: Op, v: Variant)
    requires Sound(st) && LegalStep(st, op)
    ensures Step(st, op, v).0.nextId >= st.nextId
    ensures forall id :: Known(Step(st, op, v).0, id) ==> Known(st, id)
    ensures forall x :: x in Step(st, op, v).1 ==> x in st.heap
  {
    hide AddTimer, DelTimer, GetTimo, DistinctIds, Reuse, NoOverflow, Rearmed;
    match op
    case Add(te) =>
      AddTimerSound(st, te);
    case Del(id) =>
      DelTimerExact(st, id, v);
      DelTimerShrinks(st, id, v);
    case Wakeup =>
      GetTimoKeeps(st);
      RearmedAbove(Reuse(GetTimo(st).1), st.nextId);
  }

  lemma RearmedAbove(reuse: seq<TimerEvent>, nextId: int)
    ensures forall x :: Rearmed(x, reuse, nextId) ==> x.timerId >= nextId
  {
  }

  lemma {:induction false} RunKnown(st: State, ops: seq<Op>, v: Variant)
    requires Sound(st) && Legal(st, ops, v)
    ensures forall x :: x in Run(st, ops, v).1 ==> Known(st, x.timerId)
    decreases |ops|
  {
    hide Sound, Step, LegalStep, Known;
    if ops != [] {
      StepSound(st, ops[0], v);
      StepKnown(st, ops[0], v);
      PendingKnown(st);
      RunKnown(Step(st, ops[0], v).0, ops[1..], v);
    }
  }

  lemma PendingKnown(st: State)
    ensures forall x :: x in st.heap ==> Known(st, x.timerId)
  {
  }

  /** Over any run that never deletes its pending occurrence, a periodic timer fires at `ts`, `ts + interval`, ...
      with none skipped: these are all the firings under any id it has had. Afterwards exactly its next occurrence
      is pending, at `ts + n * interval` after `n` firings, under a fresh id once it has fired. */
  lemma {:induction false} PeriodicExact(st: State, ops: seq<Op>, v: Variant, e: TimerEvent)
    requires Sound(st) && Legal(st, ops, v) && e in st.heap && e.interval > 0
    requires Spares(st, ops, v, e)
    ensures var (st', out) := Run(st, ops, v);
            var fs, last := Occurrences(st, ops, v, e), Current(st, ops, v, e);
            && OnSchedule(fs, last, e)
            && FiredAs(out, Ids(fs, last)) == fs
            && last in st'.heap
            && (fs == [] ==> last == e)
            && (fs != [] ==> last.timerId >= st.nextId > e.timerId)
    ensures var ids := Ids(Occurrences(st, ops, v, e), Current(st, ops, v, e));
            e.timerId in ids && forall id :: id in ids ==> id == e.timerId || id >= st.nextId
    decreases |ops|
  {
    hide Sound, Legal, LegalStep, Step, FiredAs, Known, Rank, OnSchedule, Fires, Spares, Occurrences, Current, Run;
    if ops == [] {
      NoOps(st, v, e);
    } else {
      var (st1, f1) := Step(st, ops[0], v);
      var rest := ops[1..];
      SoundAndLegal(st, ops, v);
      OneMore(st, ops, v, e);
      StepSuccessor(st, ops[0], v, e);
      var e1 := Successor(st, ops[0], e);
      PeriodicExact(st1, rest, v, e1);
      var o1 := if Fires(st, ops[0], e) then [e] else [];
      var o2, last := Occurrences(st1, rest, v, e1), Current(st1, rest, v, e1);
      Chain(o1, o2, last, e, e1);
      JoinFirings(st, ops, v, e, f1, Run(st1, rest, v).1, o1, o2, last);
    }
  }

  lemma NoOps(st: State, v: Variant, e: TimerEvent)
    ensures Run(st, [], v) == (st, []) && Occurrences(st, [], v, e) == [] && Current(st, [], v, e) == e
    ensures OnSchedule([], e, e) && FiredAs([], {e.timerId}) == [] && Ids([], e) == {e.timerId}
  {
  }

  lemma OneMore(st: State, ops: seq<Op>, v: Variant, e: TimerEvent)
    requires ops != []
    ensures var st1 := Step(st, ops[0], v).0;
            var e1 := Successor(st, ops[0], e);
            && Occurrences(st, ops, v, e) == (if Fires(st, ops[0], e) then [e] else []) + Occurrences(st1, ops[1..], v, e1)
            && Current(st, ops, v, e) == Current(st1, ops[1..], v, e1)
            && Run(st, ops, v) == (Run(st1, ops[1..], v).0, Step(st, ops[0], v).1 + Run(st1, ops[1..], v).1)
            && (Spares(st, ops, v, e) ==>
                  Spares(st1, ops[1..], v, e1) && (ops[0].Del? ==> ops[0].id != e.timerId))
  {
    hide Step, Fires, Successor;
  }

  lemma SoundAndLegal(st: State, ops: seq<Op>, v: Variant)
    requires Sound(st) && Legal(st, ops, v) && ops != []
    ensures LegalStep(st, ops[0]) && Legal(Step(st, ops[0], v).0, ops[1..], v) && Sound(Step(st, ops[0], v).0)
    ensures Step(st, ops[0], v).0.nextId >= st.nextId
    ensures forall e :: e in st.heap ==> e.timerId < st.nextId
  {
    StepSound(st, ops[0], v);
    StepKnown(st, ops[0], v);
  }

  /** The firings under the ids of one timer, in the first step and in the rest. */
  lemma JoinFirings(st: State, ops: seq<Op>, v: Variant, e: TimerEvent, f1: seq<TimerEvent>, f2: seq<TimerEvent>,
                    o1: seq<TimerEvent>, o2: seq<TimerEvent>, last: TimerEvent)
    requires Sound(st) && Legal(st, ops, v) && ops != [] && e in st.heap
    requires f1 == Step(st, ops[0], v).1 && f2 == Run(Step(st, ops[0], v).0, ops[1..], v).1
    requires o1 == (if Fires(st, ops[0], e) then [e] else []) && FiredAs(f1, {e.timerId}) == o1
    requires o1 != [] ==> !Known(Step(st, ops[0], v).0, e.timerId)
    requires o1 == [] ==> e.timerId in Ids(o2, last)
    requires FiredAs(f2, Ids(o2, last)) == o2
    requires forall id :: id in Ids(o2, last) ==> id == e.timerId || id >= st.nextId
    ensures FiredAs(f1 + f2, Ids(o1 + o2, last)) == o1 + o2
    ensures e.timerId in Ids(o1 + o2, last)
    ensures forall id :: id in Ids(o1 + o2, last) ==> id == e.timerId || id >= st.nextId
  {
    hide Legal, LegalStep, Step, FiredAs, Known, Fires;
    var st1 := Step(st, ops[0], v).0;
    SoundAndLegal(st, ops, v);
    StepKnown(st, ops[0], v) by { LegalHere(st, ops, v); }
    RunKnown(st1, ops[1..], v);
    var ids := Ids(o1 + o2, last);
    assert o1 != [] ==> (o1 + o2)[0] == e;
    assert forall id :: id in ids <==> id in Ids(o2, last) || id == e.timerId;
    FiredAsAppend(f1, f2, ids);
    FiredAsSame(f1, ids, {e.timerId});
    FiredAsSame(f2, ids, Ids(o2, last));
  }

  lemma LegalHere(st: State, ops: seq<Op>, v: Variant)
    requires Legal(st, ops, v) && ops != []
    ensures LegalStep(st, ops[0])
  {
  }

  lemma Chain(a: seq<TimerEvent>, b: seq<TimerEvent>, last: TimerEvent, e: TimerEvent, e1: TimerEvent)
    requires OnSchedule(b, last, e1)
    requires if a == [] then e1 == e
             else a == [e] && e1.interval == e.interval && e1.cb == e.cb && e1.ts == e.ts + e.interval
    ensures OnSchedule(a + b, last, e)
  {
    forall k | 0 <= k < |a + b|
      ensures (a + b)[k].ts == e.ts + k * e.interval && (a + b)[k].interval == e.interval && (a + b)[k].cb == e.cb
    {
      if k >= |a| {
        assert (a + b)[k] == b[k - |a|];
        if a != [] {
          assert (k - 1) * e.interval + e.interval == k * e.interval;
        }
      }
    }
    if a != [] {
      assert |b| * e.interval + e.interval == (|b| + 1) * e.interval;
    }
  }

  /** Two different pending periodic timers never turn into one. */
  lemma {:induction false} PeriodicApart(st: State, ops: seq<Op>, v: Variant, e: TimerEvent, d: TimerEvent)
    requires Sound(st) && Legal(st, ops, v) && e in st.heap && d in st.heap && e != d
    requires e.interval > 0 && d.interval > 0 && Spares(st, ops, v, e) && Spares(st, ops, v, d)
    ensures Current(st, ops, v, e).timerId != Current(st, ops, v, d).timerId
    decreases |ops|
  {
    if ops == [] {
      if e.timerId == d.timerId {
        SameId(st.heap, e, d);
      }
    } else {
      SoundAndLegal(st, ops, v);
      StepSuccessor(st, ops[0], v, e);
      StepSuccessor(st, ops[0], v, d);
      StepApart(st, ops[0], v, e, d);
      hide Sound, Legal, Step, Rank, GetTimo;
      PeriodicApart(Step(st, ops[0], v).0, ops[1..], v, Successor(st, ops[0], e), Successor(st, ops[0], d));
    }
  }

  lemma StepApart(st: State, op: Op, v: Variant, e: TimerEvent, d: TimerEvent)
    requires Sound(st) && LegalStep(st, op) && e in st.heap && d in st.heap && e != d
    requires e.interval > 0 && d.interval > 0
    ensures Successor(st, op, e) != Successor(st, op, d)
  {
    hide GetTimo, DistinctIds, NoOverflow, Rank;
    if op.Wakeup? {
      GetTimoKeeps(st);
      RearmedAreHeirs(GetTimo(st).1, st.nextId);
    }
  }
}
