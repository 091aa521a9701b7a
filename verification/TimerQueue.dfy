/** The class `timer_queue`: the heap vector, the redundant count, the id-to-slot index and the armed timerfd,
    updated in place and proved equal to the functions of TimerHeap and Timers. */
module TimerQueues {
  import opened TimerHeap
  import opened Timers

  /** The `it_value` last given to `timerfd_settime` with TFD_TIMER_ABSTIME. Zero disarms. */
  datatype Itimerspec = Itimerspec(sec: nat, nsec: nat)

  function Arm(pioneer: nat): Itimerspec {
    if pioneer != SENTINEL then Itimerspec(pioneer / 1000, (pioneer % 1000) * 1000000) else Itimerspec(0, 0)
  }

  /** A deadline above 0 is armed as exactly that many milliseconds; only 0 and the sentinel disarm. */
  lemma ArmExact(p: nat)
    requires p != SENTINEL
    ensures Arm(p).nsec < 1_000_000_000
    ensures Arm(p).sec * 1_000_000_000 + Arm(p).nsec == p * 1_000_000
    ensures Arm(p) == Arm(SENTINEL) <==> p == 0
  {
    assert (p % 1000) * 1000000 / 1000000 == p % 1000;
    assert p == (p / 1000) * 1000 + p % 1000;
  }

  /** The index is exactly the inverse of slot to id. */
  ghost predicate IndexAgrees(m: map<int, int>, s: seq<TimerEvent>) {
    && (forall i :: 0 <= i < |s| ==> s[i].timerId in m && m[s[i].timerId] == i)
    && (forall id :: id in m ==> 0 <= m[id] < |s| && s[m[id]].timerId == id)
  }

  /** Exchanging two slots and their two index entries. */
  lemma SwapIndex(m: map<int, int>, s: seq<TimerEvent>, i: nat, j: nat)
    requires IndexAgrees(m, s) && i < |s| && j < |s|
    ensures IndexAgrees(m[s[j].timerId := i][s[i].timerId := j], Swap(s, i, j))
  {
  }

  lemma IdOf(m: map<int, int>, s: seq<TimerEvent>, i: nat)
    requires IndexAgrees(m, s) && i < |s|
    ensures s[i].timerId in m && m[s[i].timerId] == i
  {
  }

  /** Appending with the next slot number. */
  lemma AppendIndex(m: map<int, int>, s: seq<TimerEvent>, te: TimerEvent)
    requires IndexAgrees(m, s) && te.timerId !in m
    ensures IndexAgrees(m[te.timerId := |s|], s + [te])
  {
  }

  /** The index updates of `heap_del`, which also serve when `pos` is the last slot. */
  lemma MoveRearIndex(m: map<int, int>, s: seq<TimerEvent>, pos: nat)
    requires IndexAgrees(m, s) && pos < |s|
    ensures IndexAgrees(m[s[|s| - 1].timerId := pos] - {s[pos].timerId}, MoveRear(s, pos))
    ensures (m[s[|s| - 1].timerId := pos] - {s[pos].timerId}).Keys == m.Keys - {s[pos].timerId}
  {
    hide DistinctIds;
    var t := MoveRear(s, pos);
    assert forall i :: 0 <= i < |t| ==> t[i] == s[if i == pos then |s| - 1 else i];
  }

  /** `heap_pop` erases first and then moves the rear, to the same effect. */
  lemma PopIndex(m: map<int, int>, s: seq<TimerEvent>)
    requires IndexAgrees(m, s) && |s| > 1
    ensures IndexAgrees((m - {s[0].timerId})[s[|s| - 1].timerId := 0], MoveRear(s, 0))
    ensures ((m - {s[0].timerId})[s[|s| - 1].timerId := 0]).Keys <= m.Keys
  {
    MoveRearIndex(m, s, 0);
    assert s[0].timerId != s[|s| - 1].timerId;
    assert (m - {s[0].timerId})[s[|s| - 1].timerId := 0] == m[s[|s| - 1].timerId := 0] - {s[0].timerId};
  }

  lemma SingleIndex(m: map<int, int>, s: seq<TimerEvent>)
    requires IndexAgrees(m, s) && |s| == 1
    ensures IndexAgrees(m - {s[0].timerId}, [])
  {
  }

  lemma SiftDownStep(s: seq<TimerEvent>, pos: nat)
    requires pos <= |s|
    ensures var m := MinSlot(s, pos);
            SiftDown(s, pos) == if m != pos then SiftDown(Swap(s, pos, m), m) else s
  {
  }

  lemma PopDueStep(s: seq<TimerEvent>, p: nat)
    ensures PopDue(s, p) ==
              if s != [] && s[0].ts == p then ([s[0]] + PopDue(HeapPop(s), p).0, PopDue(HeapPop(s), p).1)
              else ([], s)
  {
    hide HeapPop;
  }

  lemma AddAllStep(st: State, tes: seq<TimerEvent>, i: nat)
    requires i <= |tes|
    ensures AddAll(st, tes[i..]) == if i == |tes| then st else AddAll(Timers.AddTimer(st, tes[i]), tes[i + 1..])
  {
    hide Timers.AddTimer;
    if i < |tes| {
      assert tes[i..][1..] == tes[i + 1..];
    }
  }

  lemma ReuseNil()
    ensures Reuse([]) == []
  {
  }

  lemma {:induction false} ReuseAppend(a: seq<TimerEvent>, x: TimerEvent)
    ensures Reuse(a + [x]) == Reuse(a) + if x.interval > 0 then [x.(ts := x.ts + x.interval)] else []
  {
    if a == [] {
      assert a + [x] == [x];
      assert Reuse([x][1..]) == [];
    } else {
      assert (a + [x])[1..] == a[1..] + [x];
      ReuseAppend(a[1..], x);
    }
  }

  class TimerQueue {
    var eventLst: seq<TimerEvent>
    var position: map<int, int>
    var count: int
    var nextTimerId: int
    var pioneer: nat
    var timerfd: Itimerspec

    ghost predicate Indexed()
      reads this
    {
      count == |eventLst| && IndexAgrees(position, eventLst)
    }

    ghost predicate IdsUsed()
      reads this
    {
      0 <= nextTimerId && forall id :: id in position ==> 0 <= id < nextTimerId
    }

    ghost predicate Valid()
      reads this
    {
      Indexed() && IdsUsed() && timerfd == Arm(pioneer)
    }

    ghost function Abs(): State
      reads this
    {
      State(eventLst, nextTimerId, pioneer)
    }

    constructor ()
      ensures Valid() && Abs() == INIT && Sound(Abs())
      ensures eventLst == [] && pioneer == 0xFFFF_FFFF_FFFF_FFFF && timerfd == Itimerspec(0, 0)
    {
      eventLst, position, count, nextTimerId, pioneer := [], map[], 0, 0, SENTINEL;
      timerfd := Itimerspec(0, 0);
    }

    method ResetTimo()
      modifies `timerfd
      ensures timerfd == Arm(pioneer)
    {
      var spec := Itimerspec(0, 0);
      if pioneer != SENTINEL {
        spec := Itimerspec(pioneer / 1000, (pioneer % 1000) * 1000000);
      }
      timerfd := spec;
    }

    /** The exchange of two slots and of their index entries, in `heap_add` and `heap_hold` alike. */
    method Exchange(i: int, j: int)
      requires Indexed() && 0 <= i < count && 0 <= j < count && i != j
      modifies `eventLst, `position
      ensures Indexed()
      ensures eventLst == Swap(old(eventLst), i, j)
      ensures position.Keys == old(position).Keys
    {
      hide IndexAgrees, DistinctIds;
      IdOf(position, eventLst, i);
      IdOf(position, eventLst, j);
      SwapIndex(position, eventLst, i, j);
      var tmp := eventLst[i];
      eventLst := eventLst[i := eventLst[j]];
      eventLst := eventLst[j := tmp];
      position := position[eventLst[i].timerId := i];
      position := position[tmp.timerId := j];
    }

    method HeapAdd(te: TimerEvent)
      requires Indexed() && te.timerId !in position
      modifies `eventLst, `position, `count
      ensures Indexed()
      ensures eventLst == TimerHeap.HeapAdd(old(eventLst), te)
      ensures position.Keys == old(position).Keys + {te.timerId}
    {
      hide IndexAgrees, DistinctIds;
      AppendIndex(position, eventLst, te);
      eventLst := eventLst + [te];
      position := position[te.timerId := count];
      var currPos := count;
      count := count + 1;
      var prtPos := TruncHalf(currPos - 1);
      assert prtPos == Parent(currPos);
      while prtPos >= 0 && eventLst[currPos].ts < eventLst[prtPos].ts
        invariant 0 <= currPos < |eventLst| && prtPos == Parent(currPos)
        invariant Indexed()
        invariant SiftUp(eventLst, currPos) == TimerHeap.HeapAdd(old(eventLst), te)
        invariant position.Keys == old(position).Keys + {te.timerId}
        decreases currPos
      {
        Exchange(currPos, prtPos);
        currPos := prtPos;
        prtPos := TruncHalf(currPos - 1);
        assert prtPos == Parent(currPos);
      }
    }

    /** The recursion of the source: at most one call per level, ending at a leaf. */
    method HeapHold(pos: int)
      requires Indexed() && 0 <= pos <= count
      modifies `eventLst, `position
      ensures Indexed()
      ensures eventLst == SiftDown(old(eventLst), pos)
      ensures position.Keys == old(position).Keys
      decreases count - pos
    {
      hide IndexAgrees, DistinctIds, SiftDown, Swap;
      SiftDownStep(eventLst, pos);
      var left, right := 2 * pos + 1, 2 * pos + 2;
      var minPos := pos;
      if left < count && eventLst[minPos].ts > eventLst[left].ts {
        minPos := left;
      }
      if right < count && eventLst[minPos].ts > eventLst[right].ts {
        minPos := right;
      }
      assert minPos == MinSlot(eventLst, pos);
      if minPos != pos {
        Exchange(pos, minPos);
        HeapHold(minPos);
      }
    }

    method HeapDel(pos: int)
      requires Indexed() && 0 <= pos < count
      modifies `eventLst, `position, `count
      ensures Indexed()
      ensures eventLst == TimerHeap.HeapDel(old(eventLst), pos)
      ensures position.Keys == old(position).Keys - {old(eventLst)[pos].timerId}
    {
      hide IndexAgrees, DistinctIds;
      MoveRearIndex(position, eventLst, pos);
      var toDel := eventLst[pos];
      var tmp := eventLst[count - 1];
      eventLst := eventLst[pos := tmp];
      position := position[tmp.timerId := pos];
      position := position - {toDel.timerId};
      count := count - 1;
      eventLst := eventLst[..|eventLst| - 1];
      assert eventLst == MoveRear(old(eventLst), pos);
      HeapHold(pos);
    }

    method HeapPop()
      requires Indexed()
      modifies `eventLst, `position, `count
      ensures Indexed()
      ensures eventLst == TimerHeap.HeapPop(old(eventLst))
      ensures position.Keys <= old(position).Keys
    {
      hide IndexAgrees, DistinctIds;
      if count <= 0 {
        return;
      }
      position := position - {eventLst[0].timerId};
      if count > 1 {
        PopIndex(old(position), eventLst);
        var tmp := eventLst[count - 1];
        eventLst := eventLst[0 := tmp];
        position := position[tmp.timerId := 0];
        eventLst := eventLst[..|eventLst| - 1];
        count := count - 1;
        assert eventLst == MoveRear(old(eventLst), 0);
        HeapHold(0);
      } else if count == 1 {
        SingleIndex(old(position), eventLst);
        eventLst := [];
        count := 0;
      }
    }

    /** Returns the id given to the timer: the first occurrence only, if it is periodic. */
    method AddTimer(te: TimerEvent) returns (id: int)
      requires Valid()
      modifies this
      ensures Valid()
      ensures id == old(nextTimerId) && id !in old(position)
      ensures Abs() == Timers.AddTimer(old(Abs()), te)
    {
      hide IndexAgrees, DistinctIds, TimerHeap.HeapAdd;
      var te' := te.(timerId := nextTimerId);
      nextTimerId := nextTimerId + 1;
      HeapAdd(te');
      if eventLst[0].ts < pioneer {
        pioneer := eventLst[0].ts;
        ResetTimo();
      }
      id := te'.timerId;
    }

    method DelTimer(id: int)
      requires Valid()
      modifies this
      ensures Valid()
      ensures Abs() == Timers.DelTimer(old(Abs()), id, AsWritten)
    {
      ghost var slot := Find(eventLst, id);
      if id !in position {
        assert slot == -1;
        return;
      }
      var pos := position[id];
      assert slot == pos by {
        assert eventLst[pos] in eventLst;
      }
      HeapDel(pos);
      if count == 0 {
        pioneer := SENTINEL;
        ResetTimo();
      } else if eventLst[0].ts < pioneer {
        pioneer := eventLst[0].ts;
        ResetTimo();
      }
    }

    /** The second loop of `get_timo`. The heap may be empty here while a deadline is still set. */
    method ReAdd(reuseLst: seq<TimerEvent>)
      requires Valid()
      modifies this
      ensures Valid()
      ensures Abs() == AddAll(old(Abs()), reuseLst)
    {
      hide IndexAgrees, Timers.AddTimer, AddAll;
      var i := 0;
      assert reuseLst[0..] == reuseLst;
      while i < |reuseLst|
        invariant 0 <= i <= |reuseLst|
        invariant Valid()
        invariant AddAll(Abs(), reuseLst[i..]) == AddAll(old(Abs()), reuseLst)
      {
        AddAllStep(Abs(), reuseLst, i);
        var id := AddTimer(reuseLst[i]);
        i := i + 1;
      }
      AddAllStep(Abs(), reuseLst, i);
    }

    /** The first loop of `get_timo`. */
    method TakeDue() returns (firedEvs: seq<TimerEvent>, reuseLst: seq<TimerEvent>)
      requires Valid()
      modifies `eventLst, `position, `count
      ensures Valid()
      ensures (firedEvs, eventLst) == PopDue(old(eventLst), pioneer)
      ensures reuseLst == Reuse(firedEvs)
    {
      hide IndexAgrees, DistinctIds, TimerHeap.HeapPop, Reuse, PopDue, Arm;
      firedEvs := [];
      reuseLst := [];
      ReuseNil();
      ghost var all, rest := PopDue(eventLst, pioneer).0, PopDue(eventLst, pioneer).1;
      while count != 0 && pioneer == eventLst[0].ts
        invariant Valid()
        invariant all == firedEvs + PopDue(eventLst, pioneer).0 && rest == PopDue(eventLst, pioneer).1
        invariant reuseLst == Reuse(firedEvs)
        decreases count
      {
        var te := eventLst[0];
        PopDueStep(eventLst, pioneer);
        ReuseAppend(firedEvs, te);
        firedEvs := firedEvs + [te];
        if te.interval > 0 {
          te := te.(ts := te.ts + te.interval);
          reuseLst := reuseLst + [te];
        }
        HeapPop();
      }
      PopDueStep(eventLst, pioneer);
      assert firedEvs + [] == firedEvs;
    }

    method GetTimo() returns (firedEvs: seq<TimerEvent>)
      requires Valid()
      modifies this
      ensures Valid()
      ensures (Abs(), firedEvs) == Timers.GetTimo(old(Abs()))
    {
      hide IndexAgrees, DistinctIds, Reuse, PopDue, AddAll, Arm;
      var reuseLst;
      firedEvs, reuseLst := TakeDue();
      ReAdd(reuseLst);
      if count == 0 {
        pioneer := SENTINEL;
        ResetTimo();
      } else {
        pioneer := eventLst[0].ts;
        ResetTimo();
      }
    }
  }
}
