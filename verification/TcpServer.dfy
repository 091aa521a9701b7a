/** The acceptor: `thread_pool`'s round robin and the accept branch of `tcp_server::do_accept`. */
module TcpServers {
  import opened ThreadQueues

  /** `queue_msg`: a new connection or a task for a worker. */
  datatype QueueMsg = NewConn(connfd: int) | NewTask(task: nat)

  // ---------- round robin ----------

  /** How many of the turns 0, ..., k-1 go to worker `w`. */
  function Turns(k: nat, n: nat, w: nat): nat
    requires n > 0
  {
    if k == 0 then 0 else Turns(k - 1, n, w) + if (k - 1) % n == w then 1 else 0
  }

  lemma DivModUnique(k: nat, n: nat, q: nat, r: nat)
    requires n > 0 && r < n && k == n * q + r
    ensures k / n == q && k % n == r
  {
    var q', r' := k / n, k % n;
    assert k == n * q' + r';
    Gap(n, q, q');
    Gap(n, q', q);
  }

  lemma Gap(n: nat, a: nat, b: nat)
    ensures a < b ==> n * a + n <= n * b
  {
    if a < b {
      assert n * b == n * (a + 1) + n * (b - a - 1);
    }
  }

  lemma DivModStep(k: nat, n: nat)
    requires n > 0
    ensures k % n == n - 1 ==> (k + 1) / n == k / n + 1 && (k + 1) % n == 0
    ensures k % n != n - 1 ==> (k + 1) / n == k / n && (k + 1) % n == k % n + 1
  {
    assert k == n * (k / n) + k % n;
    if k % n == n - 1 {
      assert n * (k / n + 1) == n * (k / n) + n;
      DivModUnique(k + 1, n, k / n + 1, 0);
    } else {
      DivModUnique(k + 1, n, k / n, k % n + 1);
    }
  }

  lemma {:induction false} TurnsExact(k: nat, n: nat, w: nat)
    requires w < n
    ensures Turns(k, n, w) == k / n + if w < k % n then 1 else 0
  {
    if k > 0 {
      TurnsExact(k - 1, n, w);
      DivModStep(k - 1, n);
    } else {
      DivModUnique(0, n, 0, 0);
    }
  }

  /** After any number of turns, no worker is more than one ahead of another. */
  lemma Balanced(k: nat, n: nat, v: nat, w: nat)
    requires v < n && w < n
    ensures -1 <= Turns(k, n, v) - Turns(k, n, w) <= 1
  {
    TurnsExact(k, n, v);
    TurnsExact(k, n, w);
  }

  class ThreadPool {
    var currIndex: int
    const threadCnt: int
    const pool: seq<ThreadQueue<QueueMsg>>
    /** How many times a thread has been picked. */
    ghost var picked: nat

    ghost predicate Valid()
      reads this
    {
      && 0 < threadCnt <= 30 && |pool| == threadCnt
      && (forall i, j :: 0 <= i < j < threadCnt ==> pool[i] != pool[j])
      && currIndex == if picked == 0 then 0 else (picked - 1) % threadCnt + 1
    }

    ghost predicate QueuesValid()
      reads this, pool
    {
      forall i :: 0 <= i < |pool| ==> pool[i].Valid()
    }

    /** A thread count outside 1..30 ends the process. */
    constructor (threadCnt: int)
      requires 0 < threadCnt <= 30
      ensures Valid() && QueuesValid() && picked == 0 && this.threadCnt == threadCnt
      ensures forall i :: 0 <= i < threadCnt ==> fresh(pool[i]) && pool[i].queue == []
    {
      var queues: seq<ThreadQueue<QueueMsg>> := [];
      for i := 0 to threadCnt
        invariant |queues| == i
        invariant forall j :: 0 <= j < i ==> fresh(queues[j]) && queues[j].Valid() && queues[j].queue == []
        invariant forall j, k :: 0 <= j < k < i ==> queues[j] != queues[k]
      {
        var q := new ThreadQueue<QueueMsg>();
        queues := queues + [q];
      }
      this.threadCnt := threadCnt;
      pool := queues;
      currIndex, picked := 0, 0;
    }

    /** The `k`-th call, from 0, picks worker `k` modulo the number of workers. */
    method GetNextThread() returns (index: int)
      requires Valid()
      modifies this
      ensures Valid() && picked == old(picked) + 1
      ensures index == old(picked) % threadCnt
    {
      if picked > 0 {
        DivModStep(picked - 1, threadCnt);
      }
      if currIndex == threadCnt {
        currIndex := 0;
      }
      index := currIndex;
      currIndex := currIndex + 1;
      picked := picked + 1;
    }
  }

  // ---------- accepting ----------

  /** What `accept` returns: a descriptor, an interruption, or nothing more (EAGAIN). With workers, `count` is what the
      shared counter says by the time this descriptor is looked at. */
  datatype AcceptResult = Accepted(fd: int, count: int) | Interrupted | NoMore

  /** The messages worker `w` gets when `fds` are dealt out from turn `start` on. */
  function Dealt(fds: seq<int>, start: nat, n: nat, w: nat): seq<QueueMsg>
    requires n > 0
  {
    if fds == [] then []
    else Dealt(fds[..|fds| - 1], start, n, w)
         + if (start + |fds| - 1) % n == w then [NewConn(fds[|fds| - 1])] else []
  }

  lemma {:induction false} DealtCount(fds: seq<int>, start: nat, n: nat, w: nat)
    requires n > 0
    ensures Turns(start, n, w) + |Dealt(fds, start, n, w)| == Turns(start + |fds|, n, w)
    decreases |fds|
  {
    if fds != [] {
      DealtCount(fds[..|fds| - 1], start, n, w);
    }
  }

  /** Of any number of descriptors dealt out from the first turn on, no worker gets two more than another. */
  lemma DealtBalanced(fds: seq<int>, n: nat, v: nat, w: nat)
    requires v < n && w < n
    ensures -1 <= |Dealt(fds, 0, n, v)| - |Dealt(fds, 0, n, w)| <= 1
  {
    DealtCount(fds, 0, n, v);
    DealtCount(fds, 0, n, w);
    Balanced(|fds|, n, v, w);
  }

  lemma DealtMore(fds: seq<int>, fd: int, start: nat, n: nat, w: nat)
    requires n > 0
    ensures Dealt(fds + [fd], start, n, w) == Dealt(fds, start, n, w) + if (start + |fds|) % n == w then [NewConn(fd)] else []
  {
    assert (fds + [fd])[..|fds|] == fds;
  }

  lemma {:induction false} TurnsGrow(k: nat, m: nat, n: nat, w: nat)
    requires n > 0 && k <= m
    ensures Turns(k, n, w) <= Turns(m, n, w)
    ensures k < m && k % n == w ==> Turns(k, n, w) < Turns(m, n, w)
    decreases m
  {
    if k < m {
      TurnsGrow(k, m - 1, n, w);
    }
  }

  /** Turn `start + k` goes to worker `w`, as the `j`-th from `start` on to do so. */
  predicate LandsAt(start: nat, k: nat, n: nat, w: nat, j: nat)
    requires n > 0
  {
    (start + k) % n == w && Turns(start + k, n, w) == Turns(start, n, w) + j
  }

  lemma LandsOnce(start: nat, k: nat, m: nat, n: nat, w: nat, j: nat)
    requires n > 0 && LandsAt(start, k, n, w, j) && LandsAt(start, m, n, w, j)
    ensures k == m
  {
    hide Turns;
    if k < m {
      TurnsGrow(start + k, start + m, n, w);
    } else if m < k {
      TurnsGrow(start + m, start + k, n, w);
    }
  }

  /** The `k`-th descriptor handed off goes to worker `(start + k) % n`, behind those that went there before it. */
  lemma {:induction false} DealtAt(fds: seq<int>, start: nat, n: nat, w: nat, k: nat) returns (j: nat)
    requires n > 0 && k < |fds| && (start + k) % n == w
    ensures LandsAt(start, k, n, w, j)
    ensures j < |Dealt(fds, start, n, w)| && Dealt(fds, start, n, w)[j] == NewConn(fds[k])
    decreases |fds|
  {
    var front := fds[..|fds| - 1];
    DealtCount(front, start, n, w);
    if k < |front| {
      j := DealtAt(front, start, n, w, k);
    } else {
      j := |Dealt(front, start, n, w)|;
    }
  }

  /** And to no other, and once: every message dealt to a worker is that of one hand-off and of no other. */
  lemma DealtFrom(fds: seq<int>, start: nat, n: nat, w: nat, j: nat) returns (k: nat)
    requires n > 0 && j < |Dealt(fds, start, n, w)|
    ensures k < |fds| && LandsAt(start, k, n, w, j) && Dealt(fds, start, n, w)[j] == NewConn(fds[k])
    ensures forall m: nat :: m < |fds| && LandsAt(start, m, n, w, j) ==> m == k
  {
    hide LandsAt, Dealt;
    k := DealtFromSome(fds, start, n, w, j);
    forall m: nat | m < |fds| && LandsAt(start, m, n, w, j) ensures m == k {
      LandsOnce(start, k, m, n, w, j);
    }
  }

  lemma {:induction false} DealtFromSome(fds: seq<int>, start: nat, n: nat, w: nat, j: nat) returns (k: nat)
    requires n > 0 && j < |Dealt(fds, start, n, w)|
    ensures k < |fds| && LandsAt(start, k, n, w, j) && Dealt(fds, start, n, w)[j] == NewConn(fds[k])
    decreases |fds|
  {
    var last := |fds| - 1;
    var front := fds[..last];
    DealtCount(front, start, n, w);
    if j < |Dealt(front, start, n, w)| {
      k := DealtFromSome(front, start, n, w, j);
    } else {
      k := last;
    }
  }

  /** The descriptors accepted before the kernel has no more. */
  function Arrivals(results: seq<AcceptResult>): seq<int> {
    if results == [] || results[0].NoMore? then []
    else (if results[0].Accepted? then [results[0].fd] else []) + Arrivals(results[1..])
  }

  /** And what the counter says for each. */
  function Counts(results: seq<AcceptResult>): seq<int> {
    if results == [] || results[0].NoMore? then []
    else (if results[0].Accepted? then [results[0].count] else []) + Counts(results[1..])
  }

  /** Every descriptor that the kernel gives before there are no more, in order; an interrupted call is repeated. */
  lemma {:induction false} ArrivalsAre(before: seq<AcceptResult>, r: AcceptResult, rest: seq<AcceptResult>)
    requires forall x :: x in before ==> !x.NoMore?
    ensures r.Accepted? ==> Arrivals(before + [r]) == Arrivals(before) + [r.fd] && Counts(before + [r]) == Counts(before) + [r.count]
    ensures r.Interrupted? ==> Arrivals(before + [r]) == Arrivals(before) && Counts(before + [r]) == Counts(before)
    ensures r.NoMore? ==> Arrivals(before + [r] + rest) == Arrivals(before) && Counts(before + [r] + rest) == Counts(before)
    decreases |before|
  {
    if before == [] {
      assert [r][1..] == [] && ([r] + rest)[0] == r;
      assert before + [r] == [r];
    } else {
      ArrivalsAre(before[1..], r, rest);
      assert (before + [r])[1..] == before[1..] + [r];
      assert (before + [r] + rest)[1..] == before[1..] + [r] + rest;
    }
  }

  /** The kernel gives each new connection a descriptor that is not in use. While there is `room` the server keeps it;
      after that it is closed at once, and may be given out again. */
  ghost predicate NewFds(fds: seq<int>, live: set<int>, room: int)
    decreases |fds|
  {
    fds != [] ==>
      && fds[0] !in live
      && NewFds(fds[1..], if room > 0 then live + {fds[0]} else live, room - 1)
  }

  /** The arrivals whose count is below the limit, or those whose count is not, in their order. */
  function Below(fds: seq<int>, counts: seq<int>, limit: int, below: bool): seq<int>
    requires |fds| == |counts|
    decreases |fds|
  {
    if fds == [] then []
    else
      var n := |fds| - 1;
      Below(fds[..n], counts[..n], limit, below) + if (counts[n] < limit) == below then [fds[n]] else []
  }

  lemma BelowMore(fds: seq<int>, counts: seq<int>, fd: int, count: int, limit: int, below: bool)
    requires |fds| == |counts|
    ensures Below(fds + [fd], counts + [count], limit, below) ==
              if (count < limit) == below then Below(fds, counts, limit, below) + [fd] else Below(fds, counts, limit, below)
  {
    assert (fds + [fd])[..|fds|] == fds && (counts + [count])[..|fds|] == counts;
  }

  /** Every arrival is on exactly one side. */
  lemma {:induction false} BelowSplits(fds: seq<int>, counts: seq<int>, limit: int)
    requires |fds| == |counts|
    ensures |Below(fds, counts, limit, true)| + |Below(fds, counts, limit, false)| == |fds|
    decreases |fds|
  {
    if fds != [] {
      BelowSplits(fds[..|fds| - 1], counts[..|fds| - 1], limit);
    }
  }

  /** While the counter stays below the limit none is refused, and none is kept while it is not. */
  lemma {:induction false} BelowAll(fds: seq<int>, counts: seq<int>, limit: int, below: bool)
    requires |fds| == |counts| && forall i :: 0 <= i < |fds| ==> (counts[i] < limit) == below
    ensures Below(fds, counts, limit, below) == fds && Below(fds, counts, limit, !below) == []
    decreases |fds|
  {
    if fds != [] {
      var n := |fds| - 1;
      BelowAll(fds[..n], counts[..n], limit, below);
      assert fds == fds[..n] + [fds[n]];
    }
  }

  function Room(n: nat, left: int): nat {
    if n <= left then n else if left < 0 then 0 else left
  }

  /** What the server recorded before a round of accepting. */
  datatype Before = Before(live: set<int>, conns: int, refused: seq<int>, handed: seq<int>, picked: nat,
                           queues: seq<seq<QueueMsg>>)

  class TcpServer {
    const maxConns: int
    const connsSize: int
    /** The worker threads, or none: then connections run in the acceptor's own loop. */
    const thdPool: ThreadPool?
    /** Connection slots by descriptor: whether the object in the slot is initialised. */
    var conns: map<int, bool>
    var currConns: int
    /** Descriptors closed at once because the server is full. */
    var refused: seq<int>
    /** Descriptors handed to workers, in order. */
    ghost var handed: seq<int>

    ghost function LiveSlots(): set<int>
      reads this
    {
      set fd | fd in conns && conns[fd]
    }

    ghost function Queues(): seq<seq<QueueMsg>>
      reads thdPool, if thdPool == null then [] else thdPool.pool
    {
      if thdPool == null then [] else seq(|thdPool.pool|, i requires 0 <= i < |thdPool.pool| reads thdPool.pool => thdPool.pool[i].queue)
    }

    /** Since `was`, the descriptors handed off have been dealt to the queues in turn, and nothing else was sent. */
    ghost predicate DealtOut(was: seq<int>, picked: nat, queues: seq<seq<QueueMsg>>)
      reads this, thdPool, if thdPool == null then [] else thdPool.pool
    {
      && thdPool != null && thdPool.threadCnt > 0 && |queues| == |thdPool.pool|
      && was <= handed && thdPool.picked == picked + |handed| - |was|
      && forall w :: 0 <= w < |thdPool.pool| ==>
           thdPool.pool[w].queue == queues[w] + Dealt(handed[|was|..], picked, thdPool.threadCnt, w)
    }

    /** In single-thread mode the counter is exact and within the limit. */
    ghost predicate Valid()
      reads this, thdPool, if thdPool == null then [] else thdPool.pool
    {
      && maxConns >= 0
      && (thdPool == null ==> currConns == |LiveSlots()| && currConns <= maxConns)
      && (thdPool != null ==> thdPool.Valid() && thdPool.QueuesValid())
    }

    constructor (maxConns: nat, nextFd: nat, thdPool: ThreadPool?)
      requires thdPool != null ==> thdPool.Valid() && thdPool.QueuesValid()
      ensures Valid() && this.thdPool == thdPool && this.maxConns == maxConns && connsSize == maxConns + nextFd
      ensures conns == map[] && refused == [] && handed == []
    {
      this.maxConns := maxConns;
      connsSize := maxConns + nextFd;
      this.thdPool := thdPool;
      conns, currConns, refused, handed := map[], 0, [], [];
      new;
      assert LiveSlots() == {};
    }

    /** Under the mutex. With workers the value is what they have made of it meanwhile. */
    method GetConnNum(shared: int) returns (n: int)
      ensures n == if thdPool == null then currConns else shared
    {
      n := if thdPool == null then currConns else shared;
    }

    /** A slot that is free or was never used is initialised; the counter goes up with it. */
    method InitSlot(fd: int)
      requires Valid() && thdPool == null && currConns < maxConns
      requires fd !in LiveSlots()
      modifies this
      ensures Valid() && LiveSlots() == old(LiveSlots()) + {fd} && currConns == old(currConns) + 1
      ensures refused == old(refused) && handed == old(handed)
    {
      conns := conns[fd := true];
      currConns := currConns + 1;
      assert LiveSlots() == old(LiveSlots()) + {fd};
    }

    /** `clean_conn` in single-thread mode: the object stays in its slot for reuse. */
    method CleanSlot(fd: int)
      requires Valid() && thdPool == null && fd in LiveSlots()
      modifies this
      ensures Valid() && LiveSlots() == old(LiveSlots()) - {fd} && fd in conns && currConns == old(currConns) - 1
      ensures refused == old(refused) && handed == old(handed)
    {
      currConns := currConns - 1;
      conns := conns[fd := false];
      assert LiveSlots() == old(LiveSlots()) - {fd};
    }

    /** Hand one descriptor to the next worker. */
    method HandOff(fd: int)
      requires Valid() && thdPool != null
      modifies this`handed, thdPool, thdPool.pool
      ensures Valid() && Passed(fd, old(handed), old(thdPool.picked), old(Queues()))
    {
      var index := thdPool.GetNextThread();
      var cq := thdPool.pool[index];
      cq.SendMsg(NewConn(fd));
      handed := handed + [fd];
    }

    /** The accept branch for one descriptor. Not `ok` where the assertion on the size of the slot table fails. */
    method AcceptOne(fd: int, shared: int) returns (ok: bool)
      requires Valid() && (thdPool == null ==> fd !in LiveSlots())
      modifies this, thdPool, if thdPool == null then [] else thdPool.pool
      ensures Valid()
      ensures !ok <==> fd >= connsSize && (if thdPool == null then old(currConns) else shared) < maxConns
      ensures !ok ==> unchanged(this) && (thdPool != null ==> unchanged(thdPool) && unchanged(thdPool.pool))
      ensures ok && thdPool == null ==>
                handed == old(handed)
                && if old(currConns) < maxConns then Grew(fd, old(LiveSlots()), old(currConns)) && refused == old(refused)
                   else LiveSlots() == old(LiveSlots()) && currConns == old(currConns) && refused == old(refused) + [fd]
      ensures ok && thdPool != null ==>
                LiveSlots() == old(LiveSlots())
                && if shared < maxConns then
                     Passed(fd, old(handed), old(thdPool.picked), old(Queues())) && refused == old(refused)
                   else refused == old(refused) + [fd] && handed == old(handed)
                        && thdPool.picked == old(thdPool.picked) && Queues() == old(Queues())
    {
      var curr := GetConnNum(shared);
      if curr >= maxConns {
        refused := refused + [fd];
      } else {
        if fd >= connsSize {
          return false;
        }
        if thdPool != null {
          HandOff(fd);
        } else {
          InitSlot(fd);
        }
      }
      ok := true;
    }

    ghost predicate Grew(fd: int, live: set<int>, conns: int)
      reads this
    {
      LiveSlots() == live + {fd} && currConns == conns + 1
    }

    /** One more descriptor has gone to the worker whose turn it was. */
    ghost predicate Passed(fd: int, was: seq<int>, picked: nat, queues: seq<seq<QueueMsg>>)
      reads this, thdPool, if thdPool == null then [] else thdPool.pool
    {
      && thdPool != null && thdPool.threadCnt > 0 && |queues| == |thdPool.pool|
      && handed == was + [fd] && thdPool.picked == picked + 1
      && forall w :: 0 <= w < |thdPool.pool| ==>
           thdPool.pool[w].queue == queues[w] + if picked % thdPool.threadCnt == w then [NewConn(fd)] else []
    }

    /** Single-thread mode, after `seen` arrivals: initialised up to the limit, refused beyond it. */
    ghost predicate Admitted(seen: seq<int>, live: set<int>, conns: int, was: seq<int>)
      reads this
    {
      var m := Room(|seen|, maxConns - conns);
      && LiveSlots() == live + (set fd | fd in seen[..m])
      && currConns == conns + m && refused == was + seen[m..]
    }

    /** With workers, after `seen` arrivals with their counts: those at the limit were refused, the others dealt out in
        turn, both in order of arrival. */
    ghost predicate Distributed(seen: seq<int>, counts: seq<int>, was: seq<int>, picked: nat, queues: seq<seq<QueueMsg>>,
                                wasRefused: seq<int>)
      reads this, thdPool, if thdPool == null then [] else thdPool.pool
      requires |seen| == |counts|
    {
      && DealtOut(was, picked, queues)
      && handed == was + Below(seen, counts, maxConns, true) && refused == wasRefused + Below(seen, counts, maxConns, false)
    }

    /** One more arrival in single-thread mode. */
    lemma AdmittedMore(seen: seq<int>, fd: int, live: set<int>, conns: int, was: seq<int>,
                       live': set<int>, conns': int, refused': seq<int>)
      requires conns <= maxConns
      requires var m := Room(|seen|, maxConns - conns);
               && live' == live + (set x | x in seen[..m]) && conns' == conns + m && refused' == was + seen[m..]
      requires if conns' < maxConns then Grew(fd, live', conns') && refused == refused'
               else LiveSlots() == live' && currConns == conns' && refused == refused' + [fd]
      ensures Admitted(seen + [fd], live, conns, was)
    {
      var m := Room(|seen|, maxConns - conns);
      var all := seen + [fd];
      if conns' < maxConns {
        assert seen[..m] == seen && all[..m + 1] == all;
      } else {
        assert all[..m] == seen[..m] && all[m..] == seen[m..] + [fd];
      }
    }

    /** One more arrival with workers. */
    lemma DistributedMore(seen: seq<int>, counts: seq<int>, fd: int, count: int, was: seq<int>, picked: nat,
                          queues: seq<seq<QueueMsg>>, wasRefused: seq<int>,
                          handed': seq<int>, picked': nat, queues': seq<seq<QueueMsg>>, refused': seq<int>)
      requires thdPool != null && thdPool.threadCnt > 0 && |queues| == |queues'| == |thdPool.pool| && |seen| == |counts|
      requires picked' == picked + |handed'| - |was|
      requires handed' == was + Below(seen, counts, maxConns, true)
      requires refused' == wasRefused + Below(seen, counts, maxConns, false)
      requires forall w :: 0 <= w < |queues| ==> queues'[w] == queues[w] + Dealt(handed'[|was|..], picked, thdPool.threadCnt, w)
      requires if count < maxConns then Passed(fd, handed', picked', queues') && refused == refused'
               else refused == refused' + [fd] && handed == handed' && thdPool.picked == picked' && Queues() == queues'
      ensures Distributed(seen + [fd], counts + [count], was, picked, queues, wasRefused)
    {
      hide Below, Dealt, Turns;
      BelowMore(seen, counts, fd, count, maxConns, true);
      BelowMore(seen, counts, fd, count, maxConns, false);
      if count < maxConns {
        var h := handed'[|was|..];
        assert handed[|was|..] == h + [fd];
        forall w | 0 <= w < |queues|
          ensures thdPool.pool[w].queue == queues[w] + Dealt(handed[|was|..], picked, thdPool.threadCnt, w)
        {
          DealtMore(h, fd, picked, thdPool.threadCnt, w);
        }
      } else {
        forall w | 0 <= w < |queues|
          ensures thdPool.pool[w].queue == queues[w] + Dealt(handed[|was|..], picked, thdPool.threadCnt, w)
        {
          assert Queues()[w] == queues'[w];
        }
      }
    }

    /** What has become of the arrivals `seen` since the state recorded in `b`. */
    ghost predicate Handled(seen: seq<int>, counts: seq<int>, b: Before)
      reads this, thdPool, if thdPool == null then [] else thdPool.pool
      requires |seen| == |counts|
    {
      if thdPool == null then Admitted(seen, b.live, b.conns, b.refused) && b.conns <= maxConns
      else Distributed(seen, counts, b.handed, b.picked, b.queues, b.refused)
    }

    /** The `i`-th arrival finds room, but its descriptor is beyond the slot table: the assertion fails. */
    predicate TooLarge(fds: seq<int>, counts: seq<int>, i: nat, conns: int)
      requires i < |fds| == |counts|
    {
      fds[i] >= connsSize && if thdPool == null then i < maxConns - conns else counts[i] < maxConns
    }

    ghost function Now(): Before
      reads this, thdPool, if thdPool == null then [] else thdPool.pool
    {
      Before(LiveSlots(), currConns, refused, handed, if thdPool == null then 0 else thdPool.picked, Queues())
    }

    method AcceptSeen(fd: int, count: int, ghost seen: seq<int>, ghost counts: seq<int>, ghost b: Before) returns (ok: bool)
      requires Valid() && (thdPool == null ==> fd !in LiveSlots()) && |seen| == |counts| && Handled(seen, counts, b)
      modifies this, thdPool, if thdPool == null then [] else thdPool.pool
      ensures Valid()
      ensures !ok <==> fd >= connsSize && if thdPool == null then |seen| < maxConns - b.conns else count < maxConns
      ensures !ok ==> Handled(seen, counts, b)
      ensures ok ==> Handled(seen + [fd], counts + [count], b)
      ensures ok && thdPool == null ==>
                if old(currConns) < maxConns then Grew(fd, old(LiveSlots()), old(currConns))
                else LiveSlots() == old(LiveSlots()) && currConns == old(currConns)
    {
      hide Valid, Below;
      ghost var n := Now();
      ok := AcceptOne(fd, count);
      if ok {
        if thdPool == null {
          AdmittedMore(seen, fd, b.live, b.conns, b.refused, n.live, n.conns, n.refused);
        } else {
          DistributedMore(seen, counts, fd, count, b.handed, b.picked, b.queues, b.refused,
                          n.handed, n.picked, n.queues, n.refused);
        }
      }
    }

    lemma NothingYet()
      requires Valid()
      ensures Handled([], [], Now())
    {
      if thdPool == null {
        assert (set fd: int | fd in []) == {};
      } else {
        assert forall w :: 0 <= w < |thdPool.pool| ==> Queues()[w] == thdPool.pool[w].queue;
      }
    }

    /** The loop of `do_accept` over what the kernel returns, up to an assertion that fails: on the first arrival that
        finds room and is beyond the slot table, with all before it handled. */
    method DoAccept(results: seq<AcceptResult>) returns (ok: bool, ghost n: nat)
      requires Valid() && (thdPool == null ==> NewFds(Arrivals(results), LiveSlots(), maxConns - currConns))
      modifies this, thdPool, if thdPool == null then [] else thdPool.pool
      ensures Valid()
      ensures n <= |Arrivals(results)| == |Counts(results)|
      ensures Handled(Arrivals(results)[..n], Counts(results)[..n], old(Now()))
      ensures forall i :: 0 <= i < n ==> !TooLarge(Arrivals(results), Counts(results), i, old(currConns))
      ensures if ok then n == |Arrivals(results)|
              else n < |Arrivals(results)| && TooLarge(Arrivals(results), Counts(results), n, old(currConns))
    {
      hide NewFds, Handled, Valid, Arrivals, Counts, Now;
      ghost var b := Now();
      assert b.conns == currConns by { NowIs(); }
      NothingYet();
      var i := 0;
      ghost var fds, counts := Arrivals(results), Counts(results);
      SameLength(results);
      n := 0;
      assert fds[..0] == [] && counts[..0] == [];
      assert results[0..] == results;
      while i < |results|
        invariant 0 <= i <= |results| && Valid() && n <= |fds|
        invariant Arrivals(results[i..]) == fds[n..] && Counts(results[i..]) == counts[n..]
        invariant thdPool == null ==> NewFds(fds[n..], LiveSlots(), maxConns - currConns)
        invariant Handled(fds[..n], counts[..n], b)
        invariant forall k :: 0 <= k < n ==> !TooLarge(fds, counts, k, b.conns)
      {
        ArrivalsStep(results, i);
        match results[i] {
          case Interrupted =>
          case NoMore =>
            assert n == |fds|;
            break;
          case Accepted(fd, count) =>
            NextArrival(results, i, fds, counts, n);
            if thdPool == null {
              NewFdsStep(fd, fds[n + 1..], LiveSlots(), maxConns - currConns);
            }
            ok := AcceptSeen(fd, count, fds[..n], counts[..n], b);
            if !ok {
              return;
            }
            n := n + 1;
        }
        i := i + 1;
      }
      ArrivalsStep(results, i);
      ok := true;
    }

    lemma NowIs()
      ensures Now().conns == currConns
    {
    }
  }

  lemma NextArrival(results: seq<AcceptResult>, i: nat, fds: seq<int>, counts: seq<int>, n: nat)
    requires i < |results| && results[i].Accepted? && n <= |fds| == |counts|
    requires Arrivals(results[i..]) == fds[n..] && Counts(results[i..]) == counts[n..]
    ensures n < |fds| && fds[n] == results[i].fd && counts[n] == results[i].count
    ensures Arrivals(results[i + 1..]) == fds[n + 1..] && Counts(results[i + 1..]) == counts[n + 1..]
    ensures fds[n..] == [fds[n]] + fds[n + 1..]
    ensures fds[..n + 1] == fds[..n] + [fds[n]] && counts[..n + 1] == counts[..n] + [counts[n]]
  {
    hide Arrivals, Counts;
    ArrivalsStep(results, i);
    assert fds[n..][0] == results[i].fd && fds[n..][1..] == fds[n + 1..] == Arrivals(results[i + 1..]);
    assert counts[n..][0] == results[i].count && counts[n..][1..] == counts[n + 1..] == Counts(results[i + 1..]);
  }

  lemma {:induction false} SameLength(results: seq<AcceptResult>)
    ensures |Arrivals(results)| == |Counts(results)|
  {
    if results != [] {
      SameLength(results[1..]);
    }
  }

  lemma ArrivalsStep(results: seq<AcceptResult>, i: nat)
    requires i <= |results|
    ensures Arrivals(results[i..]) ==
              if i == |results| || results[i].NoMore? then []
              else if results[i].Accepted? then [results[i].fd] + Arrivals(results[i + 1..])
              else Arrivals(results[i + 1..])
    ensures Counts(results[i..]) ==
              if i == |results| || results[i].NoMore? then []
              else if results[i].Accepted? then [results[i].count] + Counts(results[i + 1..])
              else Counts(results[i + 1..])
  {
    var rest := results[i..];
    if i < |results| {
      assert rest[0] == results[i] && rest[1..] == results[i + 1..];
      assert [] + Arrivals(rest[1..]) == Arrivals(rest[1..]) && [] + Counts(rest[1..]) == Counts(rest[1..]);
    }
  }

  lemma NewFdsStep(fd: int, rest: seq<int>, live: set<int>, room: int)
    requires NewFds([fd] + rest, live, room)
    ensures fd !in live
    ensures room > 0 ==> NewFds(rest, live + {fd}, room - 1)
    ensures room <= 0 ==> NewFds(rest, live, room)
  {
    assert ([fd] + rest)[1..] == rest;
    if room <= 0 {
      NoRoomIsNoRoom(rest, live, room - 1, room);
    }
  }

  lemma {:induction false} NoRoomIsNoRoom(fds: seq<int>, live: set<int>, a: int, b: int)
    requires a <= 0 && b <= 0 && NewFds(fds, live, a)
    ensures NewFds(fds, live, b)
    decreases |fds|
  {
    if fds != [] {
      NoRoomIsNoRoom(fds[1..], live, a - 1, b - 1);
    }
  }
}
