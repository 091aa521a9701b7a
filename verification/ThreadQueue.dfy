/** `thread_queue`: a queue shared by senders and one receiving event loop, with an eventfd as the doorbell.
    First the class, whose methods run under the mutex; then every interleaving of their single steps. */
module ThreadQueues {

  /** The largest value an eventfd counter can hold. */
  const EVENTFD_MAX: nat := 0xFFFF_FFFF_FFFF_FFFE

  /** Writing 1 to the eventfd: at the maximum the nonblocking write fails and is only reported. */
  function Bump(counter: nat): nat {
    if counter < EVENTFD_MAX then counter + 1 else counter
  }

  /** The counter that goes with `n` queued messages. */
  function Doorbell(n: nat): nat {
    if n < EVENTFD_MAX then n else EVENTFD_MAX
  }

  /** The eventfd is readable exactly when something is queued, whether or not a write has failed. */
  lemma RingsIff(n: nat)
    ensures Doorbell(n) > 0 <==> n > 0
    ensures Bump(Doorbell(n)) == Doorbell(n + 1)
    ensures n < EVENTFD_MAX ==> Doorbell(n) == n
  {
  }

  class ThreadQueue<T> {
    var queue: seq<T>
    var evfd: nat

    /** The mutex is free: the counter goes with the queue. */
    ghost predicate Valid()
      reads this
    {
      evfd == Doorbell(|queue|)
    }

    constructor ()
      ensures Valid() && queue == []
    {
      queue, evfd := [], 0;
    }

    method SendMsg(item: T)
      requires Valid()
      modifies this
      ensures Valid() && queue == old(queue) + [item]
      ensures evfd == if old(evfd) < 0xFFFF_FFFF_FFFF_FFFE then old(evfd) + 1 else old(evfd)
    {
      queue := queue + [item];
      if evfd < EVENTFD_MAX {
        evfd := evfd + 1;
      }
    }

    /** `std::swap` with the caller's queue: only an empty one leaves the doorbell right. */
    method RecvMsg(tmpQueue: seq<T>) returns (received: seq<T>)
      requires Valid()
      modifies this
      ensures received == old(queue) && queue == tmpQueue && evfd == 0
      ensures Valid() <==> tmpQueue == []
    {
      evfd := 0;
      received, queue := queue, tmpQueue;
    }
  }

  // ---------- interleavings ----------

  datatype SendStage = Entered | Pushed | Notified

  datatype RecvStage = Inside | Reset | Swapped

  /** Who holds the mutex, and how far it has got. */
  datatype Lock<T> = Free | Sender(item: T, sstage: SendStage) | Receiver(rstage: RecvStage)

  /** The receiving loop: waiting in epoll, on its way into `recv_msg`, or working off what it received. */
  datatype Loop = Waiting | Woken | Handling

  /** `sent` lists messages in the order they were pushed, `received` in the order they were handled; `tmp` is
      the receiver's own queue. */
  datatype State<T> = State(queue: seq<T>, counter: nat, lock: Lock<T>, loop: Loop, registered: bool,
                            tmp: seq<T>, sent: seq<T>, received: seq<T>)

  function Init<T>(): State<T> {
    State([], 0, Free, Waiting, false, [], [], [])
  }

  datatype Event<T> =
    | SLock(item: T) | SPush | SNotify | SUnlock
    | Register | Wake | RLock | RRead | RSwap | RUnlock | RHandle | RDone

  /** Any thread may enter the mutex when it is free. The loop wakes up when its descriptor is registered and
      readable, and handles everything it received before it waits again. */
  predicate Enabled<T>(s: State<T>, e: Event<T>) {
    match e
    case SLock(_) => s.lock.Free?
    case SPush => s.lock.Sender? && s.lock.sstage == Entered
    case SNotify => s.lock.Sender? && s.lock.sstage == Pushed
    case SUnlock => s.lock.Sender? && s.lock.sstage == Notified
    case Register => true
    case Wake => s.loop == Waiting && s.registered && s.counter > 0
    case RLock => s.loop == Woken && s.lock.Free?
    case RRead => s.lock.Receiver? && s.lock.rstage == Inside
    case RSwap => s.lock.Receiver? && s.lock.rstage == Reset
    case RUnlock => s.lock.Receiver? && s.lock.rstage == Swapped
    case RHandle => s.loop == Handling && s.tmp != []
    case RDone => s.loop == Handling && s.tmp == []
  }

  function Next<T>(s: State<T>, e: Event<T>): State<T>
    requires Enabled(s, e)
  {
    match e
    case SLock(item) => s.(lock := Sender(item, Entered))
    case SPush => s.(queue := s.queue + [s.lock.item], sent := s.sent + [s.lock.item], lock := s.lock.(sstage := Pushed))
    case SNotify => s.(counter := Bump(s.counter), lock := s.lock.(sstage := Notified))
    case SUnlock => s.(lock := Free)
    case Register => s.(registered := true)
    case Wake => s.(loop := Woken)
    case RLock => s.(lock := Receiver(Inside))
    case RRead => s.(counter := 0, lock := Receiver(Reset))
    case RSwap => s.(queue := s.tmp, tmp := s.queue, lock := Receiver(Swapped))
    case RUnlock => s.(lock := Free, loop := Handling)
    case RHandle => s.(tmp := s.tmp[1..], received := s.received + [s.tmp[0]])
    case RDone => s.(loop := Waiting)
  }

  ghost predicate Inv<T>(s: State<T>) {
    && s.sent == s.received + s.tmp + s.queue
    && (s.tmp != [] ==> s.loop == Handling || s.lock == Receiver(Swapped))
    && (s.lock.Receiver? ==> s.loop == Woken)
    && (match s.lock
        case Sender(_, Pushed) => s.queue != [] && s.counter == Doorbell(|s.queue| - 1)
        case Receiver(Reset) => s.counter == 0
        case Receiver(Swapped) => s.counter == 0 && s.queue == []
        case _ => s.counter == Doorbell(|s.queue|))
    && (s.loop == Woken && !(s.lock.Receiver? && s.lock.rstage != Inside) ==> s.counter > 0)
  }

  lemma InvNext<T>(s: State<T>, e: Event<T>)
    requires Inv(s) && Enabled(s, e)
    ensures Inv(Next(s, e))
  {
    var s' := Next(s, e);
    match e
    case SPush => assert s.received + s.tmp + (s.queue + [s.lock.item]) == (s.received + s.tmp + s.queue) + [s.lock.item];
    case RSwap => assert s.received + s.queue + [] == s.received + [] + s.queue;
    case RHandle => assert s.received + s.tmp == (s.received + [s.tmp[0]]) + s.tmp[1..];
    case _ =>
  }

  ghost predicate Reachable<T(!new)>(s: State<T>, n: nat)
    decreases n
  {
    if n == 0 then s == Init()
    else exists p: State<T>, e: Event<T> :: Reachable(p, n - 1) && Enabled(p, e) && Next(p, e) == s
  }

  lemma {:induction false} ReachableInv<T(!new)>(s: State<T>, n: nat)
    requires Reachable(s, n)
    ensures Inv(s)
    decreases n
  {
    if n > 0 {
      var p: State<T>, e: Event<T> :| Reachable(p, n - 1) && Enabled(p, e) && Next(p, e) == s;
      ReachableInv(p, n - 1);
      InvNext(p, e);
    }
  }

  /** In every reachable state, whatever the interleaving: messages are handled in the order they were pushed,
      each once; with the mutex free the counter goes with the queue length; the loop never reads an empty
      eventfd; and a queued message keeps the doorbell ringing, even if it was sent before the descriptor was
      registered. */
  lemma NoLostWakeup<T(!new)>(s: State<T>, n: nat)
    requires Reachable(s, n)
    ensures s.received <= s.sent
    ensures s.lock.Free? ==> s.counter == Doorbell(|s.queue|)
    ensures Enabled(s, RRead) ==> s.counter > 0
    ensures s.lock.Free? && s.queue != [] && s.registered && s.loop == Waiting ==> Enabled(s, Wake)
    ensures s.lock.Free? && s.queue == [] && s.loop == Waiting ==> s.received == s.sent
  {
    ReachableInv(s, n);
    hide Reachable;
    InvMeans(s);
  }

  lemma InvMeans<T>(s: State<T>)
    requires Inv(s)
    ensures s.received <= s.sent
    ensures s.lock.Free? ==> s.counter == Doorbell(|s.queue|)
    ensures Enabled(s, RRead) ==> s.counter > 0
    ensures s.lock.Free? && s.queue != [] && s.registered && s.loop == Waiting ==> Enabled(s, Wake)
    ensures s.lock.Free? && s.queue == [] && s.loop == Waiting ==> s.received == s.sent
  {
    RingsIff(|s.queue|);
    assert s.received + s.tmp + s.queue == s.received + (s.tmp + s.queue);
  }

  // ---------- delivery ----------

  function Run<T>(s: State<T>, es: seq<Event<T>>): (r: State<T>)
    requires Runs(s, es)
    decreases |es|
  {
    if es == [] then s else Run(Next(s, es[0]), es[1..])
  }

  predicate Runs<T>(s: State<T>, es: seq<Event<T>>)
    decreases |es|
  {
    es == [] || (Enabled(s, es[0]) && Runs(Next(s, es[0]), es[1..]))
  }

  lemma {:induction false} RunJoin<T>(s: State<T>, a: seq<Event<T>>, b: seq<Event<T>>)
    requires Runs(s, a) && Runs(Run(s, a), b)
    ensures Runs(s, a + b) && Run(s, a + b) == Run(Run(s, a), b)
    decreases |a|
  {
    if a == [] {
      assert a + b == b;
    } else {
      assert (a + b)[1..] == a[1..] + b;
      RunJoin(Next(s, a[0]), a[1..], b);
    }
  }

  /** The receiver working off its own queue. */
  lemma {:induction false} HandleAll<T>(s: State<T>) returns (es: seq<Event<T>>)
    requires s.loop == Handling
    ensures Runs(s, es) && Run(s, es) == s.(tmp := [], received := s.received + s.tmp, loop := Waiting)
    decreases |s.tmp|
  {
    if s.tmp == [] {
      es := [RDone];
      var none: seq<Event<T>> := [];
      assert es[1..] == none && Runs(Next(s, RDone), none);
      assert s.received + s.tmp == s.received;
    } else {
      var s1 := Next(s, RHandle);
      var rest := HandleAll(s1);
      es := [RHandle] + rest;
      assert es[1..] == rest;
      assert s.received + s.tmp == (s.received + [s.tmp[0]]) + s.tmp[1..];
    }
  }

  /** One pass of the receiver, from waking up to waiting again. */
  lemma OnePass<T>(s: State<T>) returns (es: seq<Event<T>>)
    requires Inv(s) && s.lock.Free? && s.loop == Waiting && s.registered && s.queue != []
    ensures Runs(s, es)
    ensures Run(s, es) == s.(queue := [], counter := 0, received := s.received + s.queue)
  {
    RingsIff(|s.queue|);
    var s1 := Next(s, Wake);
    InvNext(s, Wake);
    var wake: seq<Event<T>> := [Wake];
    OneStep(s, Wake);
    var into: seq<Event<T>> := [RLock, RRead, RSwap, RUnlock];
    StepIn(s1);
    RunJoin(s, wake, into);
    var rest := HandleAll(Run(s1, into));
    RunJoin(s, wake + into, rest);
    es := wake + into + rest;
  }

  lemma OneStep<T>(s: State<T>, e: Event<T>)
    requires Enabled(s, e)
    ensures Runs(s, [e]) && Run(s, [e]) == Next(s, e)
  {
    var none: seq<Event<T>> := [];
    assert [e][1..] == none && Runs(Next(s, e), none);
  }

  lemma {:induction false} RunInv<T>(s: State<T>, es: seq<Event<T>>)
    requires Inv(s) && Runs(s, es)
    ensures Inv(Run(s, es))
    decreases |es|
  {
    hide Inv, Next, Enabled;
    if es != [] {
      InvNext(s, es[0]);
      RunInv(Next(s, es[0]), es[1..]);
    }
  }

  /** The receiver finishing what it is at. */
  lemma BackToWaiting<T>(s: State<T>) returns (es: seq<Event<T>>)
    requires Inv(s) && s.lock.Free?
    ensures Runs(s, es)
    ensures var r := Run(s, es); r.lock.Free? && r.loop == Waiting && r.registered == s.registered && r.sent == s.sent
  {
    hide Inv, Run, Runs, Next, Enabled;
    match s.loop
    case Waiting =>
      es := [];
      RunNone(s);
    case Handling =>
      es := HandleAll(s);
    case Woken =>
      var into: seq<Event<T>> := [RLock, RRead, RSwap, RUnlock];
      StepIn(s);
      var rest := HandleAll(Run(s, into));
      RunJoin(s, into, rest);
      es := into + rest;
  }

  /** From every reachable state in which the mutex is free and the descriptor registered, the receiver can by
      itself handle everything that has been sent. */
  lemma EverythingArrives<T(!new)>(s: State<T>, n: nat) returns (es: seq<Event<T>>)
    requires Reachable(s, n) && s.lock.Free? && s.registered
    ensures Runs(s, es) && Run(s, es).received == s.sent && Run(s, es).sent == s.sent
  {
    ReachableInv(s, n);
    hide Reachable, Inv, Run, Runs, Next, Enabled;
    es := BackToWaiting(s);
    var s0 := Run(s, es);
    RunInv(s, es);
    InvMeans(s0);
    if s0.queue != [] {
      var pass := OnePass(s0);
      RunJoin(s, es, pass);
      es := es + pass;
      AllOut(s0);
    }
  }

  lemma AllOut<T>(s: State<T>)
    requires Inv(s) && s.lock.Free? && s.loop == Waiting
    ensures s.received + s.queue == s.sent
  {
    assert s.received + [] + s.queue == s.received + s.queue;
  }

  lemma RunNone<T>(s: State<T>)
    ensures Runs(s, []) && Run(s, []) == s
  {
  }

  /** `send_msg` without a rival is the four steps of a sender: the message is queued and the doorbell rung. */
  lemma SendSteps<T>(s: State<T>, item: T)
    requires Inv(s) && s.lock.Free?
    ensures var es := [SLock(item), SPush, SNotify, SUnlock];
            && Runs(s, es)
            && Run(s, es) == s.(queue := s.queue + [item], sent := s.sent + [item], counter := Doorbell(|s.queue| + 1))
  {
    RingsIff(|s.queue|);
    var s1 := Next(s, SLock(item));
    var s2 := Next(s1, SPush);
    var s3 := Next(s2, SNotify);
    var es := [SLock(item), SPush, SNotify, SUnlock];
    var e2 := [SPush, SNotify, SUnlock];
    var e3 := [SNotify, SUnlock];
    OneStep(s3, SUnlock);
    assert e3[1..] == [SUnlock];
    assert e2[1..] == e3;
    assert es[1..] == e2;
  }

  lemma StepIn<T>(s: State<T>)
    requires Inv(s) && s.lock.Free? && s.loop == Woken
    ensures var es: seq<Event<T>> := [RLock, RRead, RSwap, RUnlock];
            && Runs(s, es)
            && Run(s, es) == s.(queue := [], counter := 0, tmp := s.queue, loop := Handling)
  {
    var s2 := Next(s, RLock);
    var s3 := Next(s2, RRead);
    var s4 := Next(s3, RSwap);
    var e4: seq<Event<T>> := [RUnlock];
    var none: seq<Event<T>> := [];
    assert e4[1..] == none && Runs(Next(s4, RUnlock), none);
    var e3: seq<Event<T>> := [RSwap, RUnlock];
    assert e3[1..] == e4;
    var e2: seq<Event<T>> := [RRead, RSwap, RUnlock];
    assert e2[1..] == e3;
    var e1: seq<Event<T>> := [RLock, RRead, RSwap, RUnlock];
    assert e1[1..] == e2;
  }
}
