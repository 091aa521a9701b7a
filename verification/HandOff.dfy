/** Acceptor and workers, interleaved: where each accepted descriptor is, who may touch the connection object in
    its slot, and how many connections are counted. */
module HandOffs {
  import opened Options
  import TcpServers

  /** Where a worker thread stands between two atomic steps. `Registered` is inside `init`, after `add_ioev` and
      before `inc_conn`; the other three are inside `clean_conn`, after `dec_conn`, after `del_ioev` and after the
      buffers have been returned; `Adjusting` is the rest of `handle_read` after a malformed frame, once
      `clean_conn` has closed the descriptor. */
  datatype Pc = Idle | Registered(fd: int) | Uncounted(fd: int, bad: bool) | Unlinked(fd: int, bad: bool)
              | Emptied(fd: int, bad: bool) | Adjusting(fd: int)

  /** The connection object of a slot: the worker whose loop it is registered with, and the bytes it buffers. */
  datatype Slot = Slot(loop: Option<nat>, bytes: nat)

  /** `queues` are the shared queues, `local` what each worker has drained, `interest` the connections registered
      with each loop, `open` the accepted descriptors the kernel has open. */
  datatype State = State(queues: seq<seq<int>>, local: seq<seq<int>>, interest: seq<set<int>>, pc: seq<Pc>,
                         slots: map<int, Slot>, open: set<int>, next: nat, currConns: int)

  datatype Event =
    | Accept(fd: int)
    | Drain(w: nat) | InitConn(w: nat) | IncConn(w: nat)
    | Traffic(w: nat, fd: int, bytes: nat)
    | DecConn(w: nat, fd: int, bad: bool) | Unlink(w: nat) | Empty(w: nat) | Close(w: nat) | Adjust(w: nat)

  function Init(n: nat): State {
    State(seq(n, _ => []), seq(n, _ => []), seq(n, _ => {}), seq(n, _ => Idle), map[], {}, 0, 0)
  }

  ghost predicate Shaped(s: State) {
    |s.queues| == |s.local| == |s.interest| == |s.pc| && |s.pc| > 0 && s.next < |s.pc|
  }

  /** A worker handles one callback at a time, and all drained messages within one callback. */
  predicate Free(s: State, w: nat) {
    w < |s.pc| && w < |s.local| && s.pc[w].Idle?
  }

  ghost predicate Enabled(s: State, e: Event) {
    && Shaped(s)
    && match e
       case Accept(fd) => fd !in s.open
       case Drain(w) => Free(s, w) && s.local[w] == []
       case InitConn(w) => Free(s, w) && s.local[w] != []
       case IncConn(w) => w < |s.pc| && s.pc[w].Registered?
       case Traffic(w, fd, _) => Free(s, w) && s.local[w] == [] && fd in s.interest[w] && fd in s.slots
       case DecConn(w, fd, _) => Free(s, w) && s.local[w] == [] && fd in s.interest[w]
       case Unlink(w) => w < |s.pc| && s.pc[w].Uncounted? && s.pc[w].fd in s.slots
       case Empty(w) => w < |s.pc| && s.pc[w].Unlinked? && s.pc[w].fd in s.slots
       case Close(w) => w < |s.pc| && s.pc[w].Emptied?
       case Adjust(w) => w < |s.pc| && s.pc[w].Adjusting?
  }

  ghost function Step(s: State, e: Event): State
    requires Enabled(s, e)
  {
    match e
    case Accept(fd) =>
      s.(queues := s.queues[s.next := s.queues[s.next] + [fd]], open := s.open + {fd},
         next := if s.next + 1 == |s.pc| then 0 else s.next + 1)
    case Drain(w) => s.(local := s.local[w := s.queues[w]], queues := s.queues[w := []])
    case InitConn(w) =>
      var fd := s.local[w][0];
      s.(local := s.local[w := s.local[w][1..]], interest := s.interest[w := s.interest[w] + {fd}],
         slots := s.slots[fd := Slot(Some(w), if fd in s.slots then s.slots[fd].bytes else 0)],
         pc := s.pc[w := Registered(fd)])
    case IncConn(w) => s.(currConns := s.currConns + 1, pc := s.pc[w := Idle])
    case Traffic(w, fd, bytes) => s.(slots := s.slots[fd := s.slots[fd].(bytes := bytes)])
    case DecConn(w, fd, bad) => s.(currConns := s.currConns - 1, pc := s.pc[w := Uncounted(fd, bad)])
    case Unlink(w) =>
      var fd := s.pc[w].fd;
      s.(interest := s.interest[w := s.interest[w] - {fd}], slots := s.slots[fd := s.slots[fd].(loop := None)],
         pc := s.pc[w := Unlinked(fd, s.pc[w].bad)])
    case Empty(w) =>
      var fd := s.pc[w].fd;
      s.(slots := s.slots[fd := s.slots[fd].(bytes := 0)], pc := s.pc[w := Emptied(fd, s.pc[w].bad)])
    case Close(w) =>
      var fd := s.pc[w].fd;
      s.(open := s.open - {fd}, pc := s.pc[w := if s.pc[w].bad then Adjusting(fd) else Idle])
    case Adjust(w) => s.(pc := s.pc[w := Idle])
  }

  // ---------- ownership ----------

  /** The one place of an open descriptor. */
  datatype Place = InQueue(w: nat) | InLocal(w: nat) | InLoop(w: nat) | InCleanup(w: nat)

  /** `fd` really is in that place. */
  predicate At(s: State, p: Place, fd: int) {
    match p
    case InQueue(w) => w < |s.queues| && fd in s.queues[w]
    case InLocal(w) => w < |s.local| && fd in s.local[w]
    case InLoop(w) => w < |s.interest| && fd in s.interest[w]
    case InCleanup(w) => w < |s.pc| && (s.pc[w].Unlinked? || s.pc[w].Emptied?) && s.pc[w].fd == fd
  }

  predicate NoDup(q: seq<int>) {
    forall i, j :: 0 <= i < j < |q| ==> q[i] != q[j]
  }

  /** Registered with a loop, counted, and not being cleaned. */
  predicate IsCounted(s: State, p: Place, fd: int) {
    p.InLoop? && p.w < |s.pc|
    && !(s.pc[p.w].Registered? && s.pc[p.w].fd == fd) && !(s.pc[p.w].Uncounted? && s.pc[p.w].fd == fd)
  }

  ghost function CountedFds(s: State, place: map<int, Place>): set<int> {
    set fd | fd in place && IsCounted(s, place[fd], fd)
  }

  /** `place` says where every open descriptor is. */
  ghost predicate Located(s: State, place: map<int, Place>) {
    && place.Keys == s.open
    && (forall p: Place, fd :: At(s, p, fd) ==> fd in place && place[fd] == p)
    && (forall fd :: fd in place ==> At(s, place[fd], fd))
    && (forall w :: 0 <= w < |s.queues| ==> NoDup(s.queues[w]))
    && (forall w :: 0 <= w < |s.local| ==> NoDup(s.local[w]))
  }

  /** What the slots and the program counters have to do with it. */
  ghost predicate Tidy(s: State, place: map<int, Place>)
    requires Shaped(s)
  {
    && (forall w :: 0 <= w < |s.pc| && (s.pc[w].Registered? || s.pc[w].Uncounted?) ==> At(s, InLoop(w), s.pc[w].fd))
    && (forall w :: 0 <= w < |s.pc| && s.pc[w].Adjusting? ==> !At(s, InLoop(w), s.pc[w].fd))
    && (forall w :: 0 <= w < |s.pc| && !s.pc[w].Idle? && !s.pc[w].Registered? ==> s.local[w] == [])
    && (forall fd :: fd in place && (place[fd].InLoop? || place[fd].InCleanup?) ==> fd in s.slots)
    && (forall fd :: fd in s.slots ==>
          s.slots[fd].loop == if fd in place && place[fd].InLoop? then Some(place[fd].w) else None)
    && (forall fd :: fd in s.slots && s.slots[fd].bytes > 0 ==>
          fd in place && (place[fd].InLoop? || (place[fd].InCleanup? && place[fd].w < |s.pc| && s.pc[place[fd].w].Unlinked?)))
  }

  ghost predicate Inv(s: State, place: map<int, Place>) {
    Shaped(s) && Located(s, place) && Tidy(s, place) && s.currConns == |CountedFds(s, place)|
  }

  /** The place of a descriptor after an event. */
  ghost function Moved(s: State, e: Event, place: map<int, Place>): map<int, Place>
    requires Enabled(s, e)
  {
    match e
    case Accept(fd) => place[fd := InQueue(s.next)]
    case Drain(w) => map fd | fd in place :: if place[fd] == InQueue(w) then InLocal(w) else place[fd]
    case InitConn(w) => place[s.local[w][0] := InLoop(w)]
    case Unlink(w) => place[s.pc[w].fd := InCleanup(w)]
    case Close(w) => place - {s.pc[w].fd}
    case _ => place
  }

  lemma HeadOut(q: seq<int>)
    requires q != [] && NoDup(q)
    ensures forall x :: x in q[1..] <==> x in q && x != q[0]
  {
    assert q == [q[0]] + q[1..];
    assert forall i :: 0 <= i < |q[1..]| ==> q[1..][i] == q[i + 1];
  }

  /** How an event moves descriptors between places. */
  lemma AtStep(s: State, e: Event, p: Place, x: int)
    requires Enabled(s, e) && (forall w :: 0 <= w < |s.local| ==> NoDup(s.local[w]))
    ensures At(Step(s, e), p, x) <==>
              match e
              case Accept(fd) => At(s, p, x) || (x == fd && p == InQueue(s.next))
              case Drain(w) => if p == InLocal(w) then At(s, InQueue(w), x) else p != InQueue(w) && At(s, p, x)
              case InitConn(w) =>
                var fd := s.local[w][0];
                if p == InLocal(w) then At(s, p, x) && x != fd else At(s, p, x) || (x == fd && p == InLoop(w))
              case Unlink(w) =>
                var fd := s.pc[w].fd;
                if p == InLoop(w) then At(s, p, x) && x != fd else At(s, p, x) || (x == fd && p == InCleanup(w))
              case Close(w) => p != InCleanup(w) && At(s, p, x)
              case _ => At(s, p, x)
  {
    hide NoDup;
    if e.InitConn? {
      HeadOut(s.local[e.w]);
    }
  }

  lemma NoDupStep(s: State, e: Event, place: map<int, Place>)
    requires Located(s, place) && Enabled(s, e)
    ensures forall w :: 0 <= w < |Step(s, e).queues| ==> NoDup(Step(s, e).queues[w])
    ensures forall w :: 0 <= w < |Step(s, e).local| ==> NoDup(Step(s, e).local[w])
  {
    if e.Accept? {
      var q := s.queues[s.next];
      forall i | 0 <= i < |q| ensures q[i] != e.fd {
        assert At(s, InQueue(s.next), q[i]);
      }
      assert NoDup(q + [e.fd]);
    }
  }

  lemma LocatedStep(s: State, e: Event, place: map<int, Place>)
    requires Located(s, place) && Shaped(s) && Enabled(s, e)
    requires e.Unlink? ==> At(s, InLoop(e.w), s.pc[e.w].fd)
    ensures Located(Step(s, e), Moved(s, e, place))
  {
    hide At, Step, NoDup;
    var s', place' := Step(s, e), Moved(s, e, place);
    HeadAt(s, e);
    forall p: Place, x | At(s', p, x) ensures x in place' && place'[x] == p {
      AtStep(s, e, p, x);
    }
    forall x | x in place' ensures At(s', place'[x], x) {
      AtStep(s, e, place'[x], x);
    }
    NoDupStep(s, e, place);
    KeysStep(s, e, place);
  }

  lemma HeadAt(s: State, e: Event)
    requires Enabled(s, e)
    ensures e.InitConn? ==> At(s, InLocal(e.w), s.local[e.w][0])
    ensures e.Close? ==> At(s, InCleanup(e.w), s.pc[e.w].fd)
    ensures e.Close? ==> forall x :: At(s, InCleanup(e.w), x) ==> x == s.pc[e.w].fd
    ensures e.Drain? ==> forall x :: !At(s, InLocal(e.w), x)
  {
  }

  lemma KeysStep(s: State, e: Event, place: map<int, Place>)
    requires Enabled(s, e) && place.Keys == s.open
    requires e.InitConn? ==> s.local[e.w][0] in place
    requires e.Unlink? ==> s.pc[e.w].fd in place
    ensures Moved(s, e, place).Keys == Step(s, e).open
  {
  }

  /** Where the descriptor of an event is. */
  lemma TidyPlaces(s: State, e: Event, place: map<int, Place>)
    requires Inv(s, place) && Enabled(s, e)
    ensures e.IncConn? || e.Unlink? ==> s.pc[e.w].fd in place && place[s.pc[e.w].fd] == InLoop(e.w)
    ensures e.DecConn? || e.Traffic? ==> e.fd in place && place[e.fd] == InLoop(e.w)
    ensures e.Empty? || e.Close? ==> s.pc[e.w].fd in place && place[s.pc[e.w].fd] == InCleanup(e.w)
    ensures e.InitConn? ==> s.local[e.w][0] in place && place[s.local[e.w][0]] == InLocal(e.w)
    ensures e.Accept? ==> e.fd !in place
  {
    hide CountedFds;
    HeadAt(s, e);
    assert e.Empty? ==> At(s, InCleanup(e.w), s.pc[e.w].fd);
    assert e.DecConn? || e.Traffic? ==> At(s, InLoop(e.w), e.fd);
    assert e.IncConn? || e.Unlink? ==> At(s, InLoop(e.w), s.pc[e.w].fd);
  }

  lemma TidyAccept(s: State, e: Event, place: map<int, Place>)
    requires Inv(s, place) && Enabled(s, e) && e.Accept?
    ensures Shaped(Step(s, e)) && Tidy(Step(s, e), Moved(s, e, place))
  {
    hide Located, CountedFds;
    TidyPlaces(s, e, place);
  }

  lemma TidyDrain(s: State, e: Event, place: map<int, Place>)
    requires Inv(s, place) && Enabled(s, e) && e.Drain?
    ensures Shaped(Step(s, e)) && Tidy(Step(s, e), Moved(s, e, place))
  {
    hide Located, CountedFds;
    TidyPlaces(s, e, place);
  }

  lemma TidyInitConn(s: State, e: Event, place: map<int, Place>)
    requires Inv(s, place) && Enabled(s, e) && e.InitConn?
    ensures Shaped(Step(s, e)) && Tidy(Step(s, e), Moved(s, e, place))
  {
    hide Located, CountedFds;
    TidyPlaces(s, e, place);
  }

  lemma TidyIncConn(s: State, e: Event, place: map<int, Place>)
    requires Inv(s, place) && Enabled(s, e) && e.IncConn?
    ensures Shaped(Step(s, e)) && Tidy(Step(s, e), Moved(s, e, place))
  {
    hide Located, CountedFds;
    TidyPlaces(s, e, place);
  }

  lemma TidyTraffic(s: State, e: Event, place: map<int, Place>)
    requires Inv(s, place) && Enabled(s, e) && e.Traffic?
    ensures Shaped(Step(s, e)) && Tidy(Step(s, e), Moved(s, e, place))
  {
    hide Located, CountedFds;
    TidyPlaces(s, e, place);
  }

  lemma TidyDecConn(s: State, e: Event, place: map<int, Place>)
    requires Inv(s, place) && Enabled(s, e) && e.DecConn?
    ensures Shaped(Step(s, e)) && Tidy(Step(s, e), Moved(s, e, place))
  {
    hide Located, CountedFds;
    TidyPlaces(s, e, place);
  }

  lemma TidyUnlink(s: State, e: Event, place: map<int, Place>)
    requires Inv(s, place) && Enabled(s, e) && e.Unlink?
    ensures Shaped(Step(s, e)) && Tidy(Step(s, e), Moved(s, e, place))
  {
    hide Located, CountedFds;
    TidyPlaces(s, e, place);
  }

  lemma CleanupFacts(s: State, e: Event, place: map<int, Place>)
    requires Inv(s, place) && Enabled(s, e) && (e.Empty? || e.Close?)
    ensures var fd := s.pc[e.w].fd;
            && fd in place && place[fd] == InCleanup(e.w) && !At(s, InLoop(e.w), fd)
            && (forall x :: x in place && place[x] == InCleanup(e.w) ==> x == fd)
    ensures Tidy(s, place)
  {
    hide Tidy, CountedFds, NoDup;
    assert At(s, InCleanup(e.w), s.pc[e.w].fd);
    assert forall x :: x in place && place[x] == InCleanup(e.w) ==> At(s, InCleanup(e.w), x);
  }

  lemma TidyEmpty(s: State, e: Event, place: map<int, Place>)
    requires Inv(s, place) && Enabled(s, e) && e.Empty?
    ensures Shaped(Step(s, e)) && Tidy(Step(s, e), Moved(s, e, place))
  {
    hide Inv;
    CleanupFacts(s, e, place);
  }

  lemma TidyClose(s: State, e: Event, place: map<int, Place>)
    requires Inv(s, place) && Enabled(s, e) && e.Close?
    ensures Shaped(Step(s, e)) && Tidy(Step(s, e), Moved(s, e, place))
  {
    hide Inv;
    CleanupFacts(s, e, place);
  }

  lemma TidyAdjust(s: State, e: Event, place: map<int, Place>)
    requires Inv(s, place) && Enabled(s, e) && e.Adjust?
    ensures Shaped(Step(s, e)) && Tidy(Step(s, e), Moved(s, e, place))
  {
    hide Located, CountedFds;
    TidyPlaces(s, e, place);
  }

  lemma TidyStep(s: State, e: Event, place: map<int, Place>)
    requires Inv(s, place) && Enabled(s, e)
    ensures Shaped(Step(s, e)) && Tidy(Step(s, e), Moved(s, e, place))
  {
    hide Inv, Enabled, Step, Moved, Tidy, Shaped;
    match e
    case Accept(_) => TidyAccept(s, e, place);
    case Drain(_) => TidyDrain(s, e, place);
    case InitConn(_) => TidyInitConn(s, e, place);
    case IncConn(_) => TidyIncConn(s, e, place);
    case Traffic(_, _, _) => TidyTraffic(s, e, place);
    case DecConn(_, _, _) => TidyDecConn(s, e, place);
    case Unlink(_) => TidyUnlink(s, e, place);
    case Empty(_) => TidyEmpty(s, e, place);
    case Close(_) => TidyClose(s, e, place);
    case Adjust(_) => TidyAdjust(s, e, place);
  }

  ghost predicate Counts(s: State, place: map<int, Place>, x: int) {
    x in place && IsCounted(s, place[x], x)
  }

  ghost predicate CountsAfter(s: State, e: Event, place: map<int, Place>, x: int)
    requires Enabled(s, e)
  {
    match e
    case IncConn(w) => Counts(s, place, x) || x == s.pc[w].fd
    case DecConn(w, fd, _) => Counts(s, place, x) && x != fd
    case _ => Counts(s, place, x)
  }

  lemma CountsStep(s: State, e: Event, place: map<int, Place>, x: int)
    requires Inv(s, place) && Enabled(s, e)
    ensures Counts(Step(s, e), Moved(s, e, place), x) <==> CountsAfter(s, e, place, x)
    ensures e.IncConn? ==> !Counts(s, place, s.pc[e.w].fd)
    ensures e.DecConn? ==> Counts(s, place, e.fd)
  {
    hide Tidy, Located, CountedFds, At;
    TidyPlaces(s, e, place);
  }

  /** Only `inc_conn` and `dec_conn` change what is counted. */
  lemma CountedStep(s: State, e: Event, place: map<int, Place>)
    requires Inv(s, place) && Enabled(s, e)
    ensures var was, now := CountedFds(s, place), CountedFds(Step(s, e), Moved(s, e, place));
            match e
            case IncConn(w) => s.pc[w].fd !in was && now == was + {s.pc[w].fd}
            case DecConn(w, fd, _) => fd in was && now == was - {fd}
            case _ => now == was
  {
    hide Inv, Enabled, Step, Moved, IsCounted;
    forall x
      ensures Counts(Step(s, e), Moved(s, e, place), x) <==> CountsAfter(s, e, place, x)
    {
      CountsStep(s, e, place, x);
    }
    CountsStep(s, e, place, 0);
    assert forall x :: x in CountedFds(s, place) <==> Counts(s, place, x);
    assert forall x :: x in CountedFds(Step(s, e), Moved(s, e, place)) <==> Counts(Step(s, e), Moved(s, e, place), x);
  }

  function Change(e: Event): int {
    if e.IncConn? then 1 else if e.DecConn? then -1 else 0
  }

  lemma CardinalityStep(s: State, e: Event, place: map<int, Place>)
    requires Inv(s, place) && Enabled(s, e)
    ensures |CountedFds(Step(s, e), Moved(s, e, place))| == |CountedFds(s, place)| + Change(e)
  {
    hide Inv, Enabled, Step, Moved, CountedFds;
    CountedStep(s, e, place);
  }

  lemma InvParts(s: State, e: Event, place: map<int, Place>)
    requires Inv(s, place) && Enabled(s, e)
    ensures Shaped(s) && Located(s, place) && s.currConns == |CountedFds(s, place)|
    ensures e.Unlink? ==> At(s, InLoop(e.w), s.pc[e.w].fd)
    ensures Step(s, e).currConns == s.currConns + Change(e)
  {
    hide Located, CountedFds;
  }

  lemma InvWhole(s: State, place: map<int, Place>)
    requires Shaped(s) && Located(s, place) && Tidy(s, place) && s.currConns == |CountedFds(s, place)|
    ensures Inv(s, place)
  {
    hide Shaped, Located, Tidy, CountedFds;
  }

  lemma InvStep(s: State, e: Event, place: map<int, Place>)
    requires Inv(s, place) && Enabled(s, e)
    ensures Inv(Step(s, e), Moved(s, e, place))
  {
    hide Inv, Enabled, Moved, Tidy, Shaped, Located, CountedFds, Step, At;
    InvParts(s, e, place);
    TidyStep(s, e, place);
    CardinalityStep(s, e, place);
    LocatedStep(s, e, place);
    InvWhole(Step(s, e), Moved(s, e, place));
  }

  // ---------- runs ----------

  ghost predicate Runs(s: State, es: seq<Event>)
    decreases |es|
  {
    es == [] || (Enabled(s, es[0]) && Runs(Step(s, es[0]), es[1..]))
  }

  ghost function Run(s: State, es: seq<Event>): State
    requires Runs(s, es)
    decreases |es|
  {
    if es == [] then s else Run(Step(s, es[0]), es[1..])
  }

  lemma InvInit(n: nat)
    requires n > 0
    ensures Inv(Init(n), map[])
  {
    assert CountedFds(Init(n), map[]) == {};
  }

  lemma {:induction false} InvRun(s: State, es: seq<Event>, place: map<int, Place>) returns (place': map<int, Place>)
    requires Inv(s, place) && Runs(s, es)
    ensures Inv(Run(s, es), place')
    decreases |es|
  {
    hide Inv, Enabled, Step;
    if es == [] {
      place' := place;
    } else {
      InvStep(s, es[0], place);
      place' := InvRun(Step(s, es[0]), es[1..], Moved(s, es[0], place));
    }
  }

  /** Every open accepted descriptor is in exactly one place (one worker's queue, what one worker has drained, one
      loop, or one cleanup between deregistration and close), a closed one in none, and none is queued twice. */
  lemma ExactlyOnePlace(n: nat, es: seq<Event>)
    requires n > 0 && Runs(Init(n), es)
    ensures var s := Run(Init(n), es);
            && (forall fd :: fd in s.open <==> exists p: Place :: At(s, p, fd))
            && (forall fd, p: Place, q: Place :: At(s, p, fd) && At(s, q, fd) ==> p == q)
            && (forall w :: 0 <= w < |s.queues| ==> NoDup(s.queues[w]))
  {
    InvInit(n);
    var place := InvRun(Init(n), es, map[]);
    var s := Run(Init(n), es);
    hide Run, Runs, Init, At, NoDup, Tidy, Shaped;
    forall fd | fd in s.open ensures exists p: Place :: At(s, p, fd) {
      assert At(s, place[fd], fd);
    }
  }

  /** A connection object taken into use, new or reused, holds no bytes and is registered nowhere. */
  lemma StartsEmpty(n: nat, es: seq<Event>, w: nat)
    requires n > 0 && Runs(Init(n), es) && Enabled(Run(Init(n), es), InitConn(w))
    ensures var s := Run(Init(n), es);
            var fd := s.local[w][0];
            fd in s.slots ==> s.slots[fd] == Slot(None, 0)
  {
    InvInit(n);
    var place := InvRun(Init(n), es, map[]);
    var s := Run(Init(n), es);
    hide Run, Runs, Init;
    TidyPlaces(s, InitConn(w), place);
  }

  /** Initialised: registered with a loop through its slot, past `inc_conn` and not yet at `dec_conn`. */
  ghost function Initialised(s: State): set<int> {
    set fd | fd in s.slots && s.slots[fd].loop.Some? && s.slots[fd].loop.value < |s.pc|
             && (var p := s.pc[s.slots[fd].loop.value];
                 !(p.Registered? && p.fd == fd) && !(p.Uncounted? && p.fd == fd))
  }

  /** Between steps `_curr_conns` is the number of initialised, uncleaned connections. */
  lemma CountExact(n: nat, es: seq<Event>)
    requires n > 0 && Runs(Init(n), es)
    ensures var s := Run(Init(n), es); s.currConns == |Initialised(s)|
  {
    InvInit(n);
    var place := InvRun(Init(n), es, map[]);
    var s := Run(Init(n), es);
    hide Run, Runs, Init;
    InitialisedIsCounted(s, place);
  }

  lemma InitialisedIsCounted(s: State, place: map<int, Place>)
    requires Inv(s, place)
    ensures Initialised(s) == CountedFds(s, place)
  {
    forall x ensures x in Initialised(s) <==> x in CountedFds(s, place) {
      if x in CountedFds(s, place) {
        assert At(s, place[x], x);
      }
    }
  }

  // ---------- the order of service ----------

  /** Of the descriptors accepted from turn `t` on, those whose turn is worker `w`'s among `n`, in order. */
  ghost function Given(n: nat, t: nat, es: seq<Event>, w: nat): seq<int>
    requires n > 0
    decreases |es|
  {
    if es == [] then []
    else if !es[0].Accept? then Given(n, t, es[1..], w)
    else if t % n == w then [es[0].fd] + Given(n, t + 1, es[1..], w)
    else Given(n, t + 1, es[1..], w)
  }

  /** The descriptors that worker `w` begins to serve, in order. */
  ghost function Begun(s: State, es: seq<Event>, w: nat): seq<int>
    requires Runs(s, es)
    decreases |es|
  {
    if es == [] then []
    else if es[0] == InitConn(w) then [s.local[w][0]] + Begun(Step(s, es[0]), es[1..], w)
    else Begun(Step(s, es[0]), es[1..], w)
  }

  /** What worker `w` still has before it. */
  function Waiting(s: State, w: nat): seq<int>
    requires w < |s.local| && w < |s.queues|
  {
    s.local[w] + s.queues[w]
  }

  lemma ShapedStep(s: State, e: Event)
    requires Enabled(s, e)
    ensures Shaped(Step(s, e)) && |Step(s, e).pc| == |s.pc|
    ensures Step(s, e).next == if !e.Accept? then s.next else if s.next == |s.pc| - 1 then 0 else s.next + 1
  {
  }

  lemma WaitingStep(s: State, e: Event, w: nat)
    requires Enabled(s, e) && w < |s.pc|
    ensures Shaped(Step(s, e)) && |Step(s, e).pc| == |s.pc|
    ensures Waiting(Step(s, e), w) ==
              if e.Accept? && s.next == w then Waiting(s, w) + [e.fd]
              else if e == InitConn(w) then Waiting(s, w)[1..]
              else Waiting(s, w)
    ensures e == InitConn(w) ==> Waiting(s, w) != [] && Waiting(s, w)[0] == s.local[w][0]
  {
    ShapedStep(s, e);
  }

  lemma {:induction false} ServedFrom(s: State, t: nat, es: seq<Event>, w: nat)
    requires Shaped(s) && Runs(s, es) && w < |s.pc| && s.next == t % |s.pc|
    ensures Shaped(Run(s, es)) && |Run(s, es).pc| == |s.pc|
    ensures Begun(s, es, w) + Waiting(Run(s, es), w) == Waiting(s, w) + Given(|s.pc|, t, es, w)
    decreases |es|
  {
    hide Step, Enabled, Waiting;
    if es != [] {
      var e, s' := es[0], Step(s, es[0]);
      var t' := if e.Accept? then t + 1 else t;
      ShapedStep(s, e);
      WaitingStep(s, e, w);
      TcpServers.DivModStep(t, |s.pc|);
      ServedFrom(s', t', es[1..], w);
      var b, g, r := Begun(s', es[1..], w), Given(|s.pc|, t', es[1..], w), Waiting(Run(s, es), w);
      if e == InitConn(w) {
        assert ([Waiting(s, w)[0]] + b) + r == [Waiting(s, w)[0]] + (b + r);
        assert [Waiting(s, w)[0]] + (Waiting(s, w)[1..] + g) == Waiting(s, w) + g;
      } else if e.Accept? && s.next == w {
        assert (Waiting(s, w) + [e.fd]) + g == Waiting(s, w) + ([e.fd] + g);
      }
    }
  }

  /** However acceptor and workers interleave: each worker begins with the descriptors whose turn was its own, in the
      order in which they were accepted, and those it has not begun with are waiting for it in that order. */
  lemma ServedInTurn(n: nat, es: seq<Event>, w: nat)
    requires w < n && Runs(Init(n), es)
    ensures Shaped(Run(Init(n), es)) && |Run(Init(n), es).pc| == n
    ensures Begun(Init(n), es, w) + Waiting(Run(Init(n), es), w) == Given(n, 0, es, w)
  {
    hide Run, Runs, Begun, Given;
    ServedFrom(Init(n), 0, es, w);
    assert Waiting(Init(n), w) == [];
  }

  // ---------- sharing of connection objects ----------

  /** The slot whose object an event reads or writes. */
  ghost function Touched(s: State, e: Event): Option<int>
    requires Enabled(s, e)
  {
    match e
    case InitConn(w) => Some(s.local[w][0])
    case Traffic(_, fd, _) => Some(fd)
    case DecConn(_, fd, _) => Some(fd)
    case Unlink(w) => Some(s.pc[w].fd)
    case Empty(w) => Some(s.pc[w].fd)
    case Adjust(w) => Some(s.pc[w].fd)
    case _ => None
  }

  /** The worker that performs an event on a connection object. */
  function Actor(e: Event): nat {
    match e
    case InitConn(w) => w
    case Traffic(w, _, _) => w
    case DecConn(w, _, _) => w
    case Unlink(w) => w
    case Empty(w) => w
    case Adjust(w) => w
    case Accept(_) => 0
    case Drain(w) => w
    case IncConn(w) => w
    case Close(w) => w
  }

  /** The object an event works on belongs to the worker performing it. */
  lemma TouchedIsOwn(s: State, e: Event, place: map<int, Place>)
    requires Inv(s, place) && Enabled(s, e) && Touched(s, e).Some? && !e.Adjust?
    ensures Touched(s, e).value in place
    ensures place[Touched(s, e).value] in {InLocal(Actor(e)), InLoop(Actor(e)), InCleanup(Actor(e))}
  {
    TidyPlaces(s, e, place);
    assert e.Traffic? ==> At(s, InLoop(e.w), e.fd);
    assert e.Empty? ==> At(s, InCleanup(e.w), s.pc[e.w].fd);
  }

  /** No malformed frame has closed a connection. */
  predicate NoBadFrames(es: seq<Event>) {
    forall i :: 0 <= i < |es| ==> es[i].DecConn? ==> !es[i].bad
  }

  ghost predicate NoneBad(s: State) {
    forall w :: 0 <= w < |s.pc| ==>
      !s.pc[w].Adjusting? && (s.pc[w].Uncounted? || s.pc[w].Unlinked? || s.pc[w].Emptied? ==> !s.pc[w].bad)
  }

  lemma {:induction false} NoneBadRun(s: State, es: seq<Event>)
    requires NoneBad(s) && Runs(s, es) && NoBadFrames(es)
    ensures NoneBad(Run(s, es))
    decreases |es|
  {
    if es != [] {
      NoneBadStep(s, es[0]);
      assert forall i :: 0 <= i < |es[1..]| ==> es[1..][i] == es[i + 1];
      NoneBadRun(Step(s, es[0]), es[1..]);
    }
  }

  lemma NoneBadStep(s: State, e: Event)
    requires NoneBad(s) && Enabled(s, e) && (e.DecConn? ==> !e.bad)
    ensures NoneBad(Step(s, e))
  {
  }

  /** As long as connections close on end of file or errors only, no two workers can be at the same connection
      object, however descriptors are reused. */
  lemma NoSharedObject(n: nat, es: seq<Event>, e: Event, f: Event)
    requires n > 0 && Runs(Init(n), es) && NoBadFrames(es)
    requires Enabled(Run(Init(n), es), e) && Enabled(Run(Init(n), es), f)
    requires Touched(Run(Init(n), es), e).Some? && Touched(Run(Init(n), es), e) == Touched(Run(Init(n), es), f)
    ensures Actor(e) == Actor(f)
  {
    InvInit(n);
    var place := InvRun(Init(n), es, map[]);
    NoneBadRun(Init(n), es);
    var s := Run(Init(n), es);
    hide Run, Runs, Init, Inv, Touched;
    NoAdjust(s, e);
    NoAdjust(s, f);
    TouchedIsOwn(s, e, place);
    TouchedIsOwn(s, f, place);
  }

  lemma NoAdjust(s: State, e: Event)
    requires NoneBad(s) && Enabled(s, e)
    ensures !e.Adjust?
  {
  }

  /** Worker `v` is about to run the `adjust` left over from a malformed frame on the object in slot `fd`. */
  predicate Adjusts(s: State, v: nat, fd: int) {
    v < |s.pc| && s.pc[v].Adjusting? && s.pc[v].fd == fd
  }

  /** Worker `v` has taken the descriptor off its queue and not yet closed it. */
  predicate Has(s: State, v: nat, fd: int) {
    At(s, InLocal(v), fd) || At(s, InLoop(v), fd) || At(s, InCleanup(v), fd)
  }

  /** The object in slot `fd` is among those `v` works with. */
  predicate Works(s: State, v: nat, fd: int) {
    Has(s, v, fd) || Adjusts(s, v, fd)
  }

  /** Whatever object an event touches is among those its worker works with. */
  lemma TouchedIsWorked(s: State, e: Event, place: map<int, Place>)
    requires Inv(s, place) && Enabled(s, e) && Touched(s, e).Some?
    ensures Works(s, Actor(e), Touched(s, e).value)
    ensures !e.Adjust? ==> Has(s, Actor(e), Touched(s, e).value)
  {
    hide Inv;
    if !e.Adjust? {
      TouchedIsOwn(s, e, place);
      PlaceIsAt(s, place, Touched(s, e).value);
    }
  }

  lemma PlaceIsAt(s: State, place: map<int, Place>, fd: int)
    requires Inv(s, place) && fd in place
    ensures At(s, place[fd], fd)
  {
    hide At, Tidy, CountedFds;
  }

  /** The object an `adjust` is left over for is another worker's too exactly when the kernel has given the descriptor
      out again and a worker has taken it off its queue, or another worker has an `adjust` left over for it. */
  lemma AdjustSharesIff(n: nat, es: seq<Event>, w: nat)
    requires n > 0 && Runs(Init(n), es) && Enabled(Run(Init(n), es), Adjust(w))
    ensures var s := Run(Init(n), es);
            var fd := s.pc[w].fd;
            (exists v :: v != w && Works(s, v, fd))
            <==> (fd in s.open && !(exists v :: At(s, InQueue(v), fd))) || (exists v :: v != w && Adjusts(s, v, fd))
  {
    InvInit(n);
    var place := InvRun(Init(n), es, map[]);
    var s := Run(Init(n), es);
    hide Run, Runs, Init, Inv, At, Adjusts;
    AdjustFacts(s, w, place);
    SharesIff(s, w, s.pc[w].fd, place);
    assert forall v :: Works(s, v, s.pc[w].fd) <==> Has(s, v, s.pc[w].fd) || Adjusts(s, v, s.pc[w].fd);
  }

  /** A descriptor that is with no worker `w` is with another, in a queue, or nowhere. */
  lemma SharesIff(s: State, w: nat, fd: int, place: map<int, Place>)
    requires fd in s.open <==> fd in place
    requires forall p: Place :: At(s, p, fd) ==> fd in place && p == place[fd]
    requires fd in s.open ==> At(s, place[fd], fd)
    requires !Has(s, w, fd)
    ensures (exists v :: v != w && Has(s, v, fd)) <==> fd in s.open && !(exists v :: At(s, InQueue(v), fd))
  {
    hide At;
    if fd in s.open {
      match place[fd]
      case InQueue(v) => assert At(s, InQueue(v), fd);
      case InLocal(v) => assert Has(s, v, fd);
      case InLoop(v) => assert Has(s, v, fd);
      case InCleanup(v) => assert Has(s, v, fd);
    }
  }

  /** In any run, malformed frames included: where two workers are at one connection object, one of them is at its
      late `adjust`; and either both are, or the descriptor is open again and off the queues. */
  lemma SharedByAdjust(n: nat, es: seq<Event>, e: Event, f: Event)
    requires n > 0 && Runs(Init(n), es)
    requires Enabled(Run(Init(n), es), e) && Enabled(Run(Init(n), es), f)
    requires Touched(Run(Init(n), es), e).Some? && Touched(Run(Init(n), es), e) == Touched(Run(Init(n), es), f)
    requires Actor(e) != Actor(f)
    ensures var s := Run(Init(n), es);
            var fd := Touched(s, e).value;
            && (e.Adjust? || f.Adjust?)
            && ((e.Adjust? && f.Adjust?) || (fd in s.open && !(exists v :: At(s, InQueue(v), fd))))
  {
    InvInit(n);
    var place := InvRun(Init(n), es, map[]);
    var s := Run(Init(n), es);
    hide Run, Runs, Init, Inv, Touched, At, Enabled;
    TouchedIsWorked(s, e, place);
    TouchedIsWorked(s, f, place);
    OnePlace(s, place, Touched(s, e).value);
  }

  lemma OnePlace(s: State, place: map<int, Place>, fd: int)
    requires Inv(s, place)
    ensures fd in s.open <==> fd in place
    ensures forall p: Place :: At(s, p, fd) ==> fd in place && p == place[fd]
  {
    hide At, Tidy, CountedFds;
  }

  /** Worker `v` stands before a step on the object in slot `fd`. */
  predicate About(s: State, v: nat, fd: int) {
    v < |s.pc| && v < |s.local| && v < |s.interest|
    && match s.pc[v]
       case Idle => if s.local[v] != [] then s.local[v][0] == fd else fd in s.interest[v]
       case Registered(_) => false
       case Emptied(_, _) => false
       case Uncounted(x, _) => x == fd
       case Unlinked(x, _) => x == fd
       case Adjusting(x) => x == fd
  }

  /** Exactly then it has an event on that object. */
  lemma TouchesIff(s: State, v: nat, fd: int, place: map<int, Place>)
    requires Inv(s, place)
    ensures (exists f :: Enabled(s, f) && Touched(s, f) == Some(fd) && Actor(f) == v) <==> About(s, v, fd)
  {
    hide Located, CountedFds;
    if About(s, v, fd) {
      if !s.pc[v].Adjusting? && (s.pc[v].Idle? ==> s.local[v] == []) {
        InSlots(s, v, fd, place);
      }
      var f := match s.pc[v]
        case Idle => if s.local[v] != [] then InitConn(v) else Traffic(v, fd, 0)
        case Uncounted(_, _) => Unlink(v)
        case Unlinked(_, _) => Empty(v)
        case _ => Adjust(v);
      assert Enabled(s, f) && Touched(s, f) == Some(fd) && Actor(f) == v;
    }
  }

  lemma InSlots(s: State, v: nat, fd: int, place: map<int, Place>)
    requires Inv(s, place) && About(s, v, fd) && !s.pc[v].Adjusting? && (s.pc[v].Idle? ==> s.local[v] == [])
    ensures fd in s.slots
  {
    hide CountedFds, NoDup;
    assert s.pc[v].Unlinked? ==> At(s, InCleanup(v), fd);
    assert !s.pc[v].Unlinked? ==> At(s, InLoop(v), fd);
  }

  /** The race itself, exactly: with an `adjust` left over for slot `fd`, another worker has an event on that object
      if and only if some other worker stands before a step on it. */
  lemma AdjustRacesIff(n: nat, es: seq<Event>, w: nat)
    requires n > 0 && Runs(Init(n), es) && Enabled(Run(Init(n), es), Adjust(w))
    ensures var s := Run(Init(n), es);
            var fd := s.pc[w].fd;
            && ((exists f :: Enabled(s, f) && Touched(s, f) == Some(fd) && Actor(f) != w)
                <==> exists v :: v != w && About(s, v, fd))
            && (forall v :: About(s, v, fd) ==> Works(s, v, fd))
  {
    InvInit(n);
    var place := InvRun(Init(n), es, map[]);
    var s := Run(Init(n), es);
    hide Run, Runs, Init, Inv, Touched, At, About, Works;
    var fd := s.pc[w].fd;
    forall v ensures (exists f :: Enabled(s, f) && Touched(s, f) == Some(fd) && Actor(f) == v) <==> About(s, v, fd) {
      TouchesIff(s, v, fd, place);
    }
    forall v | About(s, v, fd) ensures Works(s, v, fd) {
      var f :| Enabled(s, f) && Touched(s, f) == Some(fd) && Actor(f) == v;
      TouchedIsWorked(s, f, place);
    }
    if f :| Enabled(s, f) && Touched(s, f) == Some(fd) && Actor(f) != w {
      assert About(s, Actor(f), fd);
    }
  }

  lemma AdjustFacts(s: State, w: nat, place: map<int, Place>)
    requires Inv(s, place) && Enabled(s, Adjust(w))
    ensures !Has(s, w, s.pc[w].fd)
    ensures forall fd :: fd in s.open <==> fd in place
    ensures forall fd :: fd in place ==> At(s, place[fd], fd)
    ensures forall fd, p: Place :: At(s, p, fd) ==> fd in place && p == place[fd]
  {
  }

  /** Worker 0 closes descriptor 5 on a malformed frame, the kernel gives 5 out again, worker 1 takes it: both are
      about to work on the object in slot 5. */
  lemma BadFrameRace()
    ensures var es := [Accept(5), Drain(0), InitConn(0), IncConn(0), DecConn(0, 5, true), Unlink(0), Empty(0), Close(0),
                       Accept(5), Drain(1)];
            && Runs(Init(2), es)
            && Enabled(Run(Init(2), es), Adjust(0)) && Enabled(Run(Init(2), es), InitConn(1))
            && Touched(Run(Init(2), es), Adjust(0)) == Touched(Run(Init(2), es), InitConn(1)) == Some(5)
            && Run(Init(2), es) == TAKEN
  {
    hide Run, Runs, Enabled, Step, Touched;
    var before := [Accept(5), Drain(0), InitConn(0), IncConn(0)];
    var closing := [DecConn(0, 5, true), Unlink(0), Empty(0), Close(0)];
    var again := [Accept(5), Drain(1)];
    FirstUse();
    ClosedBadly();
    UsedAgain();
    RunJoin(Init(2), before, closing);
    RunJoin(Init(2), before + closing, again);
    assert before + closing + again ==
           [Accept(5), Drain(0), InitConn(0), IncConn(0), DecConn(0, 5, true), Unlink(0), Empty(0), Close(0), Accept(5), Drain(1)];
  }

  /** Worker 1 closes it on a malformed frame too, and both have an `adjust` left over for it: the descriptor is not
      even open. */
  lemma BothAdjusting()
    ensures var es := [Accept(5), Drain(0), InitConn(0), IncConn(0), DecConn(0, 5, true), Unlink(0), Empty(0), Close(0),
                       Accept(5), Drain(1), InitConn(1), IncConn(1), DecConn(1, 5, true), Unlink(1), Empty(1), Close(1)];
            && Runs(Init(2), es)
            && Enabled(Run(Init(2), es), Adjust(0)) && Enabled(Run(Init(2), es), Adjust(1))
            && Touched(Run(Init(2), es), Adjust(0)) == Touched(Run(Init(2), es), Adjust(1)) == Some(5)
            && 5 !in Run(Init(2), es).open
  {
    hide Run, Runs, Enabled, Step, Touched;
    var race := [Accept(5), Drain(0), InitConn(0), IncConn(0), DecConn(0, 5, true), Unlink(0), Empty(0), Close(0),
                 Accept(5), Drain(1)];
    var served := [InitConn(1), IncConn(1)];
    var closing := [DecConn(1, 5, true), Unlink(1), Empty(1), Close(1)];
    BadFrameRace();
    Served();
    ClosedAgain();
    RunJoin(Init(2), race, served);
    RunJoin(Init(2), race + served, closing);
    BothStand();
    assert race + served + closing ==
           [Accept(5), Drain(0), InitConn(0), IncConn(0), DecConn(0, 5, true), Unlink(0), Empty(0), Close(0),
            Accept(5), Drain(1), InitConn(1), IncConn(1), DecConn(1, 5, true), Unlink(1), Empty(1), Close(1)];
  }

  const SERVED := State([[], []], [[], []], [{}, {5}], [Adjusting(5), Idle], map[5 := Slot(Some(1), 0)], {5}, 0, 1)
  const BOTH := State([[], []], [[], []], [{}, {}], [Adjusting(5), Adjusting(5)], map[5 := Slot(None, 0)], {}, 0, 0)

  lemma BothStand()
    ensures Enabled(BOTH, Adjust(0)) && Enabled(BOTH, Adjust(1))
    ensures Touched(BOTH, Adjust(0)) == Touched(BOTH, Adjust(1)) == Some(5)
  {
  }

  lemma Served()
    ensures Runs(TAKEN, [InitConn(1), IncConn(1)]) && Run(TAKEN, [InitConn(1), IncConn(1)]) == SERVED
  {
    var s1 := TAKEN.(local := [[], []], interest := [{}, {5}], slots := map[5 := Slot(Some(1), 0)],
                     pc := [Adjusting(5), Registered(5)]);
    Small();
    assert Step(TAKEN, InitConn(1)) == s1;
    assert Step(s1, IncConn(1)) == SERVED;
    RunNil(SERVED);
    RunCons(s1, IncConn(1), [], SERVED);
    RunCons(TAKEN, InitConn(1), [IncConn(1)], s1);
  }

  lemma ClosedAgain()
    ensures Runs(SERVED, [DecConn(1, 5, true), Unlink(1), Empty(1), Close(1)])
    ensures Run(SERVED, [DecConn(1, 5, true), Unlink(1), Empty(1), Close(1)]) == BOTH
  {
    var s1 := SERVED.(currConns := 0, pc := [Adjusting(5), Uncounted(5, true)]);
    var s2 := s1.(interest := [{}, {}], slots := map[5 := Slot(None, 0)], pc := [Adjusting(5), Unlinked(5, true)]);
    var s3 := s2.(pc := [Adjusting(5), Emptied(5, true)]);
    Small();
    assert Step(SERVED, DecConn(1, 5, true)) == s1;
    assert Step(s1, Unlink(1)) == s2;
    assert Step(s2, Empty(1)) == s3;
    assert Step(s3, Close(1)) == BOTH;
    RunNil(BOTH);
    RunCons(s3, Close(1), [], BOTH);
    RunCons(s2, Empty(1), [Close(1)], s3);
    RunCons(s1, Unlink(1), [Empty(1), Close(1)], s2);
    RunCons(SERVED, DecConn(1, 5, true), [Unlink(1), Empty(1), Close(1)], s1);
  }

  const IN_USE := State([[], []], [[], []], [{5}, {}], [Idle, Idle], map[5 := Slot(Some(0), 0)], {5}, 1, 1)
  const CLOSED := State([[], []], [[], []], [{}, {}], [Adjusting(5), Idle], map[5 := Slot(None, 0)], {}, 1, 0)
  const TAKEN := State([[], []], [[], [5]], [{}, {}], [Adjusting(5), Idle], map[5 := Slot(None, 0)], {5}, 0, 0)

  lemma {:induction false} RunJoin(s: State, a: seq<Event>, b: seq<Event>)
    requires Runs(s, a) && Runs(Run(s, a), b)
    ensures Runs(s, a + b) && Run(s, a + b) == Run(Run(s, a), b)
    decreases |a|
  {
    hide Step, Enabled;
    if a == [] {
      assert a + b == b;
    } else {
      assert (a + b)[1..] == a[1..] + b;
      RunJoin(Step(s, a[0]), a[1..], b);
    }
  }

  lemma RunCons(s: State, e: Event, rest: seq<Event>, t: State)
    requires Enabled(s, e) && Step(s, e) == t && Runs(t, rest)
    ensures Runs(s, [e] + rest) && Run(s, [e] + rest) == Run(t, rest)
  {
    hide Step, Enabled;
    assert ([e] + rest)[1..] == rest;
  }

  lemma RunNil(s: State)
    ensures Runs(s, []) && Run(s, []) == s
  {
  }

  lemma Small()
    ensures var none: seq<int> := []; none + [5] == [5] && [5][1..] == none
    ensures var none: set<int> := {}; none + {5} == {5} && {5} - {5} == none
  {
  }

  lemma FirstUse()
    ensures Runs(Init(2), [Accept(5), Drain(0), InitConn(0), IncConn(0)])
    ensures Run(Init(2), [Accept(5), Drain(0), InitConn(0), IncConn(0)]) == IN_USE
  {
    var s0 := State([[], []], [[], []], [{}, {}], [Idle, Idle], map[], {}, 0, 0);
    assert Init(2) == s0;
    var s1 := s0.(queues := [[5], []], open := {5}, next := 1);
    var s2 := s1.(queues := [[], []], local := [[5], []]);
    var s3 := s2.(local := [[], []], interest := [{5}, {}], slots := map[5 := Slot(Some(0), 0)], pc := [Registered(5), Idle]);
    Small();
    assert Step(s0, Accept(5)) == s1;
    assert Step(s1, Drain(0)) == s2;
    assert Step(s2, InitConn(0)) == s3;
    assert Step(s3, IncConn(0)) == IN_USE;
    RunNil(IN_USE);
    RunCons(s3, IncConn(0), [], IN_USE);
    RunCons(s2, InitConn(0), [IncConn(0)], s3);
    RunCons(s1, Drain(0), [InitConn(0), IncConn(0)], s2);
    RunCons(s0, Accept(5), [Drain(0), InitConn(0), IncConn(0)], s1);
  }

  lemma ClosedBadly()
    ensures Runs(IN_USE, [DecConn(0, 5, true), Unlink(0), Empty(0), Close(0)])
    ensures Run(IN_USE, [DecConn(0, 5, true), Unlink(0), Empty(0), Close(0)]) == CLOSED
  {
    var s1 := IN_USE.(currConns := 0, pc := [Uncounted(5, true), Idle]);
    var s2 := s1.(interest := [{}, {}], slots := map[5 := Slot(None, 0)], pc := [Unlinked(5, true), Idle]);
    var s3 := s2.(pc := [Emptied(5, true), Idle]);
    Small();
    assert Step(IN_USE, DecConn(0, 5, true)) == s1;
    assert Step(s1, Unlink(0)) == s2;
    assert Step(s2, Empty(0)) == s3;
    assert Step(s3, Close(0)) == CLOSED;
    RunNil(CLOSED);
    RunCons(s3, Close(0), [], CLOSED);
    RunCons(s2, Empty(0), [Close(0)], s3);
    RunCons(s1, Unlink(0), [Empty(0), Close(0)], s2);
    RunCons(IN_USE, DecConn(0, 5, true), [Unlink(0), Empty(0), Close(0)], s1);
  }

  lemma UsedAgain()
    ensures Runs(CLOSED, [Accept(5), Drain(1)]) && Run(CLOSED, [Accept(5), Drain(1)]) == TAKEN
    ensures Enabled(TAKEN, Adjust(0)) && Enabled(TAKEN, InitConn(1))
    ensures Touched(TAKEN, Adjust(0)) == Touched(TAKEN, InitConn(1)) == Some(5)
  {
    var s1 := CLOSED.(queues := [[], [5]], open := {5}, next := 0);
    Small();
    assert Step(CLOSED, Accept(5)) == s1;
    assert Step(s1, Drain(1)) == TAKEN;
    RunNil(TAKEN);
    RunCons(s1, Drain(1), [], TAKEN);
    RunCons(CLOSED, Accept(5), [Drain(1)], s1);
  }
}
