/** The interest table of `event_loop`: `_io_evs` and `listening` in user space, shadowing the kernel's epoll set. */
module EventLoops {

  datatype Interest = EPOLLIN | EPOLLOUT

  /** An event mask, as the set of its bits. */
  type Mask = set<Interest>

  /** A callback together with its argument. */
  datatype Callback = Unset | Callback(proc: nat)

  datatype IoEvent = IoEvent(mask: Mask, readCb: Callback, writeCb: Callback)

  datatype CtlOp = CtlAdd | CtlMod | CtlDel

  /** The entry `add_ioev` leaves for a descriptor. A mask with both bits sets only the read callback. */
  function Merged(evs: map<int, IoEvent>, fd: int, cb: Callback, mask: Mask): IoEvent {
    var ev := if fd in evs then evs[fd] else IoEvent({}, Unset, Unset);
    var ev' := ev.(mask := ev.mask + mask);
    if EPOLLIN in mask then ev'.(readCb := cb) else if EPOLLOUT in mask then ev'.(writeCb := cb) else ev'
  }

  /** The table after `del_ioev(fd, mask)`: the entry goes when no bit is left. */
  function Reduced(evs: map<int, IoEvent>, fd: int, mask: Mask): map<int, IoEvent> {
    if fd !in evs then evs
    else
      var left := evs[fd].mask - mask;
      if left == {} then evs - {fd} else evs[fd := evs[fd].(mask := left)]
  }

  function MaskOf(evs: map<int, IoEvent>, fd: int): Mask {
    if fd in evs then evs[fd].mask else {}
  }

  /** Adding interest and removing it again restores the mask when none of it was there before. */
  lemma AddThenRemove(evs: map<int, IoEvent>, fd: int, cb: Callback, mask: Mask)
    requires MaskOf(evs, fd) !! mask
    ensures MaskOf(Reduced(evs[fd := Merged(evs, fd, cb, mask)], fd, mask), fd) == MaskOf(evs, fd)
    ensures forall g :: g != fd ==> MaskOf(Reduced(evs[fd := Merged(evs, fd, cb, mask)], fd, mask), g) == MaskOf(evs, g)
  {
    assert (MaskOf(evs, fd) + mask) - mask == MaskOf(evs, fd);
  }

  lemma NothingLeft(a: Mask, b: Mask)
    ensures a - b == {} <==> a <= b
  {
    if a - b == {} {
      forall i | i in a ensures i in b {
        assert i !in a - b;
      }
    }
  }

  class EventLoop {
    var ioEvs: map<int, IoEvent>
    var listening: set<int>
    /** The kernel's interest list. */
    var epoll: map<int, Mask>

    /** User space and kernel agree, descriptor by descriptor. */
    ghost predicate Valid()
      reads this
    {
      && listening == ioEvs.Keys && epoll.Keys == ioEvs.Keys
      && (forall fd :: fd in ioEvs ==> epoll[fd] == ioEvs[fd].mask)
    }

    constructor ()
      ensures Valid() && ioEvs == map[]
    {
      ioEvs, listening, epoll := map[], {}, map[];
    }

    /** `epoll_ctl`: adding twice, or changing or deleting what is not there, fails and changes nothing. */
    method EpollCtl(op: CtlOp, fd: int, events: Mask) returns (ret: int)
      modifies `epoll
      ensures ret == 0 <==> (op.CtlAdd? <==> fd !in old(epoll))
      ensures epoll == if ret != 0 then old(epoll) else if op.CtlDel? then old(epoll) - {fd} else old(epoll)[fd := events]
    {
      if op.CtlAdd? == (fd in epoll) {
        return -1;
      }
      epoll := if op.CtlDel? then epoll - {fd} else epoll[fd := events];
      ret := 0;
    }

    method AddIoev(fd: int, cb: Callback, mask: Mask)
      requires Valid()
      modifies this
      ensures Valid()
      ensures ioEvs == old(ioEvs)[fd := Merged(old(ioEvs), fd, cb, mask)]
      ensures ioEvs[fd].mask == (if fd in old(ioEvs) then old(ioEvs)[fd].mask else {}) + mask
      ensures ioEvs[fd].readCb ==
                if EPOLLIN in mask then cb else if fd in old(ioEvs) then old(ioEvs)[fd].readCb else Unset
      ensures ioEvs[fd].writeCb ==
                if EPOLLOUT in mask && EPOLLIN !in mask then cb else if fd in old(ioEvs) then old(ioEvs)[fd].writeCb else Unset
      ensures forall g :: g != fd ==> (g in ioEvs <==> g in old(ioEvs)) && (g in ioEvs ==> ioEvs[g] == old(ioEvs)[g])
    {
      var ev, op;
      if fd !in ioEvs {
        ev, op := IoEvent({}, Unset, Unset), CtlAdd;
      } else {
        ev, op := ioEvs[fd], CtlMod;
      }
      var fMask := ev.mask + mask;
      if EPOLLIN in mask {
        ev := ev.(readCb := cb);
      } else if EPOLLOUT in mask {
        ev := ev.(writeCb := cb);
      }
      ev := ev.(mask := fMask);
      ioEvs := ioEvs[fd := ev];
      var ret := EpollCtl(op, fd, fMask);
      listening := listening + {fd};
    }

    method DelIoevMask(fd: int, mask: Mask)
      requires Valid()
      modifies this
      ensures Valid()
      ensures ioEvs == Reduced(old(ioEvs), fd, mask)
      ensures fd !in old(ioEvs) ==> ioEvs == old(ioEvs)
      ensures fd in old(ioEvs) && old(ioEvs)[fd].mask <= mask ==> ioEvs == old(ioEvs) - {fd}
      ensures fd in old(ioEvs) && !(old(ioEvs)[fd].mask <= mask) ==>
                ioEvs == old(ioEvs)[fd := IoEvent(old(ioEvs)[fd].mask - mask, old(ioEvs)[fd].readCb, old(ioEvs)[fd].writeCb)]
    {
      if fd !in ioEvs {
        return;
      }
      var oMask := ioEvs[fd].mask - mask;
      assert oMask == {} <==> ioEvs[fd].mask <= mask by {
        NothingLeft(ioEvs[fd].mask, mask);
      }
      ioEvs := ioEvs[fd := ioEvs[fd].(mask := oMask)];
      var ret;
      if oMask == {} {
        ioEvs := ioEvs - {fd};
        ret := EpollCtl(CtlDel, fd, {});
        listening := listening - {fd};
      } else {
        ret := EpollCtl(CtlMod, fd, oMask);
      }
      assert ret == 0;
    }

    method DelIoev(fd: int)
      requires Valid()
      modifies this
      ensures Valid()
      ensures ioEvs == old(ioEvs) - {fd}
    {
      ioEvs := ioEvs - {fd};
      listening := listening - {fd};
      var ret := EpollCtl(CtlDel, fd, {});
    }
  }
}
