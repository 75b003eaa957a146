/**
 The table of watched descriptors: what the event loop has recorded and what the kernel
 watches are kept apart, because removing one event from a descriptor updates the kernel only.
 */
module EventLoops {

  datatype Interest = EPOLLIN | EPOLLOUT

  /** `callbacks` says which of the two callbacks have been set. */
  datatype IoEvent = IoEvent(mask: set<Interest>, callbacks: set<Interest>)

  datatype Op = ADD | MOD | DEL

  class EventLoop {
    var ioEvs: map<int, IoEvent>
    var listenFds: set<int>
    /** The kernel's own table. */
    var kernel: map<int, set<Interest>>

    /** Every watched descriptor is recorded, watched events are recorded ones, and a recorded
        event has its callback. */
    ghost predicate Valid()
      reads this
    {
      && ioEvs.Keys == kernel.Keys == listenFds
      && forall fd <- ioEvs ::
          ioEvs[fd].mask <= ioEvs[fd].callbacks && {} < kernel[fd] <= ioEvs[fd].mask
    }

    constructor ()
      ensures Valid() && ioEvs == map[]
    {
      ioEvs, listenFds, kernel := map[], {}, map[];
    }

    /** `epoll_ctl`: fails on adding what is there and on changing what is not. */
    method EpollCtl(op: Op, fd: int, mask: set<Interest>) returns (ok: bool)
      modifies this`kernel
      ensures ok <==> (op == ADD) == (fd !in old(kernel))
      ensures kernel ==
        if !ok then old(kernel) else if op == DEL then old(kernel) - {fd} else old(kernel)[fd := mask]
    {
      ok := (op == ADD) == (fd !in kernel);
      if ok {
        kernel := if op == DEL then kernel - {fd} else kernel[fd := mask];
      }
    }

    /** The kernel call never fails, and both masks hold the new event. */
    method AddIoEvent(fd: int, mask: set<Interest>)
      requires Valid() && (mask == {EPOLLIN} || mask == {EPOLLOUT})
      modifies this
      ensures Valid() && fd in ioEvs
      ensures ioEvs[fd].mask == (if fd in old(ioEvs) then old(ioEvs[fd].mask) else {}) + mask
      ensures kernel == old(kernel)[fd := ioEvs[fd].mask]
      ensures ioEvs == old(ioEvs)[fd := ioEvs[fd]]
    {
      var known := fd in ioEvs;
      var finalMask := if known then ioEvs[fd].mask + mask else mask;
      var callbacks := (if known then ioEvs[fd].callbacks else {}) + mask;
      ioEvs := ioEvs[fd := IoEvent(finalMask, callbacks)];
      var ok := EpollCtl(if known then MOD else ADD, fd, finalMask);
      assert ok;
      if ok {
        listenFds := listenFds + {fd};
      }
    }

    method DelFd(fd: int)
      requires Valid()
      modifies this
      ensures Valid() && ioEvs == old(ioEvs) - {fd} && kernel == old(kernel) - {fd}
    {
      ioEvs := ioEvs - {fd};
      listenFds := listenFds - {fd};
      var ok := EpollCtl(DEL, fd, {});
    }

    /** Removes events of one descriptor: the kernel stops watching them, the record keeps them. */
    method DelIoEvent(fd: int, mask: set<Interest>)
      requires Valid()
      modifies this
      ensures Valid()
      ensures fd in old(ioEvs) && old(ioEvs[fd].mask) - mask != {} ==>
        ioEvs == old(ioEvs) && kernel == old(kernel)[fd := old(ioEvs[fd].mask) - mask]
      ensures fd !in old(ioEvs) || old(ioEvs[fd].mask) - mask == {} ==>
        ioEvs == old(ioEvs) - {fd} && kernel == old(kernel) - {fd}
    {
      if fd !in ioEvs {
        assert ioEvs - {fd} == ioEvs && kernel - {fd} == kernel;
        return;
      }
      var rest := ioEvs[fd].mask - mask;
      if rest == {} {
        DelFd(fd);
      } else {
        var ok := EpollCtl(MOD, fd, rest);
      }
    }
  }
}
