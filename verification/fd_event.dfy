/** Reactor's registration methods, FdEvent and its container, as the objects the code updates in place.
    Each method is tied to the functions of Interest that the work-sharing machine takes its steps
    with. */
module FdEvents {
  import opened Interest

  type Tid = nat

  class Reactor {
    const tid: Tid
    const wakeFd: Fd
    var fds: seq<Fd>
    var kernel: map<Fd, Mask>       // the interest set of m_epfd
    var pendingAdd: map<Fd, Mask>
    var pendingDel: seq<Fd>
    var looping: bool               // m_is_looping
    var wakeups: nat                // writes to the wake fd

    function View(): Poll
      reads this
    {
      Poll(fds, kernel)
    }

    /** m_fds and the kernel agree, and the wake fd stays registered for reading. */
    ghost predicate Valid()
      reads this
    {
      Agree(View()) && wakeFd in kernel && kernel[wakeFd] == {Read}
    }

    constructor (tid: Tid, wakeFd: Fd)
      ensures Valid() && this.tid == tid && this.wakeFd == wakeFd
      ensures View() == Poll([wakeFd], map[wakeFd := {Read}])
      ensures pendingAdd == map[] && pendingDel == [] && wakeups == 0 && !looping
    {
      this.tid, this.wakeFd := tid, wakeFd;
      fds, kernel := [wakeFd], map[wakeFd := {Read}];
      pendingAdd, pendingDel, wakeups, looping := map[], [], 0, false;
    }

    method AddEventInLoopThread(fd: Fd, mask: Mask)
      requires Valid() && fd != wakeFd
      modifies this`fds, this`kernel
      ensures Valid() && View() == AddInLoop(old(View()), fd, mask)
      ensures fd in kernel && kernel[fd] == mask
    {
      AddAgrees(View(), fd, mask);
      var op := Add;
      var isAdd := true;
      if fd in fds {
        isAdd := false;
        op := Mod;
      }
      var ok := EpollCtl(op, fd, mask);
      if !ok {
        return;
      }
      if isAdd {
        fds := fds + [fd];
      }
    }

    method DelEventInLoopThread(fd: Fd)
      requires Valid() && fd != wakeFd
      modifies this`fds, this`kernel
      ensures Valid() && View() == DelInLoop(old(View()), fd)
      ensures fd !in kernel && fd !in fds
    {
      DelAgrees(View(), fd);
      if fd !in fds {
        return;
      }
      var ok := EpollCtl(Del, fd, {});
      fds := Without(fds, fd);
    }

    /** The system call: it refuses exactly the illegal operations. */
    method EpollCtl(op: EpollOp, fd: Fd, mask: Mask) returns (ok: bool)
      modifies this`kernel
      ensures ok == Legal(old(kernel), op, fd)
      ensures kernel == CtlResult(old(kernel), op, fd, mask)
    {
      ok := Legal(kernel, op, fd);
      kernel := CtlResult(kernel, op, fd, mask);
    }

    method AddEvent(fd: Fd, mask: Mask, caller: Tid)
      requires Valid() && fd != wakeFd
      modifies this`fds, this`kernel, this`pendingAdd, this`wakeups
      ensures Valid()
      ensures caller == tid ==>
        View() == AddInLoop(old(View()), fd, mask) && pendingAdd == old(pendingAdd) && wakeups == old(wakeups)
      ensures caller != tid ==>
        && View() == old(View()) && wakeups == old(wakeups) + (if looping then 1 else 0)
        && pendingAdd == if fd in old(pendingAdd) then old(pendingAdd) else old(pendingAdd)[fd := mask]
    {
      if caller == tid {
        AddEventInLoopThread(fd, mask);
        return;
      }
      if fd !in pendingAdd {       // std::map::insert keeps the entry it finds
        pendingAdd := pendingAdd[fd := mask];
      }
      Wakeup();
    }

    /** A reactor that is not looping need not be woken. */
    method Wakeup()
      modifies this`wakeups
      ensures wakeups == old(wakeups) + if looping then 1 else 0
    {
      if !looping {
        return;
      }
      wakeups := wakeups + 1;
    }

    method DelEvent(fd: Fd, caller: Tid)
      requires Valid() && fd != wakeFd
      modifies this`fds, this`kernel, this`pendingDel, this`wakeups
      ensures Valid()
      ensures caller == tid ==>
        View() == DelInLoop(old(View()), fd) && pendingDel == old(pendingDel) && wakeups == old(wakeups)
      ensures caller != tid ==>
        && View() == old(View()) && pendingDel == old(pendingDel) + [fd]
        && wakeups == old(wakeups) + if looping then 1 else 0
    {
      if caller == tid {
        DelEventInLoopThread(fd);
        return;
      }
      pendingDel := pendingDel + [fd];
      Wakeup();
    }
  }

  class FdEvent {
    const fd: Fd
    var listen: Mask
    var reactor: Reactor?
    var coroutine: Option<nat>
    var callbacks: set<IOEvent>     // which of m_read_callback and m_write_callback are set

    constructor (fd: Fd)
      ensures this.fd == fd && listen == {} && reactor == null && coroutine == None && callbacks == {}
    {
      this.fd := fd;
      listen, reactor, coroutine, callbacks := {}, null, None, {};
    }

    /** The reactor this FdEvent talks to on the thread whose reactor is `current`. */
    function Target(current: Reactor): Reactor
      reads this
    {
      if reactor != null then reactor else current
    }

    /** Registered with its thread's reactor, under exactly the listened events. */
    ghost predicate InStep(current: Reactor)
      reads this, current
    {
      fd in current.kernel ==> current.kernel[fd] == listen
    }

    method UpdateToReactor(current: Reactor)
      requires Target(current).Valid() && fd != Target(current).wakeFd
      modifies this`reactor, Target(current)
      ensures reactor == old(Target(current)) && reactor.Valid()
      ensures reactor.tid == current.tid ==> reactor.View() == AddInLoop(old(Target(current).View()), fd, listen)
      ensures reactor.tid != current.tid ==> Posted(old(Target(current)), listen)
    {
      if reactor == null {
        reactor := current;
      }
      reactor.AddEvent(fd, listen, current.tid);
    }

    /** From another thread: nothing but a pending entry, where an earlier one stays, and a wakeup of a
        reactor that loops. */
    twostate predicate Posted(target: Reactor, mask: Mask)
      reads target
    {
      && target.View() == old(target.View())
      && target.wakeups == old(target.wakeups) + (if target.looping then 1 else 0)
      && target.pendingAdd == if fd in old(target.pendingAdd) then old(target.pendingAdd) else old(target.pendingAdd)[fd := mask]
    }

    /** On the thread of its own reactor, the kernel mask follows the listened events. */
    method AddListenEvents(event: IOEvent, current: Reactor)
      requires Target(current).Valid() && fd != Target(current).wakeFd
      modifies this`listen, this`reactor, Target(current)
      ensures old(Target(current)).Valid() && listen == old(listen) + {event}
      ensures event in old(listen) ==> unchanged(old(Target(current))) && reactor == old(reactor)
      ensures event !in old(listen) ==>
        && reactor == old(Target(current))
        && if reactor.tid != current.tid then Posted(old(Target(current)), listen)
           else
             && fd in reactor.kernel && reactor.kernel[fd] == listen
             && reactor.View() == AddInLoop(old(Target(current).View()), fd, listen)
      ensures old(InStep(Target(current))) && old(Target(current)).tid == current.tid ==> InStep(old(Target(current)))
    {
      if event in listen {
        assert listen == listen + {event};
        return;
      }
      listen := listen + {event};
      AddAgrees(Target(current).View(), fd, listen);
      UpdateToReactor(current);
    }

    /** As AddListenEvents. After a steal the fd is not registered with the new reactor; taking the
        event away then registers it there with the mask that is left. */
    method DelListenEvents(event: IOEvent, current: Reactor)
      requires Target(current).Valid() && fd != Target(current).wakeFd
      modifies this`listen, this`reactor, Target(current)
      ensures old(Target(current)).Valid() && listen == old(listen) - {event}
      ensures event !in old(listen) ==> unchanged(old(Target(current))) && reactor == old(reactor)
      ensures event in old(listen) ==>
        && reactor == old(Target(current))
        && if reactor.tid != current.tid then Posted(old(Target(current)), listen)
           else
             && fd in reactor.kernel && reactor.kernel[fd] == listen
             && reactor.View() == AddInLoop(old(Target(current).View()), fd, listen)
      ensures old(InStep(Target(current))) && old(Target(current)).tid == current.tid ==> InStep(old(Target(current)))
    {
      if event in listen {
        listen := listen - {event};
        AddAgrees(Target(current).View(), fd, listen);
        UpdateToReactor(current);
        return;
      }
      assert listen == listen - {event};
    }

    /** From another thread the deletion is only left pending; the listened events are gone at once. */
    method UnregisterFromReactor(current: Reactor)
      requires Target(current).Valid() && fd != Target(current).wakeFd
      modifies this`listen, this`reactor, this`callbacks, Target(current)
      ensures reactor == old(Target(current)) && reactor.Valid() && listen == {} && callbacks == {}
      ensures reactor.tid == current.tid ==>
        fd !in reactor.kernel && reactor.View() == DelInLoop(old(Target(current).View()), fd)
      ensures reactor.tid != current.tid ==>
        && reactor.View() == old(Target(current).View())
        && reactor.wakeups == old(Target(current).wakeups) + (if reactor.looping then 1 else 0)
        && reactor.pendingDel == old(Target(current).pendingDel) + [fd]
    {
      if reactor == null {
        reactor := current;
      }
      DelAgrees(reactor.View(), fd);
      reactor.DelEvent(fd, current.tid);
      listen, callbacks := {}, {};
    }
  }

  /** Position i holds the FdEvent of fd i. */
  class FdEventContainer {
    var fds: seq<FdEvent>

    ghost predicate Valid()
      reads this
    {
      forall i :: 0 <= i < |fds| ==> fds[i].fd == i
    }

    constructor (size: nat)
      ensures Valid() && |fds| == size
    {
      fds := [];
      new;
      for i := 0 to size
        invariant |fds| == i && forall k :: 0 <= k < i ==> fds[k].fd == k
      {
        var e := new FdEvent(i);
        fds := fds + [e];
      }
    }

    /** An fd past the end grows the container to one and a half times the fd, which reaches it from fd 2
        on; null stands for the access past the end that follows otherwise. The FdEvents already handed out
        stay where they are. */
    method GetFdEvent(fd: Fd) returns (e: FdEvent?)
      requires Valid()
      modifies this
      ensures Valid() && old(fds) <= fds
      ensures e != null <==> fd < |old(fds)| || fd >= 2
      ensures e != null ==> fd < |fds| && e == fds[fd] && e.fd == fd
      ensures |fds| == if fd * 3 / 2 <= |old(fds)| || fd < |old(fds)| then |old(fds)| else fd * 3 / 2
    {
      if fd < |fds| {
        return fds[fd];
      }
      var n := fd * 3 / 2;
      var i := |fds|;
      while i < n
        invariant |old(fds)| <= i <= n || i == |old(fds)|
        invariant |fds| == i && old(fds) <= fds && forall k :: 0 <= k < i ==> fds[k].fd == k
      {
        var entry := new FdEvent(i);
        fds := fds + [entry];
        i := i + 1;
      }
      e := if fd < |fds| then fds[fd] else null;
    }
  }
}
