/** The event loop of every reactor, the hooks its coroutines block in, and the global queue that moves
    ready coroutines from one sub-reactor to another, as one state machine. Each thread runs one
    reactor. A step is one access to state another thread could see, so any interleaving of the
    threads is a run. Every server coroutine waits on its own fd only, and coroutines are named by
    that fd. */
module WorkSharing {
  import opened Interest

  type Rid = nat

  datatype Kind = MainReactor | SubReactor

  datatype Task = Start(fd: Fd) | Callback(fd: Fd, event: IOEvent)

  /** One entry of epoll_wait's result. No ready event stands for EPOLLERR or EPOLLHUP alone. */
  datatype Ready = Ready(fd: Fd, events: Mask)

  /** Where a thread is in Reactor::loop. While a coroutine runs on the thread (`cur`), this is the
      place its Yield comes back to. */
  datatype Pc =
    | Top                                          // while (!m_stop_flag)
    | FirstResumed                                 // in or after Resume(first_coroutine)
    | Drain                                        // about to pop the global queue
    | Popped(fd: Fd)                               // ptr popped, before setReactor(this)
    | Claimed(fd: Fd)                              // before Resume(ptr->getCoroutine())
    | SwapTasks                                    // about to swap m_pending_tasks
    | RunTasks(todo: seq<Task>)
    | Waiting                                      // in epoll_wait
    | Batch(events: seq<Ready>)                    // entries of the result still to be handled
    | Unregistered(fd: Fd, events: seq<Ready>)     // after delEventInLoopThread(fd)
    | Detached(fd: Fd, events: seq<Ready>)         // after setReactor(NULL), before push
    | BatchResumed(events: seq<Ready>)             // main reactor: in or after Resume
    | SwapPending                                  // about to swap the pending add and del fds
    | ApplyPending(adds: map<Fd, Mask>, dels: seq<Fd>)
    | Exited

  datatype Loop = Loop(
    kind: Kind,
    pc: Pc,
    cur: Option<Fd>,               // t_cur_coroutine, by its connection's fd; None is the main coroutine
    leaving: bool,                 // or a coroutine that has closed its fd and will yield for good
    first: Option<Fd>,             // first_coroutine
    poll: Poll,
    tasks: seq<Task>,              // m_pending_tasks
    pendingAdd: map<Fd, Mask>,
    pendingDel: seq<Fd>)

  /** Where a coroutine is, between the steps of read_hook and write_hook. */
  datatype CoPc =
    | Unborn
    | NotStarted
    | Running                      // outside the hooks
    | Trying(event: IOEvent)       // reactor set, before the first read or write
    | Arming(event: IOEvent)       // that returned nothing, before setCoroutine
    | Armed(event: IOEvent)        // before addListenEvents
    | Yielding(event: IOEvent)     // before Yield
    | Parked(event: IOEvent)       // yielded
    | Woken(event: IOEvent)        // Yield returned, before delListenEvents
    | Disarmed(event: IOEvent)     // before clearCoroutine
    | Leaving                      // clearClient has unregistered, before close(2)
    | Closed                       // the fd is free again

  /** The FdEvent of a connection, and its coroutine. */
  datatype Conn = Conn(reactor: Option<Rid>, coroutine: Option<Fd>, listen: Mask, co: CoPc)

  /** A queued FdEvent. The pusher is history: no step reads it. */
  datatype Item = Item(fd: Fd, pusher: Rid)

  datatype State = State(loops: map<Rid, Loop>, conns: map<Fd, Conn>, queue: seq<Item>)

  datatype Action =
    | Accept(fd: Fd)
    | Stop | BeginFirst | SkipFirst | EndFirst
    | Pop | QueueEmpty | Claim | RunStolen
    | TakeTasks | RunTask | TasksDone
    | WaitFailed | Deliver(events: seq<Ready>)
    | Handle | Detach | Push | EndBatchResume | BatchDone
    | TakePending | ApplyAdd(fd: Fd) | ApplyDel | ApplyDone
    | CallHook(event: IOEvent) | IoDone | IoBlocked | SetCoroutine | Listen | YieldParked
    | Unlisten | ClearCoroutine | Unregister | CloseFd | YieldClosed

  const MAX_EVENTS := 10

  function SetLoop(s: State, r: Rid, l: Loop): State {
    s.(loops := s.loops[r := l])
  }

  function SetConn(s: State, c: Fd, f: Conn): State {
    s.(conns := s.conns[c := f])
  }

  function SetPc(s: State, r: Rid, pc: Pc): State
    requires r in s.loops
  {
    SetLoop(s, r, s.loops[r].(pc := pc))
  }

  /** The thread runs its main coroutine. */
  predicate OnMain(l: Loop) {
    l.cur.None? && !l.leaving
  }

  /** Coroutine::Resume on thread r: refused unless the thread is on its main coroutine and the target
      may be resumed. Resuming a coroutine that is neither fresh nor parked is not refused. */
  function Resume(s: State, r: Rid, target: Option<Fd>): State
    requires r in s.loops
  {
    if target.None? || target.value !in s.conns then s
    else
      var c, f := target.value, s.conns[target.value];
      if !OnMain(s.loops[r]) || f.co.Closed? || f.co.Unborn? then s
      else
        var co := if f.co.NotStarted? then Running
                  else if f.co.Parked? then Woken(f.co.event)
                  else f.co;
        SetConn(SetLoop(s, r, s.loops[r].(cur := Some(c))), c, f.(co := co))
  }

  /** Reactor::addEvent for reactor `to`, called on thread r: direct on the loop's own thread, otherwise
      put among the pending adds, where an earlier entry for the fd wins. */
  function AddEvent(s: State, r: Rid, to: Rid, c: Fd, mask: Mask): State
    requires to in s.loops
  {
    var l := s.loops[to];
    if to == r then SetLoop(s, to, l.(poll := AddInLoop(l.poll, c, mask)))
    else if c in l.pendingAdd then s
    else SetLoop(s, to, l.(pendingAdd := l.pendingAdd[c := mask]))
  }

  function DelEvent(s: State, r: Rid, to: Rid, c: Fd): State
    requires to in s.loops
  {
    var l := s.loops[to];
    if to == r then SetLoop(s, to, l.(poll := DelInLoop(l.poll, c)))
    else SetLoop(s, to, l.(pendingDel := l.pendingDel + [c]))
  }

  /** The reactor an FdEvent uses on thread r: its own, or the thread's when it has none. */
  function ReactorOr(f: Conn, r: Rid): Rid {
    if f.reactor.Some? then f.reactor.value else r
  }

  /** FdEvent::updateToReactor after m_listen_events became `listen`. */
  function Update(s: State, r: Rid, c: Fd, listen: Mask): State
    requires c in s.conns && ReactorOr(s.conns[c], r) in s.loops
  {
    var f := s.conns[c];
    var to := ReactorOr(f, r);
    AddEvent(SetConn(s, c, f.(listen := listen, reactor := Some(to))), r, to, c, listen)
  }

  function AddListenEvents(s: State, r: Rid, c: Fd, e: IOEvent): State
    requires c in s.conns && ReactorOr(s.conns[c], r) in s.loops
  {
    if e in s.conns[c].listen then s else Update(s, r, c, s.conns[c].listen + {e})
  }

  function DelListenEvents(s: State, r: Rid, c: Fd, e: IOEvent): State
    requires c in s.conns && ReactorOr(s.conns[c], r) in s.loops
  {
    if e in s.conns[c].listen then Update(s, r, c, s.conns[c].listen - {e}) else s
  }

  function UnregisterFromReactor(s: State, r: Rid, c: Fd): State
    requires c in s.conns && ReactorOr(s.conns[c], r) in s.loops
  {
    var f := s.conns[c];
    var to := ReactorOr(f, r);
    DelEvent(SetConn(s, c, f.(reactor := Some(to), listen := {})), r, to, c)
  }

  /** What epoll_wait may return: at most MAX_EVENTS different registered fds, each ready for a subset of
      its mask. */
  predicate Deliverable(kernel: map<Fd, Mask>, events: seq<Ready>) {
    && |events| <= MAX_EVENTS
    && (forall i, j :: 0 <= i < j < |events| ==> events[i].fd != events[j].fd)
    && (forall i :: 0 <= i < |events| ==>
          events[i].fd in kernel && events[i].events <= kernel[events[i].fd])
  }

  function Callbacks(e: Ready): seq<Task> {
    (if Read in e.events then [Callback(e.fd, Read)] else []) +
    (if Write in e.events then [Callback(e.fd, Write)] else [])
  }

  /** One pass of the loop over epoll_wait's result, for the entry at the front. */
  function HandleEvent(s: State, r: Rid): State
    requires r in s.loops && s.loops[r].pc.Batch? && s.loops[r].pc.events != []
    requires s.loops[r].pc.events[0].fd in s.conns
  {
    var l := s.loops[r];
    var e, rest := l.pc.events[0], l.pc.events[1..];
    if e.events == {} then
      SetLoop(s, r, l.(pc := Batch(rest), poll := DelInLoop(l.poll, e.fd)))
    else if s.conns[e.fd].coroutine.Some? then
      if l.first.None? then
        SetLoop(s, r, l.(pc := Batch(rest), first := s.conns[e.fd].coroutine))
      else if l.kind.SubReactor? then
        SetLoop(s, r, l.(pc := Unregistered(e.fd, rest), poll := DelInLoop(l.poll, e.fd)))
      else
        Resume(SetPc(s, r, BatchResumed(rest)), r, s.conns[e.fd].coroutine)
    else
      SetLoop(s, r, l.(pc := Batch(rest), tasks := l.tasks + Callbacks(e)))
  }

  predicate Enabled(s: State, r: Rid, a: Action) {
    && r in s.loops
    && var l := s.loops[r];
    match a
    case Accept(fd) => fd in s.conns && (s.conns[fd].co.Unborn? || s.conns[fd].co.Closed?)
    case Stop => OnMain(l) && l.pc.Top?
    case BeginFirst => OnMain(l) && l.pc.Top? && l.first.Some?
    case SkipFirst => OnMain(l) && l.pc.Top? && l.first.None?
    case EndFirst => OnMain(l) && l.pc.FirstResumed?
    case Pop => OnMain(l) && l.pc.Drain? && s.queue != []
    case QueueEmpty => OnMain(l) && l.pc.Drain? && s.queue == []
    case Claim => OnMain(l) && l.pc.Popped? && l.pc.fd in s.conns
    case RunStolen => OnMain(l) && l.pc.Claimed? && l.pc.fd in s.conns
    case TakeTasks => OnMain(l) && l.pc.SwapTasks?
    case RunTask => OnMain(l) && l.pc.RunTasks? && l.pc.todo != []
    case TasksDone => OnMain(l) && l.pc.RunTasks? && l.pc.todo == []
    case WaitFailed => OnMain(l) && l.pc.Waiting?
    case Deliver(events) => OnMain(l) && l.pc.Waiting? && Deliverable(l.poll.kernel, events)
    case Handle => OnMain(l) && l.pc.Batch? && l.pc.events != [] && l.pc.events[0].fd in s.conns
    case Detach => OnMain(l) && l.pc.Unregistered? && l.pc.fd in s.conns
    case Push => OnMain(l) && l.pc.Detached?
    case EndBatchResume => OnMain(l) && l.pc.BatchResumed?
    case BatchDone => OnMain(l) && l.pc.Batch? && l.pc.events == []
    case TakePending => OnMain(l) && l.pc.SwapPending?
    case ApplyAdd(fd) => OnMain(l) && l.pc.ApplyPending? && fd in l.pc.adds
    case ApplyDel => OnMain(l) && l.pc.ApplyPending? && l.pc.adds == map[] && l.pc.dels != []
    case ApplyDone => OnMain(l) && l.pc.ApplyPending? && l.pc.adds == map[] && l.pc.dels == []
    case YieldClosed => l.leaving
    case _ =>
      && l.cur.Some? && l.cur.value in s.conns
      && var f := s.conns[l.cur.value];
      && ReactorOr(f, r) in s.loops
      && match a
         case CallHook(_) => f.co.Running?
         case IoDone => f.co.Trying?
         case IoBlocked => f.co.Trying?
         case SetCoroutine => f.co.Arming?
         case Listen => f.co.Armed?
         case YieldParked => f.co.Yielding?
         case Unlisten => f.co.Woken?
         case ClearCoroutine => f.co.Disarmed?
         case Unregister => f.co.Running?
         case _ => f.co.Leaving?
  }

  /** The steps a thread takes on its main coroutine, inside Reactor::loop, and the last Yield of a coroutine
      whose fd is closed. */
  function LoopStep(s: State, r: Rid, a: Action): State
    requires Enabled(s, r, a)
  {
    var l := s.loops[r];
    match a
    case Accept(fd) =>
      SetConn(SetLoop(s, r, l.(tasks := l.tasks + [Start(fd)])), fd,
              s.conns[fd].(reactor := Some(r), co := NotStarted))
    case Stop => SetPc(s, r, Exited)
    case BeginFirst => Resume(SetPc(s, r, FirstResumed), r, l.first)
    case SkipFirst => SetPc(s, r, if l.kind.SubReactor? then Drain else SwapTasks)
    case EndFirst =>
      SetLoop(s, r, l.(first := None, pc := if l.kind.SubReactor? then Drain else SwapTasks))
    case Pop => SetPc(s, r, Popped(s.queue[0].fd)).(queue := s.queue[1..])
    case QueueEmpty => SetPc(s, r, SwapTasks)
    case Claim =>
      SetConn(SetPc(s, r, Claimed(l.pc.fd)), l.pc.fd, s.conns[l.pc.fd].(reactor := Some(r)))
    case RunStolen => Resume(SetPc(s, r, Drain), r, s.conns[l.pc.fd].coroutine)
    case TakeTasks => SetLoop(s, r, l.(pc := RunTasks(l.tasks), tasks := []))
    case RunTask =>
      var s' := SetPc(s, r, RunTasks(l.pc.todo[1..]));
      // a connection's FdEvent has no callbacks, and an empty std::function is skipped
      if l.pc.todo[0].Start? then Resume(s', r, Some(l.pc.todo[0].fd)) else s'
    case TasksDone => SetPc(s, r, Waiting)
    case WaitFailed => SetPc(s, r, Top)
    case Deliver(events) => SetPc(s, r, Batch(events))
    case Handle => HandleEvent(s, r)
    case Detach =>
      SetConn(SetPc(s, r, Detached(l.pc.fd, l.pc.events)), l.pc.fd, s.conns[l.pc.fd].(reactor := None))
    case Push => SetPc(s, r, Batch(l.pc.events)).(queue := s.queue + [Item(l.pc.fd, r)])
    case EndBatchResume => SetLoop(s, r, l.(first := None, pc := Batch(l.pc.events)))
    case BatchDone => SetPc(s, r, SwapPending)
    case TakePending =>
      SetLoop(s, r, l.(pc := ApplyPending(l.pendingAdd, l.pendingDel), pendingAdd := map[], pendingDel := []))
    case ApplyAdd(fd) =>
      SetLoop(s, r, l.(pc := ApplyPending(l.pc.adds - {fd}, l.pc.dels),
                       poll := AddInLoop(l.poll, fd, l.pc.adds[fd])))
    case ApplyDel =>
      SetLoop(s, r, l.(pc := ApplyPending(l.pc.adds, l.pc.dels[1..]),
                       poll := DelInLoop(l.poll, l.pc.dels[0])))
    case ApplyDone => SetPc(s, r, Top)
    case YieldClosed => SetLoop(s, r, l.(leaving := false))
    case _ => s
  }

  /** The steps of the coroutine that runs on thread r. */
  function CoStep(s: State, r: Rid, a: Action): State
    requires Enabled(s, r, a) && s.loops[r].cur.Some? && s.loops[r].cur.value in s.conns
    requires ReactorOr(s.conns[s.loops[r].cur.value], r) in s.loops
  {
    var l := s.loops[r];
    var c := l.cur.value;
    var f := s.conns[c];
    match a
    case CallHook(e) => SetConn(s, c, f.(co := Trying(e), reactor := Some(ReactorOr(f, r))))
    case IoDone => SetConn(s, c, f.(co := Running))
    case IoBlocked => SetConn(s, c, f.(co := Arming(f.co.event)))
    case SetCoroutine => SetConn(s, c, f.(co := Armed(f.co.event), coroutine := Some(c)))
    case Listen =>
      var s' := AddListenEvents(s, r, c, f.co.event);
      SetConn(s', c, s'.conns[c].(co := Yielding(f.co.event)))
    case YieldParked => SetConn(SetLoop(s, r, l.(cur := None)), c, f.(co := Parked(f.co.event)))
    case Unlisten =>
      var s' := DelListenEvents(s, r, c, f.co.event);
      SetConn(s', c, s'.conns[c].(co := Disarmed(f.co.event)))
    case ClearCoroutine => SetConn(s, c, f.(co := Running, coroutine := None))
    case Unregister =>
      var s' := UnregisterFromReactor(s, r, c);
      SetConn(s', c, s'.conns[c].(co := Leaving))
    case CloseFd => SetConn(SetLoop(s, r, l.(cur := None, leaving := true)), c, f.(co := Closed))
    case _ => s
  }

  predicate CoAction(a: Action) {
    a.CallHook? || a.IoDone? || a.IoBlocked? || a.SetCoroutine? || a.Listen? || a.YieldParked? ||
    a.Unlisten? || a.ClearCoroutine? || a.Unregister? || a.CloseFd?
  }

  function Do(s: State, r: Rid, a: Action): State
    requires Enabled(s, r, a)
  {
    if CoAction(a) then CoStep(s, r, a) else LoopStep(s, r, a)
  }

  /** Every loop is at its head with nothing registered, and no connection exists yet. */
  predicate Init(s: State) {
    && s.queue == []
    && (forall r <- s.loops ::
          var l := s.loops[r];
          l == Loop(l.kind, Top, None, false, None, Poll([], map[]), [], map[], []))
    && (forall c <- s.conns :: s.conns[c] == Conn(None, None, {}, Unborn))
  }

  datatype Step = Step(r: Rid, a: Action)

  /** A run: states, with the step taken between each two neighbours. */
  ghost predicate Run(states: seq<State>, steps: seq<Step>) {
    && |states| == |steps| + 1
    && Init(states[0])
    && forall i :: 0 <= i < |steps| ==>
         Enabled(states[i], steps[i].r, steps[i].a) && states[i + 1] == Do(states[i], steps[i].r, steps[i].a)
  }
}
