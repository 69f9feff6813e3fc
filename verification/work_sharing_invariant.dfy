/** Every step of the work-sharing machine keeps one invariant: each connection is in exactly one
    place, and every structure that mentions it agrees. The places are not part of the state; the
    invariant says that some assignment of places fits. */
module WorkSharingInvariant {
  import opened Interest
  import opened WorkSharing

  datatype Place =
    | Nowhere
    | Starting(r: Rid)       // its start task is with reactor r
    | On(r: Rid)             // running on thread r
    | At(r: Rid)             // parked, registered with reactor r
    | Lost                   // parked, unregistered by an entry with neither EPOLLIN nor EPOLLOUT
    | Stolen(r: Rid)         // parked, unregistered by r, which is about to push it
    | Queued
    | Taken(r: Rid)          // popped by r, not yet resumed
    | Gone

  type Places = map<Fd, Place>

  function Todo(l: Loop): seq<Task> {
    (if l.pc.RunTasks? then l.pc.todo else []) + l.tasks
  }

  function Undelivered(pc: Pc): seq<Ready> {
    match pc
    case Batch(events) => events
    case Unregistered(_, events) => events
    case Detached(_, events) => events
    case BatchResumed(events) => events
    case _ => []
  }

  /** Between pushing to the queue and finding it empty: not SwapTasks, RunTasks or Waiting. */
  predicate BeforeDrained(pc: Pc) {
    !pc.SwapTasks? && !pc.RunTasks? && !pc.Waiting?
  }

  ghost predicate ParkedOk(f: Conn, c: Fd) {
    f.co.Parked? && f.coroutine == Some(c) && f.listen == {f.co.event}
  }

  /** What the hooks have done to the FdEvent of a coroutine that is running. */
  ghost predicate RunningOk(f: Conn, c: Fd, registered: bool) {
    match f.co
    case Running => f.listen == {} && f.coroutine == None
    case Trying(_) => f.listen == {} && f.coroutine == None
    case Arming(_) => f.listen == {} && f.coroutine == None
    case Armed(_) => f.listen == {} && f.coroutine == Some(c)
    case Yielding(e) => f.listen == {e} && f.coroutine == Some(c) && registered
    case Woken(e) => f.listen == {e} && f.coroutine == Some(c)
    case Disarmed(_) => f.listen == {} && f.coroutine == Some(c)
    case Leaving => f.listen == {} && f.coroutine == None && !registered
    case _ => false
  }

  ghost predicate ConnOk(s: State, p: Place, c: Fd)
    requires c in s.conns
  {
    var f := s.conns[c];
    match p
    case Nowhere => f.co.Unborn? && f.listen == {} && f.coroutine == None
    case Starting(r) =>
      r in s.loops && f == Conn(Some(r), None, {}, NotStarted) && Start(c) in Todo(s.loops[r])
    case On(r) =>
      && r in s.loops && s.loops[r].cur == Some(c) && f.reactor == Some(r)
      && RunningOk(f, c, c in s.loops[r].poll.kernel)
    case At(r) => r in s.loops && ParkedOk(f, c) && f.reactor == Some(r) && c in s.loops[r].poll.kernel
    case Lost => ParkedOk(f, c)
    case Stolen(r) =>
      && r in s.loops && ParkedOk(f, c)
      && (|| (s.loops[r].pc.Unregistered? && s.loops[r].pc.fd == c)
          || (s.loops[r].pc.Detached? && s.loops[r].pc.fd == c && f.reactor == None))
    case Queued => ParkedOk(f, c) && f.reactor == None && exists i :: 0 <= i < |s.queue| && s.queue[i].fd == c
    case Taken(r) =>
      && r in s.loops && ParkedOk(f, c)
      && (|| (s.loops[r].pc.Popped? && s.loops[r].pc.fd == c && f.reactor == None)
          || (s.loops[r].pc.Claimed? && s.loops[r].pc.fd == c && f.reactor == Some(r)))
    case Gone => f.co.Closed? && f.listen == {} && f.coroutine == None
  }

  ghost predicate KernelOk(s: State, p: Places, r: Rid)
    requires r in s.loops
  {
    var poll := s.loops[r].poll;
    && Agree(poll)
    && forall c :: c in poll.kernel ==>
         && c in s.conns && c in p && (p[c] == On(r) || p[c] == At(r))
         && poll.kernel[c] == s.conns[c].listen
  }

  ghost predicate TasksOk(l: Loop, p: Places, r: Rid) {
    && Distinct(Todo(l))
    && forall i :: 0 <= i < |Todo(l)| ==>
         Todo(l)[i].Start? && Todo(l)[i].fd in p && p[Todo(l)[i].fd] == Starting(r)
  }

  ghost predicate EventsOk(l: Loop, p: Places, r: Rid) {
    var events := Undelivered(l.pc);
    && (forall i, j :: 0 <= i < j < |events| ==> events[i].fd != events[j].fd)
    && (forall i :: 0 <= i < |events| ==>
          && events[i].fd in p && p[events[i].fd] == At(r)
          && (!l.pc.BatchResumed? ==> l.first != Some(events[i].fd)))
  }

  ghost predicate LoopOk(l: Loop, p: Places, r: Rid) {
    && (l.cur.Some? ==> l.cur.value in p && p[l.cur.value] == On(r))
    && (!OnMain(l) ==> l.pc.FirstResumed? || l.pc.Drain? || l.pc.RunTasks? || l.pc.BatchResumed?)
    && (l.first.Some? && !l.pc.FirstResumed? ==> l.first.value in p && p[l.first.value] == At(r))
    && (l.first.Some? ==> BeforeDrained(l.pc) && !l.pc.Drain? && !l.pc.Popped? && !l.pc.Claimed?)
    && (l.pc.Popped? || l.pc.Claimed? ==> l.pc.fd in p && p[l.pc.fd] == Taken(r))
    && (l.pc.Unregistered? || l.pc.Detached? ==>
          l.pc.fd in p && p[l.pc.fd] == Stolen(r) && l.kind.SubReactor?)
    && l.pendingAdd == map[] && l.pendingDel == []
    && (l.pc.ApplyPending? ==> l.pc.adds == map[] && l.pc.dels == [])
    && TasksOk(l, p, r)
    && EventsOk(l, p, r)
  }

  ghost predicate QueueOk(s: State, p: Places) {
    && (forall i, j :: 0 <= i < j < |s.queue| ==> s.queue[i].fd != s.queue[j].fd)
    && (forall i :: 0 <= i < |s.queue| ==>
          && s.queue[i].fd in p && p[s.queue[i].fd] == Queued
          && s.queue[i].pusher in s.loops
          && s.loops[s.queue[i].pusher].kind.SubReactor?
          && BeforeDrained(s.loops[s.queue[i].pusher].pc))
  }

  ghost predicate Fits(s: State, p: Places) {
    && p.Keys == s.conns.Keys
    && (forall c :: c in s.conns ==> ConnOk(s, p[c], c))
    && (forall r :: r in s.loops ==> KernelOk(s, p, r))
    && (forall r :: r in s.loops ==> LoopOk(s.loops[r], p, r))
    && QueueOk(s, p)
  }

  ghost predicate Inv(s: State) {
    exists p :: Fits(s, p)
  }

  function MoveTo(p: Places, c: Option<Fd>, place: Place): Places {
    if c.Some? then p[c.value := place] else p
  }

  /** Where each connection is after a step. */
  ghost function Moved(s: State, p: Places, r: Rid, a: Action): Places
    requires Enabled(s, r, a)
  {
    var l := s.loops[r];
    match a
    case Accept(fd) => p[fd := Starting(r)]
    case BeginFirst => MoveTo(p, l.first, On(r))
    case Pop => p[s.queue[0].fd := Taken(r)]
    case RunStolen => MoveTo(p, s.conns[l.pc.fd].coroutine, On(r))
    case RunTask => if l.pc.todo[0].Start? then p[l.pc.todo[0].fd := On(r)] else p
    case Handle =>
      var e := l.pc.events[0];
      if e.events == {} then p[e.fd := Lost]
      else if s.conns[e.fd].coroutine.None? || l.first.None? then p
      else if l.kind.SubReactor? then p[e.fd := Stolen(r)]
      else MoveTo(p, s.conns[e.fd].coroutine, On(r))
    case Push => p[l.pc.fd := Queued]
    case YieldParked => p[l.cur.value := At(r)]
    case CloseFd => p[l.cur.value := Gone]
    case _ => p
  }

  /** The reactor a place is tied to. */
  function Owner(p: Place): Option<Rid> {
    match p
    case Starting(r) => Some(r)
    case On(r) => Some(r)
    case At(r) => Some(r)
    case Stolen(r) => Some(r)
    case Taken(r) => Some(r)
    case _ => None
  }

  predicate NotOthers(p: Place, r: Rid) {
    Owner(p).None? || Owner(p).value == r
  }

  /** All that differs between the two states is thread r's loop, connection c and the queue. With no c, no connection changes. */
  ghost predicate OnlyChanges(s: State, p: Places, s': State, p': Places, r: Rid, c: Option<Fd>) {
    && r in s.loops && r in s'.loops && s'.loops == s.loops[r := s'.loops[r]]
    && s'.conns.Keys == s.conns.Keys && p'.Keys == p.Keys
    && (forall x :: x in s.conns && Some(x) != c ==> s'.conns[x] == s.conns[x])
    && (forall x :: x in p && Some(x) != c ==> p'[x] == p[x])
  }

  lemma LoopFrame(l: Loop, p: Places, p': Places, q: Rid, c: Option<Fd>)
    requires LoopOk(l, p, q)
    requires p'.Keys == p.Keys && forall x :: x in p && Some(x) != c ==> p'[x] == p[x]
    requires c.Some? && c.value in p ==> Owner(p[c.value]) != Some(q)
    ensures LoopOk(l, p', q)
  {
    forall i | 0 <= i < |Todo(l)| ensures Todo(l)[i].Start? && Todo(l)[i].fd in p' && p'[Todo(l)[i].fd] == Starting(q) {
      assert Some(Todo(l)[i].fd) != c;
    }
  }

  lemma KernelFrame(s: State, p: Places, s': State, p': Places, r: Rid, q: Rid, c: Option<Fd>)
    requires OnlyChanges(s, p, s', p', r, c) && q != r && q in s.loops
    requires KernelOk(s, p, q)
    requires c.Some? && c.value in p ==> Owner(p[c.value]) != Some(q)
    ensures KernelOk(s', p', q)
  {
    assert s'.loops[q] == s.loops[q];
  }

  lemma ConnFrame(s: State, p: Places, s': State, p': Places, r: Rid, x: Fd, c: Option<Fd>)
    requires OnlyChanges(s, p, s', p', r, c) && Some(x) != c && x in s.conns && x in p
    requires ConnOk(s, p[x], x) && Owner(p[x]) != Some(r) && p[x] != Queued
    ensures ConnOk(s', p'[x], x)
  {
    var o := Owner(p[x]);
    if o.Some? { assert s'.loops[o.value] == s.loops[o.value]; }
  }

  /** A step of thread r that moves at most connection c fits as soon as it fits locally. */
  lemma StepFits(s: State, p: Places, s': State, p': Places, r: Rid, c: Option<Fd>)
    requires Fits(s, p) && OnlyChanges(s, p, s', p', r, c)
    requires c.Some? && c.value in p ==> NotOthers(p[c.value], r)
    requires c.Some? && c.value in s.conns ==> ConnOk(s', p'[c.value], c.value)
    requires forall x :: x in s.conns && Some(x) != c && (Owner(p[x]) == Some(r) || p[x] == Queued) ==> ConnOk(s', p[x], x)
    requires KernelOk(s', p', r) && LoopOk(s'.loops[r], p', r) && QueueOk(s', p')
    ensures Fits(s', p')
  {
    forall x | x in s'.conns ensures ConnOk(s', p'[x], x) {
      if Some(x) != c && Owner(p[x]) != Some(r) && p[x] != Queued {
        assert ConnOk(s, p[x], x);
        ConnFrame(s, p, s', p', r, x, c);
      }
    }
    forall q | q in s'.loops ensures KernelOk(s', p', q) {
      if q != r { KernelFrame(s, p, s', p', r, q, c); }
    }
    forall q | q in s'.loops ensures LoopOk(s'.loops[q], p', q) {
      if q != r {
        assert LoopOk(s.loops[q], p, q);
        LoopFrame(s.loops[q], p, p', q, c);
      }
    }
  }

  /** A step of running coroutine c touches only its own FdEvent and its own thread's `cur` and epoll
      set; when those still fit, so does everything else. */
  lemma OwnStepFits(s: State, p: Places, r: Rid, c: Fd, place: Place, l: Loop, f: Conn)
    requires Fits(s, p) && r in s.loops && c in s.conns && p[c] == On(r)
    requires place == On(r) || place == At(r) || place == Gone
    requires l == s.loops[r].(cur := l.cur, leaving := l.leaving, poll := l.poll)
    requires l.cur == if place == On(r) then Some(c) else None
    requires ConnOk(SetConn(SetLoop(s, r, l), c, f), place, c)
    requires Agree(l.poll)
    requires forall x :: x != c ==> (x in l.poll.kernel <==> x in s.loops[r].poll.kernel)
    requires forall x :: x != c && x in l.poll.kernel ==> l.poll.kernel[x] == s.loops[r].poll.kernel[x]
    requires c in l.poll.kernel ==> l.poll.kernel[c] == f.listen && place != Gone
    ensures Fits(SetConn(SetLoop(s, r, l), c, f), p[c := place])
  {
    hide LoopOk, KernelOk, Agree, ConnOk, QueueOk;
    var s', p' := SetConn(SetLoop(s, r, l), c, f), p[c := place];
    OwnBefore(s, p, r, c);
    OwnLoopOk(s.loops[r], l, p, r, c, place);
    OwnKernelOk(s, p, s', p', r, c);
    QueueFrame(s, p, s', p', r, Some(c));
    forall x | x in s.conns && x != c && (Owner(p[x]) == Some(r) || p[x] == Queued)
      ensures ConnOk(s', p[x], x)
    {
      assert ConnOk(s, p[x], x);
      OwnConnFrame(s, p, r, c, l, f, x);
    }
    StepFits(s, p, s', p', r, Some(c));
  }

  lemma OwnBefore(s: State, p: Places, r: Rid, c: Fd)
    requires Fits(s, p) && r in s.loops && c in s.conns && p[c] == On(r)
    ensures s.loops[r].cur == Some(c) && KernelOk(s, p, r) && LoopOk(s.loops[r], p, r)
  {
    assert ConnOk(s, p[c], c);
    hide KernelOk, LoopOk;
  }

  lemma OwnKernelOk(s: State, p: Places, s': State, p': Places, r: Rid, c: Fd)
    requires r in s.loops && c in s.conns && KernelOk(s, p, r) && r in s'.loops && c in p'
    requires c in s'.conns && s' == SetConn(SetLoop(s, r, s'.loops[r]), c, s'.conns[c]) && p' == p[c := p'[c]]
    requires var l, l' := s.loops[r], s'.loops[r];
             && Agree(l'.poll)
             && (forall x :: x != c ==> (x in l'.poll.kernel <==> x in l.poll.kernel))
             && (forall x :: x != c && x in l'.poll.kernel ==> l'.poll.kernel[x] == l.poll.kernel[x])
             && (c in l'.poll.kernel ==>
                   l'.poll.kernel[c] == s'.conns[c].listen && (p'[c] == On(r) || p'[c] == At(r)))
    ensures KernelOk(s', p', r)
  {
    hide Agree;
  }

  lemma OwnConnFrame(s: State, p: Places, r: Rid, c: Fd, l: Loop, f: Conn, x: Fd)
    requires r in s.loops && c in s.conns && x in s.conns && x != c && x in p && ConnOk(s, p[x], x)
    requires s.loops[r].cur == Some(c)
    requires l == s.loops[r].(cur := l.cur, leaving := l.leaving, poll := l.poll)
    requires x in l.poll.kernel <==> x in s.loops[r].poll.kernel
    ensures ConnOk(SetConn(SetLoop(s, r, l), c, f), p[x], x)
  {
    assert Todo(l) == Todo(s.loops[r]);
  }

  /** A step that leaves the queue alone, and does not carry r past the point where it is drained. */
  lemma QueueFrame(s: State, p: Places, s': State, p': Places, r: Rid, c: Option<Fd>)
    requires OnlyChanges(s, p, s', p', r, c) && s'.queue == s.queue
    requires QueueOk(s, p)
    requires c.Some? && c.value in p ==> p[c.value] != Queued
    requires s.loops[r].kind.SubReactor? && BeforeDrained(s.loops[r].pc) ==> BeforeDrained(s'.loops[r].pc)
    requires s'.loops[r].kind == s.loops[r].kind
    ensures QueueOk(s', p')
  {
    forall i | 0 <= i < |s.queue|
      ensures s.queue[i].fd in p' && p'[s.queue[i].fd] == Queued
      ensures s.queue[i].pusher in s'.loops && s'.loops[s.queue[i].pusher].kind.SubReactor?
      ensures BeforeDrained(s'.loops[s.queue[i].pusher].pc)
    {
      var item := s.queue[i];
      assert p[item.fd] == Queued && Some(item.fd) != c;
    }
  }

  lemma OwnLoopOk(l: Loop, l': Loop, p: Places, r: Rid, c: Fd, place: Place)
    requires LoopOk(l, p, r) && l.cur == Some(c) && c in p && p[c] == On(r)
    requires l' == l.(cur := l'.cur, leaving := l'.leaving, poll := l'.poll)
    requires l'.cur == None || (l'.cur == Some(c) && place == On(r))
    ensures LoopOk(l', p[c := place], r)
  {
    assert Todo(l') == Todo(l) && Undelivered(l'.pc) == Undelivered(l.pc);
  }

  lemma RunningFacts(s: State, p: Places, r: Rid)
    requires Fits(s, p) && r in s.loops && s.loops[r].cur.Some?
    ensures
      var c := s.loops[r].cur.value;
      var kernel := s.loops[r].poll.kernel;
      && c in s.conns && c in p && p[c] == On(r) && s.conns[c].reactor == Some(r)
      && RunningOk(s.conns[c], c, c in kernel) && Agree(s.loops[r].poll)
      && (c in kernel ==> kernel[c] == s.conns[c].listen)
  {
    assert LoopOk(s.loops[r], p, r) && KernelOk(s, p, r);
    var c := s.loops[r].cur.value;
    assert ConnOk(s, p[c], c);
  }

  lemma RunningStepKeeps(s: State, p: Places, r: Rid, a: Action)
    requires Fits(s, p) && Enabled(s, r, a)
    requires a.CallHook? || a.IoDone? || a.IoBlocked? || a.SetCoroutine? || a.ClearCoroutine?
    ensures Fits(CoStep(s, r, a), p)
  {
    hide Fits;
    RunningFacts(s, p, r);
    var c := s.loops[r].cur.value;
    var s' := CoStep(s, r, a);
    assert s' == SetConn(SetLoop(s, r, s.loops[r]), c, s'.conns[c]);
    OwnStepFits(s, p, r, c, On(r), s.loops[r], s'.conns[c]);
    assert p == p[c := On(r)];
  }

  lemma YieldKeeps(s: State, p: Places, r: Rid, a: Action)
    requires Fits(s, p) && Enabled(s, r, a) && (a.YieldParked? || a.CloseFd?)
    ensures Fits(CoStep(s, r, a), Moved(s, p, r, a))
  {
    hide Fits;
    RunningFacts(s, p, r);
    var c := s.loops[r].cur.value;
    var s' := CoStep(s, r, a);
    var place, leaving := if a.YieldParked? then At(r) else Gone, s.loops[r].leaving || a.CloseFd?;
    OwnStepFits(s, p, r, c, place, s.loops[r].(cur := None, leaving := leaving), s'.conns[c]);
  }

  /** Telling the thread's own reactor about a new mask, with whatever it makes of the coroutine. */
  lemma UpdateFits(s: State, p: Places, r: Rid, c: Fd, listen: Mask, f: Conn)
    requires Fits(s, p) && r in s.loops && s.loops[r].cur == Some(c) && c in s.conns
    requires f.listen == listen && f.reactor == Some(r) && RunningOk(f, c, true)
    ensures
      var l := s.loops[r];
      Fits(SetConn(SetLoop(s, r, l.(poll := AddInLoop(l.poll, c, listen))), c, f), p)
  {
    hide Fits;
    RunningFacts(s, p, r);
    var l := s.loops[r];
    AddAgrees(l.poll, c, listen);
    OwnStepFits(s, p, r, c, On(r), l.(poll := AddInLoop(l.poll, c, listen)), f);
    assert p == p[c := On(r)];
  }

  lemma ListenKeeps(s: State, p: Places, r: Rid)
    requires Fits(s, p) && Enabled(s, r, Listen)
    ensures Fits(CoStep(s, r, Listen), p)
  {
    hide Fits;
    RunningFacts(s, p, r);
    var c, l := s.loops[r].cur.value, s.loops[r];
    var f := s.conns[c];
    var e := f.co.event;
    assert f.listen + {e} == {e};
    var f' := f.(listen := {e}, co := Yielding(e));
    UpdateFits(s, p, r, c, {e}, f');
    assert CoStep(s, r, Listen) == SetConn(SetLoop(s, r, l.(poll := AddInLoop(l.poll, c, {e}))), c, f');
  }

  lemma UnlistenIs(s: State, r: Rid, c: Fd, e: IOEvent)
    requires Enabled(s, r, Unlisten) && s.loops[r].cur == Some(c)
    requires s.conns[c].listen == {e} && s.conns[c].co == Woken(e) && s.conns[c].reactor == Some(r)
    ensures
      var l := s.loops[r];
      CoStep(s, r, Unlisten) == SetConn(SetLoop(s, r, l.(poll := AddInLoop(l.poll, c, {}))), c,
                                        s.conns[c].(listen := {}, co := Disarmed(e)))
  {
    assert {e} - {e} == {};
    assert DelListenEvents(s, r, c, e) == Update(s, r, c, {});
  }

  lemma UnlistenKeeps(s: State, p: Places, r: Rid)
    requires Fits(s, p) && Enabled(s, r, Unlisten)
    ensures Fits(CoStep(s, r, Unlisten), p)
  {
    hide Fits;
    RunningFacts(s, p, r);
    var c := s.loops[r].cur.value;
    var e := s.conns[c].co.event;
    UnlistenIs(s, r, c, e);
    UpdateFits(s, p, r, c, {}, s.conns[c].(listen := {}, co := Disarmed(e)));
  }

  lemma UnregisterKeeps(s: State, p: Places, r: Rid)
    requires Fits(s, p) && Enabled(s, r, Unregister)
    ensures Fits(CoStep(s, r, Unregister), p)
  {
    hide Fits;
    RunningFacts(s, p, r);
    var c, l := s.loops[r].cur.value, s.loops[r];
    var s' := CoStep(s, r, Unregister);
    DelAgrees(l.poll, c);
    var l' := l.(poll := DelInLoop(l.poll, c));
    assert s' == SetConn(SetLoop(s, r, l'), c, s'.conns[c]);
    OwnStepFits(s, p, r, c, On(r), l', s'.conns[c]);
    assert p == p[c := On(r)];
  }

  predicate Holds(pc: Pc) {
    pc.Unregistered? || pc.Detached? || pc.Popped? || pc.Claimed?
  }

  predicate InQueue(queue: seq<Item>, c: Fd) {
    exists i :: 0 <= i < |queue| && queue[i].fd == c
  }

  /** What thread r's loop may do to the connections it does not move: keep their start tasks, their
      registrations and their queue entries. */
  ghost predicate Keeps(l: Loop, l': Loop, c: Option<Fd>) {
    && (forall x: Fd :: Start(x) in Todo(l) && Some(x) != c ==> Start(x) in Todo(l'))
    && (forall x: Fd :: Some(x) != c ==> (x in l.poll.kernel <==> x in l'.poll.kernel))
    && (l.cur.Some? && l.cur != c ==> l'.cur == l.cur)
    && (Holds(l.pc) ==> c == Some(l.pc.fd) || l'.pc == l.pc)
  }

  lemma LoopStepFits(s: State, p: Places, s': State, p': Places, r: Rid, c: Option<Fd>)
    requires Fits(s, p) && OnlyChanges(s, p, s', p', r, c)
    requires c.Some? && c.value in p ==> NotOthers(p[c.value], r)
    requires c.Some? && c.value in s.conns ==> ConnOk(s', p'[c.value], c.value)
    requires Keeps(s.loops[r], s'.loops[r], c)
    requires forall x: Fd :: InQueue(s.queue, x) && Some(x) != c ==> InQueue(s'.queue, x)
    requires KernelOk(s', p', r) && LoopOk(s'.loops[r], p', r) && QueueOk(s', p')
    ensures Fits(s', p')
  {
    forall x | x in s.conns && Some(x) != c && (Owner(p[x]) == Some(r) || p[x] == Queued)
      ensures ConnOk(s', p[x], x)
    {
      assert ConnOk(s, p[x], x);
      hide Fits;
      KeptConn(s, p, s', p', r, c, x);
    }
    hide ConnOk, Keeps, InQueue, Owner, KernelOk, LoopOk, QueueOk;
    StepFits(s, p, s', p', r, c);
  }

  lemma KeptConn(s: State, p: Places, s': State, p': Places, r: Rid, c: Option<Fd>, x: Fd)
    requires OnlyChanges(s, p, s', p', r, c) && x in s.conns && x in p && Some(x) != c && ConnOk(s, p[x], x)
    requires Owner(p[x]) == Some(r) || p[x] == Queued
    requires Keeps(s.loops[r], s'.loops[r], c)
    requires InQueue(s.queue, x) ==> InQueue(s'.queue, x)
    ensures ConnOk(s', p[x], x)
  {
    if p[x] == Queued { assert InQueue(s.queue, x); }
    hide Todo, RunningOk, ParkedOk;
  }

  lemma FitsLoop(s: State, p: Places, r: Rid)
    requires Fits(s, p) && r in s.loops
    ensures p.Keys == s.conns.Keys && LoopOk(s.loops[r], p, r) && KernelOk(s, p, r) && QueueOk(s, p)
  {
  }

  /** A step that only moves the pc, the tasks and first_coroutine. */
  lemma PcStepFits(s: State, p: Places, r: Rid, l: Loop)
    requires Fits(s, p) && r in s.loops
    requires l == s.loops[r].(pc := l.pc, leaving := l.leaving, tasks := l.tasks, first := l.first,
                              pendingAdd := l.pendingAdd, pendingDel := l.pendingDel)
    requires Keeps(s.loops[r], l, None)
    requires LoopOk(l, p, r)
    requires s.loops[r].kind.SubReactor? && BeforeDrained(s.loops[r].pc) && s.queue != [] ==> BeforeDrained(l.pc)
    ensures Fits(SetLoop(s, r, l), p)
  {
    hide *;
    FitsLoop(s, p, r);
    PcChanges(s, p, r, l);
    PcKernelOk(s, p, r, l);
    PcQueueOk(s, p, r, l);
    LoopStepFits(s, p, SetLoop(s, r, l), p, r, None);
  }

  lemma PcChanges(s: State, p: Places, r: Rid, l: Loop)
    requires r in s.loops
    ensures
      var s' := SetLoop(s, r, l);
      OnlyChanges(s, p, s', p, r, None) && s'.queue == s.queue && s'.loops[r] == l
  {
  }

  lemma PcQueueOk(s: State, p: Places, r: Rid, l: Loop)
    requires r in s.loops && QueueOk(s, p) && l.kind == s.loops[r].kind
    requires s.loops[r].kind.SubReactor? && BeforeDrained(s.loops[r].pc) && s.queue != [] ==> BeforeDrained(l.pc)
    ensures QueueOk(SetLoop(s, r, l), p)
  {
    hide BeforeDrained, OnlyChanges;
    PcChanges(s, p, r, l);
    if s.queue != [] { QueueFrame(s, p, SetLoop(s, r, l), p, r, None); }
  }

  lemma PcKernelOk(s: State, p: Places, r: Rid, l: Loop)
    requires r in s.loops && KernelOk(s, p, r) && l.poll == s.loops[r].poll
    ensures KernelOk(SetLoop(s, r, l), p, r)
  {
    hide Agree;
  }

  predicate Quiet(a: Action) {
    a.Stop? || a.SkipFirst? || a.EndFirst? || a.QueueEmpty? || a.TakeTasks? || a.TasksDone?
    || a.WaitFailed? || a.EndBatchResume? || a.BatchDone? || a.TakePending? || a.ApplyDone?
  }

  lemma QuietShape(s: State, r: Rid, a: Action)
    requires Enabled(s, r, a) && Quiet(a)
    ensures
      var l, l' := s.loops[r], LoopStep(s, r, a).loops[r];
      && LoopStep(s, r, a) == SetLoop(s, r, l')
      && l' == l.(pc := l'.pc, tasks := l'.tasks, first := l'.first,
                  pendingAdd := l'.pendingAdd, pendingDel := l'.pendingDel)
      && Todo(l') == Todo(l) && !Holds(l.pc) && OnMain(l)
      && (l.kind.SubReactor? && BeforeDrained(l.pc) && s.queue != [] ==> BeforeDrained(l'.pc))
  {
    assert Todo(LoopStep(s, r, a).loops[r]) == Todo(s.loops[r]);
  }

  /** Those up to epoll_wait. */
  predicate QuietFirstHalf(a: Action) {
    a.Stop? || a.SkipFirst? || a.EndFirst? || a.QueueEmpty? || a.TakeTasks? || a.TasksDone?
  }

  lemma QuietLoopOk(s: State, p: Places, r: Rid, a: Action)
    requires Enabled(s, r, a) && Quiet(a) && LoopOk(s.loops[r], p, r)
    ensures LoopOk(LoopStep(s, r, a).loops[r], p, r)
  {
    hide Enabled, LoopStep, LoopOk;
    if QuietFirstHalf(a) { QuietFirstHalfOk(s, p, r, a); } else { QuietSecondHalfOk(s, p, r, a); }
  }

  lemma QuietFirstHalfOk(s: State, p: Places, r: Rid, a: Action)
    requires Enabled(s, r, a) && QuietFirstHalf(a) && LoopOk(s.loops[r], p, r)
    ensures LoopOk(LoopStep(s, r, a).loops[r], p, r)
  {
    var l, l' := s.loops[r], LoopStep(s, r, a).loops[r];
    QuietParts(l, l', p, r) by { QuietShape(s, r, a); }
    hide TasksOk, EventsOk;
  }

  lemma QuietSecondHalfOk(s: State, p: Places, r: Rid, a: Action)
    requires Enabled(s, r, a) && Quiet(a) && !QuietFirstHalf(a) && LoopOk(s.loops[r], p, r)
    ensures LoopOk(LoopStep(s, r, a).loops[r], p, r)
  {
    hide TasksOk, EventsOk;
    var l, l' := s.loops[r], LoopStep(s, r, a).loops[r];
    QuietParts(l, l', p, r) by { QuietShape(s, r, a); }
  }

  lemma QuietParts(l: Loop, l': Loop, p: Places, r: Rid)
    requires TasksOk(l, p, r) && EventsOk(l, p, r)
    requires Todo(l') == Todo(l)
    requires
      || Undelivered(l'.pc) == []
      || (Undelivered(l'.pc) == Undelivered(l.pc)
          && (l'.first == None || (l'.first == l.first && !l.pc.BatchResumed?)))
    ensures TasksOk(l', p, r) && EventsOk(l', p, r)
  {
  }

  /** The steps of Reactor::loop that move no connection. */
  lemma QuietStepKeeps(s: State, p: Places, r: Rid, a: Action)
    requires Fits(s, p) && Enabled(s, r, a) && Quiet(a)
    ensures Fits(LoopStep(s, r, a), p)
  {
    FitsLoop(s, p, r);
    QuietShape(s, r, a);
    QuietLoopOk(s, p, r, a);
    hide Fits, LoopStep, LoopOk, Enabled;
    PcStepFits(s, p, r, LoopStep(s, r, a).loops[r]);
  }

  lemma DeliverKeeps(s: State, p: Places, r: Rid, events: seq<Ready>)
    requires Fits(s, p) && Enabled(s, r, Deliver(events))
    ensures Fits(LoopStep(s, r, Deliver(events)), p)
  {
    hide *;
    DeliverIs(s, r, events);
    FitsLoop(s, p, r);
    DeliveredAreHere(s, p, r, events);
    DeliverLoopOk(s.loops[r], p, r, events);
    PcStepFits(s, p, r, s.loops[r].(pc := Batch(events)));
  }

  lemma DeliverIs(s: State, r: Rid, events: seq<Ready>)
    requires Enabled(s, r, Deliver(events))
    ensures r in s.loops && OnMain(s.loops[r]) && s.loops[r].pc.Waiting? && Deliverable(s.loops[r].poll.kernel, events)
    ensures LoopStep(s, r, Deliver(events)) == SetLoop(s, r, s.loops[r].(pc := Batch(events)))
    ensures BeforeDrained(Batch(events))
  {
  }

  lemma DeliveredAreHere(s: State, p: Places, r: Rid, events: seq<Ready>)
    requires Fits(s, p) && r in s.loops && OnMain(s.loops[r]) && Deliverable(s.loops[r].poll.kernel, events)
    ensures forall i :: 0 <= i < |events| ==> events[i].fd in p && p[events[i].fd] == At(r)
  {
    hide QueueOk, LoopOk;
    FitsLoop(s, p, r);
    forall i | 0 <= i < |events| ensures events[i].fd in p && p[events[i].fd] == At(r) {
      var c := events[i].fd;
      assert c in s.loops[r].poll.kernel;
      assert ConnOk(s, p[c], c);
    }
  }

  lemma DeliverLoopOk(l: Loop, p: Places, r: Rid, events: seq<Ready>)
    requires LoopOk(l, p, r) && l.pc.Waiting? && Deliverable(l.poll.kernel, events)
    requires forall i :: 0 <= i < |events| ==> events[i].fd in p && p[events[i].fd] == At(r)
    ensures LoopOk(l.(pc := Batch(events)), p, r) && Keeps(l, l.(pc := Batch(events)), None)
  {
    assert Todo(l.(pc := Batch(events))) == Todo(l);
  }

  /** A resume of a connection that is parked or has not started is never refused. */
  lemma ResumeIs(s: State, p: Places, r: Rid, c: Fd, l: Loop)
    requires r in s.loops && c in s.conns && c in p && OnMain(s.loops[r])
    requires p[c] == At(r) || p[c] == Starting(r) || (p[c] == Taken(r) && s.conns[c].reactor == Some(r))
    requires l == s.loops[r].(pc := l.pc, cur := Some(c))
    requires ConnOk(s, p[c], c) && KernelOk(s, p, r)
    ensures
      var s', p' := Resume(SetPc(s, r, l.pc), r, Some(c)), p[c := On(r)];
      && s' == SetConn(SetLoop(s, r, l), c, s'.conns[c])
      && ConnOk(s', On(r), c) && KernelOk(s', p', r)
  {
  }

  lemma ResumeFits(s: State, p: Places, r: Rid, c: Fd, l: Loop)
    requires Fits(s, p) && r in s.loops && c in s.conns && OnMain(s.loops[r])
    requires p[c] == At(r) || p[c] == Starting(r) || (p[c] == Taken(r) && s.conns[c].reactor == Some(r))
    requires l == s.loops[r].(pc := l.pc, cur := Some(c))
    requires Keeps(s.loops[r], l, Some(c))
    requires LoopOk(l, p[c := On(r)], r)
    requires s.loops[r].kind.SubReactor? && BeforeDrained(s.loops[r].pc) ==> BeforeDrained(l.pc)
    ensures Fits(Resume(SetPc(s, r, l.pc), r, Some(c)), p[c := On(r)])
  {
    FitsLoop(s, p, r);
    FitsConn(s, p, c);
    ResumeIs(s, p, r, c, l);
    hide *;
    SteppedFits(s, p, Resume(SetPc(s, r, l.pc), r, Some(c)), p[c := On(r)], r, c, l);
  }

  /** A loop step that changes loop r to l, moves c, and leaves the queue alone. */
  lemma SteppedFits(s: State, p: Places, s': State, p': Places, r: Rid, c: Fd, l: Loop)
    requires Fits(s, p) && r in s.loops && c in s.conns
    requires c in s'.conns && s' == SetConn(SetLoop(s, r, l), c, s'.conns[c])
    requires c in p' && p' == p[c := p'[c]]
    requires p[c] != Queued && NotOthers(p[c], r)
    requires ConnOk(s', p'[c], c) && KernelOk(s', p', r) && LoopOk(l, p', r)
    requires Keeps(s.loops[r], l, Some(c)) && l.kind == s.loops[r].kind
    requires l.kind.SubReactor? && BeforeDrained(s.loops[r].pc) ==> BeforeDrained(l.pc)
    ensures Fits(s', p')
  {
    hide Fits, ConnOk, KernelOk, LoopOk, QueueOk, Keeps, InQueue;
    FitsLoop(s, p, r);
    QueueFrame(s, p, s', p', r, Some(c));
    LoopStepFits(s, p, s', p', r, Some(c));
  }

  lemma FitsConn(s: State, p: Places, c: Fd)
    requires Fits(s, p) && c in s.conns
    ensures ConnOk(s, p[c], c)
  {
  }

  lemma TodoSame(l: Loop, l': Loop)
    requires l'.tasks == l.tasks && !l.pc.RunTasks? && !l'.pc.RunTasks?
    ensures Todo(l') == Todo(l)
  {
  }

  lemma BeginFirstFits(s: State, p: Places, r: Rid)
    requires Fits(s, p) && r in s.loops
    requires var l := s.loops[r]; OnMain(l) && l.pc.Top? && l.first.Some?
    ensures
      var c := s.loops[r].first;
      Fits(Resume(SetPc(s, r, FirstResumed), r, c), MoveTo(p, c, On(r)))
  {
    FitsLoop(s, p, r);
    hide Fits, KernelOk, QueueOk;
    var l := s.loops[r];
    var l' := l.(pc := FirstResumed, cur := l.first);
    TodoSame(l, l');
    ResumeFits(s, p, r, l.first.value, l');
  }

  lemma RunStolenFits(s: State, p: Places, r: Rid)
    requires Fits(s, p) && r in s.loops
    requires var l := s.loops[r]; OnMain(l) && l.pc.Claimed? && l.pc.fd in s.conns
    ensures
      var c := s.conns[s.loops[r].pc.fd].coroutine;
      Fits(Resume(SetPc(s, r, Drain), r, c), MoveTo(p, c, On(r)))
  {
    FitsLoop(s, p, r);
    var l := s.loops[r];
    FitsConn(s, p, l.pc.fd);
    hide Fits, KernelOk, QueueOk;
    var l' := l.(pc := Drain, cur := Some(l.pc.fd));
    TodoSame(l, l');
    ResumeFits(s, p, r, l.pc.fd, l');
  }

  lemma RunTaskFits(s: State, p: Places, r: Rid)
    requires Fits(s, p) && r in s.loops
    requires var l := s.loops[r]; OnMain(l) && l.pc.RunTasks? && l.pc.todo != []
    ensures
      var l := s.loops[r];
      var c := l.pc.todo[0].fd;
      && l.pc.todo[0].Start?
      && Fits(Resume(SetPc(s, r, RunTasks(l.pc.todo[1..])), r, Some(c)), p[c := On(r)])
  {
    FitsLoop(s, p, r);
    var l := s.loops[r];
    RunTaskLoopOk(l, p, r);
    var c := l.pc.todo[0].fd;
    var l' := l.(pc := RunTasks(l.pc.todo[1..]), cur := Some(c));
    hide *;
    assert c in s.conns;
    RunTaskBefore(l, l');
    ResumeFits(s, p, r, c, l');
  }

  lemma RunTaskBefore(l: Loop, l': Loop)
    requires l.pc.RunTasks?
    ensures BeforeDrained(l.pc) ==> BeforeDrained(l'.pc)
  {
  }

  lemma RunTaskLoopOk(l: Loop, p: Places, r: Rid)
    requires LoopOk(l, p, r) && OnMain(l) && l.pc.RunTasks? && l.pc.todo != []
    ensures
      var c := l.pc.todo[0].fd;
      var l' := l.(pc := RunTasks(l.pc.todo[1..]), cur := Some(c));
      && l.pc.todo[0].Start? && c in p && p[c] == Starting(r)
      && LoopOk(l', p[c := On(r)], r) && Keeps(l, l', Some(c))
  {
    var c := l.pc.todo[0].fd;
    var l' := l.(pc := RunTasks(l.pc.todo[1..]), cur := Some(c));
    FirstTask(l, l', p, r, c);
    assert EventsOk(l', p[c := On(r)], r);
    hide Todo, TasksOk, EventsOk;
  }

  lemma FirstTask(l: Loop, l': Loop, p: Places, r: Rid, c: Fd)
    requires TasksOk(l, p, r) && l.pc.RunTasks? && l.pc.todo != [] && c == l.pc.todo[0].fd
    requires l' == l.(pc := RunTasks(l.pc.todo[1..]), cur := Some(c))
    ensures l.pc.todo[0].Start? && c in p && p[c] == Starting(r) && TasksOk(l', p[c := On(r)], r)
    ensures forall x: Fd :: Start(x) in Todo(l) && x != c ==> Start(x) in Todo(l')
  {
    assert Todo(l)[0] == l.pc.todo[0];
    assert Todo(l) == [Todo(l)[0]] + Todo(l');
    assert forall i :: 0 <= i < |Todo(l')| ==> Todo(l')[i] == Todo(l)[i + 1];
    hide Todo;
  }

  lemma AcceptFits(s: State, p: Places, r: Rid, c: Fd)
    requires Fits(s, p) && r in s.loops && c in s.conns && (s.conns[c].co.Unborn? || s.conns[c].co.Closed?)
    ensures
      var l := s.loops[r];
      Fits(SetConn(SetLoop(s, r, l.(tasks := l.tasks + [Start(c)])), c,
                   s.conns[c].(reactor := Some(r), co := NotStarted)),
           p[c := Starting(r)])
  {
    FitsLoop(s, p, r);
    FitsConn(s, p, c);
    var l := s.loops[r];
    var l' := l.(tasks := l.tasks + [Start(c)]);
    var s' := SetConn(SetLoop(s, r, l'), c, s.conns[c].(reactor := Some(r), co := NotStarted));
    AcceptConnOk(s, p[c], r, c);
    AcceptLoopOk(l, p, r, c);
    AcceptKernelOk(s, p, s', r, c);
    hide *;
    SteppedFits(s, p, s', p[c := Starting(r)], r, c, l');
  }

  lemma AcceptConnOk(s: State, place: Place, r: Rid, c: Fd)
    requires c in s.conns && r in s.loops && ConnOk(s, place, c) && (s.conns[c].co.Unborn? || s.conns[c].co.Closed?)
    ensures
      var l := s.loops[r];
      ConnOk(SetConn(SetLoop(s, r, l.(tasks := l.tasks + [Start(c)])), c,
                     s.conns[c].(reactor := Some(r), co := NotStarted)), Starting(r), c)
    ensures place == Nowhere || place == Gone
  {
    var l := s.loops[r];
    var l' := l.(tasks := l.tasks + [Start(c)]);
    assert Todo(l') == Todo(l) + [Start(c)];
    assert Todo(l')[|Todo(l)|] == Start(c);
    hide Todo;
  }

  lemma AcceptKernelOk(s: State, p: Places, s': State, r: Rid, c: Fd)
    requires r in s.loops && c in s.conns && c in p && KernelOk(s, p, r) && (p[c] == Nowhere || p[c] == Gone)
    requires
      var l := s.loops[r];
      s' == SetConn(SetLoop(s, r, l.(tasks := l.tasks + [Start(c)])), c, s.conns[c].(reactor := Some(r), co := NotStarted))
    ensures KernelOk(s', p[c := Starting(r)], r)
  {
    hide Agree;
  }

  lemma AcceptLoopOk(l: Loop, p: Places, r: Rid, c: Fd)
    requires LoopOk(l, p, r) && c in p && (p[c] == Nowhere || p[c] == Gone)
    ensures
      var l' := l.(tasks := l.tasks + [Start(c)]);
      LoopOk(l', p[c := Starting(r)], r) && Keeps(l, l', Some(c))
  {
    var l' := l.(tasks := l.tasks + [Start(c)]);
    assert Todo(l') == Todo(l) + [Start(c)];
    hide Todo;
  }

  ghost predicate HandOver(s: State, r: Rid, c: Fd, pc: Pc, owner: Option<Rid>) {
    && r in s.loops && c in s.conns && OnMain(s.loops[r])
    && var before := s.loops[r].pc;
    (|| (before == Popped(c) && pc == Claimed(c) && owner == Some(r))
     || (before.Unregistered? && before.fd == c && pc == Detached(c, before.events) && owner == None))
  }

  lemma HandOverLocal(s: State, p: Places, r: Rid, c: Fd, pc: Pc, owner: Option<Rid>)
    requires HandOver(s, r, c, pc, owner) && LoopOk(s.loops[r], p, r) && KernelOk(s, p, r)
    requires c in p && ConnOk(s, p[c], c)
    ensures
      var l, l' := s.loops[r], s.loops[r].(pc := pc);
      var s' := SetConn(SetPc(s, r, pc), c, s.conns[c].(reactor := owner));
      && LoopOk(l', p, r) && KernelOk(s', p, r) && ConnOk(s', p[c], c) && Keeps(l, l', Some(c))
      && p[c] != Queued && NotOthers(p[c], r)
  {
    var l, l' := s.loops[r], s.loops[r].(pc := pc);
    TodoSame(l, l');
    assert Undelivered(l'.pc) == Undelivered(l.pc);
  }

  /** Claiming a popped connection, or detaching one to be pushed: it stays with thread r. */
  lemma HandOverFits(s: State, p: Places, r: Rid, c: Fd, pc: Pc, owner: Option<Rid>)
    requires Fits(s, p) && HandOver(s, r, c, pc, owner)
    ensures Fits(SetConn(SetPc(s, r, pc), c, s.conns[c].(reactor := owner)), p)
  {
    FitsLoop(s, p, r);
    FitsConn(s, p, c);
    hide Fits, QueueOk, KernelOk, LoopOk, ConnOk, Keeps;
    HandOverLocal(s, p, r, c, pc, owner);
    assert p == p[c := p[c]];
    SteppedFits(s, p, SetConn(SetPc(s, r, pc), c, s.conns[c].(reactor := owner)), p, r, c, s.loops[r].(pc := pc));
  }

  /** An entry of the batch taken out of the epoll set, for an error or to be pushed. */
  lemma TakeOutFits(s: State, p: Places, r: Rid, place: Place, pc: Pc)
    requires Fits(s, p) && r in s.loops && OnMain(s.loops[r])
    requires s.loops[r].pc.Batch? && s.loops[r].pc.events != [] && s.loops[r].pc.events[0].fd in s.conns
    requires
      var c, rest := s.loops[r].pc.events[0].fd, s.loops[r].pc.events[1..];
      || (place == Lost && pc == Batch(rest))
      || (place == Stolen(r) && pc == Unregistered(c, rest) && s.loops[r].kind.SubReactor?)
    ensures
      var l := s.loops[r];
      var c := l.pc.events[0].fd;
      Fits(SetLoop(s, r, l.(pc := pc, poll := DelInLoop(l.poll, c))), p[c := place])
  {
    var l := s.loops[r];
    var c := l.pc.events[0].fd;
    TakeOutPc(pc);
    hide *;
    FitsLoop(s, p, r);
    FitsConn(s, p, c);
    KernelAgrees(s, p, r);
    TakeOutLoopOk(l, p, r, place, pc);
    TakeOutKernelOk(s, p, r, c, place, pc);
    TakeOutKeeps(s, p, r, c, place, pc);
    TakenOutFits(s, p, r, c, place, l.(pc := pc, poll := DelInLoop(l.poll, c)));
  }

  lemma TakeOutPc(pc: Pc)
    ensures pc.Batch? || pc.Unregistered? ==> BeforeDrained(pc)
  {
  }

  lemma KernelAgrees(s: State, p: Places, r: Rid)
    requires r in s.loops && KernelOk(s, p, r)
    ensures Agree(s.loops[r].poll)
  {
  }

  lemma TakenOutFits(s: State, p: Places, r: Rid, c: Fd, place: Place, l: Loop)
    requires Fits(s, p) && r in s.loops && c in s.conns && p[c] == At(r)
    requires ConnOk(SetLoop(s, r, l), place, c) && KernelOk(SetLoop(s, r, l), p[c := place], r)
    requires LoopOk(l, p[c := place], r) && Keeps(s.loops[r], l, Some(c)) && l.kind == s.loops[r].kind
    requires l.kind.SubReactor? && BeforeDrained(s.loops[r].pc) ==> BeforeDrained(l.pc)
    ensures Fits(SetLoop(s, r, l), p[c := place])
  {
    hide ConnOk, KernelOk, LoopOk, Keeps, BeforeDrained;
    assert c in p;
    hide Fits;
    var s' := SetLoop(s, r, l);
    assert s.conns == s.conns[c := s.conns[c]];
    SteppedFits(s, p, s', p[c := place], r, c, l);
  }

  lemma TakeOutKeeps(s: State, p: Places, r: Rid, c: Fd, place: Place, pc: Pc)
    requires r in s.loops && c in s.conns && ConnOk(s, At(r), c) && Agree(s.loops[r].poll)
    requires s.loops[r].pc.Batch?
    requires
      || (place == Lost && pc.Batch?)
      || (place == Stolen(r) && pc.Unregistered? && pc.fd == c)
    ensures
      var l := s.loops[r];
      var l' := l.(pc := pc, poll := DelInLoop(l.poll, c));
      && ConnOk(SetLoop(s, r, l'), place, c)
      && Keeps(l, l', Some(c))
  {
    DelAgrees(s.loops[r].poll, c);
    TodoSame(s.loops[r], s.loops[r].(pc := pc, poll := DelInLoop(s.loops[r].poll, c)));
  }

  lemma TakeOutKernelOk(s: State, p: Places, r: Rid, c: Fd, place: Place, pc: Pc)
    requires r in s.loops && KernelOk(s, p, r) && c in p
    ensures KernelOk(SetLoop(s, r, s.loops[r].(pc := pc, poll := DelInLoop(s.loops[r].poll, c))), p[c := place], r)
  {
    DelAgrees(s.loops[r].poll, c);
  }

  lemma TakeOutLoopOk(l: Loop, p: Places, r: Rid, place: Place, pc: Pc)
    requires LoopOk(l, p, r) && l.pc.Batch? && l.pc.events != []
    requires
      var c, rest := l.pc.events[0].fd, l.pc.events[1..];
      || (place == Lost && pc == Batch(rest))
      || (place == Stolen(r) && pc == Unregistered(c, rest) && l.kind.SubReactor?)
    ensures l.pc.events[0].fd in p && p[l.pc.events[0].fd] == At(r) && OnMain(l)
    ensures LoopOk(l.(pc := pc, poll := DelInLoop(l.poll, l.pc.events[0].fd)), p[l.pc.events[0].fd := place], r)
  {
    var c := l.pc.events[0].fd;
    var l' := l.(pc := pc, poll := DelInLoop(l.poll, c));
    assert Undelivered(l.pc)[0].fd == c;
    assert Todo(l') == Todo(l);
    assert p[c] == At(r);
    assert Undelivered(pc) == Undelivered(l.pc)[1..];
  }

  lemma HeadEvent(s: State, p: Places, r: Rid)
    requires Fits(s, p) && Enabled(s, r, Handle)
    ensures
      var c := s.loops[r].pc.events[0].fd;
      && c in p && p[c] == At(r) && s.conns[c].coroutine == Some(c) && LoopOk(s.loops[r], p, r)
      && p.Keys == s.conns.Keys
  {
    FitsLoop(s, p, r);
    var l := s.loops[r];
    assert Undelivered(l.pc)[0] == l.pc.events[0];
    FitsConn(s, p, l.pc.events[0].fd);
    hide Fits, KernelOk, QueueOk;
  }

  /** What Handle does, and what it moves, in its four cases. */
  lemma HandleCases(s: State, p: Places, r: Rid)
    requires Enabled(s, r, Handle) && s.conns[s.loops[r].pc.events[0].fd].coroutine == Some(s.loops[r].pc.events[0].fd)
    ensures
      var l := s.loops[r];
      var e, rest := l.pc.events[0], l.pc.events[1..];
      var s', p' := HandleEvent(s, r), Moved(s, p, r, Handle);
      if e.events == {} then
        s' == SetLoop(s, r, l.(pc := Batch(rest), poll := DelInLoop(l.poll, e.fd))) && p' == p[e.fd := Lost]
      else if l.first.None? then
        s' == SetLoop(s, r, l.(pc := Batch(rest), first := Some(e.fd))) && p' == p
      else if l.kind.SubReactor? then
        && s' == SetLoop(s, r, l.(pc := Unregistered(e.fd, rest), poll := DelInLoop(l.poll, e.fd)))
        && p' == p[e.fd := Stolen(r)]
      else
        s' == Resume(SetPc(s, r, BatchResumed(rest)), r, Some(e.fd)) && p' == p[e.fd := On(r)]
  {
    hide DelInLoop, Resume, SetLoop;
  }

  lemma HandleEnabled(s: State, r: Rid)
    requires Enabled(s, r, Handle)
    ensures r in s.loops && OnMain(s.loops[r]) && s.loops[r].pc.Batch? && s.loops[r].pc.events != []
    ensures s.loops[r].pc.events[0].fd in s.conns
  {
  }

  lemma HandleFits(s: State, p: Places, r: Rid)
    requires Fits(s, p) && Enabled(s, r, Handle)
    ensures Fits(HandleEvent(s, r), Moved(s, p, r, Handle))
  {
    hide *;
    HandleEnabled(s, r);
    HeadEvent(s, p, r);
    HandleCases(s, p, r);
    var l := s.loops[r];
    var e, rest := l.pc.events[0], l.pc.events[1..];
    if e.events == {} {
      TakeOutFits(s, p, r, Lost, Batch(rest));
    } else if l.first.None? {
      HandleFirst(s, p, r);
    } else if l.kind.SubReactor? {
      TakeOutFits(s, p, r, Stolen(r), Unregistered(e.fd, rest));
    } else {
      HandleResumed(s, p, r);
    }
  }

  lemma HandleFirst(s: State, p: Places, r: Rid)
    requires Fits(s, p) && r in s.loops && LoopOk(s.loops[r], p, r)
    requires var l := s.loops[r]; l.pc.Batch? && l.pc.events != [] && l.first.None?
    requires p.Keys == s.conns.Keys
    ensures
      var l := s.loops[r];
      Fits(SetLoop(s, r, l.(pc := Batch(l.pc.events[1..]), first := Some(l.pc.events[0].fd))), p)
  {
    var l := s.loops[r];
    var l' := l.(pc := Batch(l.pc.events[1..]), first := Some(l.pc.events[0].fd));
    assert BeforeDrained(l'.pc);
    hide *;
    FirstLoopOk(l, p, r);
    PcStepFits(s, p, r, l');
  }

  lemma HandleResumed(s: State, p: Places, r: Rid)
    requires Fits(s, p) && r in s.loops && LoopOk(s.loops[r], p, r)
    requires var l := s.loops[r]; OnMain(l) && l.pc.Batch? && l.pc.events != [] && l.kind.MainReactor?
    requires var c := s.loops[r].pc.events[0].fd; c in p && c in s.conns && p[c] == At(r)
    requires p.Keys == s.conns.Keys
    ensures
      var l := s.loops[r];
      var c := l.pc.events[0].fd;
      Fits(Resume(SetPc(s, r, BatchResumed(l.pc.events[1..])), r, Some(c)), p[c := On(r)])
  {
    var l := s.loops[r];
    var c, pc := l.pc.events[0].fd, BatchResumed(l.pc.events[1..]);
    assert BeforeDrained(pc);
    hide *;
    BatchResumeLoopOk(l, p, r);
    ResumeFits(s, p, r, c, l.(pc := pc, cur := Some(c)));
  }

  lemma FirstLoopOk(l: Loop, p: Places, r: Rid)
    requires LoopOk(l, p, r) && l.pc.Batch? && l.pc.events != [] && l.first.None?
    ensures
      var l' := l.(pc := Batch(l.pc.events[1..]), first := Some(l.pc.events[0].fd));
      LoopOk(l', p, r) && Keeps(l, l', None)
  {
    var l' := l.(pc := Batch(l.pc.events[1..]), first := Some(l.pc.events[0].fd));
    assert Undelivered(l.pc)[0] == l.pc.events[0];
    assert Undelivered(l'.pc) == Undelivered(l.pc)[1..];
    TodoSame(l, l');
  }

  lemma BatchResumeLoopOk(l: Loop, p: Places, r: Rid)
    requires LoopOk(l, p, r) && l.pc.Batch? && l.pc.events != [] && OnMain(l)
    ensures
      var c := l.pc.events[0].fd;
      var l' := l.(pc := BatchResumed(l.pc.events[1..]), cur := Some(c));
      LoopOk(l', p[c := On(r)], r) && Keeps(l, l', Some(c))
  {
    var c := l.pc.events[0].fd;
    var l' := l.(pc := BatchResumed(l.pc.events[1..]), cur := Some(c));
    assert Undelivered(l.pc)[0] == l.pc.events[0];
    assert Undelivered(l'.pc) == Undelivered(l.pc)[1..];
    TodoSame(l, l');
  }

  /** Taking the front of the queue, or putting an unregistered connection at its end. */
  lemma QueueStepFits(s: State, p: Places, r: Rid, c: Fd, place: Place, pc: Pc, queue: seq<Item>)
    requires Fits(s, p) && r in s.loops && c in s.conns && OnMain(s.loops[r])
    requires
      var l := s.loops[r];
      || (place == Taken(r) && l.pc == Drain && pc == Popped(c) && s.queue != [] && s.queue[0].fd == c
          && queue == s.queue[1..])
      || (place == Queued && l.pc.Detached? && l.pc.fd == c && pc == Batch(l.pc.events)
          && queue == s.queue + [Item(c, r)])
    ensures Fits(SetPc(s, r, pc).(queue := queue), p[c := place])
  {
    FitsLoop(s, p, r);
    FitsConn(s, p, c);
    hide Fits;
    var l := s.loops[r];
    var s', p' := SetPc(s, r, pc).(queue := queue), p[c := place];
    var l' := l.(pc := pc);
    TodoSame(l, l');
    assert Undelivered(pc) == Undelivered(l.pc);
    QueueStepOk(s, p, r, c, place, pc, queue);
    QueueStepLocal(s, p, r, c, place, pc, queue);
    hide *;
    QueuedFits(s, p, r, c, place, l', queue);
  }

  lemma QueuedFits(s: State, p: Places, r: Rid, c: Fd, place: Place, l: Loop, queue: seq<Item>)
    requires Fits(s, p) && r in s.loops && c in s.conns && c in p && NotOthers(p[c], r)
    requires
      var s', p' := SetLoop(s, r, l).(queue := queue), p[c := place];
      ConnOk(s', place, c) && KernelOk(s', p', r) && LoopOk(l, p', r) && QueueOk(s', p')
    requires Keeps(s.loops[r], l, Some(c))
    requires forall x: Fd :: InQueue(s.queue, x) && x != c ==> InQueue(queue, x)
    ensures Fits(SetLoop(s, r, l).(queue := queue), p[c := place])
  {
    hide Fits, ConnOk, KernelOk, LoopOk, QueueOk, Keeps, InQueue;
    FitsLoop(s, p, r);
    LoopStepFits(s, p, SetLoop(s, r, l).(queue := queue), p[c := place], r, Some(c));
  }

  lemma QueueStepLocal(s: State, p: Places, r: Rid, c: Fd, place: Place, pc: Pc, queue: seq<Item>)
    requires r in s.loops && c in s.conns && c in p && ConnOk(s, p[c], c) && OnMain(s.loops[r])
    requires KernelOk(s, p, r) && LoopOk(s.loops[r], p, r)
    requires
      var l := s.loops[r];
      || (place == Taken(r) && l.pc == Drain && pc == Popped(c) && p[c] == Queued)
      || (place == Queued && l.pc.Detached? && l.pc.fd == c && pc == Batch(l.pc.events) && InQueue(queue, c))
    ensures
      var l' := s.loops[r].(pc := pc);
      var s', p' := SetPc(s, r, pc).(queue := queue), p[c := place];
      && NotOthers(p[c], r) && Keeps(s.loops[r], l', Some(c))
      && ConnOk(s', place, c) && KernelOk(s', p', r) && LoopOk(l', p', r)
  {
    var l' := s.loops[r].(pc := pc);
    TodoSame(s.loops[r], l');
    assert Undelivered(pc) == Undelivered(s.loops[r].pc);
  }

  lemma QueueStepOk(s: State, p: Places, r: Rid, c: Fd, place: Place, pc: Pc, queue: seq<Item>)
    requires QueueOk(s, p) && r in s.loops && LoopOk(s.loops[r], p, r) && c in p
    requires
      var l := s.loops[r];
      || (place == Taken(r) && l.pc == Drain && pc == Popped(c) && s.queue != [] && s.queue[0].fd == c
          && queue == s.queue[1..])
      || (place == Queued && l.pc.Detached? && l.pc.fd == c && pc == Batch(l.pc.events)
          && queue == s.queue + [Item(c, r)])
    ensures QueueOk(SetPc(s, r, pc).(queue := queue), p[c := place])
    ensures place == Queued ==> InQueue(queue, c)
    ensures forall x: Fd :: InQueue(s.queue, x) && x != c ==> InQueue(queue, x)
  {
    var s', p' := SetPc(s, r, pc).(queue := queue), p[c := place];
    var shift := if place == Queued then 0 else 1;
    forall i | 0 <= i < |queue|
      ensures
        && queue[i].fd in p' && p'[queue[i].fd] == Queued
        && queue[i].pusher in s'.loops
        && s'.loops[queue[i].pusher].kind.SubReactor?
        && BeforeDrained(s'.loops[queue[i].pusher].pc)
    {
      assert i + shift < |s.queue| ==> queue[i] == s.queue[i + shift];
    }
    if place == Queued { assert queue[|s.queue|].fd == c; }
    forall x: Fd | InQueue(s.queue, x) && x != c ensures InQueue(queue, x) {
      var i :| 0 <= i < |s.queue| && s.queue[i].fd == x;
      assert queue[i - shift].fd == x;
    }
  }

  lemma CoStepKeeps(s: State, p: Places, r: Rid, a: Action)
    requires Fits(s, p) && Enabled(s, r, a) && CoAction(a)
    ensures Fits(Do(s, r, a), Moved(s, p, r, a))
  {
    hide Fits, CoStep, LoopStep;
    match a
    case Listen => ListenKeeps(s, p, r);
    case Unlisten => UnlistenKeeps(s, p, r);
    case Unregister => UnregisterKeeps(s, p, r);
    case YieldParked => YieldKeeps(s, p, r, a);
    case CloseFd => YieldKeeps(s, p, r, a);
    case _ => RunningStepKeeps(s, p, r, a);
  }

  predicate Resuming(a: Action) {
    a.BeginFirst? || a.RunStolen? || a.RunTask? || a.Handle?
  }

  lemma ResumingStepKeeps(s: State, p: Places, r: Rid, a: Action)
    requires Fits(s, p) && Enabled(s, r, a) && Resuming(a)
    ensures Fits(LoopStep(s, r, a), Moved(s, p, r, a))
  {
    hide Fits, HandleEvent, Resume;
    match a
    case BeginFirst => BeginFirstFits(s, p, r);
    case RunStolen => RunStolenFits(s, p, r);
    case RunTask => RunTaskFits(s, p, r);
    case _ => HandleFits(s, p, r);
  }

  lemma NothingPending(s: State, p: Places, r: Rid, a: Action)
    requires Fits(s, p) && Enabled(s, r, a)
    ensures !a.ApplyAdd? && !a.ApplyDel?
  {
    FitsLoop(s, p, r);
  }

  lemma LoopStepKeeps(s: State, p: Places, r: Rid, a: Action)
    requires Fits(s, p) && Enabled(s, r, a) && !CoAction(a)
    ensures Fits(LoopStep(s, r, a), Moved(s, p, r, a))
  {
    hide Fits, HandleEvent, Resume;
    NothingPending(s, p, r, a);
    var l := s.loops[r];
    match a
    case Accept(c) => AcceptFits(s, p, r, c);
    case YieldClosed => YieldClosedKeeps(s, p, r);
    case Claim => HandOverFits(s, p, r, l.pc.fd, Claimed(l.pc.fd), Some(r));
    case Detach => HandOverFits(s, p, r, l.pc.fd, Detached(l.pc.fd, l.pc.events), None);
    case Deliver(events) => DeliverKeeps(s, p, r, events);
    case Pop =>
      QueueHeadKnown(s, p);
      QueueStepFits(s, p, r, s.queue[0].fd, Taken(r), Popped(s.queue[0].fd), s.queue[1..]);
    case Push =>
      HeldIsKnown(s, p, r);
      QueueStepFits(s, p, r, l.pc.fd, Queued, Batch(l.pc.events), s.queue + [Item(l.pc.fd, r)]);
    case _ =>
      if Resuming(a) { ResumingStepKeeps(s, p, r, a); } else { QuietStepKeeps(s, p, r, a); }
  }

  lemma YieldClosedKeeps(s: State, p: Places, r: Rid)
    requires Fits(s, p) && Enabled(s, r, YieldClosed)
    ensures Fits(LoopStep(s, r, YieldClosed), p)
  {
    hide *;
    YieldClosedIs(s, r);
    FitsLoop(s, p, r);
    LeavingLoopOk(s.loops[r], p, r);
    PcStepFits(s, p, r, s.loops[r].(leaving := false));
  }

  lemma YieldClosedIs(s: State, r: Rid)
    requires Enabled(s, r, YieldClosed)
    ensures r in s.loops && LoopStep(s, r, YieldClosed) == SetLoop(s, r, s.loops[r].(leaving := false))
  {
    hide SetLoop;
  }

  lemma LeavingLoopOk(l: Loop, p: Places, r: Rid)
    requires LoopOk(l, p, r)
    ensures LoopOk(l.(leaving := false), p, r) && Keeps(l, l.(leaving := false), None)
  {
    var l' := l.(leaving := false);
    assert Todo(l') == Todo(l) && Undelivered(l'.pc) == Undelivered(l.pc);
    hide Todo, Undelivered;
  }

  lemma HeldIsKnown(s: State, p: Places, r: Rid)
    requires Fits(s, p) && r in s.loops && s.loops[r].pc.Detached?
    ensures s.loops[r].pc.fd in s.conns
  {
    FitsLoop(s, p, r);
  }

  lemma QueueHeadKnown(s: State, p: Places)
    requires Fits(s, p) && s.queue != []
    ensures s.queue[0].fd in s.conns
  {
  }
}
