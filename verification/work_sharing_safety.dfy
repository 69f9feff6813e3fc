/** What holds in every state of every run of the work-sharing machine, stated on the machine's own
    state. */
module WorkSharingSafety {
  import opened Interest
  import opened WorkSharing
  import opened WorkSharingInvariant

  ghost predicate Registered(s: State, r: Rid, c: Fd) {
    r in s.loops && c in s.loops[r].poll.kernel
  }

  ghost predicate RunsOn(s: State, r: Rid, c: Fd) {
    r in s.loops && s.loops[r].cur == Some(c)
  }

  /** first_coroutine, while the loop still has to resume it. */
  ghost predicate HeldFirst(s: State, r: Rid, c: Fd) {
    r in s.loops && s.loops[r].first == Some(c) && !s.loops[r].pc.FirstResumed?
  }

  ghost predicate HeldByPc(s: State, r: Rid, c: Fd) {
    r in s.loops && Holds(s.loops[r].pc) && s.loops[r].pc.fd == c
  }

  /** A coroutine runs on at most one thread, its FdEvent then names that thread's reactor, and its fd is
      in at most one interest set. */
  ghost predicate OneThread(s: State) {
    && (forall r: Rid, q: Rid, c: Fd :: RunsOn(s, r, c) && RunsOn(s, q, c) ==> r == q)
    && (forall r: Rid, q: Rid, c: Fd :: Registered(s, r, c) && Registered(s, q, c) ==> r == q)
    && (forall r: Rid, q: Rid, c: Fd :: RunsOn(s, r, c) && Registered(s, q, c) ==> r == q)
    && (forall r: Rid, c: Fd :: RunsOn(s, r, c) ==> c in s.conns && s.conns[c].reactor == Some(r))
  }

  /** A coroutine held as first_coroutine is parked, registered with that reactor, and nowhere else. */
  ghost predicate FirstIsOwn(s: State) {
    forall r: Rid, c: Fd :: HeldFirst(s, r, c) ==>
      && Registered(s, r, c) && c in s.conns && s.conns[c].co.Parked? && !InQueue(s.queue, c)
      && forall q: Rid :: !RunsOn(s, q, c) && !HeldByPc(s, q, c) && (HeldFirst(s, q, c) ==> q == r)
  }

  /** An fd that is queued, or on its way into or out of the queue, is there once and in no interest
      set, and its coroutine does not run. */
  ghost predicate QueuedIsAlone(s: State) {
    && (forall i, j :: 0 <= i < j < |s.queue| ==> s.queue[i].fd != s.queue[j].fd)
    && (forall r: Rid, c: Fd :: InQueue(s.queue, c) ==> !Registered(s, r, c) && !RunsOn(s, r, c) && !HeldByPc(s, r, c))
    && (forall r: Rid, q: Rid, c: Fd :: HeldByPc(s, r, c) ==>
          !Registered(s, q, c) && !RunsOn(s, q, c) && (HeldByPc(s, q, c) ==> q == r))
  }

  ghost predicate SingleOwner(s: State) {
    OneThread(s) && FirstIsOwn(s) && QueuedIsAlone(s)
  }

  /** m_fds, the kernel's interest set and the FdEvents agree; what epoll_ctl is told is legal; and
      nothing ever takes the cross-thread path of addEvent and delEvent. */
  ghost predicate InterestAgrees(s: State) {
    forall r :: r in s.loops ==>
      var l := s.loops[r];
      && Agree(l.poll)
      && (forall c :: c in l.poll.kernel ==> c in s.conns && l.poll.kernel[c] == s.conns[c].listen)
      && (forall c: Fd :: Legal(l.poll.kernel, ChosenOp(l.poll, c), c))
      && (forall c: Fd :: c in l.poll.fds ==> Legal(l.poll.kernel, Del, c))
      && l.pendingAdd == map[] && l.pendingDel == []
  }

  ghost predicate AllSubReactorsWait(s: State) {
    forall r :: r in s.loops && s.loops[r].kind.SubReactor? ==> s.loops[r].pc.Waiting?
  }

  ghost predicate NoSubReactorRuns(s: State) {
    forall r :: r in s.loops && s.loops[r].kind.SubReactor? ==> s.loops[r].pc.Waiting? || s.loops[r].pc.Exited?
  }

  /** Whoever pushed an entry that is still queued has not looked at an empty queue, let alone waited,
      since; so the queue is empty whenever every sub-reactor is in epoll_wait, and when every one waits or has
      left its loop, whatever is queued was pushed by one that has left it. */
  ghost predicate NothingStranded(s: State) {
    && (forall i :: 0 <= i < |s.queue| ==>
          && s.queue[i].pusher in s.loops && s.loops[s.queue[i].pusher].kind.SubReactor?
          && BeforeDrained(s.loops[s.queue[i].pusher].pc))
    && (AllSubReactorsWait(s) ==> s.queue == [])
    && (NoSubReactorRuns(s) ==> forall i :: 0 <= i < |s.queue| ==> s.loops[s.queue[i].pusher].pc.Exited?)
  }

  /** A parked coroutine that something still leads to. */
  ghost predicate Findable(s: State, c: Fd) {
    (exists r :: Registered(s, r, c)) || InQueue(s.queue, c) || (exists r :: HeldByPc(s, r, c))
  }

  ghost predicate IsParked(s: State, c: Fd) {
    c in s.conns && s.conns[c].co.Parked?
  }

  ghost function AllNowhere(s: State): Places {
    map c | c in s.conns :: Nowhere
  }

  lemma FreshFits(s: State)
    requires Init(s)
    ensures Fits(s, AllNowhere(s))
  {
    hide KernelOk, LoopOk;
    var p := AllNowhere(s);
    forall r | r in s.loops ensures KernelOk(s, p, r) && LoopOk(s.loops[r], p, r) {
      FreshLoop(s, r);
    }
  }

  lemma FreshLoop(s: State, r: Rid)
    requires Init(s) && r in s.loops
    ensures KernelOk(s, AllNowhere(s), r) && LoopOk(s.loops[r], AllNowhere(s), r)
  {
    assert Todo(s.loops[r]) == [];
  }

  lemma StepKeepsFits(s: State, p: Places, r: Rid, a: Action)
    requires Fits(s, p) && Enabled(s, r, a)
    ensures Fits(Do(s, r, a), Moved(s, p, r, a))
  {
    hide Fits, LoopStep, CoStep, Moved;
    if CoAction(a) { CoStepKeeps(s, p, r, a); } else { LoopStepKeeps(s, p, r, a); }
  }

  lemma {:induction false} RunKeepsInv(states: seq<State>, steps: seq<Step>, i: nat)
    requires Run(states, steps) && i < |states|
    ensures Inv(states[i])
  {
    if i == 0 {
      FreshFits(states[0]);
    } else {
      RunKeepsInv(states, steps, i - 1);
      var p :| Fits(states[i - 1], p);
      StepKeepsFits(states[i - 1], p, steps[i - 1].r, steps[i - 1].a);
    }
  }

  /** What each structure says about the place of a connection. */
  lemma PlaceOf(s: State, p: Places, r: Rid, c: Fd)
    requires Fits(s, p)
    ensures RunsOn(s, r, c) ==> c in p && p[c] == On(r) && s.conns[c].reactor == Some(r)
    ensures Registered(s, r, c) ==> c in p && (p[c] == On(r) || p[c] == At(r))
    ensures HeldFirst(s, r, c) ==> c in p && p[c] == At(r) && Registered(s, r, c) && s.conns[c].co.Parked?
    ensures InQueue(s.queue, c) ==> c in p && p[c] == Queued
    ensures HeldByPc(s, r, c) ==> c in p && (p[c] == Stolen(r) || p[c] == Taken(r))
  {
    if r in s.loops { FitsLoop(s, p, r); }
    if c in s.conns { FitsConn(s, p, c); }
    if HeldFirst(s, r, c) { assert ConnOk(s, p[c], c); }
    if InQueue(s.queue, c) {
      var i :| 0 <= i < |s.queue| && s.queue[i].fd == c;
    }
  }

  /** A place says of each structure whether it may mention the connection. */
  ghost predicate PlacesExplain(s: State, p: Places) {
    && (forall r: Rid, c: Fd :: RunsOn(s, r, c) ==> c in p && p[c] == On(r) && c in s.conns && s.conns[c].reactor == Some(r))
    && (forall r: Rid, c: Fd :: Registered(s, r, c) ==> c in p && (p[c] == On(r) || p[c] == At(r)))
    && (forall r: Rid, c: Fd :: HeldFirst(s, r, c) ==>
          c in p && p[c] == At(r) && Registered(s, r, c) && c in s.conns && s.conns[c].co.Parked?)
    && (forall r: Rid, c: Fd :: HeldByPc(s, r, c) ==> c in p && (p[c] == Stolen(r) || p[c] == Taken(r)))
    && (forall c: Fd :: InQueue(s.queue, c) ==> c in p && p[c] == Queued)
    && (forall i, j :: 0 <= i < j < |s.queue| ==> s.queue[i].fd != s.queue[j].fd)
  }

  lemma InvExplained(s: State, p: Places)
    requires Fits(s, p)
    ensures PlacesExplain(s, p)
  {
    assert QueueOk(s, p);
    forall r: Rid, c: Fd {
      PlaceOf(s, p, r, c);
    }
    hide Fits, Registered, RunsOn, HeldFirst, HeldByPc, InQueue;
  }

  lemma InvSingleOwner(s: State, p: Places)
    requires PlacesExplain(s, p)
    ensures SingleOwner(s)
  {
    hide Registered, RunsOn, HeldFirst, HeldByPc, InQueue;
    assert OneThread(s) by { hide FirstIsOwn, QueuedIsAlone; }
    assert FirstIsOwn(s) by { hide OneThread, QueuedIsAlone; }
    assert QueuedIsAlone(s) by { hide OneThread, FirstIsOwn; }
  }

  lemma InvInterestAgrees(s: State, p: Places)
    requires Fits(s, p)
    ensures InterestAgrees(s)
  {
    forall r | r in s.loops
      ensures KernelOk(s, p, r) && s.loops[r].pendingAdd == map[] && s.loops[r].pendingDel == []
    {
      FitsLoop(s, p, r);
    }
    hide Fits;
  }

  lemma InvNothingStranded(s: State, p: Places)
    requires Fits(s, p)
    ensures NothingStranded(s)
  {
    assert QueueOk(s, p);
    hide Fits;
    if s.queue != [] { assert BeforeDrained(s.loops[s.queue[0].pusher].pc); }
  }

  lemma InvIsSafe(s: State)
    requires Inv(s)
    ensures SingleOwner(s) && InterestAgrees(s) && NothingStranded(s)
  {
    var p :| Fits(s, p);
    hide Fits, SingleOwner, InterestAgrees, NothingStranded;
    InvExplained(s, p);
    InvSingleOwner(s, p);
    InvInterestAgrees(s, p);
    InvNothingStranded(s, p);
  }

  /** Every state of every run has a single owner for each coroutine, an agreed interest set, and no
      stranded work. */
  lemma EveryRunIsSafe(states: seq<State>, steps: seq<Step>)
    requires Run(states, steps)
    ensures forall i :: 0 <= i < |states| ==>
      SingleOwner(states[i]) && InterestAgrees(states[i]) && NothingStranded(states[i])
  {
    forall i | 0 <= i < |states|
      ensures SingleOwner(states[i]) && InterestAgrees(states[i]) && NothingStranded(states[i])
    {
      RunKeepsInv(states, steps, i);
      InvIsSafe(states[i]);
    }
  }

  lemma FindableIsPlace(s: State, p: Places, c: Fd)
    requires Fits(s, p) && IsParked(s, c)
    ensures Findable(s, c) <==> p[c] != Lost
  {
    FitsConn(s, p, c);
    if Findable(s, c) {
      if r :| Registered(s, r, c) {
        PlaceOf(s, p, r, c);
      } else if InQueue(s.queue, c) {
        PlaceOf(s, p, 0, c);
      } else {
        var r :| HeldByPc(s, r, c);
        PlaceOf(s, p, r, c);
      }
    }
    match p[c]
    case At(r) => assert Registered(s, r, c);
    case Stolen(r) => assert HeldByPc(s, r, c);
    case Taken(r) => assert HeldByPc(s, r, c);
    case _ =>
  }

  /** The one way a parked coroutine gets lost: an epoll entry with neither EPOLLIN nor EPOLLOUT. */
  ghost predicate ErrorEvent(s: State, r: Rid, a: Action, c: Fd) {
    a.Handle? && Enabled(s, r, a) && s.loops[r].pc.events[0] == Ready(c, {})
  }

  /** Where each connection is after the first i steps. */
  ghost function PlacesAt(states: seq<State>, steps: seq<Step>, i: nat): Places
    requires Run(states, steps) && i < |states|
  {
    if i == 0 then AllNowhere(states[0])
    else Moved(states[i - 1], PlacesAt(states, steps, i - 1), steps[i - 1].r, steps[i - 1].a)
  }

  lemma {:induction false} PlacesFit(states: seq<State>, steps: seq<Step>, i: nat)
    requires Run(states, steps) && i < |states|
    ensures Fits(states[i], PlacesAt(states, steps, i))
  {
    hide *;
    PlacesUnfold(states, steps, i);
    if i == 0 {
      FreshFits(states[0]);
    } else {
      PlacesFit(states, steps, i - 1);
      FitsNext(states[i - 1], PlacesAt(states, steps, i - 1), steps[i - 1], states[i], PlacesAt(states, steps, i));
    }
  }

  lemma FitsNext(s: State, p: Places, step: Step, s': State, p': Places)
    requires Fits(s, p) && Enabled(s, step.r, step.a) && s' == Do(s, step.r, step.a)
    requires p' == Moved(s, p, step.r, step.a)
    ensures Fits(s', p')
  {
    hide *;
    StepKeepsFits(s, p, step.r, step.a);
  }

  lemma PlacesUnfold(states: seq<State>, steps: seq<Step>, i: nat)
    requires Run(states, steps) && i < |states|
    ensures |states| == |steps| + 1
    ensures i == 0 ==> Init(states[0]) && PlacesAt(states, steps, i) == AllNowhere(states[0])
    ensures i > 0 ==>
      var s, step := states[i - 1], steps[i - 1];
      && Enabled(s, step.r, step.a) && states[i] == Do(s, step.r, step.a)
      && PlacesAt(states, steps, i) == Moved(s, PlacesAt(states, steps, i - 1), step.r, step.a)
  {
    hide Init, Do, Moved, AllNowhere;
  }

  /** The connection whose place a step may change. */
  ghost function Mover(s: State, r: Rid, a: Action): Option<Fd>
    requires Enabled(s, r, a)
  {
    var l := s.loops[r];
    match a
    case Accept(fd) => Some(fd)
    case BeginFirst => l.first
    case Pop => Some(s.queue[0].fd)
    case RunStolen => s.conns[l.pc.fd].coroutine
    case RunTask => if l.pc.todo[0].Start? then Some(l.pc.todo[0].fd) else None
    case Handle =>
      if l.pc.events[0].events == {} || l.kind.SubReactor? then Some(l.pc.events[0].fd)
      else s.conns[l.pc.events[0].fd].coroutine
    case Push => Some(l.pc.fd)
    case YieldParked => l.cur
    case CloseFd => l.cur
    case _ => None
  }

  lemma MovedOnlyMover(s: State, p: Places, r: Rid, a: Action, c: Fd)
    requires Enabled(s, r, a) && c in p
    ensures c in Moved(s, p, r, a)
    ensures Mover(s, r, a) != Some(c) ==> Moved(s, p, r, a)[c] == p[c]
    ensures p[c] != Lost ==> (Moved(s, p, r, a)[c] == Lost <==> ErrorEvent(s, r, a, c))
    ensures ErrorEvent(s, r, a, c) ==> Moved(s, p, r, a)[c] == Lost
  {
  }

  lemma MoverNotLost(s: State, p: Places, r: Rid, a: Action)
    requires Fits(s, p) && Enabled(s, r, a) && Mover(s, r, a).Some?
    ensures var c := Mover(s, r, a).value; c in p ==> p[c] != Lost
  {
    hide Fits, KernelOk;
    FitsLoop(s, p, r);
    var l := s.loops[r];
    if a.RunTask? {
      assert Todo(l)[0] == l.pc.todo[0];
    } else if a.RunStolen? {
      FitsConn(s, p, l.pc.fd);
    } else if a.Handle? {
      assert Undelivered(l.pc)[0] == l.pc.events[0];
      FitsConn(s, p, l.pc.events[0].fd);
    } else if a.Accept? {
      FitsConn(s, p, a.fd);
    }
  }

  /** An entry with neither EPOLLIN nor EPOLLOUT loses the connection it is for, and what is lost stays lost. */
  lemma LostIffError(s: State, p: Places, r: Rid, a: Action, c: Fd)
    requires Fits(s, p) && Enabled(s, r, a) && c in p
    ensures c in Moved(s, p, r, a)
    ensures Moved(s, p, r, a)[c] == Lost <==> p[c] == Lost || ErrorEvent(s, r, a, c)
  {
    hide Fits, Enabled, Mover, Moved, ErrorEvent;
    MovedOnlyMover(s, p, r, a, c);
    if Mover(s, r, a) == Some(c) { MoverNotLost(s, p, r, a); }
  }

  ghost predicate HadError(states: seq<State>, steps: seq<Step>, i: nat, c: Fd)
    requires Run(states, steps) && i < |states|
  {
    exists j :: 0 <= j < i && ErrorEvent(states[j], steps[j].r, steps[j].a, c)
  }

  lemma {:induction false} LostIffHadError(states: seq<State>, steps: seq<Step>, i: nat, c: Fd)
    requires Run(states, steps) && i < |states| && c in states[0].conns
    ensures var p := PlacesAt(states, steps, i);
            c in p && (p[c] == Lost <==> HadError(states, steps, i, c))
  {
    hide Fits, Moved, ErrorEvent, Init;
    if i > 0 {
      LostIffHadError(states, steps, i - 1, c);
      PlacesFit(states, steps, i - 1);
      LostIffError(states[i - 1], PlacesAt(states, steps, i - 1), steps[i - 1].r, steps[i - 1].a, c);
    }
  }

  lemma {:induction false} SameConns(states: seq<State>, steps: seq<Step>, i: nat)
    requires Run(states, steps) && i < |states|
    ensures states[i].conns.Keys == states[0].conns.Keys
  {
    hide Init, Do, Enabled;
    if i > 0 {
      SameConns(states, steps, i - 1);
      StepSameConns(states[i - 1], steps[i - 1].r, steps[i - 1].a);
    }
  }

  lemma StepSameConns(s: State, r: Rid, a: Action)
    requires Enabled(s, r, a)
    ensures Do(s, r, a).conns.Keys == s.conns.Keys
  {
    hide LoopStep, CoStep, Enabled;
    if CoAction(a) { CoStepSameConns(s, r, a); } else { LoopStepSameConns(s, r, a); }
  }

  lemma CoStepSameConns(s: State, r: Rid, a: Action)
    requires Enabled(s, r, a) && CoAction(a)
    ensures CoStep(s, r, a).conns.Keys == s.conns.Keys
  {
    hide AddInLoop, DelInLoop, LoopStep;
  }

  lemma LoopStepSameConns(s: State, r: Rid, a: Action)
    requires Enabled(s, r, a) && !CoAction(a)
    ensures LoopStep(s, r, a).conns.Keys == s.conns.Keys
  {
    hide AddInLoop, DelInLoop, CoStep;
  }

  /** In every run, a parked coroutine is registered with a reactor, queued, or in the hands of a thread
      that is moving it, if and only if no such entry for its fd has been handled. */
  lemma ParkedIsFindable(states: seq<State>, steps: seq<Step>, i: nat, c: Fd)
    requires Run(states, steps) && i < |states| && IsParked(states[i], c)
    ensures Findable(states[i], c) <==> !HadError(states, steps, i, c)
  {
    hide Findable, ErrorEvent, Init, HadError, Fits;
    SameConns(states, steps, i);
    LostIffHadError(states, steps, i, c);
    PlacesFit(states, steps, i);
    FindableIsPlace(states[i], PlacesAt(states, steps, i), c);
  }

  /** Such an entry strands its coroutine for good: from then on it is parked and nothing leads to it. */
  lemma ErrorStrandsForGood(states: seq<State>, steps: seq<Step>, i: nat, j: nat, c: Fd)
    requires Run(states, steps) && j < i < |states| && ErrorEvent(states[j], steps[j].r, steps[j].a, c)
    ensures IsParked(states[i], c) && !Findable(states[i], c)
  {
    assert HadError(states, steps, i, c);
    PlacesFit(states, steps, j);
    ErrorIsKnown(states[j], PlacesAt(states, steps, j), steps[j].r, steps[j].a, c);
    hide Findable, ErrorEvent, Init, HadError, Fits;
    SameConns(states, steps, j);
    SameConns(states, steps, i);
    LostIffHadError(states, steps, i, c);
    PlacesFit(states, steps, i);
    FitsConn(states[i], PlacesAt(states, steps, i), c);
    ParkedIsFindable(states, steps, i, c);
  }

  lemma ErrorIsKnown(s: State, p: Places, r: Rid, a: Action, c: Fd)
    requires Fits(s, p) && ErrorEvent(s, r, a, c)
    ensures c in s.conns
  {
    hide Fits;
  }

  /** One more step at the end of a run. */
  lemma Extend(states: seq<State>, steps: seq<Step>, r: Rid, a: Action, next: State)
    returns (states': seq<State>, steps': seq<Step>)
    requires Run(states, steps) && Enabled(states[|steps|], r, a) && Do(states[|steps|], r, a) == next
    ensures Run(states', steps') && states' == states + [next] && steps' == steps + [Step(r, a)]
    ensures |states'| == |steps'| + 1 && states'[|steps'|] == next
  {
    states', steps' := states + [next], steps + [Step(r, a)];
    hide Do, Enabled, Init;
  }

  /** One reactor, 0, and one connection, 5. */
  function Small(l: Loop, f: Conn): State {
    State(map[0 := l], map[5 := f], [])
  }

  lemma SmallSet(l: Loop, f: Conn, l': Loop, f': Conn)
    ensures SetLoop(Small(l, f), 0, l') == Small(l', f) && SetConn(Small(l, f), 5, f') == Small(l, f')
  {
  }

  function IdleLoop(pc: Pc, tasks: seq<Task>): Loop {
    Loop(SubReactor, pc, None, false, None, Poll([], map[]), tasks, map[], [])
  }

  function HookLoop(): Loop {
    IdleLoop(RunTasks([]), []).(cur := Some(5))
  }

  function InHook(co: CoPc): State {
    Small(HookLoop(), Conn(Some(0), None, {}, co))
  }

  function ArmedToRead(): State {
    Small(HookLoop(), Conn(Some(0), Some(5), {}, Armed(Read)))
  }

  function WaitingToRead(pc: Pc, cur: Option<Fd>, co: CoPc): State {
    Small(IdleLoop(pc, []).(cur := cur, poll := Poll([5], map[5 := {Read}])), Conn(Some(0), Some(5), {Read}, co))
  }

  lemma SmallAccept(l: Loop, f: Conn)
    requires f.co.Unborn?
    ensures Enabled(Small(l, f), 0, Accept(5))
    ensures
      Do(Small(l, f), 0, Accept(5)) ==
      Small(l.(tasks := l.tasks + [Start(5)]), f.(reactor := Some(0), co := NotStarted))
  {
    var l', f' := l.(tasks := l.tasks + [Start(5)]), f.(reactor := Some(0), co := NotStarted);
    SmallSet(l, f, l', f');
    SmallSet(l', f, l', f');
  }

  /** A step of the loop that only moves its pc. */
  lemma SmallLoopStep(l: Loop, f: Conn, a: Action, l': Loop)
    requires OnMain(l)
    requires
      || (a.SkipFirst? && l.pc.Top? && l.first.None? && l.kind.SubReactor? && l' == l.(pc := Drain))
      || (a.QueueEmpty? && l.pc.Drain? && l' == l.(pc := SwapTasks))
      || (a.TakeTasks? && l.pc.SwapTasks? && l' == l.(pc := RunTasks(l.tasks), tasks := []))
      || (a.TasksDone? && l.pc.RunTasks? && l.pc.todo == [] && l' == l.(pc := Waiting))
    ensures Enabled(Small(l, f), 0, a) && Do(Small(l, f), 0, a) == Small(l', f)
  {
    SmallSet(l, f, l', f);
  }

  lemma SmallRunTask(l: Loop, f: Conn)
    requires OnMain(l) && l.pc == RunTasks([Start(5)]) && f.co.NotStarted?
    ensures Enabled(Small(l, f), 0, RunTask)
    ensures Do(Small(l, f), 0, RunTask) == Small(l.(pc := RunTasks([]), cur := Some(5)), f.(co := Running))
  {
    var l1 := l.(pc := RunTasks([]));
    assert [Start(5)][1..] == [];
    SmallSet(l, f, l1, f);
    SmallSet(l1, f, l1.(cur := Some(5)), f);
    SmallSet(l1.(cur := Some(5)), f, l1, f.(co := Running));
  }

  /** A step of the hook that changes only the FdEvent and where the coroutine is. */
  lemma SmallHookStep(l: Loop, f: Conn, a: Action, f': Conn)
    requires l.cur == Some(5) && f.reactor == Some(0)
    requires
      || (a == CallHook(Read) && f.co.Running? && f' == f.(co := Trying(Read)))
      || (a.IoBlocked? && f.co.Trying? && f' == f.(co := Arming(f.co.event)))
      || (a.SetCoroutine? && f.co.Arming? && f' == f.(co := Armed(f.co.event), coroutine := Some(5)))
    ensures Enabled(Small(l, f), 0, a) && Do(Small(l, f), 0, a) == Small(l, f')
  {
    SmallSet(l, f, l, f');
  }

  lemma SmallListen()
    ensures Enabled(ArmedToRead(), 0, Listen)
    ensures Do(ArmedToRead(), 0, Listen) == WaitingToRead(RunTasks([]), Some(5), Yielding(Read))
  {
    var l, f := HookLoop(), Conn(Some(0), Some(5), {}, Armed(Read));
    var f1 := f.(listen := {Read});
    var l1 := l.(poll := Poll([5], map[5 := {Read}]));
    assert {} + {Read} == {Read};
    assert AddInLoop(l.poll, 5, {Read}) == l1.poll;
    SmallSet(l, f, l, f1);
    SmallSet(l, f1, l1, f1);
    SmallSet(l1, f1, l1, f1.(co := Yielding(Read)));
    hide AddInLoop;
    var s, s1 := ArmedToRead(), Small(l1, f1);
    assert AddListenEvents(s, 0, 5, Read) == s1;
    hide AddListenEvents;
    assert Do(s, 0, Listen) == CoStep(s, 0, Listen);
    assert CoStep(s, 0, Listen) == SetConn(s1, 5, s1.conns[5].(co := Yielding(Read)));
    assert WaitingToRead(RunTasks([]), Some(5), Yielding(Read)).loops[0].poll == l1.poll;
  }

  lemma SmallYield()
    ensures
      var s := WaitingToRead(RunTasks([]), Some(5), Yielding(Read));
      Enabled(s, 0, YieldParked) && Do(s, 0, YieldParked) == WaitingToRead(RunTasks([]), None, Parked(Read))
  {
    var l := IdleLoop(RunTasks([]), []).(cur := Some(5), poll := Poll([5], map[5 := {Read}]));
    var f := Conn(Some(0), Some(5), {Read}, Yielding(Read));
    SmallSet(l, f, l.(cur := None), f);
    SmallSet(l.(cur := None), f, l, f.(co := Parked(Read)));
  }

  lemma SmallInit()
    ensures Run([Small(IdleLoop(Top, []), Conn(None, None, {}, Unborn))], [])
  {
  }

  /** A connection is accepted and the loop comes to its pending tasks. */
  lemma SmallAccepts() returns (states: seq<State>, steps: seq<Step>)
    ensures Run(states, steps) && |steps| == 3 && |states| == 4
    ensures states[3] == Small(IdleLoop(SwapTasks, [Start(5)]), Conn(Some(0), None, {}, NotStarted))
  {
    var l, f := IdleLoop(Top, []), Conn(None, None, {}, Unborn);
    var l1, f1 := IdleLoop(Top, [] + [Start(5)]), Conn(Some(0), None, {}, NotStarted);
    SmallInit();
    hide Do, Enabled, Run, Init, Small;
    SmallAccept(l, f);
    states, steps := Extend([Small(l, f)], [], 0, Accept(5), Small(l1, f1));
    SmallLoopStep(l1, f1, SkipFirst, l1.(pc := Drain));
    states, steps := Extend(states, steps, 0, SkipFirst, Small(l1.(pc := Drain), f1));
    SmallLoopStep(l1.(pc := Drain), f1, QueueEmpty, l1.(pc := SwapTasks));
    states, steps := Extend(states, steps, 0, QueueEmpty, Small(l1.(pc := SwapTasks), f1));
    assert [] + [Start(5)] == [Start(5)];
  }

  /** Its coroutine is started. */
  lemma SmallStarts() returns (states: seq<State>, steps: seq<Step>)
    ensures Run(states, steps) && |steps| == 5 && |states| == 6 && states[5] == InHook(Running)
  {
    var l, f := IdleLoop(SwapTasks, [Start(5)]), Conn(Some(0), None, {}, NotStarted);
    var l1 := IdleLoop(RunTasks([Start(5)]), []);
    hide Do, Enabled, Run, Init, Small;
    states, steps := SmallAccepts();
    SmallLoopStep(l, f, TakeTasks, l1);
    states, steps := Extend(states, steps, 0, TakeTasks, Small(l1, f));
    SmallRunTask(l1, f);
    states, steps := Extend(states, steps, 0, RunTask, InHook(Running));
  }

  /** It blocks in its first read. */
  lemma SmallParks() returns (states: seq<State>, steps: seq<Step>)
    ensures Run(states, steps) && |steps| == 11 && |states| == 12 && states[11] == WaitingToRead(Waiting, None, Parked(Read))
  {
    hide Do, Enabled, Run, Init, Small;
    var f := Conn(Some(0), None, {}, Running);
    var s10 := WaitingToRead(RunTasks([]), None, Parked(Read));
    states, steps := SmallStarts();
    SmallHookStep(HookLoop(), f, CallHook(Read), f.(co := Trying(Read)));
    states, steps := Extend(states, steps, 0, CallHook(Read), InHook(Trying(Read)));
    SmallHookStep(HookLoop(), f.(co := Trying(Read)), IoBlocked, f.(co := Arming(Read)));
    states, steps := Extend(states, steps, 0, IoBlocked, InHook(Arming(Read)));
    SmallHookStep(HookLoop(), f.(co := Arming(Read)), SetCoroutine, f.(co := Armed(Read), coroutine := Some(5)));
    states, steps := Extend(states, steps, 0, SetCoroutine, ArmedToRead());
    SmallListen();
    states, steps := Extend(states, steps, 0, Listen, WaitingToRead(RunTasks([]), Some(5), Yielding(Read)));
    SmallYield();
    states, steps := Extend(states, steps, 0, YieldParked, s10);
    var l := IdleLoop(RunTasks([]), []).(poll := Poll([5], map[5 := {Read}]));
    SmallLoopStep(l, Conn(Some(0), Some(5), {Read}, Parked(Read)), TasksDone, l.(pc := Waiting));
    states, steps := Extend(states, steps, 0, TasksDone, WaitingToRead(Waiting, None, Parked(Read)));
  }

  /** And epoll_wait reports EPOLLERR or EPOLLHUP alone for its fd: a run that strands a coroutine. (For a TCP
      socket that its peer resets the kernel sets EPOLLIN as well, and the coroutine is resumed.) */
  lemma ErrorOnlyEntryStrands() returns (states: seq<State>, steps: seq<Step>)
    ensures Run(states, steps) && |steps| == 13
    ensures IsParked(states[12], 5) && Findable(states[12], 5) && ErrorEvent(states[12], 0, Handle, 5)
    ensures IsParked(states[13], 5) && !Findable(states[13], 5)
  {
    var s12 := WaitingToRead(Batch([Ready(5, {})]), None, Parked(Read));
    SmallDeliver();
    SmallError();
    states, steps := SmallParks();
    hide Do, Enabled, Run, Init, WaitingToRead, Registered, IsParked;
    states, steps := Extend(states, steps, 0, Deliver([Ready(5, {})]), s12);
    assert Registered(s12, 0, 5);
    states, steps := Extend(states, steps, 0, Handle, Do(s12, 0, Handle));
    hide ErrorEvent, Findable;
    ErrorStrandsForGood(states, steps, 13, 12, 5);
  }

  lemma SmallDeliver()
    ensures
      var s := WaitingToRead(Waiting, None, Parked(Read));
      && Enabled(s, 0, Deliver([Ready(5, {})]))
      && Do(s, 0, Deliver([Ready(5, {})])) == WaitingToRead(Batch([Ready(5, {})]), None, Parked(Read))
  {
    var poll, events := Poll([5], map[5 := {Read}]), [Ready(5, {})];
    assert Deliverable(poll.kernel, events) by { assert poll.kernel[5] == {Read}; }
    hide Deliverable;
    var l, f := IdleLoop(Waiting, []).(poll := poll), Conn(Some(0), Some(5), {Read}, Parked(Read));
    SmallSet(l, f, l.(pc := Batch(events)), f);
    hide SetLoop;
  }

  lemma SmallError()
    ensures
      var s := WaitingToRead(Batch([Ready(5, {})]), None, Parked(Read));
      Registered(s, 0, 5) && IsParked(s, 5) && ErrorEvent(s, 0, Handle, 5)
  {
  }

  /** A resume that is not refused and finds the coroutine fresh or parked. */
  ghost predicate Enters(s: State, s': State, r: Rid) {
    && r in s'.loops && s'.loops[r].cur.Some?
    && var c := s'.loops[r].cur.value;
    && c in s.conns && c in s'.conns
    && (|| (s.conns[c].co == NotStarted && s'.conns[c].co == Running)
        || (s.conns[c].co.Parked? && s'.conns[c].co == Woken(s.conns[c].co.event)))
  }

  /** The thread's next step resumes a coroutine. */
  ghost predicate Resumes(s: State, r: Rid, a: Action) {
    && Enabled(s, r, a)
    && (a.BeginFirst? || a.RunStolen? || a.RunTask? ||
        (a.Handle? && s.loops[r].kind.MainReactor? && s.loops[r].first.Some? && s.loops[r].pc.events[0].events != {}))
  }

  lemma ResumeWorks(s: State, r: Rid, c: Fd, pc: Pc)
    requires r in s.loops && OnMain(s.loops[r]) && c in s.conns
    requires s.conns[c].co == NotStarted || s.conns[c].co.Parked?
    ensures Enters(s, Resume(SetPc(s, r, pc), r, Some(c)), r)
  {
  }

  /** What the loop is about to resume, and where Yield will come back to. */
  ghost function Target(s: State, r: Rid, a: Action): (Fd, Pc)
    requires Resumes(s, r, a)
  {
    var l := s.loops[r];
    if a.BeginFirst? then (l.first.value, FirstResumed)
    else if a.RunStolen? then
      (if s.conns[l.pc.fd].coroutine.Some? then s.conns[l.pc.fd].coroutine.value else 0, Drain)
    else if a.RunTask? then (l.pc.todo[0].fd, RunTasks(l.pc.todo[1..]))
    else (l.pc.events[0].fd, BatchResumed(l.pc.events[1..]))
  }

  /** The FdEvent or the task at hand names the target. */
  ghost predicate Named(s: State, r: Rid, a: Action)
    requires Resumes(s, r, a)
  {
    var c := Target(s, r, a).0;
    && (a.RunStolen? ==> s.conns[s.loops[r].pc.fd].coroutine == Some(c))
    && (a.RunTask? ==> s.loops[r].pc.todo[0].Start?)
    && (a.Handle? ==> s.conns[s.loops[r].pc.events[0].fd].coroutine == Some(c))
  }

  /** The target waits to be resumed, and the FdEvent at hand names it. */
  lemma TargetWaits(s: State, p: Places, r: Rid, a: Action)
    requires Fits(s, p) && Resumes(s, r, a)
    ensures
      var c := Target(s, r, a).0;
      && c in s.conns && (s.conns[c].co == NotStarted || s.conns[c].co.Parked?)
      && Named(s, r, a)
  {
    hide KernelOk, QueueOk, Fits;
    FitsLoop(s, p, r);
    var l := s.loops[r];
    if a.RunStolen? {
      FitsConn(s, p, l.pc.fd);
    } else if a.RunTask? {
      assert Todo(l)[0] == l.pc.todo[0];
      FitsConn(s, p, l.pc.todo[0].fd);
    } else if a.Handle? {
      assert Undelivered(l.pc)[0] == l.pc.events[0];
      assert p[l.pc.events[0].fd] == At(r);
      FitsConn(s, p, l.pc.events[0].fd);
    } else {
      FitsConn(s, p, l.first.value);
    }
  }

  lemma StepIsResume(s: State, r: Rid, a: Action)
    requires Resumes(s, r, a) && Named(s, r, a)
    ensures r in s.loops && OnMain(s.loops[r])
    ensures Do(s, r, a) == Resume(SetPc(s, r, Target(s, r, a).1), r, Some(Target(s, r, a).0))
  {
    hide Resume;
  }

  lemma ResumeEnters(s: State, p: Places, r: Rid, a: Action)
    requires Fits(s, p) && Resumes(s, r, a)
    ensures Enters(s, Do(s, r, a), r)
  {
    hide Fits, Named, Target, Resume, Do, Enters, Enabled;
    TargetWaits(s, p, r, a);
    StepIsResume(s, r, a);
    var t := Target(s, r, a);
    ResumeWorks(s, r, t.0, t.1);
  }

  /** Whenever a loop resumes a coroutine, the resume is not refused and finds the coroutine fresh or
      parked; it never enters one that is already running. */
  lemma EveryResumeEnters(states: seq<State>, steps: seq<Step>, i: nat)
    requires Run(states, steps) && i < |steps| && Resumes(states[i], steps[i].r, steps[i].a)
    ensures Enters(states[i], states[i + 1], steps[i].r)
  {
    hide Enters, Resumes, Do, Enabled, Init;
    RunKeepsInv(states, steps, i);
    var p :| Fits(states[i], p);
    ResumeEnters(states[i], p, steps[i].r, steps[i].a);
  }

  /** In every run, an accepted connection that has not started has its start pending with the reactor it
      was accepted for, and with no other. */
  lemma NotStartedIsPending(states: seq<State>, steps: seq<Step>, i: nat, c: Fd)
    requires Run(states, steps) && i < |states| && c in states[i].conns && states[i].conns[c].co.NotStarted?
    ensures
      var s := states[i];
      && s.conns[c].reactor.Some? && s.conns[c].reactor.value in s.loops
      && forall r :: r in s.loops ==> (Start(c) in Todo(s.loops[r]) <==> s.conns[c].reactor == Some(r))
  {
    RunKeepsInv(states, steps, i);
    var s := states[i];
    var p :| Fits(s, p);
    hide *;
    NotStartedPlace(s, p, c);
  }

  lemma NotStartedPlace(s: State, p: Places, c: Fd)
    requires Fits(s, p) && c in s.conns && s.conns[c].co.NotStarted?
    ensures s.conns[c].reactor.Some? && s.conns[c].reactor.value in s.loops
    ensures forall r :: r in s.loops ==> (Start(c) in Todo(s.loops[r]) <==> s.conns[c].reactor == Some(r))
  {
    FitsConn(s, p, c);
    forall r | r in s.loops && Start(c) in Todo(s.loops[r]) ensures p[c] == Starting(r) {
      FitsLoop(s, p, r);
      hide Fits, KernelOk, QueueOk, ConnOk;
      StartTaskPlace(s.loops[r], p, r, c);
    }
    hide Fits, Todo;
  }

  lemma StartTaskPlace(l: Loop, p: Places, r: Rid, c: Fd)
    requires LoopOk(l, p, r) && Start(c) in Todo(l)
    ensures c in p && p[c] == Starting(r)
  {
    var k :| 0 <= k < |Todo(l)| && Todo(l)[k] == Start(c);
    hide Todo, EventsOk;
  }

  /** In every run, a thread in epoll_wait holds nothing: it runs no coroutine, keeps no first_coroutine, and
      has taken no connection out of the queue. */
  lemma WaitingHoldsNothing(states: seq<State>, steps: seq<Step>, i: nat, r: Rid)
    requires Run(states, steps) && i < |states| && r in states[i].loops && states[i].loops[r].pc.Waiting?
    ensures OnMain(states[i].loops[r]) && states[i].loops[r].first == None
    ensures forall c :: !HeldByPc(states[i], r, c)
  {
    RunKeepsInv(states, steps, i);
    var s := states[i];
    var p :| Fits(s, p);
    FitsLoop(s, p, r);
    hide Run, Fits, KernelOk, QueueOk;
    WaitingLoop(s.loops[r], p, r);
    hide LoopOk;
  }

  lemma WaitingLoop(l: Loop, p: Places, r: Rid)
    requires LoopOk(l, p, r) && l.pc.Waiting?
    ensures OnMain(l) && l.first == None && !Holds(l.pc)
  {
    hide TasksOk, EventsOk;
  }
}
