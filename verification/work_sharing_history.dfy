/** What the steps of a run of the work-sharing machine amount to, told by the steps alone: every thread goes
    round the loop of the source, and nothing that is queued, delivered or put off is dropped, repeated or
    overtaken on the way. */
module WorkSharingHistory {
  import opened Interest
  import opened WorkSharing
  import opened WorkSharingInvariant
  import opened WorkSharingSafety

  // --- The order of the loop ---

  /** Where the loop goes after resuming first_coroutine: only a sub-reactor looks at the global queue. */
  predicate Onward(kind: Kind, pc: Pc) {
    match kind
    case SubReactor => pc == Drain
    case MainReactor => pc == SwapTasks
  }

  /** One move along the loop of the source, for a thread on its main coroutine. */
  ghost predicate Edge(s: State, r: Rid, a: Action, pc': Pc)
    requires r in s.loops
  {
    var l := s.loops[r];
    match l.pc
    case Top =>
      || (a == Stop && pc' == Exited)
      || (a == BeginFirst && l.first.Some? && pc' == FirstResumed)
      || (a == SkipFirst && l.first.None? && Onward(l.kind, pc'))
    case FirstResumed => a == EndFirst && Onward(l.kind, pc')
    case Drain =>
      if s.queue == [] then a == QueueEmpty && pc' == SwapTasks else a == Pop && pc' == Popped(s.queue[0].fd)
    case Popped(c) => a == Claim && pc' == Claimed(c)
    case Claimed(_) => a == RunStolen && pc' == Drain
    case SwapTasks => a == TakeTasks && pc' == RunTasks(l.tasks)
    case RunTasks(todo) =>
      if todo == [] then a == TasksDone && pc' == Waiting else a == RunTask && pc' == RunTasks(todo[1..])
    case Waiting => (a == WaitFailed && pc' == Top) || (a.Deliver? && pc' == Batch(a.events))
    case Batch(events) =>
      if events == [] then a == BatchDone && pc' == SwapPending
      else
        var c, rest := events[0].fd, events[1..];
        && a == Handle && c in s.conns
        && pc' == (
             // a second ready coroutine is queued by a sub-reactor, and resumed at once by the main one
             if events[0].events == {} || s.conns[c].coroutine.None? || l.first.None? then Batch(rest)
             else if l.kind.SubReactor? then Unregistered(c, rest)
             else BatchResumed(rest))
    case Unregistered(c, rest) => a == Detach && pc' == Detached(c, rest)
    case Detached(c, rest) => a == Push && pc' == Batch(rest)
    case BatchResumed(rest) => a == EndBatchResume && pc' == Batch(rest)
    case SwapPending => a == TakePending && pc' == ApplyPending(l.pendingAdd, l.pendingDel)
    case ApplyPending(adds, dels) =>
      if adds == map[] && dels == [] then a == ApplyDone && pc' == Top
      else (a.ApplyAdd? || a.ApplyDel?) && pc'.ApplyPending?
    case Exited => false
  }

  /** A step of the loop proper, as opposed to one of a coroutine that runs on the thread or to an accept, which
      another thread makes. */
  predicate Turns(a: Action) {
    !CoAction(a) && !a.Accept? && !a.YieldClosed?
  }

  predicate SameFlow(l: Loop, l': Loop) {
    l'.kind == l.kind && l'.pc == l.pc && l'.first == l.first && l'.tasks == l.tasks
  }

  /** s' differs from s in registrations, in what runs, and in the FdEvents, but no thread is elsewhere in its
      loop, and no coroutine elsewhere in its hooks. */
  ghost predicate SameCourse(s: State, s': State) {
    && s'.loops.Keys == s.loops.Keys && s'.conns.Keys == s.conns.Keys && s'.queue == s.queue
    && (forall q :: q in s.loops ==> SameFlow(s.loops[q], s'.loops[q]))
    && (forall c :: c in s.conns ==> s'.conns[c].co == s.conns[c].co)
  }

  lemma AddCourse(s: State, r: Rid, c: Fd, e: IOEvent)
    requires c in s.conns && ReactorOr(s.conns[c], r) in s.loops
    ensures SameCourse(s, AddListenEvents(s, r, c, e))
  {
    hide AddInLoop;
  }

  lemma DelCourse(s: State, r: Rid, c: Fd, e: IOEvent)
    requires c in s.conns && ReactorOr(s.conns[c], r) in s.loops
    ensures SameCourse(s, DelListenEvents(s, r, c, e))
  {
    hide AddInLoop;
  }

  lemma UnregisterCourse(s: State, r: Rid, c: Fd)
    requires c in s.conns && ReactorOr(s.conns[c], r) in s.loops
    ensures SameCourse(s, UnregisterFromReactor(s, r, c))
  {
    hide DelInLoop;
  }

  lemma CoEnabled(s: State, r: Rid, a: Action)
    requires Enabled(s, r, a) && CoAction(a)
    ensures r in s.loops && s.loops[r].cur.Some? && s.loops[r].cur.value in s.conns
    ensures ReactorOr(s.conns[s.loops[r].cur.value], r) in s.loops
  {
    hide ReactorOr;
  }

  /** A step of the coroutine on thread r: no thread's place in its loop changes, and no other coroutine's place
      in its hooks. */
  ghost predicate CoCourse(s: State, r: Rid, a: Action, s': State) {
    && s'.loops.Keys == s.loops.Keys && s'.conns.Keys == s.conns.Keys && s'.queue == s.queue
    && (forall q :: q in s.loops ==> SameFlow(s.loops[q], s'.loops[q]))
    && (forall c :: c in s.conns ==>
          if RunsOn(s, r, c) then HookEdge(a, s.conns[c].co, s'.conns[c].co) else s'.conns[c].co == s.conns[c].co)
  }

  lemma HookOnlyCourse(s: State, r: Rid, a: Action)
    requires Enabled(s, r, a)
    requires a.CallHook? || a.IoDone? || a.IoBlocked? || a.SetCoroutine? || a.ClearCoroutine?
    ensures CoCourse(s, r, a, Do(s, r, a))
  {
    hide AddListenEvents, DelListenEvents, UnregisterFromReactor, LoopStep;
  }

  lemma YieldCourse(s: State, r: Rid, a: Action)
    requires Enabled(s, r, a) && (a.YieldParked? || a.CloseFd?)
    ensures CoCourse(s, r, a, Do(s, r, a))
  {
    hide AddListenEvents, DelListenEvents, UnregisterFromReactor, LoopStep, ReactorOr;
  }

  /** The reactor is told, and the coroutine goes one step on. */
  lemma ThenCourse(s: State, s1: State, r: Rid, a: Action, co: CoPc)
    requires SameCourse(s, s1) && r in s.loops && s.loops[r].cur.Some? && s.loops[r].cur.value in s.conns
    requires HookEdge(a, s.conns[s.loops[r].cur.value].co, co)
    ensures
      var c := s.loops[r].cur.value;
      CoCourse(s, r, a, SetConn(s1, c, s1.conns[c].(co := co)))
  {
    hide HookEdge, SameFlow;
  }

  lemma ListenCourse(s: State, r: Rid)
    requires Enabled(s, r, Listen)
    ensures CoCourse(s, r, Listen, Do(s, r, Listen))
  {
    hide AddListenEvents, DelListenEvents, UnregisterFromReactor, LoopStep, ReactorOr, CoCourse, SameCourse, SetConn;
    CoEnabled(s, r, Listen);
    var c := s.loops[r].cur.value;
    var e := s.conns[c].co.event;
    AddCourse(s, r, c, e);
    ThenCourse(s, AddListenEvents(s, r, c, e), r, Listen, Yielding(e));
  }

  lemma UnlistenCourse(s: State, r: Rid)
    requires Enabled(s, r, Unlisten)
    ensures CoCourse(s, r, Unlisten, Do(s, r, Unlisten))
  {
    hide AddListenEvents, DelListenEvents, UnregisterFromReactor, LoopStep, ReactorOr, CoCourse, SameCourse, SetConn;
    CoEnabled(s, r, Unlisten);
    var c := s.loops[r].cur.value;
    var e := s.conns[c].co.event;
    DelCourse(s, r, c, e);
    ThenCourse(s, DelListenEvents(s, r, c, e), r, Unlisten, Disarmed(e));
  }

  lemma LeaveCourse(s: State, r: Rid)
    requires Enabled(s, r, Unregister)
    ensures CoCourse(s, r, Unregister, Do(s, r, Unregister))
  {
    hide AddListenEvents, DelListenEvents, UnregisterFromReactor, LoopStep, ReactorOr, CoCourse, SameCourse, SetConn;
    CoEnabled(s, r, Unregister);
    var c := s.loops[r].cur.value;
    UnregisterCourse(s, r, c);
    ThenCourse(s, UnregisterFromReactor(s, r, c), r, Unregister, Leaving);
  }

  lemma CoStepCourse(s: State, r: Rid, a: Action)
    requires Enabled(s, r, a) && CoAction(a)
    ensures CoCourse(s, r, a, Do(s, r, a))
  {
    hide Enabled, Do, CoCourse;
    match a
    case Listen => ListenCourse(s, r);
    case Unlisten => UnlistenCourse(s, r);
    case Unregister => LeaveCourse(s, r);
    case YieldParked => YieldCourse(s, r, a);
    case CloseFd => YieldCourse(s, r, a);
    case _ => HookOnlyCourse(s, r, a);
  }

  lemma ResumeCourse(s: State, r: Rid, target: Option<Fd>)
    requires r in s.loops
    ensures
      var s' := Resume(s, r, target);
      && s'.loops.Keys == s.loops.Keys && s'.conns.Keys == s.conns.Keys && s'.queue == s.queue
      && (forall q :: q in s.loops && q != r ==> s'.loops[q] == s.loops[q]) && SameFlow(s.loops[r], s'.loops[r])
      && (forall c :: c in s.conns ==> Resumed(s.conns[c].co, s'.conns[c].co))
  {
  }

  /** Left alone, started, or resumed. */
  predicate Resumed(co: CoPc, co': CoPc) {
    co' == co || (co.NotStarted? && co' == Running) || (co.Parked? && co' == Woken(co.event))
  }

  /** What a step of the loop does besides moving the thread on. */
  ghost predicate LoopCourse(s: State, r: Rid, a: Action, s': State)
    requires r in s.loops
  {
    && s'.loops.Keys == s.loops.Keys && s'.conns.Keys == s.conns.Keys
    && (forall q :: q in s.loops && q != r ==> s'.loops[q] == s.loops[q])
    && s'.loops[r].kind == s.loops[r].kind
    && (forall c :: c in s.conns ==>
          var co, co' := s.conns[c].co, s'.conns[c].co;
          if a == Accept(c) then (co.Unborn? || co.Closed?) && co' == NotStarted else Resumed(co, co'))
    && s'.loops[r].tasks == (if a == TakeTasks then [] else s.loops[r].tasks + NewTasks(s, Step(r, a), r))
    && s'.queue == (
         if a == Push && s.loops[r].pc.Detached? then s.queue + [Item(s.loops[r].pc.fd, r)]
         else if a == Pop && s.queue != [] then s.queue[1..]
         else s.queue)
    && if Turns(a) then OnMain(s.loops[r]) && Edge(s, r, a, s'.loops[r].pc) else s'.loops[r].pc == s.loops[r].pc
  }

  lemma BeginFirstCourse(s: State, r: Rid)
    requires Enabled(s, r, BeginFirst)
    ensures r in s.loops && LoopCourse(s, r, BeginFirst, Do(s, r, BeginFirst))
  {
    hide Resume, CoStep, HandleEvent, LoopCourse, SetPc;
    ResumingCourse(s, r, BeginFirst, FirstResumed, s.loops[r].first);
  }

  lemma RunStolenCourse(s: State, r: Rid)
    requires Enabled(s, r, RunStolen)
    ensures r in s.loops && LoopCourse(s, r, RunStolen, Do(s, r, RunStolen))
  {
    hide Resume, CoStep, HandleEvent, LoopCourse, SetPc;
    ResumingCourse(s, r, RunStolen, Drain, s.conns[s.loops[r].pc.fd].coroutine);
  }

  lemma RunTaskCourse(s: State, r: Rid)
    requires Enabled(s, r, RunTask)
    ensures r in s.loops && LoopCourse(s, r, RunTask, Do(s, r, RunTask))
  {
    hide Resume, CoStep, HandleEvent, LoopCourse;
    var l := s.loops[r];
    if l.pc.todo[0].Start? {
      ResumingCourse(s, r, RunTask, RunTasks(l.pc.todo[1..]), Some(l.pc.todo[0].fd));
    } else {
      NothingBehind(l.tasks);
      OwnCourse(s, r, RunTask, l.(pc := RunTasks(l.pc.todo[1..])), s.queue);
    }
  }

  lemma HandleIs(s: State, r: Rid)
    requires Enabled(s, r, Handle)
    ensures r in s.loops && OnMain(s.loops[r]) && s.loops[r].pc.Batch? && s.loops[r].pc.events != []
    ensures s.loops[r].pc.events[0].fd in s.conns && Do(s, r, Handle) == HandleEvent(s, r)
  {
    hide HandleEvent, CoStep;
  }

  lemma HandleCourse(s: State, r: Rid)
    requires Enabled(s, r, Handle)
    ensures r in s.loops && LoopCourse(s, r, Handle, Do(s, r, Handle))
  {
    hide Do, Enabled, HandleEvent, LoopCourse, OnMain;
    HandleIs(s, r);
    var l := s.loops[r];
    var e := l.pc.events[0];
    if e.events != {} && s.conns[e.fd].coroutine.Some? && l.first.Some? && l.kind.MainReactor? {
      HandleResumeCourse(s, r);
    } else {
      HandleSortCourse(s, r);
    }
  }

  lemma HandleResumeCourse(s: State, r: Rid)
    requires r in s.loops && OnMain(s.loops[r]) && s.loops[r].pc.Batch? && s.loops[r].pc.events != []
    requires
      var l := s.loops[r];
      var e := l.pc.events[0];
      e.fd in s.conns && e.events != {} && s.conns[e.fd].coroutine.Some? && l.first.Some? && l.kind.MainReactor?
    ensures LoopCourse(s, r, Handle, HandleEvent(s, r))
  {
    hide Resume, LoopCourse, SetPc;
    var l := s.loops[r];
    NothingBehind(l.tasks);
    ResumingCourse(s, r, Handle, BatchResumed(l.pc.events[1..]), s.conns[l.pc.events[0].fd].coroutine);
  }

  /** A step that moves the thread on and resumes a coroutine. */
  lemma ResumingCourse(s: State, r: Rid, a: Action, pc: Pc, target: Option<Fd>)
    requires r in s.loops && Turns(a) && OnMain(s.loops[r]) && Edge(s, r, a, pc) && NewTasks(s, Step(r, a), r) == []
    requires a != TakeTasks && a != Push && a != Pop
    ensures LoopCourse(s, r, a, Resume(SetPc(s, r, pc), r, target))
  {
    hide Edge, NewTasks, OnMain, Resume, Resumed;
    NothingBehind(s.loops[r].tasks);
    ResumeCourse(SetPc(s, r, pc), r, target);
  }

  /** Unless it resumes, the step changes the thread's own loop only. */
  lemma HandleSortCourse(s: State, r: Rid)
    requires r in s.loops && OnMain(s.loops[r]) && s.loops[r].pc.Batch? && s.loops[r].pc.events != []
    requires s.loops[r].pc.events[0].fd in s.conns
    requires
      var l := s.loops[r];
      var e := l.pc.events[0];
      e.events == {} || s.conns[e.fd].coroutine.None? || l.first.None? || l.kind.SubReactor?
    ensures LoopCourse(s, r, Handle, HandleEvent(s, r))
  {
    hide Resume, DelInLoop, Callbacks, CallbacksOf, LoopCourse;
    var l := s.loops[r];
    var e := l.pc.events[0];
    CallbacksSplit(e);
    NoCallbacks(e);
    NothingBehind(l.tasks);
    var l' := HandleEvent(s, r).loops[r];
    assert HandleEvent(s, r) == SetLoop(s, r, l');
    OwnCourse(s, r, Handle, l', s.queue);
  }

  /** A step that changes the thread's own loop and the queue only. */
  lemma OwnCourse(s: State, r: Rid, a: Action, l': Loop, queue: seq<Item>)
    requires r in s.loops && Turns(a) && OnMain(s.loops[r]) && Edge(s, r, a, l'.pc) && l'.kind == s.loops[r].kind
    requires l'.tasks == (if a == TakeTasks then [] else s.loops[r].tasks + NewTasks(s, Step(r, a), r))
    requires queue == (
      if a == Push && s.loops[r].pc.Detached? then s.queue + [Item(s.loops[r].pc.fd, r)]
      else if a == Pop && s.queue != [] then s.queue[1..]
      else s.queue)
    ensures LoopCourse(s, r, a, SetLoop(s, r, l').(queue := queue))
  {
    hide Edge, NewTasks, OnMain;
  }

  lemma NoCallbacks(e: Ready)
    ensures e.events == {} ==> CallbacksOf(e) == []
  {
  }

  lemma TopCourse(s: State, r: Rid, a: Action)
    requires Enabled(s, r, a) && (a.Stop? || a.SkipFirst? || a.EndFirst?)
    ensures r in s.loops && LoopCourse(s, r, a, Do(s, r, a))
  {
    hide Resume, CoStep, HandleEvent, LoopCourse;
    NothingBehind(s.loops[r].tasks);
    OwnCourse(s, r, a, Do(s, r, a).loops[r], s.queue);
  }

  lemma DrainCourse(s: State, r: Rid, a: Action)
    requires Enabled(s, r, a) && (a.Pop? || a.QueueEmpty?)
    ensures r in s.loops && LoopCourse(s, r, a, Do(s, r, a))
  {
    hide Resume, CoStep, HandleEvent, LoopCourse;
    NothingBehind(s.loops[r].tasks);
    OwnCourse(s, r, a, Do(s, r, a).loops[r], if a.Pop? then s.queue[1..] else s.queue);
  }

  lemma HandOverCourse(s: State, r: Rid, a: Action)
    requires Enabled(s, r, a) && (a.Claim? || a.Detach?)
    ensures r in s.loops && LoopCourse(s, r, a, Do(s, r, a))
  {
    hide Resume, CoStep, HandleEvent;
    NothingBehind(s.loops[r].tasks);
  }

  lemma AcceptCourse(s: State, r: Rid, a: Action)
    requires Enabled(s, r, a) && a.Accept?
    ensures r in s.loops && LoopCourse(s, r, a, Do(s, r, a))
  {
    hide Resume, CoStep, HandleEvent, Edge;
  }

  lemma TasksCourse(s: State, r: Rid, a: Action)
    requires Enabled(s, r, a) && (a.TakeTasks? || a.TasksDone? || a.WaitFailed? || a.Deliver?)
    ensures r in s.loops && LoopCourse(s, r, a, Do(s, r, a))
  {
    hide Resume, CoStep, HandleEvent, LoopCourse, Deliverable;
    NothingBehind(s.loops[r].tasks);
    OwnCourse(s, r, a, Do(s, r, a).loops[r], s.queue);
  }

  lemma BatchCourse(s: State, r: Rid, a: Action)
    requires Enabled(s, r, a) && (a.Push? || a.EndBatchResume? || a.BatchDone? || a.TakePending?)
    ensures r in s.loops && LoopCourse(s, r, a, Do(s, r, a))
  {
    hide Resume, CoStep, HandleEvent, LoopCourse;
    NothingBehind(s.loops[r].tasks);
    OwnCourse(s, r, a, Do(s, r, a).loops[r],
              if a.Push? then s.queue + [Item(s.loops[r].pc.fd, r)] else s.queue);
  }

  lemma ApplyCourse(s: State, r: Rid, a: Action)
    requires Enabled(s, r, a) && (a.ApplyAdd? || a.ApplyDel? || a.ApplyDone?)
    ensures r in s.loops && LoopCourse(s, r, a, Do(s, r, a))
  {
    hide Resume, CoStep, HandleEvent, AddInLoop, DelInLoop, LoopCourse;
    NothingBehind(s.loops[r].tasks);
    OwnCourse(s, r, a, Do(s, r, a).loops[r], s.queue);
  }

  lemma YieldClosedCourse(s: State, r: Rid)
    requires Enabled(s, r, YieldClosed)
    ensures r in s.loops && LoopCourse(s, r, YieldClosed, Do(s, r, YieldClosed))
  {
    hide LoopStep, CoStep, Enabled, LoopCourse, SetLoop;
    YieldClosedIs(s, r);
    LeftCourse(s, r);
  }

  lemma LeftCourse(s: State, r: Rid)
    requires r in s.loops
    ensures LoopCourse(s, r, YieldClosed, SetLoop(s, r, s.loops[r].(leaving := false)))
  {
    hide Edge, NewTasks;
    LeavingAddsNone(s, r);
    NothingBehind(s.loops[r].tasks);
  }

  lemma LeavingAddsNone(s: State, r: Rid)
    ensures NewTasks(s, Step(r, YieldClosed), r) == []
  {
  }

  lemma LoopStepCourse(s: State, r: Rid, a: Action)
    requires Enabled(s, r, a) && !CoAction(a)
    ensures r in s.loops && LoopCourse(s, r, a, Do(s, r, a))
  {
    hide Do, Enabled, LoopCourse;
    match a
    case BeginFirst => BeginFirstCourse(s, r);
    case RunStolen => RunStolenCourse(s, r);
    case RunTask => RunTaskCourse(s, r);
    case Handle => HandleCourse(s, r);
    case YieldClosed => YieldClosedCourse(s, r);
    case _ =>
      if a.Accept? { AcceptCourse(s, r, a); }
      else if a.Claim? || a.Detach? { HandOverCourse(s, r, a); }
      else if a.Stop? || a.SkipFirst? || a.EndFirst? { TopCourse(s, r, a); }
      else if a.Pop? || a.QueueEmpty? { DrainCourse(s, r, a); }
      else if a.TakeTasks? || a.TasksDone? || a.WaitFailed? || a.Deliver? { TasksCourse(s, r, a); }
      else if a.ApplyAdd? || a.ApplyDel? || a.ApplyDone? { ApplyCourse(s, r, a); }
      else { BatchCourse(s, r, a); }
  }

  /** In every run, a thread's place in the loop changes by its own steps on its main coroutine and along the
      edges of the source's loop only, and each of those steps is such a move. */
  lemma FollowsLoop(states: seq<State>, steps: seq<Step>, i: nat, q: Rid)
    requires Run(states, steps) && i < |steps| && q in states[i].loops
    ensures q in states[i + 1].loops && states[i + 1].loops[q].kind == states[i].loops[q].kind
    ensures
      var s, s', a := states[i], states[i + 1], steps[i].a;
      if q == steps[i].r && Turns(a) then OnMain(s.loops[q]) && Edge(s, q, a, s'.loops[q].pc)
      else s'.loops[q].pc == s.loops[q].pc
  {
    hide Do, Enabled, Edge, Init, NewTasks, HookEdge, Resumed;
    var s, r, a := states[i], steps[i].r, steps[i].a;
    if CoAction(a) { CoStepCourse(s, r, a); } else { LoopStepCourse(s, r, a); }
  }

  lemma {:induction false} SameLoops(states: seq<State>, steps: seq<Step>, i: nat, r: Rid)
    requires Run(states, steps) && i < |states| && r in states[0].loops
    ensures r in states[i].loops && states[i].loops[r].kind == states[0].loops[r].kind
  {
    hide Do, Enabled, Init;
    if i > 0 {
      SameLoops(states, steps, i - 1, r);
      FollowsLoop(states, steps, i - 1, r);
    }
  }

  /** The loop is left exactly by being stopped. */
  lemma {:induction false} ExitedIffStopped(states: seq<State>, steps: seq<Step>, i: nat, r: Rid)
    requires Run(states, steps) && i < |states| && r in states[0].loops
    ensures r in states[i].loops
    ensures states[i].loops[r].pc.Exited? <==> exists j :: 0 <= j < i && steps[j] == Step(r, Stop)
  {
    hide Do, Enabled, Init, OnMain, Edge;
    SameLoops(states, steps, i, r);
    if i == 0 {
      StartsAtTop(states[0], r);
    } else {
      ExitedIffStopped(states, steps, i - 1, r);
      FollowsLoop(states, steps, i - 1, r);
      if steps[i - 1].r == r && Turns(steps[i - 1].a) {
        ExitEdge(states[i - 1], r, steps[i - 1].a, states[i].loops[r].pc);
      }
    }
  }

  lemma StartsAtTop(s: State, r: Rid)
    requires Init(s) && r in s.loops
    ensures s.loops[r].pc == Top
  {
  }

  lemma ExitEdge(s: State, r: Rid, a: Action, pc': Pc)
    requires r in s.loops && Edge(s, r, a, pc') && Enabled(s, r, a)
    ensures !s.loops[r].pc.Exited? && (pc'.Exited? <==> a == Stop)
  {
  }

  // --- The global queue ---

  function Fds(queue: seq<Item>): seq<Fd> {
    seq(|queue|, i requires 0 <= i < |queue| => queue[i].fd)
  }

  /** The fds that threads had in hand at their Push steps, in order. */
  ghost function PushHistory(states: seq<State>, steps: seq<Step>, i: nat): seq<Fd>
    requires Run(states, steps) && i < |states|
  {
    if i == 0 then []
    else
      var s, step := states[i - 1], steps[i - 1];
      PushHistory(states, steps, i - 1) +
      if step.a == Push && step.r in s.loops && s.loops[step.r].pc.Detached? then [s.loops[step.r].pc.fd] else []
  }

  /** The fds that threads have in hand after their Pop steps, in order. */
  ghost function PopHistory(states: seq<State>, steps: seq<Step>, i: nat): seq<Fd>
    requires Run(states, steps) && i < |states|
  {
    if i == 0 then []
    else
      var s', step := states[i], steps[i - 1];
      PopHistory(states, steps, i - 1) +
      if step.a == Pop && step.r in s'.loops && s'.loops[step.r].pc.Popped? then [s'.loops[step.r].pc.fd] else []
  }

  lemma QueueStep(s: State, r: Rid, a: Action)
    requires Enabled(s, r, a)
    ensures a == Push ==>
      r in s.loops && s.loops[r].pc.Detached? && Fds(Do(s, r, a).queue) == Fds(s.queue) + [s.loops[r].pc.fd]
    ensures a == Pop ==>
      && r in Do(s, r, a).loops && Do(s, r, a).loops[r].pc.Popped?
      && Fds(s.queue) == [Do(s, r, a).loops[r].pc.fd] + Fds(Do(s, r, a).queue)
    ensures a != Push && a != Pop ==> Do(s, r, a).queue == s.queue
  {
    hide Do, Enabled, Edge;
    if CoAction(a) {
      CoQueue(s, r, a);
    } else {
      LoopQueue(s, r, a);
      if a == Pop || a == Push {
        LoopEdge(s, r, a);
        QueueEdge(s, r, a, Do(s, r, a).loops[r].pc);
      }
    }
  }

  lemma CoQueue(s: State, r: Rid, a: Action)
    requires Enabled(s, r, a) && CoAction(a)
    ensures Do(s, r, a).queue == s.queue
  {
    hide Do, Enabled, SameFlow, HookEdge;
    CoStepCourse(s, r, a);
  }

  lemma LoopQueue(s: State, r: Rid, a: Action)
    requires Enabled(s, r, a) && !CoAction(a)
    ensures r in s.loops && Do(s, r, a).queue == (
      if a == Push && s.loops[r].pc.Detached? then s.queue + [Item(s.loops[r].pc.fd, r)]
      else if a == Pop && s.queue != [] then s.queue[1..]
      else s.queue)
  {
    hide Do, Enabled, Edge, NewTasks, Resumed, OnMain;
    LoopStepCourse(s, r, a);
  }

  lemma LoopEdge(s: State, r: Rid, a: Action)
    requires Enabled(s, r, a) && Turns(a)
    ensures r in s.loops && r in Do(s, r, a).loops && OnMain(s.loops[r]) && Edge(s, r, a, Do(s, r, a).loops[r].pc)
  {
    hide Do, Enabled, Edge, NewTasks, Resumed, OnMain;
    LoopStepCourse(s, r, a);
  }

  lemma QueueEdge(s: State, r: Rid, a: Action, pc': Pc)
    requires r in s.loops && Edge(s, r, a, pc')
    ensures a == Push ==> s.loops[r].pc.Detached?
    ensures a == Pop ==> s.queue != [] && pc' == Pc.Popped(s.queue[0].fd)
  {
  }

  /** In every run the global queue is first in, first out: what was pushed is what was popped followed by what
      is still queued. */
  lemma {:induction false} QueueIsFifo(states: seq<State>, steps: seq<Step>, i: nat)
    requires Run(states, steps) && i < |states|
    ensures PushHistory(states, steps, i) == PopHistory(states, steps, i) + Fds(states[i].queue)
  {
    hide Do, Enabled, Fds;
    if i == 0 {
      StartsEmpty(states[0]);
    } else {
      QueueIsFifo(states, steps, i - 1);
      QueueStep(states[i - 1], steps[i - 1].r, steps[i - 1].a);
      hide Init;
      var before, popped := Fds(states[i - 1].queue), PopHistory(states, steps, i - 1);
      if steps[i - 1].a == Pop {
        assert popped + before == popped + [states[i].loops[steps[i - 1].r].pc.fd] + Fds(states[i].queue);
      } else if steps[i - 1].a == Push {
        var fd := states[i - 1].loops[steps[i - 1].r].pc.fd;
        assert popped + before + [fd] == popped + (before + [fd]);
      }
    }
  }

  lemma StartsEmpty(s: State)
    requires Init(s)
    ensures Fds(s.queue) == []
  {
  }

  // --- What epoll_wait returned ---

  /** All that epoll_wait has returned to thread r. */
  ghost function Delivered(steps: seq<Step>, i: nat, r: Rid): seq<Ready>
    requires i <= |steps|
  {
    if i == 0 then []
    else
      Delivered(steps, i - 1, r) +
      if steps[i - 1].r == r && steps[i - 1].a.Deliver? then steps[i - 1].a.events else []
  }

  /** The entries that thread r had in hand at its Handle steps. */
  ghost function Handled(states: seq<State>, steps: seq<Step>, i: nat, r: Rid): seq<Ready>
    requires Run(states, steps) && i < |states|
  {
    if i == 0 then []
    else
      var s, step := states[i - 1], steps[i - 1];
      Handled(states, steps, i - 1, r) +
      if step.r == r && step.a == Handle && r in s.loops && Undelivered(s.loops[r].pc) != [] then
        [Undelivered(s.loops[r].pc)[0]]
      else []
  }

  lemma UndeliveredStep(s: State, r: Rid, a: Action)
    requires Enabled(s, r, a) && Turns(a)
    ensures r in s.loops && r in Do(s, r, a).loops
    ensures EntriesMove(a, Undelivered(s.loops[r].pc), Undelivered(Do(s, r, a).loops[r].pc))
  {
    hide *;
    LoopEdge(s, r, a);
    EntriesEdge(s, r, a, Do(s, r, a).loops[r].pc);
  }

  predicate EntriesMove(a: Action, u: seq<Ready>, u': seq<Ready>) {
    match a
    case Deliver(events) => u == [] && u' == events
    case Handle => u != [] && u' == u[1..]
    case _ => u' == u
  }

  lemma EntriesEdge(s: State, r: Rid, a: Action, pc': Pc)
    requires r in s.loops && Edge(s, r, a, pc')
    ensures EntriesMove(a, Undelivered(s.loops[r].pc), Undelivered(pc'))
  {
    hide Onward;
    NoEntries(s.loops[r].kind, pc');
  }

  lemma NoEntries(kind: Kind, pc: Pc)
    ensures Onward(kind, pc) ==> Undelivered(pc) == []
  {
  }

  /** In every run each thread handles what epoll_wait returned to it entry by entry: all that was returned is
      what it has handled followed by what it still has in hand. */
  lemma {:induction false} EntriesInOrder(states: seq<State>, steps: seq<Step>, i: nat, r: Rid)
    requires Run(states, steps) && i < |states| && r in states[0].loops
    ensures r in states[i].loops
    ensures Delivered(steps, i, r) == Handled(states, steps, i, r) + Undelivered(states[i].loops[r].pc)
  {
    hide Do, Enabled, Undelivered, Init, Edge, OnMain;
    SameLoops(states, steps, i, r);
    if i == 0 {
      StartsAtTop(states[0], r);
      TopHasNone();
    } else {
      SameLoops(states, steps, i - 1, r);
      EntriesInOrder(states, steps, i - 1, r);
      FollowsLoop(states, steps, i - 1, r);
      var u, u' := Undelivered(states[i - 1].loops[r].pc), Undelivered(states[i].loops[r].pc);
      if steps[i - 1].r == r && Turns(steps[i - 1].a) {
        UndeliveredStep(states[i - 1], r, steps[i - 1].a);
        if steps[i - 1].a == Handle { MoveOne(Handled(states, steps, i - 1, r), u); }
        NothingBehind(Handled(states, steps, i - 1, r));
      } else {
        NothingBehind(Handled(states, steps, i - 1, r));
        NothingBehind(Delivered(steps, i - 1, r));
      }
    }
  }

  lemma TopHasNone()
    ensures Undelivered(Top) == []
  {
  }

  lemma MoveOne<T>(a: seq<T>, b: seq<T>)
    requires b != []
    ensures a + b == a + [b[0]] + b[1..]
  {
  }

  lemma NothingBehind<T>(a: seq<T>)
    ensures a + [] == a
  {
  }

  // --- Pending tasks ---

  /** The callbacks of an FdEvent that holds no coroutine: for reading, then for writing. */
  function CallbacksOf(e: Ready): seq<Task> {
    match (Read in e.events, Write in e.events)
    case (true, true) => [Callback(e.fd, Read), Callback(e.fd, Write)]
    case (true, false) => [Callback(e.fd, Read)]
    case (false, true) => [Callback(e.fd, Write)]
    case (false, false) => []
  }

  /** What a step makes pending with reactor r: the start of an accepted connection, or callbacks. */
  ghost function NewTasks(s: State, step: Step, r: Rid): seq<Task> {
    if step.r != r then []
    else
      match step.a
      case Accept(fd) => [Start(fd)]
      case Handle =>
        if r in s.loops && Undelivered(s.loops[r].pc) != [] then
          var e := Undelivered(s.loops[r].pc)[0];
          if e.fd in s.conns && s.conns[e.fd].coroutine.None? then CallbacksOf(e) else []
        else []
      case _ => []
  }

  ghost function TasksAdded(states: seq<State>, steps: seq<Step>, i: nat, r: Rid): seq<Task>
    requires Run(states, steps) && i < |states|
  {
    if i == 0 then [] else TasksAdded(states, steps, i - 1, r) + NewTasks(states[i - 1], steps[i - 1], r)
  }

  /** The tasks that thread r had first in hand at its RunTask steps. */
  ghost function TasksRun(states: seq<State>, steps: seq<Step>, i: nat, r: Rid): seq<Task>
    requires Run(states, steps) && i < |states|
  {
    if i == 0 then []
    else
      var s, step := states[i - 1], steps[i - 1];
      TasksRun(states, steps, i - 1, r) +
      if step.r == r && step.a == RunTask && r in s.loops && Todo(s.loops[r]) != [] then [Todo(s.loops[r])[0]] else []
  }

  lemma TasksStep(s: State, r: Rid, a: Action)
    requires Enabled(s, r, a) && !CoAction(a)
    ensures r in s.loops && r in Do(s, r, a).loops
    ensures
      var t, t' := Todo(s.loops[r]), Todo(Do(s, r, a).loops[r]);
      if a == RunTask then t != [] && t' == t[1..] else t' == t + NewTasks(s, Step(r, a), r)
  {
    hide Do, Enabled, NewTasks, Edge;
    LoopTasks(s, r, a);
    if Turns(a) {
      LoopEdge(s, r, a);
      TodoEdge(s, r, a, Do(s, r, a).loops[r].pc);
    }
    RunTaskAddsNone(s, r);
    TakeAddsNone(s, r);
    var l := s.loops[r];
    NothingBehind(l.tasks);
    NothingBehind(Todo(l));
    Assoc(InHand(l.pc), l.tasks, NewTasks(s, Step(r, a), r));
  }

  function InHand(pc: Pc): seq<Task> {
    if pc.RunTasks? then pc.todo else []
  }

  lemma LoopTasks(s: State, r: Rid, a: Action)
    requires Enabled(s, r, a) && !CoAction(a)
    ensures r in s.loops && r in Do(s, r, a).loops
    ensures Do(s, r, a).loops[r].tasks == if a == TakeTasks then [] else s.loops[r].tasks + NewTasks(s, Step(r, a), r)
    ensures !Turns(a) ==> Do(s, r, a).loops[r].pc == s.loops[r].pc
  {
    hide Do, Enabled, Edge, NewTasks, Resumed, OnMain;
    LoopStepCourse(s, r, a);
  }

  lemma TodoEdge(s: State, r: Rid, a: Action, pc': Pc)
    requires r in s.loops && Edge(s, r, a, pc')
    ensures
      var t, t' := InHand(s.loops[r].pc), InHand(pc');
      match a
      case TakeTasks => t == [] && t' == s.loops[r].tasks
      case RunTask => t != [] && t' == t[1..]
      case _ => t' == t
  {
  }

  lemma RunTaskAddsNone(s: State, r: Rid)
    ensures NewTasks(s, Step(r, RunTask), r) == []
  {
  }

  lemma TakeAddsNone(s: State, r: Rid)
    ensures NewTasks(s, Step(r, TakeTasks), r) == []
  {
  }

  lemma CallbacksSplit(e: Ready)
    ensures Callbacks(e) == CallbacksOf(e)
  {
  }

  /** In every run each reactor runs its pending tasks in the order in which they became pending, each once: all
      that was put off is what has run followed by what is still to run. */
  lemma {:induction false} TasksInOrder(states: seq<State>, steps: seq<Step>, i: nat, r: Rid)
    requires Run(states, steps) && i < |states| && r in states[0].loops
    ensures r in states[i].loops
    ensures TasksAdded(states, steps, i, r) == TasksRun(states, steps, i, r) + Todo(states[i].loops[r])
  {
    hide Do, Enabled, Todo, Init, Edge, NewTasks, OnMain;
    SameLoops(states, steps, i, r);
    if i == 0 {
      StartsIdle(states[0], r);
    } else {
      SameLoops(states, steps, i - 1, r);
      TasksInOrder(states, steps, i - 1, r);
      var s, step := states[i - 1], steps[i - 1];
      var run, todo := TasksRun(states, steps, i - 1, r), Todo(s.loops[r]);
      OtherTasks(s, step, r);
      NothingBehind(run);
      NothingBehind(TasksAdded(states, steps, i - 1, r));
      if step.r == r && !CoAction(step.a) {
        TasksStep(s, r, step.a);
        if step.a == RunTask { MoveOne(run, todo); } else { Assoc(run, todo, NewTasks(s, step, r)); }
      }
    }
  }

  lemma Assoc<T>(a: seq<T>, b: seq<T>, c: seq<T>)
    ensures a + b + c == a + (b + c)
  {
  }

  /** Steps of coroutines and of other threads leave a reactor's tasks alone. */
  lemma OtherTasks(s: State, step: Step, r: Rid)
    requires Enabled(s, step.r, step.a) && r in s.loops
    ensures r in Do(s, step.r, step.a).loops
    ensures step.r != r || CoAction(step.a) || step.a == RunTask ==> NewTasks(s, step, r) == []
    ensures step.r != r || CoAction(step.a) ==> Todo(Do(s, step.r, step.a).loops[r]) == Todo(s.loops[r])
  {
    hide Do, Enabled, Resumed, HookEdge, Edge;
    if CoAction(step.a) { CoStepCourse(s, step.r, step.a); } else { LoopStepCourse(s, step.r, step.a); }
  }

  lemma StartsIdle(s: State, r: Rid)
    requires Init(s) && r in s.loops
    ensures Todo(s.loops[r]) == []
  {
  }

  // --- The hooks ---

  /** Thread r runs c and takes step a. */
  ghost predicate StepOf(s: State, step: Step, c: Fd) {
    RunsOn(s, step.r, c) && CoAction(step.a)
  }

  /** Step j calls read_hook (Read) or write_hook (Write) on the thread that runs c, and no later one before i calls
      a hook on a thread that runs c. */
  ghost predicate LastHook(states: seq<State>, steps: seq<Step>, i: nat, c: Fd, j: nat, e: IOEvent)
    requires Run(states, steps) && i < |states|
  {
    && j < i && steps[j].a == CallHook(e) && StepOf(states[j], steps[j], c)
    && forall k :: j < k < i && steps[k].a.CallHook? ==> !StepOf(states[k], steps[k], c)
  }

  /** The event of the hook a coroutine is in. */
  function InHookFor(co: CoPc): Option<IOEvent> {
    match co
    case Trying(e) => Some(e)
    case Arming(e) => Some(e)
    case Armed(e) => Some(e)
    case Yielding(e) => Some(e)
    case Parked(e) => Some(e)
    case Woken(e) => Some(e)
    case Disarmed(e) => Some(e)
    case _ => None
  }

  lemma StepHook(s: State, r: Rid, a: Action, c: Fd)
    requires Enabled(s, r, a) && c in s.conns
    ensures c in Do(s, r, a).conns
    ensures HookMoves(a, RunsOn(s, r, c), InHookFor(s.conns[c].co), InHookFor(Do(s, r, a).conns[c].co))
  {
    hide Do, Enabled, HookEdge, RunsOn, InHookFor;
    StepCo(s, r, a, c);
    CoMoves(a, RunsOn(s, r, c), s.conns[c].co, Do(s, r, a).conns[c].co, c);
  }

  predicate HookMoves(a: Action, own: bool, h: Option<IOEvent>, h': Option<IOEvent>) {
    if a.CallHook? && own then h' == Some(a.event) else h' == h || h' == None
  }

  lemma CoMoves(a: Action, own: bool, co: CoPc, co': CoPc, c: Fd)
    requires CoMove(a, own, co, co', c)
    ensures HookMoves(a, own, InHookFor(co), InHookFor(co'))
  {
    hide HookEdge, InHookFor, Resumed;
    if CoAction(a) {
      if own { EdgeHook(a, co, co'); }
    } else {
      LoopHook(co, co');
    }
  }

  lemma EdgeHook(a: Action, co: CoPc, co': CoPc)
    requires HookEdge(a, co, co')
    ensures HookMoves(a, true, InHookFor(co), InHookFor(co'))
  {
  }

  lemma LoopHook(co: CoPc, co': CoPc)
    requires Resumed(co, co') || co' == NotStarted
    ensures InHookFor(co') == InHookFor(co) || InHookFor(co') == None
  {
  }

  /** How one coroutine's place in its hooks changes in a step. */
  predicate CoMove(a: Action, own: bool, co: CoPc, co': CoPc, c: Fd) {
    if CoAction(a) then
      if own then HookEdge(a, co, co') else co' == co
    else if a == Accept(c) then (co.Unborn? || co.Closed?) && co' == NotStarted
    else Resumed(co, co')
  }

  lemma StepCo(s: State, r: Rid, a: Action, c: Fd)
    requires Enabled(s, r, a) && c in s.conns
    ensures c in Do(s, r, a).conns && CoMove(a, RunsOn(s, r, c), s.conns[c].co, Do(s, r, a).conns[c].co, c)
  {
    hide Do, Enabled, HookEdge, Resumed, RunsOn;
    if CoAction(a) { CoOfCo(s, r, a, c); } else { LoopOfCo(s, r, a, c); }
  }

  lemma CoOfCo(s: State, r: Rid, a: Action, c: Fd)
    requires Enabled(s, r, a) && CoAction(a) && c in s.conns
    ensures c in Do(s, r, a).conns && CoMove(a, RunsOn(s, r, c), s.conns[c].co, Do(s, r, a).conns[c].co, c)
  {
    hide Do, Enabled, HookEdge, Resumed, RunsOn, SameFlow;
    CoStepCourse(s, r, a);
  }

  lemma LoopOfCo(s: State, r: Rid, a: Action, c: Fd)
    requires Enabled(s, r, a) && !CoAction(a) && c in s.conns
    ensures c in Do(s, r, a).conns && CoMove(a, RunsOn(s, r, c), s.conns[c].co, Do(s, r, a).conns[c].co, c)
  {
    hide Do, Enabled, HookEdge, Resumed, RunsOn, Edge, NewTasks, OnMain;
    LoopStepCourse(s, r, a);
  }

  lemma {:induction false} HookIsLast(states: seq<State>, steps: seq<Step>, i: nat, c: Fd)
    returns (j: nat)
    requires Run(states, steps) && i < |states| && c in states[i].conns && InHookFor(states[i].conns[c].co).Some?
    ensures LastHook(states, steps, i, c, j, InHookFor(states[i].conns[c].co).value)
  {
    hide Do, Enabled, Init;
    if i == 0 {
      NobodyHooked(states[0], c);
      assert false;
    } else {
      var s, r, a := states[i - 1], steps[i - 1].r, steps[i - 1].a;
      StepSameConns(s, r, a);
      StepHook(s, r, a, c);
      if a.CallHook? && RunsOn(s, r, c) {
        j := i - 1;
      } else {
        j := HookIsLast(states, steps, i - 1, c);
      }
    }
  }

  lemma NobodyHooked(s: State, c: Fd)
    requires Init(s) && c in s.conns
    ensures InHookFor(s.conns[c].co) == None
  {
  }

  lemma OneLastHook(states: seq<State>, steps: seq<Step>, i: nat, c: Fd, j: nat, e: IOEvent, j': nat, e': IOEvent)
    requires Run(states, steps) && i < |states|
    requires LastHook(states, steps, i, c, j, e) && LastHook(states, steps, i, c, j', e')
    ensures e == e'
  {
    hide Run;
    if j < j' || j' < j {
      assert false;
    }
  }

  /** In every run a parked coroutine waits for what its last hook waits for: read_hook for reading, write_hook for
      writing. That event alone it listens to, and under that event alone its fd is in any interest set. */
  lemma HookWaits(states: seq<State>, steps: seq<Step>, i: nat, c: Fd, j: nat, e: IOEvent)
    requires Run(states, steps) && i < |states| && IsParked(states[i], c)
    requires LastHook(states, steps, i, c, j, e)
    ensures states[i].conns[c].co == Parked(e) && states[i].conns[c].listen == {e}
    ensures forall r :: r in states[i].loops && c in states[i].loops[r].poll.kernel ==>
      states[i].loops[r].poll.kernel[c] == {e}
  {
    var k := HookIsLast(states, steps, i, c);
    OneLastHook(states, steps, i, c, j, e, k, InHookFor(states[i].conns[c].co).value);
    RunKeepsInv(states, steps, i);
    hide Run, LastHook, Fits;
    var p :| Fits(states[i], p);
    ParkedMask(states[i], p, c);
  }

  /** And a parked coroutine has called one. */
  lemma ParkedInHook(states: seq<State>, steps: seq<Step>, i: nat, c: Fd)
    requires Run(states, steps) && i < |states| && IsParked(states[i], c)
    ensures exists j: nat, e :: LastHook(states, steps, i, c, j, e)
  {
    hide LastHook, Run;
    var j := HookIsLast(states, steps, i, c);
  }

  lemma ParkedMask(s: State, p: Places, c: Fd)
    requires Fits(s, p) && IsParked(s, c)
    ensures s.conns[c].listen == {s.conns[c].co.event}
    ensures forall r :: r in s.loops && c in s.loops[r].poll.kernel ==> s.loops[r].poll.kernel[c] == s.conns[c].listen
  {
    FitsConn(s, p, c);
    forall r | r in s.loops && c in s.loops[r].poll.kernel ensures s.loops[r].poll.kernel[c] == s.conns[c].listen {
      FitsLoop(s, p, r);
    }
    hide Fits, LoopOk, QueueOk;
  }

  /** One step of a coroutine, in the order of read_hook and write_hook, and of clearing a connection. */
  predicate HookEdge(a: Action, co: CoPc, co': CoPc) {
    match co
    case Running => if a.CallHook? then co' == Trying(a.event) else a == Unregister && co' == Leaving
    case Trying(e) => if a == IoDone then co' == Running else a == IoBlocked && co' == Arming(e)
    case Arming(e) => a == SetCoroutine && co' == Armed(e)
    case Armed(e) => a == Listen && co' == Yielding(e)
    case Yielding(e) => a == YieldParked && co' == Parked(e)
    case Woken(e) => a == Unlisten && co' == Disarmed(e)
    case Disarmed(_) => a == ClearCoroutine && co' == Running
    case Leaving => a == CloseFd && co' == Closed
    case _ => false
  }

  /** In every run a coroutine gets from one point of its hooks to the next by its own steps, in the order of the
      source; and otherwise only by being accepted, started, or resumed. */
  lemma FollowsHooks(states: seq<State>, steps: seq<Step>, i: nat, c: Fd)
    requires Run(states, steps) && i < |steps| && c in states[i].conns
    ensures c in states[i + 1].conns
    ensures
      var co, co' := states[i].conns[c].co, states[i + 1].conns[c].co;
      if StepOf(states[i], steps[i], c) then HookEdge(steps[i].a, co, co')
      else if steps[i].a == Accept(c) then (co.Unborn? || co.Closed?) && co' == NotStarted
      else Resumed(co, co')
  {
    hide Do, Enabled, Init, HookEdge, RunsOn;
    StepCo(states[i], steps[i].r, steps[i].a, c);
  }

  // --- Whom a resume enters ---

  /** What the loop is about to resume: first_coroutine, the fd taken from the queue, the fd of the start task, or
      on the main reactor the fd of the entry in hand. */
  ghost predicate Due(l: Loop, a: Action, c: Fd) {
    match a
    case BeginFirst => l.first == Some(c)
    case RunStolen => l.pc == Claimed(c)
    case RunTask => Todo(l) != [] && Todo(l)[0] == Start(c)
    case Handle => Undelivered(l.pc) != [] && Undelivered(l.pc)[0].fd == c
    case _ => false
  }

  /** In every run a resume enters the very coroutine that is due: afterwards it runs on the thread, where it was
      parked, or fresh. */
  lemma ResumesTheDue(states: seq<State>, steps: seq<Step>, i: nat)
    requires Run(states, steps) && i < |steps| && Resumes(states[i], steps[i].r, steps[i].a)
    ensures
      var s, s', r, a := states[i], states[i + 1], steps[i].r, steps[i].a;
      && Enters(s, s', r) && r in s.loops
      && Due(s.loops[r], a, s'.loops[r].cur.value)
  {
    hide Do, Init, Enabled;
    EveryResumeEnters(states, steps, i);
    RunKeepsInv(states, steps, i);
    var s, r, a := states[i], steps[i].r, steps[i].a;
    var p :| Fits(s, p);
    hide Run;
    DueIsEntered(s, p, r, a);
  }

  lemma DueIsEntered(s: State, p: Places, r: Rid, a: Action)
    requires Fits(s, p) && Resumes(s, r, a)
    ensures r in s.loops && r in Do(s, r, a).loops
    ensures Do(s, r, a).loops[r].cur.Some? ==> Due(s.loops[r], a, Do(s, r, a).loops[r].cur.value)
  {
    hide Fits, Do, Enters, Resume, ConnOk, KernelOk, QueueOk, LoopOk;
    TargetWaits(s, p, r, a);
    StepIsResume(s, r, a);
    ClaimedIsOwn(s, p, r, a);
    var t := Target(s, r, a);
    ResumeTakes(s, r, t.0, t.1);
  }

  /** The coroutine of a connection taken from the queue is the connection's own. */
  lemma ClaimedIsOwn(s: State, p: Places, r: Rid, a: Action)
    requires Fits(s, p) && Resumes(s, r, a)
    ensures a.RunStolen? ==> Target(s, r, a).0 == s.loops[r].pc.fd
  {
    if a.RunStolen? {
      hide Fits, KernelOk, QueueOk;
      FitsLoop(s, p, r);
      FitsConn(s, p, s.loops[r].pc.fd);
    }
  }

  lemma ResumeTakes(s: State, r: Rid, c: Fd, pc: Pc)
    requires r in s.loops && OnMain(s.loops[r]) && c in s.conns
    ensures
      var s' := Resume(SetPc(s, r, pc), r, Some(c));
      r in s'.loops && (s'.loops[r].cur.Some? ==> s'.loops[r].cur == Some(c))
  {
  }
}
