/** What other threads ask a reactor to register and unregister, and what its loop keeps between two turns. */
module WorkSharingPending {
  import opened Interest
  import opened WorkSharing
  import opened WorkSharingHistory

  // --- first_coroutine ---

  /** What a step leaves in first_coroutine of the reactor whose step it is. */
  ghost function FirstAfter(s: State, r: Rid, a: Action): Option<Fd>
    requires r in s.loops
  {
    var l := s.loops[r];
    if a == EndFirst || a == EndBatchResume then None
    else if a == Handle && l.first.None? && l.pc.Batch? && l.pc.events != [] && l.pc.events[0].events != {} &&
            l.pc.events[0].fd in s.conns then s.conns[l.pc.events[0].fd].coroutine
    else l.first
  }

  ghost predicate FirstMoves(s: State, r: Rid, a: Action, s': State) {
    && s'.loops.Keys == s.loops.Keys
    && forall q :: q in s.loops ==> s'.loops[q].first == if q == r then FirstAfter(s, r, a) else s.loops[q].first
  }

  lemma ResumeFirst(s: State, r: Rid, target: Option<Fd>)
    requires r in s.loops
    ensures Resume(s, r, target).loops.Keys == s.loops.Keys
    ensures forall q :: q in s.loops ==> Resume(s, r, target).loops[q].first == s.loops[q].first
  {
  }

  lemma CoStepFirst(s: State, r: Rid, a: Action)
    requires Enabled(s, r, a) && CoAction(a)
    ensures r in s.loops && FirstMoves(s, r, a, Do(s, r, a))
  {
    hide Do, Enabled, HookEdge;
    CoEnabled(s, r, a);
    CoStepCourse(s, r, a);
  }

  lemma OwnFirst(s: State, r: Rid, a: Action, l: Loop, queue: seq<Item>)
    requires r in s.loops && l.first == FirstAfter(s, r, a)
    ensures FirstMoves(s, r, a, SetLoop(s, r, l)) && FirstMoves(s, r, a, SetLoop(s, r, l).(queue := queue))
  {
    hide FirstAfter;
  }

  lemma HandleResumesFirst(s: State, r: Rid, pc: Pc, target: Option<Fd>)
    requires r in s.loops && s.loops[r].first == FirstAfter(s, r, Handle)
    ensures FirstMoves(s, r, Handle, Resume(SetPc(s, r, pc), r, target))
  {
    hide Resume, FirstAfter;
    ResumeFirst(SetPc(s, r, pc), r, target);
  }

  lemma HandleFirst(s: State, r: Rid)
    requires r in s.loops && s.loops[r].pc.Batch? && s.loops[r].pc.events != []
    requires s.loops[r].pc.events[0].fd in s.conns
    ensures FirstMoves(s, r, Handle, HandleEvent(s, r))
  {
    hide Resume, DelInLoop, Callbacks, FirstMoves, SetLoop, SetPc;
    var l := s.loops[r];
    var e, rest := l.pc.events[0], l.pc.events[1..];
    if e.events == {} {
      OwnFirst(s, r, Handle, l.(pc := Batch(rest), poll := DelInLoop(l.poll, e.fd)), s.queue);
    } else if s.conns[e.fd].coroutine.None? {
      OwnFirst(s, r, Handle, l.(pc := Batch(rest), tasks := l.tasks + Callbacks(e)), s.queue);
    } else if l.first.None? {
      OwnFirst(s, r, Handle, l.(pc := Batch(rest), first := s.conns[e.fd].coroutine), s.queue);
    } else if l.kind.SubReactor? {
      OwnFirst(s, r, Handle, l.(pc := Unregistered(e.fd, rest), poll := DelInLoop(l.poll, e.fd)), s.queue);
    } else {
      HandleResumesFirst(s, r, BatchResumed(rest), s.conns[e.fd].coroutine);
    }
  }

  lemma BeginsFirst(s: State, r: Rid)
    requires Enabled(s, r, BeginFirst)
    ensures r in s.loops && FirstMoves(s, r, BeginFirst, Do(s, r, BeginFirst))
  {
    hide Resume, HandleEvent, CoStep, AddInLoop, DelInLoop, ReactorOr, Deliverable;
    ResumeFirst(SetPc(s, r, FirstResumed), r, s.loops[r].first);
  }

  lemma StolenFirst(s: State, r: Rid)
    requires Enabled(s, r, RunStolen)
    ensures r in s.loops && FirstMoves(s, r, RunStolen, Do(s, r, RunStolen))
  {
    hide Resume, HandleEvent, CoStep, AddInLoop, DelInLoop, ReactorOr, Deliverable;
    ResumeFirst(SetPc(s, r, Drain), r, s.conns[s.loops[r].pc.fd].coroutine);
  }

  lemma TaskFirst(s: State, r: Rid)
    requires Enabled(s, r, RunTask)
    ensures r in s.loops && FirstMoves(s, r, RunTask, Do(s, r, RunTask))
  {
    hide Resume, HandleEvent, CoStep, AddInLoop, DelInLoop, ReactorOr, Deliverable;
    var todo := s.loops[r].pc.todo;
    ResumeFirst(SetPc(s, r, RunTasks(todo[1..])), r, Some(todo[0].fd));
  }

  lemma EndingFirst(s: State, r: Rid, a: Action)
    requires Enabled(s, r, a)
    requires a.EndFirst? || a.EndBatchResume? || a.Accept? || a.Claim? || a.Detach? || a.TakeTasks?
    ensures r in s.loops && FirstMoves(s, r, a, Do(s, r, a))
  {
    hide Resume, HandleEvent, CoStep, AddInLoop, DelInLoop, ReactorOr, Deliverable;
  }

  lemma TurningFirst(s: State, r: Rid, a: Action)
    requires Enabled(s, r, a)
    requires a.Stop? || a.SkipFirst? || a.Pop? || a.QueueEmpty? || a.TasksDone? || a.WaitFailed? || a.Deliver?
    ensures r in s.loops && FirstMoves(s, r, a, Do(s, r, a))
  {
    hide Resume, HandleEvent, CoStep, AddInLoop, DelInLoop, ReactorOr, Deliverable;
  }

  lemma ApplyingFirst(s: State, r: Rid, a: Action)
    requires Enabled(s, r, a) && (a.TakePending? || a.ApplyAdd? || a.ApplyDel? || a.ApplyDone?)
    ensures r in s.loops && FirstMoves(s, r, a, Do(s, r, a))
  {
    hide Resume, HandleEvent, CoStep, AddInLoop, DelInLoop, ReactorOr, Deliverable;
  }

  lemma BatchFirst(s: State, r: Rid, a: Action)
    requires Enabled(s, r, a) && (a.Push? || a.BatchDone? || a.YieldClosed?)
    ensures r in s.loops && FirstMoves(s, r, a, Do(s, r, a))
  {
    hide Resume, HandleEvent, CoStep, AddInLoop, DelInLoop, ReactorOr, Deliverable, FirstMoves;
    var s', l := Do(s, r, a), s.loops[r];
    OwnFirst(s, r, a, if a.YieldClosed? then l.(leaving := false) else l.(pc := s'.loops[r].pc), s'.queue);
  }

  lemma LoopStepFirst(s: State, r: Rid, a: Action)
    requires Enabled(s, r, a) && !CoAction(a)
    ensures r in s.loops && FirstMoves(s, r, a, Do(s, r, a))
  {
    hide Do, Enabled, FirstMoves, HandleEvent, Callbacks;
    match a
    case Handle =>
      HandleIs(s, r);
      HandleFirst(s, r);
    case BeginFirst => BeginsFirst(s, r);
    case RunStolen => StolenFirst(s, r);
    case RunTask => TaskFirst(s, r);
    case EndFirst => EndingFirst(s, r, a);
    case EndBatchResume => EndingFirst(s, r, a);
    case Accept(_) => EndingFirst(s, r, a);
    case Claim => EndingFirst(s, r, a);
    case Detach => EndingFirst(s, r, a);
    case TakeTasks => EndingFirst(s, r, a);
    case Stop => TurningFirst(s, r, a);
    case SkipFirst => TurningFirst(s, r, a);
    case Pop => TurningFirst(s, r, a);
    case QueueEmpty => TurningFirst(s, r, a);
    case TasksDone => TurningFirst(s, r, a);
    case WaitFailed => TurningFirst(s, r, a);
    case Deliver(_) => TurningFirst(s, r, a);
    case Push => BatchFirst(s, r, a);
    case BatchDone => BatchFirst(s, r, a);
    case YieldClosed => BatchFirst(s, r, a);
    case _ => ApplyingFirst(s, r, a);
  }

  /** In every run, first_coroutine is taken from a ready entry when there is none, and is given up behind its resume
      and, by the main reactor, behind the resume of another; nothing else changes it. */
  lemma FollowsFirst(states: seq<State>, steps: seq<Step>, i: nat, q: Rid)
    requires Run(states, steps) && i < |steps| && q in states[i].loops
    ensures q in states[i + 1].loops
    ensures
      states[i + 1].loops[q].first ==
      if q == steps[i].r then FirstAfter(states[i], q, steps[i].a) else states[i].loops[q].first
  {
    hide Do, Enabled, FirstAfter, Init;
    var s, r, a := states[i], steps[i].r, steps[i].a;
    if CoAction(a) { CoStepFirst(s, r, a); } else { LoopStepFirst(s, r, a); }
  }

  // --- Pending registrations ---

  /** Steps from any state at all, not only from an initial one. */
  ghost predicate Path(states: seq<State>, steps: seq<Step>) {
    && |states| == |steps| + 1
    && forall i :: 0 <= i < |steps| ==>
         Enabled(states[i], steps[i].r, steps[i].a) && states[i + 1] == Do(states[i], steps[i].r, steps[i].a)
  }

  ghost predicate RunsFor(s: State, r: Rid, c: Fd, to: Rid) {
    && r in s.loops && to in s.loops && to != r && s.loops[r].cur == Some(c) && c in s.conns
    && s.conns[c].reactor == Some(to)
  }

  /** A coroutine whose FdEvent belongs to another thread's reactor leaves what it wants pending there, and nothing
      else of that reactor changes: an add under the new mask, unless one for the fd is pending already, or a
      deletion behind the pending ones. */
  lemma PostsToOther(s: State, r: Rid, a: Action, c: Fd, to: Rid)
    requires RunsFor(s, r, c, to) && Enabled(s, r, a) && (a.Listen? || a.Unlisten? || a.Unregister?)
    ensures to in Do(s, r, a).loops
    ensures
      var f, l, l' := s.conns[c], s.loops[to], Do(s, r, a).loops[to];
      if a == Unregister then l' == l.(pendingDel := l.pendingDel + [c])
      else
        var mask := if a == Listen then f.listen + {f.co.event} else f.listen - {f.co.event};
        l' == if mask == f.listen || c in l.pendingAdd then l else l.(pendingAdd := l.pendingAdd[c := mask])
  {
    hide LoopStep, AddInLoop, DelInLoop;
    var f := s.conns[c];
    if a.Listen? { assert f.co.event in f.listen <==> f.listen + {f.co.event} == f.listen; }
    if a.Unlisten? { assert f.co.event in f.listen <==> f.listen - {f.co.event} != f.listen; }
  }

  function Fds(fds: seq<Fd>): set<Fd> {
    set fd | fd in fds
  }

  /** The interest set once all that is still to be applied has been. */
  function Applied(kernel: map<Fd, Mask>, adds: map<Fd, Mask>, dels: seq<Fd>): map<Fd, Mask> {
    kernel + adds - Fds(dels)
  }

  /** Reactor q has still to apply something, and will then have interest set `target`. */
  ghost predicate Applying(s: State, q: Rid, target: map<Fd, Mask>) {
    && q in s.loops && s.loops[q].pc.ApplyPending? && Agree(s.loops[q].poll)
    && Applied(s.loops[q].poll.kernel, s.loops[q].pc.adds, s.loops[q].pc.dels) == target
  }

  lemma TakesPending(s: State, r: Rid)
    requires Enabled(s, r, TakePending) && r in s.loops && Agree(s.loops[r].poll)
    ensures
      var l := s.loops[r];
      var l' := Do(s, r, TakePending).loops[r];
      && Applying(Do(s, r, TakePending), r, l.poll.kernel + l.pendingAdd - Fds(l.pendingDel))
      && l'.pendingAdd == map[] && l'.pendingDel == []
  {
    hide Agree, CoStep, HandleEvent, Resume;
  }

  lemma AddsOne(s: State, r: Rid, fd: Fd, target: map<Fd, Mask>)
    requires Enabled(s, r, ApplyAdd(fd)) && Applying(s, r, target)
    ensures Applying(Do(s, r, ApplyAdd(fd)), r, target)
  {
    hide CoStep, HandleEvent, Resume, Agree, AddInLoop;
    var l := s.loops[r];
    AddAgrees(l.poll, fd, l.pc.adds[fd]);
    assert l.poll.kernel[fd := l.pc.adds[fd]] + (l.pc.adds - {fd}) == l.poll.kernel + l.pc.adds;
  }

  lemma DelsOne(s: State, r: Rid, target: map<Fd, Mask>)
    requires Enabled(s, r, ApplyDel) && Applying(s, r, target)
    ensures Applying(Do(s, r, ApplyDel), r, target)
  {
    hide CoStep, HandleEvent, Resume, Agree, DelInLoop;
    var l := s.loops[r];
    var d, rest := l.pc.dels[0], l.pc.dels[1..];
    DelAgrees(l.poll, d);
    assert Fds(l.pc.dels) == {d} + Fds(rest);
    assert l.poll.kernel - {d} + map[] - Fds(rest) == l.poll.kernel + map[] - Fds(l.pc.dels);
  }

  lemma DoneApplying(s: State, r: Rid, target: map<Fd, Mask>)
    requires Enabled(s, r, ApplyDone) && Applying(s, r, target)
    ensures r in Do(s, r, ApplyDone).loops
    ensures Do(s, r, ApplyDone).loops[r].poll.kernel == target && Do(s, r, ApplyDone).loops[r].pc == Top
  {
    hide CoStep, HandleEvent, Resume, Agree;
    var kernel := s.loops[r].poll.kernel;
    assert kernel + map[] - Fds([]) == kernel;
  }

  /** No other reactor's registrations change. */
  ghost predicate OthersPolls(s: State, r: Rid, s': State) {
    s'.loops.Keys == s.loops.Keys && forall q :: q in s.loops && q != r ==> s'.loops[q].poll == s.loops[q].poll
  }

  lemma TellsPolls(s: State, r: Rid, c: Fd, e: IOEvent)
    requires c in s.conns && ReactorOr(s.conns[c], r) in s.loops
    ensures OthersPolls(s, r, AddListenEvents(s, r, c, e))
    ensures OthersPolls(s, r, DelListenEvents(s, r, c, e))
    ensures OthersPolls(s, r, UnregisterFromReactor(s, r, c))
  {
    hide AddInLoop, DelInLoop;
  }

  lemma TellingPolls(s: State, r: Rid, a: Action)
    requires Enabled(s, r, a) && (a.Listen? || a.Unlisten? || a.Unregister?)
    ensures OthersPolls(s, r, Do(s, r, a))
  {
    hide LoopStep, AddListenEvents, DelListenEvents, UnregisterFromReactor;
    var c := s.loops[r].cur.value;
    TellsPolls(s, r, c, if a.Unregister? then Read else s.conns[c].co.event);
  }

  lemma OwnPolls(s: State, r: Rid, a: Action)
    requires Enabled(s, r, a) && CoAction(a) && !a.Listen? && !a.Unlisten? && !a.Unregister?
    ensures OthersPolls(s, r, Do(s, r, a))
  {
    hide LoopStep, AddListenEvents, DelListenEvents, UnregisterFromReactor, ReactorOr;
  }

  /** While a reactor applies what was pending, its registrations and its place in the loop change by its own
      steps only. */
  lemma OthersLeave(s: State, q: Rid, a: Action, r: Rid, target: map<Fd, Mask>)
    requires Enabled(s, q, a) && Applying(s, r, target) && (q != r || a.Accept?)
    ensures Applying(Do(s, q, a), r, target)
  {
    hide *;
    ApplyingParts(s, r, target);
    PcAndPoll(s, q, a, r);
    ApplyingSame(s, Do(s, q, a), r, target);
  }

  lemma ApplyingParts(s: State, r: Rid, target: map<Fd, Mask>)
    requires Applying(s, r, target)
    ensures r in s.loops && s.loops[r].pc.ApplyPending?
  {
    hide Agree, Applied;
  }

  lemma ApplyingSame(s: State, s': State, r: Rid, target: map<Fd, Mask>)
    requires Applying(s, r, target) && r in s'.loops
    requires s'.loops[r].pc == s.loops[r].pc && s'.loops[r].poll == s.loops[r].poll
    ensures Applying(s', r, target)
  {
    hide Agree, Applied;
  }

  lemma PcAndPoll(s: State, q: Rid, a: Action, r: Rid)
    requires Enabled(s, q, a) && r in s.loops && (q != r || a.Accept?)
    ensures r in Do(s, q, a).loops
    ensures Do(s, q, a).loops[r].pc == s.loops[r].pc && Do(s, q, a).loops[r].poll == s.loops[r].poll
  {
    hide Do, Enabled, Edge, NewTasks, HookEdge, Resumed;
    if CoAction(a) {
      CoStepCourse(s, q, a);
      if a.Listen? || a.Unlisten? || a.Unregister? { TellingPolls(s, q, a); } else { OwnPolls(s, q, a); }
    } else {
      LoopStepCourse(s, q, a);
      if q == r { AcceptsOnly(s, r, a); }
    }
  }

  lemma AcceptsOnly(s: State, r: Rid, a: Action)
    requires Enabled(s, r, a) && a.Accept?
    ensures r in s.loops && r in Do(s, r, a).loops
    ensures Do(s, r, a).loops[r].pc == s.loops[r].pc && Do(s, r, a).loops[r].poll == s.loops[r].poll
  {
    hide CoStep, HandleEvent, Resume;
  }

  /** The own steps of a reactor that applies what was pending. */
  lemma OwnStep(s: State, r: Rid, a: Action, target: map<Fd, Mask>)
    requires Enabled(s, r, a) && Applying(s, r, target)
    ensures a.ApplyAdd? || a == ApplyDel || a == ApplyDone || a.Accept? || !OnMain(s.loops[r])
  {
    hide Agree, Applied, Deliverable, ReactorOr;
  }

  lemma PathStep(states: seq<State>, steps: seq<Step>, i: nat)
    requires Path(states, steps) && i < |steps|
    ensures Enabled(states[i], steps[i].r, steps[i].a) && states[i + 1] == Do(states[i], steps[i].r, steps[i].a)
  {
    hide Enabled, Do;
  }

  /** The steps from i to j are taken while reactor r applies what it took at step i. */
  ghost predicate Applies(states: seq<State>, steps: seq<Step>, r: Rid, i: nat, j: nat) {
    && Path(states, steps) && i < j <= |steps| && r in states[i].loops && Agree(states[i].loops[r].poll)
    && steps[i] == Step(r, TakePending)
    && forall k :: i < k < j ==>
         steps[k] != Step(r, ApplyDone) && (steps[k].r == r ==> r in states[k].loops && OnMain(states[k].loops[r]))
  }

  function Target(l: Loop): map<Fd, Mask> {
    l.poll.kernel + l.pendingAdd - Fds(l.pendingDel)
  }

  lemma AppliesFirst(states: seq<State>, steps: seq<Step>, r: Rid, i: nat, j: nat)
    requires Applies(states, steps, r, i, j)
    ensures i + 1 < |states| && r in states[i].loops && Applying(states[i + 1], r, Target(states[i].loops[r]))
  {
    hide Enabled, Do, Applying, Agree;
    PathStep(states, steps, i);
    TakesPending(states[i], r);
  }

  lemma AppliesNext(states: seq<State>, steps: seq<Step>, r: Rid, i: nat, j: nat)
    requires Applies(states, steps, r, i, j) && i + 1 < j
    ensures Applies(states, steps, r, i, j - 1) && j < |states| && j - 1 < |steps| && r in states[i].loops
    ensures Enabled(states[j - 1], steps[j - 1].r, steps[j - 1].a)
    ensures states[j] == Do(states[j - 1], steps[j - 1].r, steps[j - 1].a)
    ensures steps[j - 1] != Step(r, ApplyDone)
    ensures steps[j - 1].r == r ==> r in states[j - 1].loops && OnMain(states[j - 1].loops[r])
  {
    hide Enabled, Do, Agree, OnMain;
    PathStep(states, steps, j - 1);
  }

  lemma {:induction false} StillApplying(states: seq<State>, steps: seq<Step>, r: Rid, i: nat, j: nat)
    requires Applies(states, steps, r, i, j)
    ensures i < j < |states| && r in states[i].loops && Applying(states[j], r, Target(states[i].loops[r]))
    decreases j
  {
    hide *;
    AppliesFirst(states, steps, r, i, j);
    InOrder(states, steps, r, i, j);
    if i + 1 < j {
      AppliesNext(states, steps, r, i, j);
      StillApplying(states, steps, r, i, j - 1);
      OneApplied(states[j - 1], steps[j - 1], r, Target(states[i].loops[r]));
    }
  }

  lemma InOrder(states: seq<State>, steps: seq<Step>, r: Rid, i: nat, j: nat)
    requires Applies(states, steps, r, i, j)
    ensures i < j <= |steps| && |states| == |steps| + 1 && r in states[i].loops
  {
    hide Enabled, Do, Agree, OnMain;
  }

  lemma OneApplied(s: State, step: Step, r: Rid, target: map<Fd, Mask>)
    requires Enabled(s, step.r, step.a) && Applying(s, r, target) && step != Step(r, ApplyDone)
    requires step.r == r ==> r in s.loops && OnMain(s.loops[r])
    ensures Applying(Do(s, step.r, step.a), r, target)
  {
    hide Enabled, Do, Applying;
    if step.r == r && !step.a.Accept? {
      OwnStep(s, r, step.a, target);
      match step.a
      case ApplyAdd(fd) => AddsOne(s, r, fd, target);
      case ApplyDel => DelsOne(s, r, target);
      case _ =>
    } else {
      OthersLeave(s, step.r, step.a, r, target);
    }
  }

  /** What was pending when a reactor took it is in force when it goes back to the head of its loop, whatever other
      threads do meanwhile: every pending add under its mask, and then every pending deletion. */
  lemma PendingTakesEffect(states: seq<State>, steps: seq<Step>, r: Rid, i: nat, j: nat)
    requires Applies(states, steps, r, i, j) && j < |steps| && steps[j] == Step(r, ApplyDone)
    ensures |states| == |steps| + 1 && r in states[i].loops
    ensures r in states[j + 1].loops && states[j + 1].loops[r].pc == Top
    ensures
      var l := states[i].loops[r];
      states[j + 1].loops[r].poll.kernel == l.poll.kernel + l.pendingAdd - (set fd | fd in l.pendingDel)
  {
    hide Enabled, Do, Applying, Agree;
    StillApplying(states, steps, r, i, j);
    PathStep(states, steps, j);
    DoneApplying(states[j], r, Target(states[i].loops[r]));
  }
}
