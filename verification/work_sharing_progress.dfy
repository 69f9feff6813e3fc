/** A thread that has not been stopped can always get back to epoll_wait by steps of its own; on the way it
    finds the global queue empty. */
module WorkSharingProgress {
  import opened Interest
  import opened WorkSharing
  import opened WorkSharingInvariant
  import opened WorkSharingSafety
  import opened WorkSharingHistory

  /** The actions, all taken by thread r, lead from s to s'. */
  ghost predicate Leads(s: State, r: Rid, acts: seq<Action>, s': State)
    decreases |acts|
  {
    if acts == [] then s' == s else Enabled(s, r, acts[0]) && Leads(Do(s, r, acts[0]), r, acts[1..], s')
  }

  lemma OneMore(s: State, r: Rid, a: Action, acts: seq<Action>, s': State)
    requires Enabled(s, r, a) && Leads(Do(s, r, a), r, acts, s')
    ensures Leads(s, r, [a] + acts, s')
  {
    hide Enabled, Do;
    assert ([a] + acts)[1..] == acts;
  }

  lemma {:induction false} Then(s: State, r: Rid, acts: seq<Action>, s1: State, more: seq<Action>, s2: State)
    requires Leads(s, r, acts, s1) && Leads(s1, r, more, s2)
    ensures Leads(s, r, acts + more, s2)
    decreases |acts|
  {
    hide Enabled, Do;
    if acts == [] {
      assert [] + more == more;
    } else {
      Then(Do(s, r, acts[0]), r, acts[1..], s1, more, s2);
      assert (acts + more)[1..] == acts[1..] + more;
    }
  }

  lemma StepInv(s: State, r: Rid, a: Action)
    requires Inv(s) && Enabled(s, r, a)
    ensures Inv(Do(s, r, a))
  {
    hide Fits, Do, Enabled, Moved;
    var p :| Fits(s, p);
    StepKeepsFits(s, p, r, a);
  }

  // --- The coroutine that runs gives the thread back ---

  /** What a running coroutine can do next to come closer to yielding: its io blocks. */
  function NextOf(co: CoPc): Action {
    match co
    case Trying(_) => IoBlocked
    case Arming(_) => SetCoroutine
    case Armed(_) => Listen
    case Yielding(_) => YieldParked
    case Woken(_) => Unlisten
    case Disarmed(_) => ClearCoroutine
    case Leaving => CloseFd
    case _ => CallHook(Read)
  }

  function StepsToYield(co: CoPc): nat {
    match co
    case Woken(_) => 7
    case Disarmed(_) => 6
    case Running => 5
    case Trying(_) => 4
    case Arming(_) => 3
    case Armed(_) => 2
    case Yielding(_) => 1
    case Leaving => 1
    case _ => 0
  }

  function StepsToMain(s: State, r: Rid): nat
    requires r in s.loops
  {
    var l := s.loops[r];
    if l.cur.Some? then (if l.cur.value in s.conns then StepsToYield(s.conns[l.cur.value].co) else 0) + 1
    else if l.leaving then 1
    else 0
  }

  lemma RunningOne(s: State, r: Rid)
    requires Inv(s) && r in s.loops && s.loops[r].cur.Some?
    ensures
      var c := s.loops[r].cur.value;
      c in s.conns && s.conns[c].reactor == Some(r) && StepsToYield(s.conns[c].co) > 0
  {
    hide Fits;
    var p :| Fits(s, p);
    RunningFacts(s, p, r);
  }

  lemma NextEnabled(s: State, r: Rid)
    requires Inv(s) && r in s.loops && s.loops[r].cur.Some?
    ensures s.loops[r].cur.value in s.conns
    ensures var a := NextOf(s.conns[s.loops[r].cur.value].co); CoAction(a) && Enabled(s, r, a)
  {
    hide Inv;
    RunningOne(s, r);
  }

  /** What such a step does to the thread. */
  lemma NextCur(s: State, r: Rid, a: Action)
    requires Enabled(s, r, a) && CoAction(a) && (a.CallHook? ==> a.event == Read) && !a.IoDone? && !a.Unregister?
    ensures r in s.loops && r in Do(s, r, a).loops && s.loops[r].cur.Some?
    ensures
      var l, l' := s.loops[r], Do(s, r, a).loops[r];
      if a.YieldParked? then l'.cur == None && l'.leaving == l.leaving
      else if a.CloseFd? then l'.cur == None && l'.leaving
      else l'.cur == l.cur && l'.leaving == l.leaving
  {
    hide AddInLoop, DelInLoop, LoopStep;
  }

  /** The thread is at the same point of its loop, and the queue is as it was. */
  ghost predicate SamePoint(s: State, s': State, r: Rid) {
    && r in s.loops && r in s'.loops && s'.loops[r].kind == s.loops[r].kind && s'.loops[r].pc == s.loops[r].pc
    && s'.queue == s.queue
  }

  /** The running coroutine takes one step towards yielding. */
  lemma NextStep(s: State, r: Rid) returns (a: Action)
    requires Inv(s) && r in s.loops && s.loops[r].cur.Some?
    ensures Enabled(s, r, a) && Inv(Do(s, r, a)) && SamePoint(s, Do(s, r, a), r)
    ensures StepsToMain(Do(s, r, a), r) < StepsToMain(s, r)
  {
    hide Inv, Enabled, Do, CoAction;
    var c := s.loops[r].cur.value;
    RunningOne(s, r);
    NextEnabled(s, r);
    a := NextOf(s.conns[c].co);
    StepInv(s, r, a);
    NextCur(s, r, a);
    NextCourse(s, r, a, c);
  }

  lemma NextCourse(s: State, r: Rid, a: Action, c: Fd)
    requires Enabled(s, r, a) && CoAction(a) && r in s.loops && s.loops[r].cur == Some(c) && c in s.conns
    requires a == NextOf(s.conns[c].co) && StepsToYield(s.conns[c].co) > 0
    ensures SamePoint(s, Do(s, r, a), r) && c in Do(s, r, a).conns
    ensures StepsToYield(Do(s, r, a).conns[c].co) < StepsToYield(s.conns[c].co)
  {
    hide Enabled, Do, CoAction, HookEdge, NextOf, StepsToYield;
    CoStepCourse(s, r, a);
    assert RunsOn(s, r, c);
    EdgeNearer(a, s.conns[c].co, Do(s, r, a).conns[c].co);
  }

  lemma EdgeNearer(a: Action, co: CoPc, co': CoPc)
    requires a == NextOf(co) && HookEdge(a, co, co')
    ensures StepsToYield(co') < StepsToYield(co)
  {
  }

  lemma LastYield(s: State, r: Rid)
    requires Inv(s) && r in s.loops && s.loops[r].cur.None? && s.loops[r].leaving
    ensures Enabled(s, r, YieldClosed) && Inv(Do(s, r, YieldClosed)) && SamePoint(s, Do(s, r, YieldClosed), r)
    ensures OnMain(Do(s, r, YieldClosed).loops[r])
  {
    hide Inv, Fits;
    StepInv(s, r, YieldClosed);
    YieldClosedIs(s, r);
    hide LoopStep;
  }

  /** Whatever a coroutine is doing on the thread, some steps of the thread's own get it back to its main one. */
  lemma BackOnMain(s: State, r: Rid) returns (acts: seq<Action>, s': State)
    requires Inv(s) && r in s.loops
    ensures Leads(s, r, acts, s') && Inv(s') && SamePoint(s, s', r) && OnMain(s'.loops[r])
    decreases StepsToMain(s, r)
  {
    hide Inv, Enabled, Do;
    if s.loops[r].cur.Some? {
      var a := NextStep(s, r);
      var s1 := Do(s, r, a);
      var more;
      more, s' := BackOnMain(s1, r);
      OneMore(s, r, a, more, s');
      acts := [a] + more;
    } else if s.loops[r].leaving {
      LastYield(s, r);
      acts, s' := [YieldClosed], Do(s, r, YieldClosed);
      NoMore(s');
      OneMore(s, r, YieldClosed, [], s');
      assert [YieldClosed] + [] == [YieldClosed];
    } else {
      acts, s' := [], s;
    }
  }

  lemma NoMore(s: State)
    ensures forall r: Rid :: Leads(s, r, [], s)
  {
  }

  // --- The loop goes on ---

  /** What the loop does next. */
  ghost function NextTurn(s: State, r: Rid): Action
    requires r in s.loops
  {
    var l := s.loops[r];
    match l.pc
    case Top => if l.first.Some? then BeginFirst else SkipFirst
    case FirstResumed => EndFirst
    case Drain => if s.queue == [] then QueueEmpty else Pop
    case Popped(_) => Claim
    case Claimed(_) => RunStolen
    case SwapTasks => TakeTasks
    case RunTasks(todo) => if todo == [] then TasksDone else RunTask
    case Waiting => WaitFailed
    case Batch(events) => if events == [] then BatchDone else Handle
    case Unregistered(_, _) => Detach
    case Detached(_, _) => Push
    case BatchResumed(_) => EndBatchResume
    case SwapPending => TakePending
    case ApplyPending(_, _) => ApplyDone
    case Exited => Stop
  }

  lemma NextTurnEnabled(s: State, r: Rid)
    requires Inv(s) && r in s.loops && OnMain(s.loops[r]) && !s.loops[r].pc.Exited?
    ensures Enabled(s, r, NextTurn(s, r)) && Turns(NextTurn(s, r))
  {
    hide Fits, KernelOk, QueueOk, TasksOk;
    var p :| Fits(s, p);
    FitsLoop(s, p, r);
    var l := s.loops[r];
    if l.pc.Batch? && l.pc.events != [] { assert Undelivered(l.pc)[0] == l.pc.events[0]; }
  }

  /** How far it is to epoll_wait: the stretch of the loop, and what is left of it. */
  function Stretch(pc: Pc): nat {
    match pc
    case Batch(_) => 8
    case Unregistered(_, _) => 8
    case Detached(_, _) => 8
    case BatchResumed(_) => 8
    case SwapPending => 7
    case ApplyPending(_, _) => 6
    case Top => 5
    case FirstResumed => 4
    case Drain => 3
    case Popped(_) => 3
    case Claimed(_) => 3
    case SwapTasks => 2
    case RunTasks(_) => 1
    case _ => 0
  }

  function LeftOf(pc: Pc, queued: nat): nat {
    match pc
    case Batch(events) => 3 * |events|
    case Unregistered(_, events) => 3 * |events| + 2
    case Detached(_, events) => 3 * |events| + 1
    case BatchResumed(events) => 3 * |events| + 1
    case Drain => 3 * queued
    case Popped(_) => 3 * queued + 2
    case Claimed(_) => 3 * queued + 1
    case RunTasks(todo) => |todo|
    case _ => 0
  }

  predicate Nearer(pc': Pc, queued': nat, pc: Pc, queued: nat) {
    Stretch(pc') < Stretch(pc) || (Stretch(pc') == Stretch(pc) && LeftOf(pc', queued') < LeftOf(pc, queued))
  }

  lemma TurnNearer(s: State, r: Rid, pc': Pc, queue': seq<Item>)
    requires r in s.loops && Edge(s, r, NextTurn(s, r), pc') && !s.loops[r].pc.Waiting?
    requires s.loops[r].pc.ApplyPending? ==> s.loops[r].pc.adds == map[] && s.loops[r].pc.dels == []
    requires queue' == (
      if NextTurn(s, r) == Push && s.loops[r].pc.Detached? then s.queue + [Item(s.loops[r].pc.fd, r)]
      else if NextTurn(s, r) == Pop && s.queue != [] then s.queue[1..]
      else s.queue)
    ensures Nearer(pc', |queue'|, s.loops[r].pc, |s.queue|) && !pc'.Exited?
  {
  }

  lemma NothingToApply(s: State, r: Rid)
    requires Inv(s) && r in s.loops && s.loops[r].pc.ApplyPending?
    ensures s.loops[r].pc.adds == map[] && s.loops[r].pc.dels == []
  {
    hide Fits, KernelOk, QueueOk, TasksOk, EventsOk;
    var p :| Fits(s, p);
    FitsLoop(s, p, r);
  }

  lemma TurnKind(s: State, r: Rid, a: Action)
    requires Enabled(s, r, a) && Turns(a)
    ensures r in s.loops && r in Do(s, r, a).loops && Do(s, r, a).loops[r].kind == s.loops[r].kind
  {
    hide Do, Enabled, Edge, NewTasks, Resumed, OnMain;
    LoopStepCourse(s, r, a);
  }

  /** One turn, and the coroutine that it may have resumed. */
  lemma OneTurnOn(s: State, r: Rid) returns (acts: seq<Action>, s': State)
    requires Inv(s) && r in s.loops && OnMain(s.loops[r]) && !s.loops[r].pc.Exited? && !s.loops[r].pc.Waiting?
    ensures Leads(s, r, acts, s') && Inv(s') && r in s'.loops && OnMain(s'.loops[r]) && !s'.loops[r].pc.Exited?
    ensures s'.loops[r].kind == s.loops[r].kind
    ensures Nearer(s'.loops[r].pc, |s'.queue|, s.loops[r].pc, |s.queue|)
  {
    hide Inv, Enabled, Do, OnMain, NextTurn, Nearer, Edge, Turns;
    NextTurnEnabled(s, r);
    var a := NextTurn(s, r);
    var s1 := Do(s, r, a);
    StepInv(s, r, a);
    LoopEdge(s, r, a);
    TurnKind(s, r, a);
    TurnIsLoop(a);
    LoopQueue(s, r, a);
    if s.loops[r].pc.ApplyPending? { NothingToApply(s, r); }
    TurnNearer(s, r, s1.loops[r].pc, s1.queue);
    var more;
    more, s' := BackOnMain(s1, r);
    OneMore(s, r, a, more, s');
    acts := [a] + more;
  }

  lemma TurnIsLoop(a: Action)
    requires Turns(a)
    ensures !CoAction(a)
  {
  }

  /** Some steps of a thread's own lead it to epoll_wait, unless it has left its loop. */
  lemma LoopReturns(s: State, r: Rid) returns (acts: seq<Action>, s': State)
    requires Inv(s) && r in s.loops && OnMain(s.loops[r]) && !s.loops[r].pc.Exited?
    ensures Leads(s, r, acts, s') && Inv(s') && r in s'.loops && OnMain(s'.loops[r]) && s'.loops[r].pc.Waiting?
    ensures s'.loops[r].kind == s.loops[r].kind
    decreases Stretch(s.loops[r].pc), LeftOf(s.loops[r].pc, |s.queue|)
  {
    hide Inv, Enabled, Do, OnMain, Stretch, LeftOf;
    if s.loops[r].pc.Waiting? {
      acts, s' := [], s;
    } else {
      var s1, first, more;
      first, s1 := OneTurnOn(s, r);
      more, s' := LoopReturns(s1, r);
      Then(s, r, first, s1, more, s');
      acts := first + more;
    }
  }

  /** From every state of every run, whatever else is going on, steps of its own lead a thread that has not been
      stopped back to epoll_wait; and then nothing that it pushed is queued. */
  lemma ReturnsToWait(states: seq<State>, steps: seq<Step>, i: nat, r: Rid) returns (acts: seq<Action>, s': State)
    requires Run(states, steps) && i < |states| && r in states[0].loops
    requires forall j :: 0 <= j < i ==> steps[j] != Step(r, Stop)
    ensures Leads(states[i], r, acts, s') && r in s'.loops && s'.loops[r].pc.Waiting? && OnMain(s'.loops[r])
    ensures forall k :: 0 <= k < |s'.queue| ==> s'.queue[k].pusher != r
  {
    ExitedIffStopped(states, steps, i, r);
    RunKeepsInv(states, steps, i);
    hide Run, Inv, Enabled, Do, OnMain;
    var s1, first, more;
    first, s1 := BackOnMain(states[i], r);
    more, s' := LoopReturns(s1, r);
    Then(states[i], r, first, s1, more, s');
    acts := first + more;
    WaitersPushedNothing(s', r);
  }

  lemma WaitersPushedNothing(s: State, r: Rid)
    requires Inv(s) && r in s.loops && s.loops[r].pc.Waiting?
    ensures forall k :: 0 <= k < |s.queue| ==> s.queue[k].pusher != r
  {
    hide Inv, SingleOwner, InterestAgrees;
    InvIsSafe(s);
  }

  /** What is queued, then, can always be popped by its pusher, unless that was stopped. */
  lemma QueuedGetsPopped(states: seq<State>, steps: seq<Step>, i: nat, k: nat) returns (acts: seq<Action>, s': State)
    requires Run(states, steps) && i < |states| && k < |states[i].queue|
    requires states[i].queue[k].pusher in states[0].loops
    requires forall j :: 0 <= j < i ==> steps[j] != Step(states[i].queue[k].pusher, Stop)
    ensures Leads(states[i], states[i].queue[k].pusher, acts, s')
    ensures states[i].queue[k] !in s'.queue
  {
    hide Run, Leads;
    var item := states[i].queue[k];
    acts, s' := ReturnsToWait(states, steps, i, item.pusher);
  }
}
