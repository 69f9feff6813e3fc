/** The time wheel told by what was asked of it alone: which refreshes were requested and run, how many ticks
    went by, and who held a pointer. */
module TimeWheelHistory {
  import opened Interest
  import opened TimeWheel

  /** The slots of the refreshes requested in the first i actions, in order. */
  function Requested(actions: seq<Action>, i: nat): seq<Slot>
    requires i <= |actions|
  {
    if i == 0 then []
    else Requested(actions, i - 1) + if actions[i - 1].Refresh? then [actions[i - 1].slot] else []
  }

  /** How many refresh tasks the main reactor has run. */
  function TasksRun(actions: seq<Action>, i: nat): nat
    requires i <= |actions|
  {
    if i == 0 then 0 else TasksRun(actions, i - 1) + if actions[i - 1].RunTask? then 1 else 0
  }

  function Ticks(actions: seq<Action>, i: nat): nat
    requires i <= |actions|
  {
    if i == 0 then 0 else Ticks(actions, i - 1) + if actions[i - 1].Tick? then 1 else 0
  }

  /** The tick count when the last refresh of s was run; tasks run in the order of the requests. */
  function LastRun(actions: seq<Action>, i: nat, s: Slot): Option<nat>
    requires i <= |actions|
  {
    if i == 0 then None
    else
      var k := TasksRun(actions, i - 1);
      if actions[i - 1].RunTask? && k < |Requested(actions, i - 1)| && Requested(actions, i - 1)[k] == s
      then Some(Ticks(actions, i - 1))
      else LastRun(actions, i - 1, s)
  }

  /** How many more pointers to s threads hold after an action. */
  function MorePointers(a: Action, gone: bool, s: Slot): int {
    match a
    case Register(t) => if t == s then 1 else 0
    case Lock(t) => if t == s && !gone then 1 else 0
    case Drop(t) => if t == s then -1 else 0
    case _ => 0
  }

  /** How many pointers to s threads hold: made with the slot, or got from a weak_ptr that had not expired, and
      not yet dropped. */
  ghost function Holders(states: seq<World>, actions: seq<Action>, i: nat, s: Slot): int
    requires i <= |actions| && |states| == |actions| + 1
  {
    if i == 0 then 0
    else
      Holders(states, actions, i - 1, s) + MorePointers(actions[i - 1], s in states[i - 1].expired, s)
  }

  /** A refresh of s has been requested, and its task has not run. */
  ghost predicate RefreshQueued(actions: seq<Action>, i: nat, s: Slot)
    requires i <= |actions|
  {
    exists k :: TasksRun(actions, i) <= k < |Requested(actions, i)| && Requested(actions, i)[k] == s
  }

  ghost predicate Made(actions: seq<Action>, i: nat, s: Slot)
    requires i <= |actions|
  {
    exists j :: 0 <= j < i && actions[j] == Register(s)
  }

  // --- One step ---

  /** What a step does to tasks, clock, and history. */
  ghost predicate Records(w: World, a: Action, w': World) {
    && w'.now == w.now + (if a.Tick? then 1 else 0)
    && w'.tasks == (
         if a.Refresh? then w.tasks + [a.slot] else if a.RunTask? && w.tasks != [] then w.tasks[1..] else w.tasks)
    && w'.last == (if a.RunTask? && w.tasks != [] then w.last[w.tasks[0] := w.now] else w.last)
    && (forall s: Slot ::
          var before: int := w.temps[s];
          w'.temps[s] == before + MorePointers(a, s in w.expired, s))
    && w'.refs.Keys == w.refs.Keys + (if a.Register? then {a.slot} else {})
  }

  lemma ReleaseRecords(w: World, s: Slot)
    requires s in w.refs && w.refs[s] > 0
    ensures
      var w' := Release(w, s);
      && w'.tasks == w.tasks && w'.temps == w.temps && w'.last == w.last && w'.now == w.now
      && w'.refs.Keys == w.refs.Keys
  {
  }

  lemma LockExpired(w: World, s: Slot, n: nat)
    requires Inv(w, n) && s in w.refs
    ensures s in w.expired <==> w.refs[s] == 0
  {
    hide Counted, Aged, Distinct;
  }

  lemma DropRecords(w: World, s: Slot)
    requires Enabled(w, Drop(s))
    ensures Records(w, Drop(s), Do(w, Drop(s)))
  {
    hide Release, Covers;
    ReleaseRecords(w.(temps := w.temps - multiset{s}), s);
  }

  lemma RunTaskRecords(w: World)
    requires Enabled(w, RunTask)
    ensures Records(w, RunTask, Do(w, RunTask))
  {
    hide Release, Covers;
    ReleaseRecords(Fresh(w.(tasks := w.tasks[1..]), w.tasks[0]), w.tasks[0]);
  }

  lemma TickRecords(w: World, n: nat)
    requires n > 0 && Inv(w, n) && Enabled(w, Tick)
    ensures Records(w, Tick, Do(w, Tick))
  {
    hide Inv, Enabled, Do;
    TickShape(w, n);
  }

  lemma LockRecords(w: World, s: Slot, n: nat)
    requires Inv(w, n) && Enabled(w, Lock(s))
    ensures Records(w, Lock(s), Do(w, Lock(s)))
  {
    hide Inv, Covers;
    LockExpired(w, s, n);
  }

  lemma OtherRecords(w: World, a: Action)
    requires Enabled(w, a) && (a.Register? || a.Refresh? || a.SetState? || a.FreeConnection?)
    ensures Records(w, a, Do(w, a))
  {
    hide Release, ReleaseAll, Covers;
  }

  lemma StepRecords(w: World, a: Action, n: nat)
    requires n > 0 && Inv(w, n) && Enabled(w, a)
    ensures Records(w, a, Do(w, a))
  {
    hide *;
    match a
    case Tick => TickRecords(w, n);
    case Drop(s) => DropRecords(w, s);
    case RunTask => RunTaskRecords(w);
    case Lock(s) => LockRecords(w, s, n);
    case _ => OtherRecords(w, a);
  }

  // --- Whole runs ---

  /** The state of the wheel agrees with what was asked of it. */
  ghost predicate Agrees(states: seq<World>, actions: seq<Action>, i: nat)
    requires i <= |actions| && |states| == |actions| + 1
  {
    var w := states[i];
    && w.now == Ticks(actions, i)
    && TasksRun(actions, i) <= |Requested(actions, i)| && w.tasks == Requested(actions, i)[TasksRun(actions, i)..]
    && (forall s: Slot :: LastRun(actions, i, s) == if s in w.last then Some(w.last[s]) else None)
    && (forall s: Slot :: w.temps[s] == Holders(states, actions, i, s))
    && (forall s: Slot :: s in w.refs <==> Made(actions, i, s))
  }

  lemma AgreesFirst(states: seq<World>, actions: seq<Action>, n: nat)
    requires |states| == |actions| + 1 && states[0] == Initial(n)
    ensures Agrees(states, actions, 0)
  {
  }

  lemma TasksAgree(states: seq<World>, actions: seq<Action>, i: nat, w': World)
    requires |states| == |actions| + 1 && i < |actions| && Agrees(states, actions, i)
    requires Records(states[i], actions[i], w') && (actions[i].RunTask? ==> states[i].tasks != [])
    ensures TasksRun(actions, i + 1) <= |Requested(actions, i + 1)|
    ensures w'.now == Ticks(actions, i + 1) && w'.tasks == Requested(actions, i + 1)[TasksRun(actions, i + 1)..]
  {
    hide LastRun, Holders, Made;
    var all, k, a := Requested(actions, i), TasksRun(actions, i), actions[i];
    assert a.Refresh? ==> (all + [a.slot])[k..] == all[k..] + [a.slot];
    assert a.RunTask? ==> all[k..][1..] == all[k + 1..];
  }

  lemma LastAgrees(states: seq<World>, actions: seq<Action>, i: nat, w': World)
    requires |states| == |actions| + 1 && i < |actions| && Agrees(states, actions, i)
    requires Records(states[i], actions[i], w') && (actions[i].RunTask? ==> states[i].tasks != [])
    ensures forall s: Slot :: LastRun(actions, i + 1, s) == if s in w'.last then Some(w'.last[s]) else None
  {
    hide Requested, TasksRun, Ticks, Holders, Made, MorePointers;
    var all, k := Requested(actions, i), TasksRun(actions, i);
    if actions[i].RunTask? { assert all[k..][0] == all[k]; }
  }

  lemma PointersAgree(states: seq<World>, actions: seq<Action>, i: nat, w': World)
    requires |states| == |actions| + 1 && i < |actions| && Agrees(states, actions, i)
    requires Records(states[i], actions[i], w')
    ensures forall s: Slot :: w'.temps[s] == Holders(states, actions, i + 1, s)
    ensures forall s: Slot :: s in w'.refs <==> Made(actions, i + 1, s)
  {
    hide Requested, TasksRun, Ticks, LastRun, Made, MorePointers;
    MadeNext(actions, i);
  }

  lemma AgreesNext(states: seq<World>, actions: seq<Action>, i: nat, n: nat)
    requires |states| == |actions| + 1 && i < |actions| && Agrees(states, actions, i)
    requires n > 0 && Inv(states[i], n) && Enabled(states[i], actions[i]) && states[i + 1] == Do(states[i], actions[i])
    ensures Agrees(states, actions, i + 1)
  {
    hide Inv, Enabled, Do, Records, Requested, TasksRun, Ticks, LastRun, Made, Holders;
    StepRecords(states[i], actions[i], n);
    RunTaskHas(states[i], actions[i]);
    TasksAgree(states, actions, i, states[i + 1]);
    LastAgrees(states, actions, i, states[i + 1]);
    PointersAgree(states, actions, i, states[i + 1]);
  }

  lemma RunTaskHas(w: World, a: Action)
    requires Enabled(w, a)
    ensures a.RunTask? ==> w.tasks != []
  {
  }

  lemma MadeNext(actions: seq<Action>, i: nat)
    requires i < |actions|
    ensures forall s: Slot :: Made(actions, i + 1, s) <==> Made(actions, i, s) || actions[i] == Register(s)
  {
    forall s: Slot | Made(actions, i, s) || actions[i] == Register(s) ensures Made(actions, i + 1, s) {
      if actions[i] != Register(s) {
        var j :| 0 <= j < i && actions[j] == Register(s);
        assert 0 <= j < i + 1 && actions[j] == Register(s);
      }
    }
  }

  lemma {:induction false} RunAgrees(states: seq<World>, actions: seq<Action>, n: nat, i: nat)
    requires n > 0 && Run(states, actions, n) && i < |states|
    ensures Agrees(states, actions, i)
  {
    hide Inv, Enabled, Do, Initial, Agrees;
    if i == 0 {
      AgreesFirst(states, actions, n);
    } else {
      RunAgrees(states, actions, n, i - 1);
      RunKeeps(states, actions, n, i - 1);
      AgreesNext(states, actions, i - 1, n);
    }
  }

  /** The rule of the wheel on actions alone. At every moment of every run, a slot that was made is gone exactly when
      no refresh of it is queued, no thread holds a pointer to it, and its last refresh, if it had one, was run n
      ticks ago or earlier. */
  lemma ExpiredByHistory(states: seq<World>, actions: seq<Action>, n: nat, i: nat, s: Slot)
    requires n > 0 && Run(states, actions, n) && i < |states| && Made(actions, i, s)
    ensures s in states[i].expired <==>
      && !RefreshQueued(actions, i, s) && Holders(states, actions, i, s) == 0
      && (LastRun(actions, i, s).None? || Ticks(actions, i) >= LastRun(actions, i, s).value + n)
  {
    hide Made, Holders, Ticks, LastRun, Requested, TasksRun, RefreshQueued, Inv, Do, Enabled;
    RunAgrees(states, actions, n, i);
    ExpiredIffIdle(states, actions, n, i, s);
    QueuedIff(actions, i, s);
  }

  lemma QueuedIff(actions: seq<Action>, i: nat, s: Slot)
    requires i <= |actions| && TasksRun(actions, i) <= |Requested(actions, i)|
    ensures s in Requested(actions, i)[TasksRun(actions, i)..] <==> RefreshQueued(actions, i, s)
  {
    hide Requested, TasksRun;
    var all, k := Requested(actions, i), TasksRun(actions, i);
    if s in all[k..] {
      var j :| 0 <= j < |all[k..]| && all[k..][j] == s;
      assert all[k + j] == s;
    }
    if RefreshQueued(actions, i, s) {
      var j :| k <= j < |all| && all[j] == s;
      assert all[k..][j - k] == s;
    }
  }

  // --- What one refresh is good for ---

  lemma {:induction false} HistoryGrows(actions: seq<Action>, i: nat, k: nat)
    requires i <= k <= |actions|
    ensures Requested(actions, i) <= Requested(actions, k) && TasksRun(actions, i) <= TasksRun(actions, k)
    ensures Ticks(actions, i) <= Ticks(actions, k)
    decreases k
  {
    if i < k { HistoryGrows(actions, i, k - 1); }
  }

  /** Action k - 1 runs task number p. */
  lemma RunsTask(actions: seq<Action>, i: nat, p: nat, k: nat, s: Slot)
    requires i < k <= |actions| && p < |Requested(actions, i + 1)| && Requested(actions, i + 1)[p] == s
    requires TasksRun(actions, k - 1) == p < TasksRun(actions, k)
    ensures LastRun(actions, k, s) == Some(Ticks(actions, k - 1))
  {
    assert actions[k - 1].RunTask?;
    assert Requested(actions, k) == Requested(actions, k - 1);
    HistoryGrows(actions, i + 1, k);
    hide Requested, TasksRun, Ticks;
  }

  /** What is known of the last run of s stays so or is made newer. */
  lemma LastRunGrows(actions: seq<Action>, k: nat, s: Slot, since: nat)
    requires 0 < k <= |actions| && Ticks(actions, k - 1) >= since
    requires LastRun(actions, k - 1, s).Some? && LastRun(actions, k - 1, s).value >= since
    ensures LastRun(actions, k, s).Some? && LastRun(actions, k, s).value >= since
  {
    hide Requested, TasksRun, Ticks;
  }

  /** Once task number p, a refresh of s requested by then, has run after action i, the last run of s is no
      older than that. */
  lemma {:induction false} RunIsRecent(actions: seq<Action>, i: nat, p: nat, k: nat, s: Slot)
    requires i < k <= |actions| && p < |Requested(actions, i + 1)| && Requested(actions, i + 1)[p] == s
    requires TasksRun(actions, i) <= p < TasksRun(actions, k)
    ensures LastRun(actions, k, s).Some? && LastRun(actions, k, s).value >= Ticks(actions, i)
    decreases k
  {
    hide Requested, Ticks, LastRun;
    HistoryGrows(actions, i, k - 1);
    if p < TasksRun(actions, k - 1) {
      RunIsRecent(actions, i, p, k - 1, s);
      LastRunGrows(actions, k, s, Ticks(actions, i));
    } else {
      RunsTask(actions, i, p, k, s);
    }
  }

  /** A requested refresh keeps its slot: while its task is queued, and then for n ticks and more from the request
      on. So a slot that is gone has had n ticks since each refresh that was requested of it. */
  lemma RefreshCounts(states: seq<World>, actions: seq<Action>, n: nat, i: nat, k: nat, s: Slot)
    requires n > 0 && Run(states, actions, n) && i < k < |states| && actions[i] == Refresh(s)
    ensures
      var p := |Requested(actions, i)|;
      && (TasksRun(actions, k) <= p ==> s !in states[k].expired)
      && (TasksRun(actions, k) > p ==> s in states[k].last && states[k].last[s] >= states[i].now)
    ensures s in states[k].expired ==> Ticks(actions, k) >= Ticks(actions, i) + n
  {
    var p := |Requested(actions, i)|;
    RunAgrees(states, actions, n, i);
    RunAgrees(states, actions, n, k);
    RefreshedIsMade(states[i], s);
    MadeLater(actions, i, k, s);
    HistoryGrows(actions, i + 1, k);
    ExpiredByHistory(states, actions, n, k, s);
    assert Requested(actions, i + 1)[p] == s;
    hide Run, Made, Holders;
    if TasksRun(actions, k) <= p {
      assert Requested(actions, k)[p] == s;
      assert RefreshQueued(actions, k, s);
    } else {
      RunIsRecent(actions, i, p, k, s);
    }
  }

  lemma RefreshedIsMade(w: World, s: Slot)
    ensures Enabled(w, Refresh(s)) ==> s in w.refs
  {
  }

  lemma MadeLater(actions: seq<Action>, i: nat, k: nat, s: Slot)
    requires i <= k <= |actions| && Made(actions, i, s)
    ensures Made(actions, k, s)
  {
    var j :| 0 <= j < i && actions[j] == Register(s);
    assert 0 <= j < k;
  }

  // --- The connections ---

  /** w' comes after w by dropping references: exactly what that shut down is half-closed. */
  ghost predicate HalfCloses(w: World, w': World) {
    && w'.conns.Keys == w.conns.Keys && w.shutdowns <= w'.shutdowns
    && forall s :: s in w.conns ==>
         w'.conns[s] == if s in w'.shutdowns && s !in w.shutdowns then Some(HalfClosing) else w.conns[s]
  }

  lemma ReleaseHalfCloses(w: World, s: Slot)
    requires s in w.refs && w.refs[s] > 0 && OnceEach(w)
    ensures HalfCloses(w, Release(w, s))
  {
    hide Distinct;
    assert s !in w.expired && s !in w.shutdowns;
    var w' := Release(w, s);
    assert forall t :: t in w'.shutdowns <==> t in w.shutdowns || (t == s && w.refs[s] == 1 && Live(w, s));
  }

  lemma {:induction false} ReleaseAllHalfCloses(w: World, slots: seq<Slot>)
    requires Covers(w.refs, multiset(slots)) && OnceEach(w)
    ensures HalfCloses(w, ReleaseAll(w, slots))
    decreases |slots|
  {
    hide Release, Covers, OnceEach, HalfCloses;
    if slots == [] {
      SameHalfCloses(w);
    } else {
      CoversRest(w.refs, slots);
      ReleaseHalfCloses(w, slots[0]);
      ReleaseOnce(w, slots[0]);
      ReleaseCovers(w, slots);
      var w1 := Release(w, slots[0]);
      ReleaseAllHalfCloses(w1, slots[1..]);
      HalfClosesChain(w, w1, ReleaseAll(w1, slots[1..]));
    }
  }

  lemma ReleaseCovers(w: World, slots: seq<Slot>)
    requires slots != [] && Covers(w.refs, multiset(slots)) && slots[0] in w.refs && w.refs[slots[0]] > 0
    ensures Covers(Release(w, slots[0]).refs, multiset(slots[1..]))
  {
    CoversRest(w.refs, slots);
    hide Covers;
  }

  lemma SameHalfCloses(w: World)
    ensures HalfCloses(w, w)
  {
  }

  lemma HalfClosesChain(w: World, w1: World, w2: World)
    requires HalfCloses(w, w1) && HalfCloses(w1, w2)
    ensures HalfCloses(w, w2)
  {
    assert forall s :: s in w.shutdowns ==> s in w1.shutdowns;
    assert forall s :: s in w1.shutdowns ==> s in w2.shutdowns;
  }

  /** What a step does to the connections. */
  ghost predicate ConnsMove(w: World, a: Action, w': World) {
    match a
    case Register(s) => w'.conns == w.conns[s := Some(Connected)]
    case SetState(s, state) => w'.conns == w.conns[s := Some(state)]
    case FreeConnection(s) => w'.conns == w.conns[s := None]
    case _ => HalfCloses(w, w')
  }

  lemma StepConns(w: World, a: Action, n: nat)
    requires n > 0 && Inv(w, n) && Enabled(w, a)
    ensures ConnsMove(w, a, Do(w, a))
    ensures !a.Tick? && !a.RunTask? && !a.Drop? ==> Do(w, a).shutdowns == w.shutdowns
  {
    hide Counted, Aged, OnceEach, Release, ReleaseAll, Covers, HalfCloses;
    match a
    case Drop(s) =>
      var w1 := w.(temps := w.temps - multiset{s});
      OnceFrame(w, w1);
      ReleaseHalfCloses(w1, s);
      SameConns(w, w1, Release(w1, s));
    case RunTask =>
      var s := w.tasks[0];
      var w1 := Fresh(w.(tasks := w.tasks[1..]), s);
      OnceFrame(w, w1);
      ReleaseHalfCloses(w1, s);
      SameConns(w, w1, Release(w1, s));
    case Tick =>
      var w1 := Turned(w);
      OnceFrame(w, w1);
      ReleaseAllHalfCloses(w1, w.buckets[0]);
      SameConns(w, w1, ReleaseAll(w1, w.buckets[0]));
    case Lock(s) =>
      SameHalfCloses(Do(w, a));
      SameConns(w, Do(w, a), Do(w, a));
    case Refresh(s) =>
      SameHalfCloses(Do(w, a));
      SameConns(w, Do(w, a), Do(w, a));
    case _ =>
  }

  lemma SameConns(w: World, w1: World, w': World)
    requires w1.conns == w.conns && w1.shutdowns == w.shutdowns && HalfCloses(w1, w')
    ensures HalfCloses(w, w')
  {
  }

  /** Slots and connections are made together. */
  lemma {:induction false} RunConns(states: seq<World>, actions: seq<Action>, n: nat, i: nat)
    requires n > 0 && Run(states, actions, n) && i < |states|
    ensures states[i].conns.Keys == states[i].refs.Keys
  {
    hide Inv, Do, Enabled;
    if i > 0 {
      RunConns(states, actions, n, i - 1);
      RunKeeps(states, actions, n, i - 1);
      ConnKeysNext(states[i - 1], actions[i - 1], n);
    }
  }

  lemma ConnKeysNext(w: World, a: Action, n: nat)
    requires n > 0 && Inv(w, n) && Enabled(w, a) && w.conns.Keys == w.refs.Keys
    ensures Do(w, a).conns.Keys == Do(w, a).refs.Keys
  {
    hide Inv, Do;
    StepConns(w, a, n);
    StepRecords(w, a, n);
  }

  /** The state of a connection over a run. A shutdown comes to a connection that is there and is connected or
      half-closed, and leaves it half-closed. Nothing else but setState and the freeing of the connection
      changes it. */
  lemma ConnByHistory(states: seq<World>, actions: seq<Action>, n: nat, i: nat, s: Slot)
    requires n > 0 && Run(states, actions, n) && i < |actions| && Made(actions, i, s)
    ensures s in states[i].conns && s in states[i + 1].conns
    ensures
      var shut := s in states[i + 1].shutdowns && s !in states[i].shutdowns;
      && (shut ==> states[i].conns[s] == Some(Connected) || states[i].conns[s] == Some(HalfClosing))
      && states[i + 1].conns[s] ==
           match actions[i] {
             case SetState(t, state) => if t == s then Some(state) else states[i].conns[s]
             case FreeConnection(t) => if t == s then None else states[i].conns[s]
             case _ => if shut then Some(HalfClosing) else states[i].conns[s]
           }
  {
    RunAgrees(states, actions, n, i);
    RunConns(states, actions, n, i);
    RunKeeps(states, actions, n, i);
    MadeOnce(states[i], actions[i], s);
    hide Inv, Do, Enabled, Made, Holders;
    StepConns(states[i], actions[i], n);
    ShutDownIffExpiredLive(states[i], actions[i], n);
  }

  lemma MadeOnce(w: World, a: Action, s: Slot)
    requires Enabled(w, a) && s in w.refs
    ensures a != Register(s)
  {
  }
}
