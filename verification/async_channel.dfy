/** The asynchronous RPC channel: a caller's coroutine, the pool thread that makes the call, and the callback
    that comes back to the caller's IO thread. */
module AsyncChannels {
  /** Where the caller's coroutine is: running, parked in wait(), or parked in some other hook. */
  datatype Caller = Running | InWait | Elsewhere

  /** The three flags and where the calls are; the counters from `attempts` on are history that no step
      reads. */
  datatype Channel = Channel(
    finished: bool, needResume: bool, preSet: bool, caller: Caller,
    inFlight: nat,        // accepted calls that a pool thread works on
    queued: nat,          // callbacks waiting with the caller's reactor
    attempts: nat,        // CallMethod calls
    calls: nat,           // of these, the accepted ones
    closures: nat,        // callbacks that have run
    parks: nat,           // times the caller parked in wait()
    wakeups: nat,         // times it was resumed there
    strays: nat)          // times it was resumed elsewhere

  function New(): Channel {
    Channel(false, false, false, Running, 0, 0, 0, 0, 0, 0, 0, 0)
  }

  datatype Act = SaveCallee | CallMethod | Wait | YieldElsewhere | ResumeElsewhere | RpcDone | Callback

  /** The caller acts while it runs; the callback is a reactor task of the same thread, so it runs while the
      caller does not. */
  predicate Enabled(c: Channel, a: Act) {
    match a
    case SaveCallee => c.caller == Running
    case CallMethod => c.caller == Running
    case Wait => c.caller == Running
    case YieldElsewhere => c.caller == Running
    case ResumeElsewhere => c.caller == Elsewhere
    case RpcDone => c.inFlight > 0
    case Callback => c.queued > 0 && c.caller != Running
  }

  function Do(c: Channel, a: Act): Channel
    requires Enabled(c, a)
  {
    match a
    case SaveCallee => c.(preSet := true)
    case CallMethod =>
      if !c.preSet then c.(finished := true, attempts := c.attempts + 1)
      else c.(inFlight := c.inFlight + 1, attempts := c.attempts + 1, calls := c.calls + 1)
    case Wait =>
      var c1 := c.(needResume := true);
      if c.finished then c1 else c1.(caller := InWait, parks := c.parks + 1)
    case YieldElsewhere => c.(caller := Elsewhere)
    case ResumeElsewhere => c.(caller := Running)
    case RpcDone => c.(inFlight := c.inFlight - 1, queued := c.queued + 1)
    case Callback =>
      var c1 := c.(queued := c.queued - 1, closures := c.closures + 1, finished := true);
      if !c.needResume then c1
      else if c.caller == InWait then c1.(caller := Running, wakeups := c.wakeups + 1)
      else c1.(caller := Running, strays := c.strays + 1)
  }

  /** The acts one after the other from a new channel. */
  ghost predicate Run(states: seq<Channel>, acts: seq<Act>) {
    && |states| == |acts| + 1 && states[0] == New()
    && (forall i :: 0 <= i < |acts| ==> Enabled(states[i], acts[i]) && states[i + 1] == Do(states[i], acts[i]))
  }

  /** What holds however often the channel is used. */
  ghost predicate Inv(c: Channel) {
    && c.calls == c.inFlight + c.queued + c.closures
    && c.parks == c.wakeups + (if c.caller == InWait then 1 else 0)
    && (c.closures > 0 ==> c.finished)
    && (c.caller == InWait ==> c.needResume && !c.finished)
  }

  /** What holds while CallMethod has been called at most once. */
  ghost predicate OnceInv(c: Channel) {
    && c.calls <= c.attempts <= 1
    && (c.finished ==> c.attempts == 1 && c.closures == c.calls)
    && (c.needResume && c.caller != InWait ==> c.finished)
    && c.strays == 0
  }

  lemma DoKeeps(c: Channel, a: Act)
    requires Inv(c) && Enabled(c, a)
    ensures Inv(Do(c, a)) && c.attempts <= Do(c, a).attempts
    ensures OnceInv(c) && Do(c, a).attempts <= 1 ==> OnceInv(Do(c, a))
  {
    match a
    case SaveCallee =>
    case CallMethod =>
    case Wait =>
    case YieldElsewhere =>
    case ResumeElsewhere =>
    case RpcDone =>
    case Callback =>
  }

  lemma {:induction false} RunKeeps(states: seq<Channel>, acts: seq<Act>, i: nat)
    requires Run(states, acts) && i < |states|
    ensures Inv(states[i])
    ensures states[i].attempts <= 1 ==> OnceInv(states[i])
    ensures i > 0 ==> states[i - 1].attempts <= states[i].attempts
  {
    hide Inv, OnceInv, Do, Enabled;
    if i == 0 {
      NewKeeps();
    } else {
      RunKeeps(states, acts, i - 1);
      DoKeeps(states[i - 1], acts[i - 1]);
    }
  }

  lemma NewKeeps()
    ensures Inv(New()) && OnceInv(New())
  {
  }

  /** The closure runs once per accepted call, and the caller is resumed in wait() once each time it parked
      there: in every run, at every moment, what is still owed is what is still under way. */
  lemma OncePerCall(states: seq<Channel>, acts: seq<Act>, i: nat)
    requires Run(states, acts) && i < |states|
    ensures
      var c := states[i];
      && c.closures + c.inFlight + c.queued == c.calls
      && (c.caller == InWait ==> c.parks == c.wakeups + 1)
      && (c.caller != InWait ==> c.parks == c.wakeups)
  {
    RunKeeps(states, acts, i);
  }

  /** No lost wakeup: a caller parked in wait() has every accepted call still coming, so its callback is on
      the way exactly when it made a call at all. */
  lemma NoLostWakeup(states: seq<Channel>, acts: seq<Act>, i: nat)
    requires Run(states, acts) && i < |states| && states[i].caller == InWait
    ensures states[i].inFlight + states[i].queued > 0 <==> states[i].calls > 0
  {
    RunKeeps(states, acts, i);
  }

  /** And the callback that comes then is what resumes it. */
  lemma CallbackWakes(states: seq<Channel>, acts: seq<Act>, i: nat)
    requires Run(states, acts) && i < |acts| && states[i].caller == InWait && acts[i] == Callback
    ensures states[i + 1].caller == Running && states[i + 1].wakeups == states[i].wakeups + 1
  {
    RunKeeps(states, acts, i);
  }

  /** On a channel used for one call the caller is never resumed outside wait(), and wait() does not return
      before the callback has run. */
  lemma OneCallIsSafe(states: seq<Channel>, acts: seq<Act>, i: nat)
    requires Run(states, acts) && i < |states| && states[i].attempts <= 1
    ensures states[i].strays == 0
    ensures states[i].needResume && states[i].caller != InWait ==> states[i].closures == states[i].calls
  {
    RunKeeps(states, acts, i);
  }

  ghost predicate Waited(acts: seq<Act>, i: nat) {
    exists j :: 0 <= j < i && j < |acts| && acts[j] == Wait
  }

  /** A callback has run, or a call has been refused. */
  ghost predicate Ended(states: seq<Channel>, acts: seq<Act>, i: nat)
    requires |states| == |acts| + 1
  {
    exists j :: 0 <= j < i && j < |acts| && (acts[j] == Callback || (acts[j] == CallMethod && !states[j].preSet))
  }

  lemma DoFlags(c: Channel, a: Act)
    requires Enabled(c, a)
    ensures Do(c, a).needResume <==> c.needResume || a == Wait
    ensures Do(c, a).finished <==> c.finished || a == Callback || (a == CallMethod && !c.preSet)
    ensures Do(c, a).strays == c.strays + if a == Callback && c.caller == Elsewhere && c.needResume then 1 else 0
  {
  }

  /** The two flags remember the whole history of the channel: they are set by the first wait(), and by the
      first callback or refused call, and nothing clears them. */
  lemma {:induction false} FlagsRemember(states: seq<Channel>, acts: seq<Act>, i: nat)
    requires Run(states, acts) && i < |states|
    ensures states[i].needResume <==> Waited(acts, i)
    ensures states[i].finished <==> Ended(states, acts, i)
  {
    hide Do, Enabled;
    if i > 0 {
      FlagsRemember(states, acts, i - 1);
      DoFlags(states[i - 1], acts[i - 1]);
      var j := i - 1;
      assert acts[j] == Wait ==> Waited(acts, i);
      assert Waited(acts, i - 1) ==> Waited(acts, i);
      assert Waited(acts, i) ==> Waited(acts, i - 1) || acts[j] == Wait;
      assert Ended(states, acts, i - 1) ==> Ended(states, acts, i);
      assert Ended(states, acts, i) ==>
        Ended(states, acts, i - 1) || acts[j] == Callback || (acts[j] == CallMethod && !states[j].preSet);
    }
  }

  /** At step k a callback comes while the caller is parked in some other hook, after a wait(). */
  ghost predicate StrayAt(states: seq<Channel>, acts: seq<Act>, k: nat)
    requires |states| == |acts| + 1 && k < |acts|
  {
    acts[k] == Callback && states[k].caller == Elsewhere && Waited(acts, k)
  }

  /** In a run the caller is resumed outside wait() exactly if at some step a callback comes while it is
      parked elsewhere, and it called wait() before, however long ago and for whichever call. */
  lemma {:induction false} StrayIff(states: seq<Channel>, acts: seq<Act>, i: nat)
    requires Run(states, acts) && i < |states|
    ensures states[i].strays > 0 <==> exists k :: 0 <= k < i && StrayAt(states, acts, k)
  {
    hide Do, Enabled, StrayAt;
    if i > 0 {
      StrayIff(states, acts, i - 1);
      FlagsRemember(states, acts, i - 1);
      DoFlags(states[i - 1], acts[i - 1]);
      StrayStep(states, acts, i - 1);
    }
  }

  lemma StrayStep(states: seq<Channel>, acts: seq<Act>, k: nat)
    requires Run(states, acts) && k < |acts|
    ensures
      StrayAt(states, acts, k) <==> acts[k] == Callback && states[k].caller == Elsewhere && states[k].needResume
  {
    FlagsRemember(states, acts, k);
    hide Do, Enabled, Waited;
  }

  /** wait() lets the caller run on exactly when some callback has run on this channel, or a call was
      refused; while a call is still under way that is too early. */
  lemma WaitReturnsAtOnceIff(states: seq<Channel>, acts: seq<Act>, i: nat)
    requires Run(states, acts) && i < |acts| && acts[i] == Wait
    ensures states[i + 1].caller == Running <==> Ended(states, acts, i)
    ensures states[i + 1].inFlight + states[i + 1].queued == states[i].inFlight + states[i].queued
  {
    FlagsRemember(states, acts, i);
    hide Ended, Waited;
  }

  /** A channel whose callee was saved, with one call made and nobody parked in wait() so far. */
  function Used(finished: bool, caller: Caller, inFlight: nat, queued: nat, calls: nat): Channel {
    Channel(finished, false, true, caller, inFlight, queued, calls, calls, if finished then 1 else 0, 0, 0, 0)
  }

  lemma FirstCallSteps()
    ensures var c := New(); Enabled(c, SaveCallee) && Do(c, SaveCallee) == Used(false, Running, 0, 0, 0)
    ensures var c := Used(false, Running, 0, 0, 0);
            Enabled(c, CallMethod) && Do(c, CallMethod) == Used(false, Running, 1, 0, 1)
    ensures var c := Used(false, Running, 1, 0, 1); Enabled(c, RpcDone) && Do(c, RpcDone) == Used(false, Running, 0, 1, 1)
    ensures var c := Used(false, Running, 0, 1, 1);
            Enabled(c, YieldElsewhere) && Do(c, YieldElsewhere) == Used(false, Elsewhere, 0, 1, 1)
    ensures var c := Used(false, Elsewhere, 0, 1, 1);
            Enabled(c, Callback) && Do(c, Callback) == Used(true, Elsewhere, 0, 0, 1)
  {
  }

  lemma SecondCallSteps()
    ensures var c := Used(true, Elsewhere, 0, 0, 1);
            Enabled(c, ResumeElsewhere) && Do(c, ResumeElsewhere) == Used(true, Running, 0, 0, 1)
    ensures var c := Used(true, Running, 0, 0, 1); Enabled(c, CallMethod) && Do(c, CallMethod) == Used(true, Running, 1, 0, 2)
    ensures var c := Used(true, Running, 1, 0, 2);
            Enabled(c, Wait) && Do(c, Wait) == c.(needResume := true)
    ensures var c := Used(true, Running, 1, 0, 2).(needResume := true);
            Enabled(c, YieldElsewhere) && Do(c, YieldElsewhere) == c.(caller := Elsewhere)
    ensures var c := Used(true, Elsewhere, 1, 0, 2).(needResume := true);
            Enabled(c, RpcDone) && Do(c, RpcDone) == c.(inFlight := 0, queued := 1)
    ensures var c := Used(true, Elsewhere, 0, 1, 2).(needResume := true);
            Enabled(c, Callback) && Do(c, Callback).strays == 1
  {
  }

  /** One call that has come back while the caller was parked in some other hook. */
  lemma FirstCall() returns (states: seq<Channel>, acts: seq<Act>)
    ensures Run(states, acts) && |acts| == 5 && |states| == 6 && states[5] == Used(true, Elsewhere, 0, 0, 1)
  {
    FirstCallSteps();
    assert Run([New()], []);
    hide *;
    states, acts := Extend([New()], [], SaveCallee, Used(false, Running, 0, 0, 0));
    states, acts := Extend(states, acts, CallMethod, Used(false, Running, 1, 0, 1));
    states, acts := Extend(states, acts, RpcDone, Used(false, Running, 0, 1, 1));
    states, acts := Extend(states, acts, YieldElsewhere, Used(false, Elsewhere, 0, 1, 1));
    states, acts := Extend(states, acts, Callback, Used(true, Elsewhere, 0, 0, 1));
  }

  /** With a second call on the same channel wait() returns while that call is still in flight, and its
      callback then resumes the caller in whatever hook it is parked in. */
  lemma SecondCallStrays() returns (states: seq<Channel>, acts: seq<Act>)
    ensures Run(states, acts) && |acts| == 11 && |states| == 12
    ensures acts[7] == Wait && states[8].caller == Running && states[8].inFlight == 1 && states[8].parks == 0
    ensures acts[10] == Callback && states[11].strays == 1
  {
    var waited := Used(true, Running, 1, 0, 2).(needResume := true);
    var called, away := Used(true, Running, 1, 0, 2), Used(true, Elsewhere, 1, 0, 2).(needResume := true);
    var last := Used(true, Elsewhere, 0, 1, 2).(needResume := true);
    SecondCallSteps();
    states, acts := FirstCall();
    hide Do, Enabled, Run;
    states, acts := Extend(states, acts, ResumeElsewhere, Used(true, Running, 0, 0, 1));
    states, acts := Extend(states, acts, CallMethod, called);
    states, acts := Extend(states, acts, Wait, waited);
    states, acts := Extend(states, acts, YieldElsewhere, away);
    states, acts := Extend(states, acts, RpcDone, last);
    states, acts := Extend(states, acts, Callback, Do(last, Callback));
  }

  /** One more act at the end of a run. */
  lemma Extend(states: seq<Channel>, acts: seq<Act>, a: Act, next: Channel)
    returns (states': seq<Channel>, acts': seq<Act>)
    requires Run(states, acts) && Enabled(states[|acts|], a) && Do(states[|acts|], a) == next
    ensures states' == states + [next] && acts' == acts + [a] && |states'| == |acts'| + 1 && states'[|acts'|] == next
    ensures Run(states', acts')
  {
    states', acts' := states + [next], acts + [a];
    hide Do, Enabled;
  }

  class FlconcPbRpcAsyncChannel {
    var isFinished: bool
    var needResume: bool
    var isPreSet: bool
    ghost var rest: Channel

    constructor ()
      ensures View() == New()
    {
      isFinished, needResume, isPreSet, rest := false, false, false, New();
    }

    ghost function View(): Channel
      reads this
    {
      rest.(finished := isFinished, needResume := needResume, preSet := isPreSet)
    }

    method SaveCallee()
      requires Enabled(View(), Act.SaveCallee)
      modifies this
      ensures View() == Do(old(View()), Act.SaveCallee)
    {
      isPreSet := true;
    }

    /** Accepted calls go to a pool thread. */
    method CallMethod() returns (accepted: bool)
      requires Enabled(View(), Act.CallMethod)
      modifies this
      ensures View() == Do(old(View()), Act.CallMethod) && accepted == old(isPreSet)
    {
      rest := rest.(attempts := rest.attempts + 1);
      if !isPreSet {
        isFinished := true;
        return false;
      }
      rest := rest.(inFlight := rest.inFlight + 1, calls := rest.calls + 1);
      accepted := true;
    }

    /** Whether the caller's coroutine yields. */
    method Wait() returns (parks: bool)
      requires Enabled(View(), Act.Wait)
      modifies this
      ensures View() == Do(old(View()), Act.Wait) && (parks <==> View().caller == InWait)
    {
      needResume := true;
      if isFinished {
        return false;
      }
      rest := rest.(caller := InWait, parks := rest.parks + 1);
      parks := true;
    }

    /** The value is ignored. */
    method SetFinished(value: bool)
      modifies this`isFinished
      ensures isFinished
    {
      isFinished := true;
    }

    /** The callback on the caller's reactor: the closure runs, and the caller is resumed or not. */
    method RunCallBack() returns (resumes: bool)
      requires Enabled(View(), Callback)
      modifies this
      ensures View() == Do(old(View()), Callback) && resumes == old(needResume)
    {
      rest := rest.(queued := rest.queued - 1, closures := rest.closures + 1);
      SetFinished(true);
      resumes := needResume;
      if resumes {
        rest := if rest.caller == InWait then rest.(caller := Running, wakeups := rest.wakeups + 1)
                else rest.(caller := Running, strays := rest.strays + 1);
      }
    }
  }
}
