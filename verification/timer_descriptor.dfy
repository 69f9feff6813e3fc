/** The timer queue together with its timer file descriptor: when onTimer will be called at all. */
module TimerDescriptor {
  import opened Interest
  import opened TimerQueue

  /** `armed` is when the descriptor expires, or has expired. */
  datatype Clocked<T> = Clocked(timers: Timers<T>, armed: Option<int>)

  datatype ClockOp<T> =
    | Plain(op: Op<T>)                                  // an operation that does not touch the descriptor
    | AddTimer(event: T, clock: int)                    // addTimerEvent, which may set it
    | Timeout(now: int, clocks: seq<int>, clock: int)   // onTimer, at any time

  /** The operation on the queue. */
  function QueueOp<T>(op: ClockOp<T>): Op<T> {
    match op
    case Plain(o) => o
    case AddTimer(e, _) => AddEvent(e)
    case Timeout(now, clocks, _) => Fire(now, clocks)
  }

  ghost predicate ClockAllowed<T>(s: Clocked<T>, op: ClockOp<T>) {
    && Valid(s.timers) && Allowed(s.timers, QueueOp(op))
    && (op.Plain? ==> !op.op.AddEvent? && !op.op.Fire?)
  }

  ghost function After<T>(s: Clocked<T>, op: ClockOp<T>): Timers<T>
    requires ClockAllowed(s, op)
  {
    Do(s.timers, QueueOp(op))
  }

  /** resetArriveTime is called: by onTimer, and for an event due before the first. */
  ghost predicate Resets<T>(s: Clocked<T>, op: ClockOp<T>)
    requires ClockAllowed(s, op)
  {
    match op
    case Plain(_) => false
    case AddTimer(e, _) =>
      var t := s.timers;
      t.pending == [] || t.events[e].arrive < t.events[t.pending[0].event].arrive
    case Timeout(_, _, _) => true
  }

  /** The clock reading of resetArriveTime. */
  function ClockOf<T>(op: ClockOp<T>): int
    requires !op.Plain?
  {
    op.clock
  }

  /** onTimer first reads an expired descriptor empty. */
  function Unread<T>(s: Clocked<T>, op: ClockOp<T>): Option<int> {
    if op.Timeout? && s.armed.Some? && s.armed.value <= op.now then None else s.armed
  }

  ghost function ClockDo<T>(s: Clocked<T>, op: ClockOp<T>): Clocked<T>
    requires ClockAllowed(s, op)
  {
    var t := After(s, op);
    Clocked(t, if Resets(s, op) then Arm(t.pending, ClockOf(op), Unread(s, op)) else s.armed)
  }

  ghost predicate ClockRun<T>(states: seq<Clocked<T>>, ops: seq<ClockOp<T>>) {
    && |states| == |ops| + 1 && states[0] == Clocked(Timers([], map[], 0), None)
    && (forall i :: 0 <= i < |ops| ==> ClockAllowed(states[i], ops[i]) && states[i + 1] == ClockDo(states[i], ops[i]))
  }

  // --- When nothing will fire any more ---

  /** Something is pending, and the descriptor is not set. */
  predicate Dead<T>(s: Clocked<T>) {
    s.timers.pending != [] && s.armed == None
  }

  /** resetArriveTime finds its clock at the last key, or past it with nothing armed. */
  ghost predicate TooLate<T>(s: Clocked<T>, op: ClockOp<T>)
    requires ClockAllowed(s, op)
  {
    var p := After(s, op).pending;
    && Resets(s, op) && p != []
    && (p[|p| - 1].key == ClockOf(op) || (p[|p| - 1].key < ClockOf(op) && Unread(s, op) == None))
  }

  /** The step does not set the descriptor, and leaves something pending. */
  ghost predicate LeavesBe<T>(s: Clocked<T>, op: ClockOp<T>)
    requires ClockAllowed(s, op)
  {
    !Resets(s, op) && After(s, op).pending != []
  }

  lemma PlainAddsNone<T>(s: Clocked<T>, op: ClockOp<T>)
    requires ClockAllowed(s, op) && op.Plain? && s.timers.pending == []
    ensures After(s, op).pending == []
  {
    hide Find, LowerBound, UpperBound, Valid;
  }

  /** After an add or onTimer, something is pending with nothing armed exactly when resetArriveTime came too
      late for all of it. With nothing armed before, that is when its clock has reached the last key. */
  lemma DeadStepIff<T>(s: Clocked<T>, op: ClockOp<T>)
    requires ClockAllowed(s, op)
    ensures Dead(ClockDo(s, op)) <==> TooLate(s, op) || (Dead(s) && LeavesBe(s, op))
    ensures Resets(s, op) && Unread(s, op) == None ==>
      var p := After(s, op).pending;
      Dead(ClockDo(s, op)) <==> p != [] && p[|p| - 1].key <= ClockOf(op)
  {
    hide After, ClockAllowed;
    if op.Plain? && s.timers.pending == [] { PlainAddsNone(s, op); }
  }

  /** What a step does to the descriptor: an expired one is read empty by onTimer; where resetArriveTime is called
      with something pending, it is set for the last key, disarmed when that is due now, and left as it
      is when that has gone by; anything else leaves it alone. */
  lemma ArmedAfter<T>(s: Clocked<T>, op: ClockOp<T>)
    requires ClockAllowed(s, op)
    ensures
      var p, armed := After(s, op).pending, ClockDo(s, op).armed;
      var before := if op.Timeout? && s.armed.Some? && s.armed.value <= op.now then None else s.armed;
      match op
      case Plain(_) => armed == s.armed
      case AddTimer(e, clock) =>
        armed == (
          if s.timers.pending != [] && s.timers.pending[0].key <= s.timers.events[e].arrive then s.armed
          else if p[|p| - 1].key > clock then Some(p[|p| - 1].key)
          else if p[|p| - 1].key == clock then None else s.armed)
      case Timeout(_, _, clock) =>
        armed == (
          if p == [] then before
          else if p[|p| - 1].key > clock then Some(p[|p| - 1].key)
          else if p[|p| - 1].key == clock then None else before)
  {
    if op.AddTimer? { AddKeeps(s.timers, op.event); }
    hide UpperBound, LowerBound, TimerQueue.Find, OnTimer, Fired;
  }

  ghost predicate DeadSince<T>(states: seq<Clocked<T>>, ops: seq<ClockOp<T>>, j: nat, i: nat)
    requires ClockRun(states, ops)
  {
    && j < i <= |ops| && TooLate(states[j], ops[j])
    && forall k :: j < k < i ==> LeavesBe(states[k], ops[k])
  }

  /** In every run, something is pending with nothing armed exactly when some step set the descriptor too
      late, and none since has set it or left nothing pending. */
  lemma {:induction false} DeadIff<T>(states: seq<Clocked<T>>, ops: seq<ClockOp<T>>, i: nat)
    requires ClockRun(states, ops) && i < |states|
    ensures Dead(states[i]) <==> exists j: nat :: DeadSince(states, ops, j, i)
  {
    if i > 0 {
      var n := i - 1;
      DeadIff(states, ops, n);
      DeadStepIff(states[n], ops[n]);
      hide Dead, TooLate, LeavesBe, ClockRun, ClockDo, ClockAllowed;
      assert TooLate(states[n], ops[n]) ==> DeadSince(states, ops, n, i);
      if LeavesBe(states[n], ops[n]) {
        forall j: nat | DeadSince(states, ops, j, n) ensures DeadSince(states, ops, j, i) {}
      }
      forall j: nat | DeadSince(states, ops, j, i) ensures j == n || (DeadSince(states, ops, j, n) && LeavesBe(states[n], ops[n])) {}
    }
  }

  lemma {:induction false} EveryClockRunIsValid<T>(states: seq<Clocked<T>>, ops: seq<ClockOp<T>>, i: nat)
    requires ClockRun(states, ops) && i < |states|
    ensures Valid(states[i].timers)
  {
    hide Do, Allowed, Arm;
    if i > 0 {
      EveryClockRunIsValid(states, ops, i - 1);
      DoKeeps(states[i - 1].timers, QueueOp(ops[i - 1]));
    }
  }

  // --- Two runs in which an event is not fired when it is due ---

  ghost predicate ClockGoes<T>(s: Clocked<T>, op: ClockOp<T>, s': Clocked<T>) {
    ClockAllowed(s, op) && ClockDo(s, op) == s'
  }

  lemma ClockExtend<T>(states: seq<Clocked<T>>, ops: seq<ClockOp<T>>, op: ClockOp<T>, next: Clocked<T>)
    returns (states': seq<Clocked<T>>, ops': seq<ClockOp<T>>)
    requires ClockRun(states, ops) && ClockGoes(states[|ops|], op, next)
    ensures ClockRun(states', ops') && states' == states + [next] && ops' == ops + [op]
  {
    hide ClockDo, ClockAllowed;
    states', ops' := states + [next], ops + [op];
    forall i | 0 <= i < |ops'| ensures ClockAllowed(states'[i], ops'[i]) && states'[i + 1] == ClockDo(states'[i], ops'[i]) {
      assert states'[i] == states[i];
      if i < |ops| {
        assert ops'[i] == ops[i] && states'[i + 1] == states[i + 1];
      } else {
        assert ops'[i] == op && states'[i + 1] == next;
      }
    }
  }

  /** Two events, due at 10 and at 20, that nobody has added yet. */
  lemma TwoMade() returns (states: seq<Clocked<nat>>, ops: seq<ClockOp<nat>>)
    ensures ClockRun(states, ops) && |ops| == 2 && states[2] == Clocked(Timers([], TwoEvents(), 0), None)
  {
    var s0, s1, s2 := NoTimers();
    hide Valid, Allowed, Do;
    states, ops := [Clocked(s0, None)], [];
    states, ops := ClockExtend(states, ops, Plain(Make(0, Event(10, 10, false, false))), Clocked(s1, None));
    states, ops := ClockExtend(states, ops, Plain(Make(1, Event(20, 20, false, false))), Clocked(s2, None));
  }

  function LateFirst(): Timers<nat> {
    Timers([Entry(10, 0, 1), Entry(20, 1, 0)], TwoEvents(), 2)
  }

  lemma AddsLater(s2: Timers<nat>) returns (s3: Timers<nat>)
    requires s2 == Timers([], TwoEvents(), 0)
    ensures s3 == Timers([Entry(20, 1, 0)], TwoEvents(), 1)
    ensures Goes(s2, AddEvent(1), s3) && Goes(s3, AddEvent(0), LateFirst())
  {
    s3 := Timers([Entry(20, 1, 0)], TwoEvents(), 1);
    assert UpperBound<nat>([], 20) == 0 && UpperBound(s3.pending, 10) == 0;
    hide UpperBound;
    assert s3.pending[..0] == [] && s3.pending[0..] == s3.pending;
  }

  /** The event due at 20 is added, then, at 5, the one due at 10: the descriptor is set for 20, ten units late
      for the first. */
  lemma ArmedTooLate() returns (states: seq<Clocked<nat>>, ops: seq<ClockOp<nat>>)
    ensures ClockRun(states, ops) && |ops| == 4 && ops[2] == AddTimer(1, 0) && ops[3] == AddTimer(0, 5)
    ensures states[4].timers.pending == [Entry(10, 0, 1), Entry(20, 1, 0)] && states[4].armed == Some(20)
  {
    states, ops := TwoMade();
    var s3 := AddsLater(Timers([], TwoEvents(), 0));
    hide Valid, Allowed, Do;
    states, ops := ClockExtend(states, ops, AddTimer(1, 0), Clocked(s3, Some(20)));
    states, ops := ClockExtend(states, ops, AddTimer(0, 5), Clocked(LateFirst(), Some(20)));
  }

  /** The event due at 10 is added at 10: the descriptor is disarmed. So it stays for the one added behind it,
      at 12, which is due at 20. */
  lemma AddedWhenDue() returns (states: seq<Clocked<nat>>, ops: seq<ClockOp<nat>>)
    ensures ClockRun(states, ops) && |ops| == 4 && ops[2] == AddTimer(0, 10) && ops[3] == AddTimer(1, 12)
    ensures states[4].timers.pending == [First(), Second()] && Dead(states[3]) && Dead(states[4])
  {
    states, ops := TwoMade();
    var s3 := AddsBoth(Timers([], TwoEvents(), 0));
    hide Valid, Allowed, Do;
    states, ops := ClockExtend(states, ops, AddTimer(0, 10), Clocked(s3, None));
    states, ops := ClockExtend(states, ops, AddTimer(1, 12), Clocked(BothPending(), None));
  }
}
