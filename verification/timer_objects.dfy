/** TimerEvent and Timer as the objects they are: events are shared and reset in place. */
module TimerObjects {
  import opened Interest
  import opened TimerQueue

  class TimerEvent {
    const interval: int
    var arriveTime: int
    var repeated: bool
    var cancelled: bool

    /** `clock` is what getNowMs returns. */
    constructor (interval: int, repeated: bool, clock: int)
      ensures Value() == Event(clock + interval, interval, repeated, false)
    {
      this.interval, this.repeated := interval, repeated;
      arriveTime, cancelled := clock + interval, false;
    }

    ghost function Value(): Event
      reads this
    {
      Event(arriveTime, interval, repeated, cancelled)
    }

    method ResetTime(clock: int)
      modifies this
      ensures Value() == TimerQueue.ResetTime(old(Value()), clock)
    {
      arriveTime := clock + interval;
      cancelled := false;
    }
  }

  class Timer {
    var pending: seq<Entry<TimerEvent>>
    var armed: Option<int>
    var stamps: nat
    ghost var events: set<TimerEvent>

    constructor (events: set<TimerEvent>)
      ensures pending == [] && armed == None && stamps == 0 && this.events == events
    {
      pending, armed, stamps, this.events := [], None, 0, events;
    }

    ghost function Values(): map<TimerEvent, Event>
      reads this, events
    {
      map e | e in events :: e.Value()
    }

    ghost function View(): Timers<TimerEvent>
      reads this, events
    {
      Timers(pending, Values(), stamps)
    }

    ghost predicate Backed()
      reads this
    {
      forall i :: 0 <= i < |pending| ==> pending[i].event in events
    }

    method AddTimerEvent(event: TimerEvent, needReset: bool, clock: int)
      requires event in events && Backed()
      modifies this`pending, this`stamps, this`armed
      ensures Backed() && View() == TimerQueue.Add(old(View()), event)
      ensures
        var first := old(pending) == [] || event.arriveTime < old(pending[0].event.arriveTime);
        armed == if first && needReset then Arm(pending, clock, old(armed)) else old(armed)
    {
      var isReset := pending == [] || event.arriveTime < pending[0].event.arriveTime;
      var n := UpperBound(pending, event.arriveTime);
      pending := pending[..n] + [Entry(event.arriveTime, event, stamps)] + pending[n..];
      stamps := stamps + 1;
      if isReset && needReset {
        ResetArriveTime(clock);
      }
    }

    method DelTimerEvent(event: TimerEvent)
      requires event in events && Backed()
      modifies this`pending, event`cancelled
      ensures Backed() && View() == Delete(old(View()), event)
    {
      event.cancelled := true;
      assert Values() == old(Values())[event := old(event.Value()).(cancelled := true)];
      var begin, end := LowerBound(pending, event.arriveTime), UpperBound(pending, event.arriveTime);
      BoundsOrdered(pending, event.arriveTime);
      var it := Search(event, begin, end);
      hide Find, LowerBound, UpperBound;
      if it != |pending| {
        pending := pending[..it] + pending[it + 1..];
      }
    }

    /** The search of delTimerEvent between two iterators. */
    method Search(event: TimerEvent, begin: nat, end: nat) returns (it: nat)
      requires begin <= end <= |pending|
      ensures it == Find(pending, event, begin, end)
    {
      it := begin;
      while it != end
        invariant begin <= it <= end
        invariant Find(pending, event, begin, end) == Find(pending, event, it, end)
        decreases end - it
      {
        if pending[it].event == event {
          break;
        }
        it := it + 1;
      }
    }

    method ResetArriveTime(clock: int)
      modifies this`armed
      ensures armed == Arm(pending, clock, old(armed))
    {
      if |pending| == 0 {
        return;
      }
      var last := pending[|pending| - 1].key;
      if last < clock {
        return;
      }
      var interval := last - clock;
      armed := if interval == 0 then None else Some(clock + interval);
    }

    /** The events whose callbacks run, in order. They run after everything else here is done. */
    method OnTimer(now: int, clocks: seq<int>, armClock: int) returns (tasks: seq<TimerEvent>)
      requires Backed() && |clocks| == |Fired(View(), now)|
      modifies this`pending, this`stamps, this`armed, events
      ensures Backed() && tasks == Fired(old(View()), now)
      ensures View() == TimerQueue.OnTimer(old(View()), now, clocks)
      ensures armed == Arm(pending, armClock, old(armed))
    {
      hide RequeueOne, Arm;
      tasks := TakeDue(now);
      ghost var start := View();
      var i := 0;
      while i < |tasks|
        invariant 0 <= i <= |tasks| && Backed() && armed == old(armed) && events == old(events)
        invariant forall e :: e in tasks ==> e in events
        invariant Requeue(View(), tasks[i..], clocks[i..]) == Requeue(start, tasks, clocks)
      {
        assert tasks[i..][0] == tasks[i] && clocks[i..][0] == clocks[i];
        assert tasks[i..][1..] == tasks[i + 1..] && clocks[i..][1..] == clocks[i + 1..];
        RequeueEvent(tasks[i], clocks[i]);
        i := i + 1;
      }
      assert tasks[i..] == [];
      ResetArriveTime(armClock);
    }

    /** The first loop: due events are collected and erased. */
    method TakeDue(now: int) returns (tasks: seq<TimerEvent>)
      requires Backed()
      modifies this`pending
      ensures Backed() && tasks == Fired(old(View()), now)
      ensures View() == old(View()).(pending := old(pending)[|tasks|..])
      ensures forall e :: e in tasks ==> e in events
    {
      tasks := [];
      var it := 0;
      while it < |pending| && pending[it].key <= now && !pending[it].event.cancelled
        invariant 0 <= it <= |pending| && tasks == EventsOf(pending[..it])
        invariant it + Taken(Values(), pending[it..], now) == Taken(Values(), pending, now)
      {
        assert pending[it..][0] == pending[it] && pending[it..][1..] == pending[it + 1..];
        assert pending[..it + 1] == pending[..it] + [pending[it]];
        tasks := tasks + [pending[it].event];
        it := it + 1;
      }
      assert it < |pending| ==> pending[it..][0] == pending[it];
      assert it == Taken(Values(), pending, now);
      pending := pending[it..];
    }

    method RequeueEvent(event: TimerEvent, clock: int)
      requires event in events && Backed()
      modifies this`pending, this`stamps, this`armed, event
      ensures Backed() && View() == RequeueOne(old(View()), event, clock) && armed == old(armed)
    {
      if event.repeated {
        event.ResetTime(clock);
        AddTimerEvent(event, false, clock);
      }
    }
  }
}
