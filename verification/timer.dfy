/** The timer queue: an ordered multimap of events with repeats, deletion, and a timer file descriptor. */
module TimerQueue {
  import opened Interest

  datatype Event = Event(arrive: int, interval: int, repeated: bool, cancelled: bool)

  /** One pair of the multimap. `stamp` is history that no operation reads: the order of insertion. */
  datatype Entry<T> = Entry(key: int, event: T, stamp: nat)

  datatype Timers<T> = Timers(pending: seq<Entry<T>>, events: map<T, Event>, stamps: nat)

  /** Order of the queue: by key, and first come first served among equal keys. */
  predicate Before<T>(x: Entry<T>, y: Entry<T>) {
    x.key < y.key || (x.key == y.key && x.stamp < y.stamp)
  }

  ghost predicate Ordered<T>(p: seq<Entry<T>>) {
    forall i, j :: 0 <= i < j < |p| ==> Before(p[i], p[j]) && p[i].event != p[j].event
  }

  /** Every key is its event's arrive time, every event is pending at most once, and ties are in
      insertion order. */
  ghost predicate Valid<T>(t: Timers<T>) {
    && Ordered(t.pending)
    && (forall i :: 0 <= i < |t.pending| ==>
          var x := t.pending[i];
          x.event in t.events && x.key == t.events[x.event].arrive && x.stamp < t.stamps)
  }

  ghost predicate IsPending<T>(p: seq<Entry<T>>, e: T) {
    exists i :: 0 <= i < |p| && p[i].event == e
  }

  /** multimap::upper_bound and multimap::lower_bound. */
  function UpperBound<T>(p: seq<Entry<T>>, key: int): (n: nat)
    ensures n <= |p|
  {
    if p == [] || p[0].key > key then 0 else 1 + UpperBound(p[1..], key)
  }

  function LowerBound<T>(p: seq<Entry<T>>, key: int): (n: nat)
    ensures n <= |p|
  {
    if p == [] || p[0].key >= key then 0 else 1 + LowerBound(p[1..], key)
  }

  /** multimap::emplace puts an equal key last; so does addTimerEvent. */
  function Add<T>(t: Timers<T>, e: T): Timers<T>
    requires e in t.events
  {
    var p, key := t.pending, t.events[e].arrive;
    var n := UpperBound(p, key);
    t.(pending := p[..n] + [Entry(key, e, t.stamps)] + p[n..], stamps := t.stamps + 1)
  }

  /** The first position in [i, end) that holds e, or end. */
  function Find<T(==)>(p: seq<Entry<T>>, e: T, i: nat, end: nat): (k: nat)
    requires i <= end <= |p|
    ensures i <= k <= end
    ensures forall j :: i <= j < k ==> p[j].event != e
    ensures k < end ==> p[k].event == e
    decreases end - i
  {
    if i == end || p[i].event == e then i else Find(p, e, i + 1, end)
  }

  /** delTimerEvent erases what its search ended on, unless that is the end of the whole map. */
  function Delete<T(==)>(t: Timers<T>, e: T): Timers<T>
    requires e in t.events
  {
    var p, key := t.pending, t.events[e].arrive;
    var lower, upper := LowerBound(p, key), UpperBound(p, key);
    BoundsOrdered(p, key);
    var i := Find(p, e, lower, upper);
    t.(events := t.events[e := t.events[e].(cancelled := true)],
       pending := if i == |p| then p else p[..i] + p[i + 1..])
  }

  lemma {:induction false} BoundsOrdered<T>(p: seq<Entry<T>>, key: int)
    ensures LowerBound(p, key) <= UpperBound(p, key)
  {
    if p != [] { BoundsOrdered(p[1..], key); }
  }

  /** How many events onTimer takes: it stops at the first that is not due or that is cancelled. */
  function Taken<T>(events: map<T, Event>, p: seq<Entry<T>>, now: int): (n: nat)
    requires forall i :: 0 <= i < |p| ==> p[i].event in events
    ensures n <= |p|
  {
    if p == [] || p[0].key > now || events[p[0].event].cancelled then 0 else 1 + Taken(events, p[1..], now)
  }

  function EventsOf<T>(p: seq<Entry<T>>): seq<T> {
    seq(|p|, i requires 0 <= i < |p| => p[i].event)
  }

  /** resetTime at the given clock reading. */
  function ResetTime(v: Event, clock: int): Event {
    v.(arrive := clock + v.interval, cancelled := false)
  }

  function RequeueOne<T>(t: Timers<T>, e: T, clock: int): Timers<T>
    requires e in t.events
  {
    var v := t.events[e];
    if v.repeated then Add(t.(events := t.events[e := ResetTime(v, clock)]), e) else t
  }

  /** The second loop of onTimer: each repeating event is reset and goes back in. */
  function Requeue<T>(t: Timers<T>, fired: seq<T>, clocks: seq<int>): Timers<T>
    requires |clocks| == |fired| && forall e :: e in fired ==> e in t.events
    decreases |fired|
  {
    if fired == [] then t
    else
      var t1 := RequeueOne(t, fired[0], clocks[0]);
      Requeue(t1, fired[1..], clocks[1..])
  }

  function Fired<T>(t: Timers<T>, now: int): seq<T>
    requires forall i :: 0 <= i < |t.pending| ==> t.pending[i].event in t.events
  {
    EventsOf(t.pending[..Taken(t.events, t.pending, now)])
  }

  /** onTimer at time `now`; clocks[i] is what the clock reads when the i-th fired event is reset. */
  function OnTimer<T>(t: Timers<T>, now: int, clocks: seq<int>): Timers<T>
    requires forall i :: 0 <= i < |t.pending| ==> t.pending[i].event in t.events
    requires |clocks| == |Fired(t, now)|
  {
    var n := Taken(t.events, t.pending, now);
    Requeue(t.(pending := t.pending[n..]), Fired(t, now), clocks)
  }

  /** resetArriveTime: when the timer descriptor will expire next. A zero interval disarms it. */
  function Arm<T>(p: seq<Entry<T>>, now: int, armed: Option<int>): Option<int> {
    if p == [] || p[|p| - 1].key < now then armed
    else if p[|p| - 1].key == now then None
    else Some(p[|p| - 1].key)
  }

  // --- The queue as an ordered multimap ---

  lemma {:induction false} UpperBoundSplits<T>(p: seq<Entry<T>>, key: int)
    requires Ordered(p)
    ensures forall i :: 0 <= i < |p| ==> (i < UpperBound(p, key) <==> p[i].key <= key)
  {
    if p != [] {
      UpperBoundSplits(p[1..], key);
      assert forall i :: 0 < i < |p| ==> p[i] == p[1..][i - 1] && Before(p[0], p[i]);
    }
  }

  lemma {:induction false} LowerBoundSplits<T>(p: seq<Entry<T>>, key: int)
    requires Ordered(p)
    ensures forall i :: 0 <= i < |p| ==> (i < LowerBound(p, key) <==> p[i].key < key)
  {
    if p != [] {
      LowerBoundSplits(p[1..], key);
      assert forall i :: 0 < i < |p| ==> p[i] == p[1..][i - 1] && Before(p[0], p[i]);
    }
  }

  /** Adding an event that is not pending puts it after everything due no later and before everything due
      later, and moves nothing else. */
  lemma AddKeeps<T>(t: Timers<T>, e: T)
    requires Valid(t) && e in t.events && !IsPending(t.pending, e)
    ensures Valid(Add(t, e))
    ensures
      var n, p := UpperBound(t.pending, t.events[e].arrive), Add(t, e).pending;
      && p[..n] == t.pending[..n] && p[n].event == e && p[n].key == t.events[e].arrive && p[n + 1..] == t.pending[n..]
      && (forall i :: 0 <= i < n ==> p[i].key <= p[n].key)
      && (forall i :: n < i < |p| ==> p[n].key < p[i].key)
  {
    hide UpperBound, Ordered;
    var p, key := t.pending, t.events[e].arrive;
    UpperBoundSplits(p, key);
    var n := UpperBound(p, key);
    forall i | 0 <= i < |p| ensures p[i].event != e {}
    InsertOrdered(p, n, Entry(key, e, t.stamps));
    var q := Add(t, e).pending;
    assert forall i :: 0 <= i < |q| ==> q[i] == if i < n then p[i] else if i == n then Entry(key, e, t.stamps) else p[i - 1];
  }

  lemma InsertOrdered<T>(p: seq<Entry<T>>, n: nat, x: Entry<T>)
    requires Ordered(p) && n <= |p|
    requires forall i :: 0 <= i < |p| ==> p[i].event != x.event
    requires forall i :: 0 <= i < n ==> Before(p[i], x)
    requires forall i :: n <= i < |p| ==> Before(x, p[i])
    ensures Ordered(p[..n] + [x] + p[n..])
  {
    var q := p[..n] + [x] + p[n..];
    hide Before;
    forall i, j | 0 <= i < j < |q| ensures Before(q[i], q[j]) && q[i].event != q[j].event {
      assert q[i] == if i < n then p[i] else if i == n then x else p[i - 1];
      assert q[j] == if j < n then p[j] else if j == n then x else p[j - 1];
    }
  }

  lemma EraseKeeps<T>(p: seq<Entry<T>>, k: nat)
    requires Ordered(p) && k < |p|
    ensures Ordered(p[..k] + p[k + 1..])
    ensures !IsPending(p[..k] + p[k + 1..], p[k].event)
  {
    var q := p[..k] + p[k + 1..];
    assert forall i :: 0 <= i < |q| ==> q[i] == if i < k then p[i] else p[i + 1];
  }

  /** Deleting a pending event removes that entry and no other, even among equal keys. */
  lemma DeletePending<T>(t: Timers<T>, e: T, k: nat)
    requires Valid(t) && k < |t.pending| && t.pending[k].event == e
    ensures Delete(t, e).pending == t.pending[..k] + t.pending[k + 1..]
    ensures !IsPending(Delete(t, e).pending, e)
    ensures Delete(t, e).events == t.events[e := t.events[e].(cancelled := true)]
  {
    var p, key := t.pending, t.events[e].arrive;
    UpperBoundSplits(p, key);
    LowerBoundSplits(p, key);
    BoundsOrdered(p, key);
    var i := Find(p, e, LowerBound(p, key), UpperBound(p, key));
    assert LowerBound(p, key) <= k < UpperBound(p, key);
    assert i == k;
    EraseKeeps(p, k);
  }

  /** Deleting an event that is not pending erases the first entry due after its arrive time, if there is
      one: the queue is left alone exactly when nothing pending is due later. */
  lemma DeleteAbsent<T>(t: Timers<T>, e: T)
    requires Valid(t) && e in t.events && !IsPending(t.pending, e)
    ensures
      var p, key := t.pending, t.events[e].arrive;
      var n := UpperBound(p, key);
      && Delete(t, e).pending == (if n == |p| then p else p[..n] + p[n + 1..])
      && (n < |p| ==> p[n].key > key && p[n].event != e)
      && Delete(t, e).events == t.events[e := t.events[e].(cancelled := true)]
      && (Delete(t, e).pending == p <==> forall i :: 0 <= i < |p| ==> p[i].key <= key)
  {
    var p, key := t.pending, t.events[e].arrive;
    UpperBoundSplits(p, key);
    BoundsOrdered(p, key);
    var n := UpperBound(p, key);
    var i := Find(p, e, LowerBound(p, key), n);
    assert i == n;
    if n < |p| { assert |p[..n] + p[n + 1..]| == |p| - 1; }
  }

  lemma DeleteKeeps<T>(t: Timers<T>, e: T)
    requires Valid(t) && e in t.events
    ensures Valid(Delete(t, e))
  {
    hide Valid, Find, LowerBound, UpperBound;
    var p, key := t.pending, t.events[e].arrive;
    BoundsOrdered(p, key);
    var i := Find(p, e, LowerBound(p, key), UpperBound(p, key));
    CancelIsValid(t, e);
    if i < |p| { EraseIsValid(t.(events := t.events[e := t.events[e].(cancelled := true)]), i); }
  }

  lemma CancelIsValid<T>(t: Timers<T>, e: T)
    requires Valid(t) && e in t.events
    ensures Valid(t.(events := t.events[e := t.events[e].(cancelled := true)]))
  {
    hide Ordered;
  }

  lemma EraseIsValid<T>(t: Timers<T>, i: nat)
    requires Valid(t) && i < |t.pending|
    ensures Valid(t.(pending := t.pending[..i] + t.pending[i + 1..]))
  {
    hide Ordered;
    EraseKeeps(t.pending, i);
    var p, q := t.pending, t.pending[..i] + t.pending[i + 1..];
    assert forall j :: 0 <= j < |q| ==> q[j] == if j < i then p[j] else p[j + 1];
  }

  // --- onTimer ---

  lemma {:induction false} TakenSplits<T>(events: map<T, Event>, p: seq<Entry<T>>, now: int)
    requires forall i :: 0 <= i < |p| ==> p[i].event in events
    ensures
      var n := Taken(events, p, now);
      && (forall i :: 0 <= i < n ==> p[i].key <= now && !events[p[i].event].cancelled)
      && (n < |p| ==> p[n].key > now || events[p[n].event].cancelled)
  {
    if p != [] { TakenSplits(events, p[1..], now); }
  }

  /** onTimer takes the due events in queue order, up to the first cancelled one; so it takes all of them
      exactly when no due event is cancelled. */
  lemma TakesAllDueIff<T>(t: Timers<T>, now: int)
    requires Valid(t)
    ensures
      var n, due := Taken(t.events, t.pending, now), UpperBound(t.pending, now);
      && n <= due
      && Fired(t, now) == EventsOf(t.pending[..due])[..n]
      && (Fired(t, now) == EventsOf(t.pending[..due]) <==>
            forall i :: 0 <= i < |t.pending| && t.pending[i].key <= now ==> !t.events[t.pending[i].event].cancelled)
  {
    var p := t.pending;
    TakenSplits(t.events, p, now);
    UpperBoundSplits(p, now);
    var n, due := Taken(t.events, p, now), UpperBound(p, now);
    assert due < |p| ==> p[due].key > now;
    assert EventsOf(p[..due])[..n] == EventsOf(p[..n]);
    if n < due { assert p[n].key <= now; }
    hide Ordered;
  }

  /** A cancelled event at the head stops the queue: nothing fires, however late it is. */
  lemma CancelledHeadStops<T>(t: Timers<T>, now: int)
    requires Valid(t) && t.pending != [] && t.events[t.pending[0].event].cancelled
    ensures Fired(t, now) == [] && OnTimer(t, now, []) == t
  {
    assert t.pending[0..] == t.pending;
  }

  /** What the second loop of onTimer makes of t. */
  ghost predicate Requeued<T>(t: Timers<T>, r: Timers<T>, fired: seq<T>, clocks: seq<int>)
    requires |clocks| == |fired|
  {
    && r.events.Keys == t.events.Keys
    && (forall x :: x in t.pending ==> x in r.pending)
    && (forall x :: x in r.pending ==> x in t.pending || x.event in fired)
    && (forall i :: 0 <= i < |fired| ==>
          && fired[i] in t.events
          && (IsPending(r.pending, fired[i]) <==> t.events[fired[i]].repeated)
          && r.events[fired[i]] ==
             if t.events[fired[i]].repeated then ResetTime(t.events[fired[i]], clocks[i]) else t.events[fired[i]])
    && (forall e :: e in t.events && e !in fired ==> r.events[e] == t.events[e])
  }

  lemma RequeueOneKeeps<T>(t: Timers<T>, e: T, clock: int)
    requires Valid(t) && e in t.events && !IsPending(t.pending, e)
    ensures Valid(RequeueOne(t, e, clock))
    ensures Requeued(t, RequeueOne(t, e, clock), [e], [clock])
  {
    var v := t.events[e];
    if v.repeated {
      var t0 := t.(events := t.events[e := ResetTime(v, clock)]);
      assert Valid(t0) by {
        forall i | 0 <= i < |t.pending| ensures t.pending[i].event != e {}
        hide Ordered;
      }
      AddKeeps(t0, e);
      var n, p := UpperBound(t0.pending, t0.events[e].arrive), Add(t0, e).pending;
      assert t.pending == p[..n] + p[n + 1..];
      assert p == p[..n] + [p[n]] + p[n + 1..];
      hide Valid;
    }
  }

  lemma RequeuedChains<T>(t: Timers<T>, t1: Timers<T>, r: Timers<T>, fired: seq<T>, clocks: seq<int>)
    requires |clocks| == |fired| && fired != [] && Distinct(fired)
    requires forall i :: 0 <= i < |fired| ==> fired[i] in t.events && !IsPending(t.pending, fired[i])
    requires Requeued(t, t1, [fired[0]], [clocks[0]]) && Requeued(t1, r, fired[1..], clocks[1..])
    ensures Requeued(t, r, fired, clocks)
  {
    assert [fired[0]][0] == fired[0] && [clocks[0]][0] == clocks[0];
    assert forall i :: 0 < i < |fired| ==> fired[i] == fired[1..][i - 1] && clocks[i] == clocks[1..][i - 1];
    assert forall e :: e in fired <==> e == fired[0] || e in fired[1..];
    assert fired[0] !in fired[1..];
  }

  /** The second loop keeps the queue valid, keeps what was pending, and puts each repeating event back
      once, due one interval after its own clock reading. */
  lemma {:induction false} RequeueKeeps<T>(t: Timers<T>, fired: seq<T>, clocks: seq<int>)
    requires Valid(t) && |clocks| == |fired| && Distinct(fired)
    requires forall i :: 0 <= i < |fired| ==> fired[i] in t.events && !IsPending(t.pending, fired[i])
    ensures Valid(Requeue(t, fired, clocks)) && Requeued(t, Requeue(t, fired, clocks), fired, clocks)
    decreases |fired|
  {
    if fired != [] {
      var t1 := RequeueOne(t, fired[0], clocks[0]);
      RequeueOneKeeps(t, fired[0], clocks[0]);
      forall i | 0 <= i < |fired[1..]| ensures fired[1..][i] in t1.events && !IsPending(t1.pending, fired[1..][i]) {
        assert fired[1..][i] == fired[i + 1];
      }
      RequeueKeeps(t1, fired[1..], clocks[1..]);
      assert Requeue(t, fired, clocks) == Requeue(t1, fired[1..], clocks[1..]);
      hide Requeued, Valid, RequeueOne, Requeue, IsPending;
      RequeuedChains(t, t1, Requeue(t1, fired[1..], clocks[1..]), fired, clocks);
    }
  }

  /** onTimer as a whole: it fires distinct events, keeps every other entry, and has each fired event
      pending again exactly when it repeats. */
  lemma OnTimerKeeps<T>(t: Timers<T>, now: int, clocks: seq<int>)
    requires Valid(t) && |clocks| == |Fired(t, now)|
    ensures Valid(OnTimer(t, now, clocks)) && Distinct(Fired(t, now))
    ensures Requeued(t.(pending := t.pending[|clocks|..]), OnTimer(t, now, clocks), Fired(t, now), clocks)
    ensures
      forall i :: 0 <= i < |clocks| ==>
        var e := Fired(t, now)[i];
        var v := t.events[e];
        OnTimer(t, now, clocks).events[e] ==
        if v.repeated then Event(clocks[i] + v.interval, v.interval, true, false) else v
  {
    var n, fired := Taken(t.events, t.pending, now), Fired(t, now);
    var rest := t.(pending := t.pending[n..]);
    assert forall i :: 0 <= i < n ==> fired[i] == t.pending[i].event;
    forall i, j | 0 <= i < n && 0 <= j < |rest.pending| ensures rest.pending[j].event != fired[i] {
      assert rest.pending[j] == t.pending[n + j];
    }
    assert Valid(rest);
    RequeueKeeps(rest, fired, clocks);
  }

  /** The descriptor is set for the last pending event. While all are still to come, it is set for the
      first exactly when all of them are due at the same moment. */
  lemma ArmedForFirstIff<T>(t: Timers<T>, now: int, armed: Option<int>)
    requires Valid(t) && t.pending != [] && now < t.pending[0].key
    ensures Arm(t.pending, now, armed) == Some(t.pending[|t.pending| - 1].key)
    ensures
      Arm(t.pending, now, armed) == Some(t.pending[0].key) <==>
      forall i :: 0 <= i < |t.pending| ==> t.pending[i].key == t.pending[0].key
  {
    var p := t.pending;
    var last := |p| - 1;
    if last > 0 { assert Before(p[0], p[last]); }
    forall i | 0 < i < last ensures Before(p[0], p[i]) && Before(p[i], p[last]) {}
  }

  // --- Whole runs ---

  datatype Op<T> =
    | Make(event: T, value: Event)          // a TimerEvent is constructed
    | AddEvent(event: T)
    | DeleteEvent(event: T)
    | Fire(now: int, clocks: seq<int>)      // the callbacks it returns run as later operations
    | Cancel(event: T)
    | Wake(event: T)
    | StopRepeating(event: T)
    | ResetIdle(event: T, clock: int)       // resetTime by the owner of an event that is not pending

  /** What the callers keep to: an event is made once, and added or reset only while it is not pending. */
  ghost predicate Allowed<T>(t: Timers<T>, op: Op<T>)
    requires Valid(t)
  {
    match op
    case Make(e, _) => e !in t.events
    case AddEvent(e) => e in t.events && !IsPending(t.pending, e)
    case Fire(now, clocks) => |clocks| == |Fired(t, now)|
    case ResetIdle(e, _) => e in t.events && !IsPending(t.pending, e)
    case DeleteEvent(e) => e in t.events
    case Cancel(e) => e in t.events
    case Wake(e) => e in t.events
    case StopRepeating(e) => e in t.events
  }

  ghost function Do<T>(t: Timers<T>, op: Op<T>): Timers<T>
    requires Valid(t) && Allowed(t, op)
  {
    match op
    case Make(e, v) => t.(events := t.events[e := v])
    case AddEvent(e) => Add(t, e)
    case DeleteEvent(e) => Delete(t, e)
    case Fire(now, clocks) => OnTimer(t, now, clocks)
    case Cancel(e) => t.(events := t.events[e := t.events[e].(cancelled := true)])
    case Wake(e) => t.(events := t.events[e := t.events[e].(cancelled := false)])
    case StopRepeating(e) => t.(events := t.events[e := t.events[e].(repeated := false)])
    case ResetIdle(e, clock) => t.(events := t.events[e := ResetTime(t.events[e], clock)])
  }

  lemma DoKeeps<T>(t: Timers<T>, op: Op<T>)
    requires Valid(t) && Allowed(t, op)
    ensures Valid(Do(t, op))
  {
    match op
    case AddEvent(e) => AddKeeps(t, e);
    case DeleteEvent(e) => DeleteKeeps(t, e);
    case Fire(now, clocks) => OnTimerKeeps(t, now, clocks);
    case ResetIdle(e, clock) =>
      forall i | 0 <= i < |t.pending| ensures t.pending[i].event != e {}
    case _ =>
  }

  ghost predicate Run<T>(states: seq<Timers<T>>, ops: seq<Op<T>>) {
    && |states| == |ops| + 1 && states[0] == Timers([], map[], 0)
    && (forall i :: 0 <= i < |ops| ==>
          Valid(states[i]) ==> Allowed(states[i], ops[i]) && states[i + 1] == Do(states[i], ops[i]))
  }

  /** Over every run the keys agree with the arrive times, no event is pending twice, and ties stand in
      insertion order. */
  lemma {:induction false} EveryRunIsValid<T>(states: seq<Timers<T>>, ops: seq<Op<T>>, i: nat)
    requires Run(states, ops) && i < |states|
    ensures Valid(states[i])
  {
    if i > 0 {
      EveryRunIsValid(states, ops, i - 1);
      DoKeeps(states[i - 1], ops[i - 1]);
    }
  }

  // --- A run in which the queue does not do what was meant ---

  ghost predicate Goes<T>(t: Timers<T>, op: Op<T>, t': Timers<T>) {
    Valid(t) && Allowed(t, op) && Do(t, op) == t'
  }

  lemma Extend<T>(states: seq<Timers<T>>, ops: seq<Op<T>>, op: Op<T>, next: Timers<T>)
    returns (states': seq<Timers<T>>, ops': seq<Op<T>>)
    requires Run(states, ops) && Goes(states[|ops|], op, next)
    ensures Run(states', ops') && states' == states + [next] && ops' == ops + [op]
    ensures |states'| == |ops'| + 1 && states'[|ops'|] == next
  {
    hide Do, Allowed, Valid;
    states', ops' := states + [next], ops + [op];
    forall i | 0 <= i < |ops'| && Valid(states'[i]) ensures Allowed(states'[i], ops'[i]) && states'[i + 1] == Do(states'[i], ops'[i]) {
      assert states'[i] == states[i];
      if i < |ops| {
        assert ops'[i] == ops[i] && states'[i + 1] == states[i + 1];
      } else {
        assert ops'[i] == op && states'[i + 1] == next;
      }
    }
  }

  function First(): Entry<nat> { Entry(10, 0, 0) }

  function Second(): Entry<nat> { Entry(20, 1, 1) }

  function TwoEvents(): map<nat, Event> {
    map[0 := Event(10, 10, false, false)][1 := Event(20, 20, false, false)]
  }

  lemma SmallBounds()
    ensures UpperBound<nat>([], 10) == 0 && UpperBound([First()], 20) == 1
    ensures LowerBound([Second()], 10) == 0 && UpperBound([Second()], 10) == 0
    ensures Taken(TwoEvents(), [First(), Second()], 15) == 1
  {
    assert [First()][1..] == [] && [First(), Second()][1..] == [Second()];
    assert UpperBound<nat>([], 20) == 0;
    assert Taken(TwoEvents(), [Second()], 15) == 0;
  }

  /** Two events are made and added; the one due first is pending first. */
  lemma TwoPending() returns (states: seq<Timers<nat>>, ops: seq<Op<nat>>)
    ensures Run(states, ops) && |ops| == 4 && states[4] == BothPending()
  {
    hide *;
    var s0, s1, s2 := NoTimers();
    states, ops := Extend([s0], [], Make(0, Event(10, 10, false, false)), s1);
    states, ops := Extend(states, ops, Make(1, Event(20, 20, false, false)), s2);
    var s3 := AddsBoth(s2);
    states, ops := Extend(states, ops, AddEvent(0), s3);
    states, ops := Extend(states, ops, AddEvent(1), BothPending());
  }

  function BothPending(): Timers<nat> {
    Timers([First(), Second()], TwoEvents(), 2)
  }

  lemma NoTimers() returns (s0: Timers<nat>, s1: Timers<nat>, s2: Timers<nat>)
    ensures Run([s0], []) && s2 == Timers([], TwoEvents(), 0)
    ensures Goes(s0, Make(0, Event(10, 10, false, false)), s1) && Goes(s1, Make(1, Event(20, 20, false, false)), s2)
  {
    s0, s2 := Timers([], map[], 0), Timers([], TwoEvents(), 0);
    s1 := Do(s0, Make(0, Event(10, 10, false, false)));
    assert map[][0 := Event(10, 10, false, false)] == map[0 := Event(10, 10, false, false)];
  }

  lemma AddsBoth(s2: Timers<nat>) returns (s3: Timers<nat>)
    requires s2 == Timers([], TwoEvents(), 0)
    ensures s3 == Timers([First()], TwoEvents(), 1)
    ensures Goes(s2, AddEvent(0), s3) && Goes(s3, AddEvent(1), BothPending())
  {
    SmallBounds();
    hide UpperBound;
    s3 := Timers([First()], TwoEvents(), 1);
    assert [First()][..1] == [First()] && [First()][1..] == [];
  }

  /** At time 15 the first fires; deleting it then erases the second, which was never deleted. */
  lemma DeleteAfterFiring() returns (states: seq<Timers<nat>>, ops: seq<Op<nat>>)
    ensures Run(states, ops) && |ops| == 6 && ops[4] == Fire(15, [15]) && ops[5] == DeleteEvent(0)
    ensures Valid(states[4]) && Fired(states[4], 15) == [0]
    ensures states[5].pending == [Second()] && states[6].pending == []
  {
    hide *;
    states, ops := TwoPending();
    FiresFirst();
    ErasesSecond();
    states, ops := Extend(states, ops, Fire(15, [15]), SecondPending());
    states, ops := Extend(states, ops, DeleteEvent(0), NonePending());
  }

  function SecondPending(): Timers<nat> {
    Timers([Second()], TwoEvents(), 2)
  }

  function NonePending(): Timers<nat> {
    Timers([], TwoEvents()[0 := Event(10, 10, false, true)], 2)
  }

  lemma FiresFirst()
    ensures Goes(BothPending(), Fire(15, [15]), SecondPending())
    ensures Valid(BothPending()) && Fired(BothPending(), 15) == [0] && SecondPending().pending == [Second()]
  {
    var s := BothPending();
    SmallBounds();
    hide UpperBound, LowerBound, Taken;
    assert s.pending[..1] == [First()] && s.pending[1..] == [Second()];
    assert Fired(s, 15) == [0];
    assert Requeue(SecondPending(), [0], [15]) == SecondPending() by { assert [0][1..] == [] && [15][1..] == []; }
  }

  lemma ErasesSecond()
    ensures Goes(SecondPending(), DeleteEvent(0), NonePending()) && NonePending().pending == []
  {
    var s := SecondPending();
    SmallBounds();
    hide UpperBound, LowerBound, Taken;
    assert Find(s.pending, 0, 0, 0) == 0;
    assert s.pending[..0] + s.pending[1..] == [];
  }

  // --- onTimer in the steps its lock allows ---

  /** onTimer gives the lock back between erasing and each re-adding. `owed` are the events it has taken and
      not yet come to in its second loop. */
  datatype Firing<T> = Firing(timers: Timers<T>, owed: seq<T>)

  datatype FineOp<T> =
    | Other(op: Op<T>)      // any other operation, on any thread
    | Take(now: int)        // the first loop, and the erasing
    | ReAdd(clock: int)     // one turn of the second loop

  ghost predicate FineValid<T>(s: Firing<T>) {
    && Valid(s.timers) && Distinct(s.owed)
    && forall i :: 0 <= i < |s.owed| ==> s.owed[i] in s.timers.events && !IsPending(s.timers.pending, s.owed[i])
  }

  /** Callers do not add or reset an event that is being fired. */
  ghost predicate FineAllowed<T>(s: Firing<T>, op: FineOp<T>)
    requires FineValid(s)
  {
    match op
    case Other(o) =>
      !o.Fire? && Allowed(s.timers, o) && (o.AddEvent? || o.ResetIdle? ==> o.event !in s.owed)
    case Take(_) => s.owed == []
    case ReAdd(_) => s.owed != []
  }

  ghost function FineDo<T>(s: Firing<T>, op: FineOp<T>): Firing<T>
    requires FineValid(s) && FineAllowed(s, op)
  {
    match op
    case Other(o) => s.(timers := Do(s.timers, o))
    case Take(now) =>
      var n := Taken(s.timers.events, s.timers.pending, now);
      Firing(s.timers.(pending := s.timers.pending[n..]), Fired(s.timers, now))
    case ReAdd(clock) => Firing(RequeueOne(s.timers, s.owed[0], clock), s.owed[1..])
  }

  lemma TakeKeeps<T>(t: Timers<T>, now: int)
    requires Valid(t)
    ensures
      var n := Taken(t.events, t.pending, now);
      FineValid(Firing(t.(pending := t.pending[n..]), Fired(t, now)))
  {
    var n, fired := Taken(t.events, t.pending, now), Fired(t, now);
    var rest := t.pending[n..];
    assert forall i :: 0 <= i < n ==> fired[i] == t.pending[i].event;
    forall i, j | 0 <= i < n && 0 <= j < |rest| ensures rest[j].event != fired[i] {
      assert rest[j] == t.pending[n + j];
    }
  }

  lemma ReAddKeeps<T>(s: Firing<T>, clock: int)
    requires FineValid(s) && s.owed != []
    ensures FineValid(Firing(RequeueOne(s.timers, s.owed[0], clock), s.owed[1..]))
  {
    var e, t := s.owed[0], s.timers;
    RequeueOneKeeps(t, e, clock);
    var r := RequeueOne(t, e, clock);
    hide Valid, RequeueOne;
    forall i | 0 <= i < |s.owed[1..]| ensures s.owed[1..][i] in r.events && !IsPending(r.pending, s.owed[1..][i]) {
      assert s.owed[1..][i] == s.owed[i + 1];
      NotPendingAfter(t, r, e, clock, s.owed[i + 1]);
    }
  }

  lemma NotPendingAfter<T>(t: Timers<T>, r: Timers<T>, e: T, clock: int, x: T)
    requires Requeued(t, r, [e], [clock]) && x != e && x in t.events && !IsPending(t.pending, x)
    ensures x in r.events && !IsPending(r.pending, x)
  {
    forall i | 0 <= i < |r.pending| ensures r.pending[i].event != x {
      assert r.pending[i] in r.pending;
    }
  }

  lemma OtherKeeps<T>(s: Firing<T>, o: Op<T>)
    requires FineValid(s) && FineAllowed(s, Other(o))
    ensures FineValid(s.(timers := Do(s.timers, o)))
  {
    DoKeeps(s.timers, o);
    var t, r := s.timers, Do(s.timers, o);
    forall i | 0 <= i < |s.owed| ensures s.owed[i] in r.events && !IsPending(r.pending, s.owed[i]) {
      OtherNotPending(t, o, s.owed[i]);
    }
    hide Valid, Do;
  }

  lemma OtherNotPending<T>(t: Timers<T>, o: Op<T>, x: T)
    requires Valid(t) && Allowed(t, o) && !o.Fire? && x in t.events && !IsPending(t.pending, x)
    requires o.AddEvent? ==> o.event != x
    ensures x in Do(t, o).events && !IsPending(Do(t, o).pending, x)
  {
    var p, q := t.pending, Do(t, o).pending;
    forall i | 0 <= i < |q| ensures q[i].event != x {
      if o.AddEvent? {
        var n := UpperBound(p, t.events[o.event].arrive);
        assert q[i] == if i < n then p[i] else if i == n then q[n] else p[i - 1];
      } else if o.DeleteEvent? {
        DeletedStays(t, o.event, i);
      }
    }
  }

  lemma DeletedStays<T>(t: Timers<T>, e: T, i: nat)
    requires e in t.events && i < |Delete(t, e).pending|
    ensures Delete(t, e).pending[i] == t.pending[i] || (i + 1 < |t.pending| && Delete(t, e).pending[i] == t.pending[i + 1])
  {
    hide Find, LowerBound, UpperBound;
  }

  ghost predicate FineRun<T>(states: seq<Firing<T>>, ops: seq<FineOp<T>>) {
    && |states| == |ops| + 1 && states[0] == Firing(Timers([], map[], 0), [])
    && (forall i :: 0 <= i < |ops| ==>
          FineValid(states[i]) ==> FineAllowed(states[i], ops[i]) && states[i + 1] == FineDo(states[i], ops[i]))
  }

  /** However other threads add, delete, cancel and wake between the steps of onTimer, keys agree with arrive
      times, no event is pending twice, ties stand in insertion order, and what is still owed is not pending. */
  lemma {:induction false} EveryFineRunIsValid<T>(states: seq<Firing<T>>, ops: seq<FineOp<T>>, i: nat)
    requires FineRun(states, ops) && i < |states|
    ensures FineValid(states[i])
  {
    if i > 0 {
      EveryFineRunIsValid(states, ops, i - 1);
      var s, op := states[i - 1], ops[i - 1];
      assert FineValid(states[i - 1]);
      assert FineAllowed(states[i - 1], ops[i - 1]);
      if op.Other? {
        assert op == FineOp.Other(op.op);
        OtherKeeps(s, op.op);
      } else if op.Take? {
        TakeKeeps(s.timers, op.now);
      } else {
        ReAddKeeps(s, op.clock);
      }
    }
  }

  /** Deleting a repeating event while it is being fired has no effect on it: it is pending again, and no
      longer cancelled, when its turn in the second loop has come. */
  lemma DeleteWhileFiringIsUndone<T>(s: Firing<T>, clock: int)
    requires FineValid(s) && s.owed != [] && s.timers.events[s.owed[0]].repeated
    ensures
      var e := s.owed[0];
      var r := RequeueOne(Delete(s.timers, e), e, clock);
      IsPending(r.pending, e) && !r.events[e].cancelled && r.events[e].arrive == clock + s.timers.events[e].interval
  {
    var e := s.owed[0];
    OtherKeeps(s, DeleteEvent(e));
    var d := Delete(s.timers, e);
    assert d.events[e] == s.timers.events[e].(cancelled := true);
    assert Valid(d) && !IsPending(d.pending, e);
    hide Delete, Valid, RequeueOne, IsPending;
    RequeueOneKeeps(d, e, clock);
    OneRequeued(d, RequeueOne(d, e, clock), e, clock);
  }

  lemma OneRequeued<T>(t: Timers<T>, r: Timers<T>, e: T, clock: int)
    requires Requeued(t, r, [e], [clock]) && e in t.events && t.events[e].repeated
    ensures IsPending(r.pending, e) && e in r.events && r.events[e] == ResetTime(t.events[e], clock)
  {
    assert [e][0] == e && [clock][0] == clock;
    hide IsPending;
  }
}
