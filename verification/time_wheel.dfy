/** The idle-connection time wheel: a ring of buckets of shared slot references, refreshed by deferred
    tasks, that shuts a connection down when the last reference to its slot goes. */
module TimeWheel {
  import opened Interest

  type Slot = nat

  datatype ConnState = NotConnected | Connected | HalfClosing | Closed

  /** What the threads share. `now` and `last` are history that no step reads: the ticks so far, and for
      each slot the tick count at its last refresh. */
  datatype World = World(
    buckets: seq<seq<Slot>>,                 // m_wheel, front first
    refs: map<Slot, nat>,                    // use_count of each slot made so far
    tasks: seq<Slot>,                        // refresh tasks pending with the main reactor
    temps: multiset<Slot>,                   // shared_ptrs held by threads for a moment
    conns: map<Slot, Option<ConnState>>,     // the connection behind the slot's weak_ptr, while it lives
    expired: seq<Slot>,                      // destructor runs, in order
    shutdowns: seq<Slot>,                    // shutdown(2) calls, in order
    now: nat,
    last: map<Slot, nat>)

  function Initial(bucketCount: nat): World {
    World(seq(bucketCount, _ => []), map[], [], multiset{}, map[], [], [], 0, map[])
  }

  /** ~AbstractSlot: the callback runs when the connection is still there, and shutdownConnection does
      nothing to one that is closed or was never connected. */
  function Destroy(w: World, s: Slot): World {
    var w' := w.(expired := w.expired + [s]);
    if s in w.conns && w.conns[s].Some? && (w.conns[s].value.Connected? || w.conns[s].value.HalfClosing?)
    then w'.(conns := w.conns[s := Some(HalfClosing)], shutdowns := w.shutdowns + [s])
    else w'
  }

  /** One shared_ptr to s goes. */
  function Release(w: World, s: Slot): World
    requires s in w.refs && w.refs[s] > 0
  {
    var w' := w.(refs := w.refs[s := w.refs[s] - 1]);
    if w.refs[s] == 1 then Destroy(w', s) else w'
  }

  /** The references in `slots` go, first to last. */
  function ReleaseAll(w: World, slots: seq<Slot>): World
    requires Covers(w.refs, multiset(slots))
    decreases |slots|
  {
    if slots == [] then w
    else
      CoversRest(w.refs, slots);
      ReleaseAll(Release(w, slots[0]), slots[1..])
  }

  /** Every slot has at least the given references. */
  ghost predicate Covers(refs: map<Slot, nat>, held: multiset<Slot>) {
    forall s :: s in held ==> s in refs && held[s] <= refs[s]
  }

  lemma CoversRest(refs: map<Slot, nat>, slots: seq<Slot>)
    requires slots != [] && Covers(refs, multiset(slots))
    ensures slots[0] in refs && refs[slots[0]] > 0
    ensures Covers(refs[slots[0] := refs[slots[0]] - 1], multiset(slots[1..]))
  {
    assert slots == [slots[0]] + slots[1..];
    assert multiset(slots) == multiset{slots[0]} + multiset(slots[1..]);
    assert slots[0] in multiset(slots);
  }

  datatype Action =
    | Register(slot: Slot)       // make_shared in registerToTimeWheel
    | Lock(slot: Slot)           // m_weak_slot.lock() in input
    | Refresh(slot: Slot)        // freshTcpConnection with a shared_ptr in hand
    | Drop(slot: Slot)           // that shared_ptr goes out of scope
    | RunTask                    // the main reactor runs the next refresh task
    | Tick                       // loopFunc
    | SetState(slot: Slot, state: ConnState)
    | FreeConnection(slot: Slot)

  ghost predicate Enabled(w: World, a: Action) {
    match a
    case Register(s) => s !in w.refs
    case Lock(s) => s in w.refs
    case Refresh(s) => s in w.temps && s in w.refs
    case Drop(s) => s in w.temps && s in w.refs && w.refs[s] > 0
    case RunTask => w.tasks != [] && w.tasks[0] in w.refs && w.refs[w.tasks[0]] > 0 && w.buckets != []
    case Tick => w.buckets != [] && Covers(w.refs, multiset(w.buckets[0]))
    case SetState(s, _) => s in w.conns && w.conns[s].Some?
    case FreeConnection(s) => s in w.conns && w.conns[s].Some?
  }

  /** TcpTimeWheel::fresh: a copy of the pointer goes to the back bucket. */
  function Fresh(w: World, s: Slot): World
    requires s in w.refs && w.buckets != []
  {
    var n := |w.buckets| - 1;
    w.(buckets := w.buckets[n := w.buckets[n] + [s]], refs := w.refs[s := w.refs[s] + 1], last := w.last[s := w.now])
  }

  /** The ring moved on by one; what was in its front bucket is taken aside. */
  function Turned(w: World): World
    requires w.buckets != []
  {
    w.(buckets := w.buckets[1..] + [[]], now := w.now + 1)
  }

  function Do(w: World, a: Action): World
    requires Enabled(w, a)
  {
    match a
    case Register(s) =>
      w.(refs := w.refs[s := 1], temps := w.temps + multiset{s}, conns := w.conns[s := Some(Connected)])
    case Lock(s) =>
      // an expired weak_ptr locks to null
      if w.refs[s] == 0 then w
      else w.(refs := w.refs[s := w.refs[s] + 1], temps := w.temps + multiset{s})
    case Refresh(s) => w.(refs := w.refs[s := w.refs[s] + 1], tasks := w.tasks + [s])
    case Drop(s) => Release(w.(temps := w.temps - multiset{s}), s)
    case RunTask => Release(Fresh(w.(tasks := w.tasks[1..]), w.tasks[0]), w.tasks[0])
    case Tick => ReleaseAll(Turned(w), w.buckets[0])
    case SetState(s, state) => w.(conns := w.conns[s := Some(state)])
    case FreeConnection(s) => w.(conns := w.conns[s := None])
  }

  // --- The invariant ---

  function Flat(buckets: seq<seq<Slot>>): seq<Slot> {
    if buckets == [] then [] else buckets[0] + Flat(buckets[1..])
  }

  /** How many shared_ptrs to s there are. */
  ghost function Handles(w: World, s: Slot): nat {
    multiset(Flat(w.buckets))[s] + multiset(w.tasks)[s] + w.temps[s]
  }

  function UseCount(w: World, s: Slot): nat {
    if s in w.refs then w.refs[s] else 0
  }

  /** use_count counts the handles; `extra` are handles about to be released. */
  ghost predicate Counted(w: World, extra: multiset<Slot>) {
    forall s: Slot :: UseCount(w, s) == Handles(w, s) + extra[s]
  }

  /** A slot whose last reference is gone was destroyed once, and its connection was shut down at most
      once, then. */
  ghost predicate OnceEach(w: World) {
    && Distinct(w.expired) && Distinct(w.shutdowns)
    && (forall s :: s in w.expired <==> s in w.refs && w.refs[s] == 0)
    && (forall s :: s in w.shutdowns ==> s in w.expired)
  }

  /** Bucket i holds what was refreshed n-1-i ticks ago, and nothing refreshed later is missing. */
  ghost predicate Aged(w: World, n: nat) {
    && |w.buckets| == n
    && (forall s :: s in w.last ==> s in w.refs && w.last[s] <= w.now)
    && (forall i, s :: 0 <= i < n && s in w.buckets[i] ==> s in w.last && w.last[s] + (n - 1 - i) >= w.now)
    && (forall s :: s in w.last && w.now < w.last[s] + n ==> s in w.buckets[n - 1 - (w.now - w.last[s])])
  }

  ghost predicate Inv(w: World, n: nat) {
    Counted(w, multiset{}) && OnceEach(w) && Aged(w, n)
  }

  lemma {:induction false} FlatAppend(a: seq<seq<Slot>>, b: seq<seq<Slot>>)
    ensures Flat(a + b) == Flat(a) + Flat(b)
  {
    if a == [] {
      assert [] + b == b;
    } else {
      assert (a + b)[1..] == a[1..] + b;
      FlatAppend(a[1..], b);
    }
  }

  lemma {:induction false} InFlat(buckets: seq<seq<Slot>>, s: Slot)
    ensures s in Flat(buckets) <==> exists i :: 0 <= i < |buckets| && s in buckets[i]
  {
    if buckets != [] {
      InFlat(buckets[1..], s);
      if s in Flat(buckets[1..]) {
        var i :| 0 <= i < |buckets[1..]| && s in buckets[1..][i];
        assert s in buckets[i + 1];
      }
      if i :| 0 <= i < |buckets| && s in buckets[i] {
        if i > 0 { assert s in buckets[1..][i - 1]; }
      }
    }
  }

  lemma ReleaseShape(w: World, s: Slot)
    requires s in w.refs && w.refs[s] > 0
    ensures
      var w' := Release(w, s);
      && w'.refs == w.refs[s := w.refs[s] - 1]
      && w'.buckets == w.buckets && w'.tasks == w.tasks && w'.temps == w.temps
      && w'.last == w.last && w'.now == w.now
  {
  }

  lemma ReleaseCounted(w: World, s: Slot, extra: multiset<Slot>)
    requires s in extra && Counted(w, extra)
    ensures s in w.refs && w.refs[s] > 0
    ensures Counted(Release(w, s), extra - multiset{s})
  {
    assert UseCount(w, s) == Handles(w, s) + extra[s];
    ReleaseShape(w, s);
    hide Release;
    var w' := Release(w, s);
    forall t: Slot ensures UseCount(w', t) == Handles(w', t) + (extra - multiset{s})[t] {
      assert UseCount(w, t) == Handles(w, t) + extra[t];
      assert Handles(w', t) == Handles(w, t);
      hide Handles;
    }
  }

  lemma ReleaseOnce(w: World, s: Slot)
    requires s in w.refs && w.refs[s] > 0 && OnceEach(w)
    ensures OnceEach(Release(w, s))
  {
    var w' := Release(w, s);
    assert s !in w.expired && s !in w.shutdowns;
    if w.refs[s] == 1 {
      assert w'.expired == w.expired + [s];
      assert w'.shutdowns == w.shutdowns || w'.shutdowns == w.shutdowns + [s];
      assert forall t :: t in w'.expired <==> t in w.expired || t == s;
      assert forall t :: t in w'.shutdowns ==> t in w.shutdowns || t == s;
    } else {
      assert w'.expired == w.expired && w'.shutdowns == w.shutdowns;
    }
  }

  /** Releasing one handle that was set aside. */
  lemma ReleaseKeeps(w: World, s: Slot, extra: multiset<Slot>, n: nat)
    requires s in extra && Counted(w, extra) && OnceEach(w) && Aged(w, n)
    ensures s in w.refs && w.refs[s] > 0
    ensures
      var w' := Release(w, s);
      && Counted(w', extra - multiset{s}) && OnceEach(w') && Aged(w', n)
      && w'.buckets == w.buckets && w'.tasks == w.tasks && w'.temps == w.temps
      && w'.last == w.last && w'.now == w.now && w'.refs.Keys == w.refs.Keys
  {
    hide Counted, OnceEach;
    ReleaseCounted(w, s, extra);
    ReleaseOnce(w, s);
  }

  lemma {:induction false} ReleaseAllKeeps(w: World, slots: seq<Slot>, n: nat)
    requires Counted(w, multiset(slots)) && OnceEach(w) && Aged(w, n)
    ensures Covers(w.refs, multiset(slots))
    ensures
      var w' := ReleaseAll(w, slots);
      && Inv(w', n)
      && w'.buckets == w.buckets && w'.tasks == w.tasks && w'.temps == w.temps
      && w'.last == w.last && w'.now == w.now && w'.refs.Keys == w.refs.Keys
    decreases |slots|
  {
    forall s | s in multiset(slots) ensures s in w.refs && multiset(slots)[s] <= w.refs[s] {
      assert UseCount(w, s) == Handles(w, s) + multiset(slots)[s];
    }
    if slots != [] {
      assert slots == [slots[0]] + slots[1..];
      assert multiset(slots) - multiset{slots[0]} == multiset(slots[1..]);
      assert slots[0] in multiset(slots);
      ReleaseKeeps(w, slots[0], multiset(slots), n);
      ReleaseAllKeeps(Release(w, slots[0]), slots[1..], n);
    }
  }

  // --- Every step keeps it ---

  lemma OnceFrame(w: World, w': World)
    requires OnceEach(w) && w'.expired == w.expired && w'.shutdowns == w.shutdowns
    requires forall s: Slot :: s in w.refs && w.refs[s] == 0 <==> s in w'.refs && w'.refs[s] == 0
    ensures OnceEach(w')
  {
    hide Distinct;
  }

  lemma AgedFrame(w: World, w': World, n: nat)
    requires Aged(w, n) && w'.buckets == w.buckets && w'.last == w.last && w'.now == w.now
    requires forall s: Slot :: s in w.refs ==> s in w'.refs
    ensures Aged(w', n)
  {
  }

  lemma FlatUpdate(buckets: seq<seq<Slot>>, i: nat, s: Slot)
    requires i < |buckets|
    ensures multiset(Flat(buckets[i := buckets[i] + [s]])) == multiset(Flat(buckets)) + multiset{s}
  {
    var a, b, z := buckets[..i], buckets[i], buckets[i + 1..];
    assert buckets == a + ([b] + z);
    assert buckets[i := b + [s]] == a + ([b + [s]] + z);
    FlatAppend(a, [b] + z);
    FlatAppend(a, [b + [s]] + z);
    assert ([b] + z)[1..] == z && ([b + [s]] + z)[1..] == z;
  }

  lemma FreshCounted(w: World, s: Slot)
    requires w.buckets != [] && s in w.refs && Counted(w, multiset{s})
    ensures Counted(Fresh(w, s), multiset{s})
  {
    var w' := Fresh(w, s);
    FlatUpdate(w.buckets, |w.buckets| - 1, s);
    hide Flat;
    forall t: Slot ensures UseCount(w', t) == Handles(w', t) + multiset{s}[t] {
      assert UseCount(w, t) == Handles(w, t) + multiset{s}[t];
    }
  }

  lemma FreshAged(w: World, s: Slot, n: nat)
    requires n > 0 && s in w.refs && Aged(w, n)
    ensures Aged(Fresh(w, s), n)
  {
    var w' := Fresh(w, s);
    var b, b' := w.buckets[n - 1], w'.buckets[n - 1];
    assert b' == b + [s] && b'[|b|] == s;
    assert forall t :: t in b' <==> t in b || t == s;
    forall i: nat, t | i < n && t in w'.buckets[i] ensures t in w'.last && w'.last[t] + (n - 1 - i) >= w'.now {
      if i < n - 1 { assert w'.buckets[i] == w.buckets[i]; }
    }
    forall t | t in w'.last && w'.now < w'.last[t] + n ensures t in w'.buckets[n - 1 - (w'.now - w'.last[t])] {
      if t != s {
        var i := n - 1 - (w.now - w.last[t]);
        assert t in w.buckets[i];
        if i < n - 1 { assert w'.buckets[i] == w.buckets[i]; }
      }
    }
  }

  lemma AgedSize(w: World, n: nat)
    requires Aged(w, n)
    ensures |w.buckets| == n
  {
  }

  /** What Fresh does while the reference held by the queued refresh is still to be released. */
  lemma FreshKeeps(w: World, s: Slot, n: nat)
    requires n > 0 && s in w.refs && Counted(w, multiset{s}) && OnceEach(w) && Aged(w, n) && w.refs[s] > 0
    ensures
      var w' := Fresh(w, s);
      Counted(w', multiset{s}) && OnceEach(w') && Aged(w', n)
  {
    hide Counted, Aged, OnceEach;
    AgedSize(w, n);
    FreshCounted(w, s);
    FreshAged(w, s, n);
    OnceFrame(w, Fresh(w, s));
  }

  lemma TurnedFlat(buckets: seq<seq<Slot>>)
    requires buckets != []
    ensures Flat(buckets) == buckets[0] + Flat(buckets[1..] + [[]])
  {
    FlatAppend(buckets[1..], [[]]);
    assert Flat([[]]) == [];
  }

  lemma TurnCounted(w: World)
    requires w.buckets != [] && Counted(w, multiset{})
    ensures Counted(Turned(w), multiset(w.buckets[0]))
  {
    hide Flat;
    TurnedFlat(w.buckets);
    var w' := Turned(w);
    forall t: Slot ensures UseCount(w', t) == Handles(w', t) + multiset(w.buckets[0])[t] {
      assert UseCount(w, t) == Handles(w, t) + multiset{}[t];
    }
  }

  lemma TurnAged(w: World, n: nat)
    requires n > 0 && Aged(w, n)
    ensures Aged(Turned(w), n)
  {
    var w' := Turned(w);
    forall t | t in w'.last && w'.now < w'.last[t] + n ensures t in w'.buckets[n - 1 - (w'.now - w'.last[t])] {
      var i := n - 1 - (w.now - w.last[t]);
      assert t in w.buckets[i];
      assert w'.buckets[i - 1] == w.buckets[i];
    }
    forall i, t | 0 <= i < n && t in w'.buckets[i] ensures t in w'.last && w'.last[t] + (n - 1 - i) >= w'.now {
      assert i < n - 1 && w'.buckets[i] == w.buckets[i + 1];
    }
  }

  /** Taking the front bucket's references aside and moving the ring on by one. */
  lemma TurnKeeps(w: World, n: nat)
    requires n > 0 && Inv(w, n) && w.buckets != []
    ensures Counted(Turned(w), multiset(w.buckets[0])) && OnceEach(Turned(w)) && Aged(Turned(w), n)
  {
    hide Counted, OnceEach, Aged;
    TurnCounted(w);
    TurnAged(w, n);
    OnceFrame(w, Turned(w));
  }

  predicate HandleStep(a: Action) {
    a.Register? || a.Lock? || a.Refresh? || a.SetState? || a.FreeConnection?
  }

  lemma HandleStepCounted(w: World, a: Action)
    requires Counted(w, multiset{}) && Enabled(w, a) && HandleStep(a)
    ensures Counted(Do(w, a), multiset{})
  {
    var w', s := Do(w, a), a.slot;
    hide Flat;
    assert UseCount(w, s) == Handles(w, s) + multiset{}[s];
    if a.Refresh? { assert multiset(w'.tasks) == multiset(w.tasks) + multiset{s}; }
    forall t: Slot ensures UseCount(w', t) == Handles(w', t) + multiset{}[t] {
      assert UseCount(w, t) == Handles(w, t) + multiset{}[t];
    }
  }

  lemma HandleStepFrame(w: World, a: Action)
    requires Counted(w, multiset{}) && Enabled(w, a) && HandleStep(a)
    ensures
      var w' := Do(w, a);
      && w'.expired == w.expired && w'.shutdowns == w.shutdowns
      && w'.buckets == w.buckets && w'.last == w.last && w'.now == w.now
      && (forall s: Slot :: s in w.refs ==> s in w'.refs)
      && (forall s: Slot :: s in w.refs && w.refs[s] == 0 <==> s in w'.refs && w'.refs[s] == 0)
  {
    if a.Refresh? { assert UseCount(w, a.slot) == Handles(w, a.slot) + multiset{}[a.slot]; }
    hide Counted, Flat;
  }

  /** A step that makes handles, or changes a connection, runs out of none. */
  lemma HandleStepKeeps(w: World, a: Action, n: nat)
    requires Inv(w, n) && Enabled(w, a) && HandleStep(a)
    ensures Inv(Do(w, a), n)
  {
    var w' := Do(w, a);
    HandleStepCounted(w, a);
    HandleStepFrame(w, a);
    hide Counted, OnceEach, Aged, Do;
    OnceFrame(w, w');
    AgedFrame(w, w', n);
  }

  lemma DropKeeps(w: World, s: Slot, n: nat)
    requires Inv(w, n) && Enabled(w, Drop(s))
    ensures Inv(Do(w, Drop(s)), n)
  {
    hide Counted, OnceEach, Aged, Release;
    var w1 := w.(temps := w.temps - multiset{s});
    SetAside(w, w1, s);
    OnceFrame(w, w1);
    AgedFrame(w, w1, n);
    ReleaseKeeps(w1, s, multiset{s}, n);
    assert multiset{s} - multiset{s} == multiset{};
  }

  /** A refresh task: the handle it held goes to the back bucket. */
  lemma FreshReleaseKeeps(w: World, s: Slot, n: nat)
    requires n > 0 && s in w.refs && Counted(w, multiset{s}) && OnceEach(w) && Aged(w, n) && w.refs[s] > 0
    ensures s in Fresh(w, s).refs && Fresh(w, s).refs[s] > 0
    ensures Inv(Release(Fresh(w, s), s), n)
  {
    FreshKeeps(w, s, n);
    hide Counted, OnceEach, Aged, Release, Fresh;
    ReleaseKeeps(Fresh(w, s), s, multiset{s}, n);
    assert multiset{s} - multiset{s} == multiset{};
  }

  lemma RunTaskKeeps(w: World, n: nat)
    requires n > 0 && Inv(w, n) && Enabled(w, RunTask)
    ensures Inv(Do(w, RunTask), n)
  {
    var s := w.tasks[0];
    var w1 := w.(tasks := w.tasks[1..]);
    assert Do(w, RunTask) == Release(Fresh(w1, s), s) by { hide Inv, Fresh, Release; }
    assert w.tasks == [s] + w.tasks[1..];
    hide Do, Fresh, Release, Counted, OnceEach, Aged, Distinct, Flat;
    SetAside(w, w1, s);
    OnceFrame(w, w1);
    AgedFrame(w, w1, n);
    FreshReleaseKeeps(w1, s, n);
  }

  lemma TickIs(w: World)
    requires Enabled(w, Tick)
    ensures w.buckets != [] && Covers(w.refs, multiset(w.buckets[0]))
    ensures Do(w, Tick) == ReleaseAll(Turned(w), w.buckets[0])
  {
    hide ReleaseAll, Turned, Fresh, Release, Covers;
  }

  lemma TickKeeps(w: World, n: nat)
    requires n > 0 && Inv(w, n) && Enabled(w, Tick)
    ensures Inv(Do(w, Tick), n)
  {
    hide *;
    TickIs(w);
    TurnKeeps(w, n);
    ReleaseAllKeeps(Turned(w), w.buckets[0], n);
  }

  lemma StepKeeps(w: World, a: Action, n: nat)
    requires n > 0 && Inv(w, n) && Enabled(w, a)
    ensures Inv(Do(w, a), n)
  {
    hide Inv, Enabled, Do;
    match a
    case Drop(s) => DropKeeps(w, s, n);
    case RunTask => RunTaskKeeps(w, n);
    case Tick => TickKeeps(w, n);
    case _ => HandleStepKeeps(w, a, n);
  }

  /** One handle to s leaves the tasks or the temporaries, and is still to be released. */
  lemma SetAside(w: World, w1: World, s: Slot)
    requires Counted(w, multiset{})
    requires w1 == w.(tasks := w1.tasks, temps := w1.temps)
    requires multiset(w.tasks) + w.temps == multiset(w1.tasks) + w1.temps + multiset{s}
    ensures Counted(w1, multiset{s})
  {
    forall t: Slot ensures UseCount(w1, t) == Handles(w1, t) + multiset{s}[t] {
      assert UseCount(w, t) == Handles(w, t) + multiset{}[t];
      assert (multiset(w.tasks) + w.temps)[t] == (multiset(w1.tasks) + w1.temps + multiset{s})[t];
    }
  }

  // --- Whole runs ---

  ghost predicate Run(states: seq<World>, actions: seq<Action>, n: nat) {
    && |states| == |actions| + 1 && states[0] == Initial(n)
    && (forall i :: 0 <= i < |actions| ==> Enabled(states[i], actions[i]) && states[i + 1] == Do(states[i], actions[i]))
  }

  lemma {:induction false} FlatOfEmpties(buckets: seq<seq<Slot>>)
    requires forall i :: 0 <= i < |buckets| ==> buckets[i] == []
    ensures Flat(buckets) == []
  {
    if buckets != [] { FlatOfEmpties(buckets[1..]); }
  }

  lemma InitialInv(n: nat)
    ensures Inv(Initial(n), n)
  {
    FlatOfEmpties(Initial(n).buckets);
  }

  lemma {:induction false} RunKeeps(states: seq<World>, actions: seq<Action>, n: nat, i: nat)
    requires n > 0 && Run(states, actions, n) && i < |states|
    ensures Inv(states[i], n)
  {
    hide Inv, Do, Enabled, Initial;
    if i == 0 {
      InitialInv(n);
    } else {
      RunKeeps(states, actions, n, i - 1);
      StepKeeps(states[i - 1], actions[i - 1], n);
    }
  }

  ghost predicate InUse(w: World, s: Slot) {
    s in w.tasks || s in w.temps
  }

  ghost predicate RecentlyRefreshed(w: World, s: Slot, n: nat) {
    s in w.last && w.now < w.last[s] + n
  }

  lemma LiveIffRecent(w: World, s: Slot, n: nat)
    requires Inv(w, n)
    ensures UseCount(w, s) > 0 <==> InUse(w, s) || RecentlyRefreshed(w, s, n)
  {
    assert UseCount(w, s) == Handles(w, s) + multiset{}[s];
    InFlat(w.buckets, s);
    assert s in Flat(w.buckets) <==> multiset(Flat(w.buckets))[s] > 0;
    hide Counted, OnceEach, Flat, UseCount;
  }

  /** The simple rule. At every moment of every run, a slot is gone exactly when no task or thread holds
      it and `n` ticks have passed since its last refresh. */
  lemma ExpiredIffIdle(states: seq<World>, actions: seq<Action>, n: nat, i: nat, s: Slot)
    requires n > 0 && Run(states, actions, n) && i < |states| && s in states[i].refs
    ensures s in states[i].expired <==> !InUse(states[i], s) && !RecentlyRefreshed(states[i], s, n)
    ensures |states[i].buckets| == n
  {
    RunKeeps(states, actions, n, i);
    LiveIffRecent(states[i], s, n);
    hide Counted, InUse, RecentlyRefreshed;
  }

  /** A live slot that nothing else holds goes on the n-th tick after its last refresh and on no other. */
  lemma ExpiresOnNthTick(w: World, n: nat, s: Slot)
    requires n > 0 && Inv(w, n) && Enabled(w, Tick)
    requires s in w.refs && s !in w.expired && !InUse(w, s)
    ensures s in w.last
    ensures s in Do(w, Tick).expired <==> w.now + 1 == w.last[s] + n
  {
    LiveIffRecent(w, s, n);
    assert UseCount(w, s) > 0 by { hide Counted; }
    StepKeeps(w, Tick, n);
    TickShape(w, n);
    var w' := Do(w, Tick);
    hide Do;
    LiveIffRecent(w', s, n);
    hide Counted, Aged;
  }

  lemma TickShape(w: World, n: nat)
    requires n > 0 && Inv(w, n) && Enabled(w, Tick)
    ensures
      var w' := Do(w, Tick);
      w'.tasks == w.tasks && w'.temps == w.temps && w'.last == w.last && w'.now == w.now + 1 && w'.refs.Keys == w.refs.Keys
  {
    hide Inv, ReleaseAll, Counted, OnceEach, Aged, Covers, Do, Enabled;
    TickIs(w);
    TurnKeeps(w, n);
    ReleaseAllKeeps(Turned(w), w.buckets[0], n);
  }

  /** The slot's connection exists and has not been closed. */
  predicate Live(w: World, s: Slot) {
    s in w.conns && w.conns[s].Some? && (w.conns[s].value.Connected? || w.conns[s].value.HalfClosing?)
  }

  /** w' comes after w by dropping references: the histories only grow, and the connections shut down are
      those of the slots that went whose connection was live. */
  ghost predicate Expires(w: World, w': World) {
    && w.expired <= w'.expired && w.shutdowns <= w'.shutdowns
    && (forall s :: s in w'.shutdowns && s !in w.shutdowns <==>
          s in w'.expired && s !in w.expired && Live(w, s))
    && (forall s :: Live(w', s) <==> Live(w, s))
  }

  lemma ReleaseExpires(w: World, s: Slot)
    requires s in w.refs && w.refs[s] > 0 && OnceEach(w)
    ensures Expires(w, Release(w, s))
  {
    var w' := Release(w, s);
    assert s !in w.expired && s !in w.shutdowns;
    hide OnceEach;
    if w.refs[s] == 1 {
      assert w'.expired == w.expired + [s];
      assert w'.shutdowns == if Live(w, s) then w.shutdowns + [s] else w.shutdowns;
    }
    assert forall t :: t in w'.expired <==> t in w.expired || (t == s && w.refs[s] == 1);
    assert forall t :: t in w'.shutdowns <==> t in w.shutdowns || (t == s && w.refs[s] == 1 && Live(w, s));
    assert forall t :: Live(w', t) <==> Live(w, t);
  }

  lemma ExpiresChains(w: World, w1: World, w2: World)
    requires Expires(w, w1) && Expires(w1, w2)
    ensures Expires(w, w2)
  {
    assert forall s :: s in w.expired ==> s in w1.expired;
    assert forall s :: s in w.shutdowns ==> s in w1.shutdowns;
    assert forall s :: s in w1.expired ==> s in w2.expired;
    assert forall s :: s in w1.shutdowns ==> s in w2.shutdowns;
    hide Live;
  }

  lemma {:induction false} ReleaseAllExpires(w: World, slots: seq<Slot>)
    requires Covers(w.refs, multiset(slots)) && OnceEach(w)
    ensures Expires(w, ReleaseAll(w, slots))
    decreases |slots|
  {
    if slots != [] {
      CoversRest(w.refs, slots);
      ReleaseExpires(w, slots[0]);
      ReleaseOnce(w, slots[0]);
      var w1 := Release(w, slots[0]);
      ReleaseAllExpires(w1, slots[1..]);
      hide Expires, Release, Covers, OnceEach;
      ExpiresChains(w, w1, ReleaseAll(w1, slots[1..]));
    }
  }

  /** In every step, the connections shut down are exactly the live ones whose slot goes in that step. */
  lemma ShutDownIffExpiredLive(w: World, a: Action, n: nat)
    requires n > 0 && Inv(w, n) && Enabled(w, a)
    ensures
      var w' := Do(w, a);
      && w.expired <= w'.expired && w.shutdowns <= w'.shutdowns
      && (forall s :: s in w'.shutdowns && s !in w.shutdowns <==>
            s in w'.expired && s !in w.expired && Live(w, s))
  {
    hide Counted, Aged, Release, ReleaseAll, Distinct;
    match a
    case Drop(s) =>
      var w1 := w.(temps := w.temps - multiset{s});
      ReleaseExpires(w1, s);
      assert forall t :: Live(w1, t) <==> Live(w, t);
    case RunTask =>
      var s := w.tasks[0];
      var w1 := Fresh(w.(tasks := w.tasks[1..]), s);
      ReleaseExpires(w1, s);
      assert forall t :: Live(w1, t) <==> Live(w, t);
    case Tick =>
      var w1 := Turned(w);
      ReleaseAllExpires(w1, w.buckets[0]);
      assert forall t :: Live(w1, t) <==> Live(w, t);
    case _ =>
  }

  lemma OnceFacts(w: World, n: nat)
    requires Inv(w, n)
    ensures Distinct(w.expired) && Distinct(w.shutdowns)
    ensures forall s :: s in w.expired ==> UseCount(w, s) == 0
  {
    hide Counted, Aged, Distinct;
  }

  /** A slot that has gone stays gone, and its connection is shut down at most once in a run. */
  lemma {:induction false} NeverRevived(states: seq<World>, actions: seq<Action>, n: nat, i: nat, j: nat)
    requires n > 0 && Run(states, actions, n) && i <= j < |states|
    ensures states[i].expired <= states[j].expired && states[i].shutdowns <= states[j].shutdowns
    ensures forall s :: s in states[i].expired ==> UseCount(states[j], s) == 0
    ensures Distinct(states[j].expired) && Distinct(states[j].shutdowns)
    decreases j - i
  {
    hide Inv, Do, Enabled, Distinct, UseCount;
    RunKeeps(states, actions, n, j);
    OnceFacts(states[j], n);
    if i < j {
      NeverRevived(states, actions, n, i, j - 1);
      RunKeeps(states, actions, n, j - 1);
      ShutDownIffExpiredLive(states[j - 1], actions[j - 1], n);
    }
    assert forall s :: s in states[i].expired ==> s in states[j].expired;
  }

  /** No step waits for a count: the loop function can always run, so can the next refresh task, and a
      thread can always pass on or drop a pointer it holds. */
  lemma NothingBlocks(w: World, n: nat)
    requires n > 0 && Inv(w, n)
    ensures Enabled(w, Tick)
    ensures w.tasks != [] ==> Enabled(w, RunTask)
    ensures forall s :: s in w.temps ==> Enabled(w, Drop(s)) && Enabled(w, Refresh(s))
  {
    forall s | s in multiset(w.buckets[0]) ensures s in w.refs && multiset(w.buckets[0])[s] <= w.refs[s] {
      assert UseCount(w, s) == Handles(w, s) + multiset{}[s];
      assert Flat(w.buckets) == w.buckets[0] + Flat(w.buckets[1..]);
    }
    if w.tasks != [] {
      var s := w.tasks[0];
      assert s in multiset(w.tasks);
      assert UseCount(w, s) == Handles(w, s) + multiset{}[s];
    }
    forall s | s in w.temps ensures s in w.refs && w.refs[s] > 0 {
      assert UseCount(w, s) == Handles(w, s) + multiset{}[s];
    }
    hide Counted, OnceEach, Aged, Flat;
  }
}
