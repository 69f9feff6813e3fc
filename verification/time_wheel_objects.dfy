/** The objects behind the time wheel, updated in place: the slots with their reference counts, the ring,
    and the server whose main reactor runs the refresh tasks. */
module TimeWheelObjects {
  import opened Interest
  import opened TimeWheel

  /** The slots, with the use counts their shared_ptrs keep and the connections their weak_ptrs name. */
  class SlotTable {
    var refs: map<Slot, nat>
    var conns: map<Slot, Option<ConnState>>
    var expired: seq<Slot>
    var shutdowns: seq<Slot>

    constructor ()
      ensures refs == map[] && conns == map[] && expired == [] && shutdowns == []
    {
      refs, conns, expired, shutdowns := map[], map[], [], [];
    }

    /** make_shared for a connection that has just been accepted. */
    method Make(s: Slot)
      requires s !in refs
      modifies this
      ensures refs == old(refs)[s := 1] && conns == old(conns)[s := Some(Connected)]
      ensures expired == old(expired) && shutdowns == old(shutdowns)
    {
      refs, conns := refs[s := 1], conns[s := Some(Connected)];
    }

    method Retain(s: Slot)
      requires s in refs
      modifies this`refs
      ensures refs == old(refs)[s := old(refs[s]) + 1]
    {
      refs := refs[s := refs[s] + 1];
    }

    /** The table as a world with no ring, no tasks and no clock. */
    ghost function Table(): World
      reads this
    {
      World([], refs, [], multiset{}, conns, expired, shutdowns, 0, map[])
    }

    /** A shared_ptr goes; the last one runs ~AbstractSlot. */
    method Drop(s: Slot)
      requires s in refs && refs[s] > 0
      modifies this
      ensures Table() == Release(old(Table()), s)
    {
      refs := refs[s := refs[s] - 1];
      if refs[s] == 0 {
        expired := expired + [s];
        if s in conns && conns[s].Some? {
          ShutdownConnection(s);
        }
      }
    }

    /** The pointers of a bucket that has been taken off the ring go, first to last. */
    method DestroyBucket(bucket: seq<Slot>)
      requires Covers(refs, multiset(bucket))
      modifies this
      ensures Table() == ReleaseAll(old(Table()), bucket)
    {
      ghost var start := Table();
      var i := 0;
      while i < |bucket|
        invariant i <= |bucket|
        invariant Covers(start.refs, multiset(bucket[..i]))
        invariant Table() == ReleaseAll(start, bucket[..i])
      {
        hide ReleaseAll, Release;
        CoversPrefix(start.refs, bucket, i + 1);
        assert bucket[..i + 1] == bucket[..i] + [bucket[i]];
        ReleaseAllSnoc(start, bucket[..i], bucket[i]);
        hide Covers;
        Drop(bucket[i]);
        i := i + 1;
      }
      assert bucket[..i] == bucket;
    }

    /** The slot's callback. */
    method ShutdownConnection(s: Slot)
      requires s in conns && conns[s].Some?
      modifies this`conns, this`shutdowns
      ensures
        var state := old(conns[s].value);
        if state == Closed || state == NotConnected
        then conns == old(conns) && shutdowns == old(shutdowns)
        else conns == old(conns)[s := Some(HalfClosing)] && shutdowns == old(shutdowns) + [s]
    {
      var state := conns[s].value;
      if state == Closed || state == NotConnected {
        return;
      }
      conns := conns[s := Some(HalfClosing)];
      shutdowns := shutdowns + [s];
    }
  }

  lemma {:induction false} ReleaseAllSnoc(w: World, slots: seq<Slot>, s: Slot)
    requires Covers(w.refs, multiset(slots + [s]))
    ensures Covers(w.refs, multiset(slots))
    ensures var w' := ReleaseAll(w, slots);
            && s in w'.refs && w'.refs[s] > 0
            && ReleaseAll(w, slots + [s]) == Release(w', s)
    decreases |slots|
  {
    assert multiset(slots + [s]) == multiset(slots) + multiset{s};
    if slots == [] {
      assert s in multiset([s]);
      assert ReleaseAll(w, slots) == w;
      assert [s][1..] == [] && [] + [s] == [s];
      CoversRest(w.refs, [s]);
    } else {
      CoversRest(w.refs, slots + [s]);
      assert (slots + [s])[1..] == slots[1..] + [s];
      ReleaseShape(w, slots[0]);
      ReleaseAllSnoc(Release(w, slots[0]), slots[1..], s);
    }
  }

  lemma ReleaseFrame(w: World, w1: World, s: Slot)
    requires s in w.refs && w.refs[s] > 0
    requires w1 == w.(buckets := w1.buckets, tasks := w1.tasks, temps := w1.temps, now := w1.now, last := w1.last)
    ensures
      Release(w1, s) ==
      Release(w, s).(buckets := w1.buckets, tasks := w1.tasks, temps := w1.temps, now := w1.now, last := w1.last)
  {
  }

  /** Dropping references neither reads nor changes the ring, the tasks or the clock. */
  lemma {:induction false} ReleaseAllFrame(w: World, w1: World, slots: seq<Slot>)
    requires Covers(w.refs, multiset(slots))
    requires w1 == w.(buckets := w1.buckets, tasks := w1.tasks, temps := w1.temps, now := w1.now, last := w1.last)
    ensures
      ReleaseAll(w1, slots) ==
      ReleaseAll(w, slots).(buckets := w1.buckets, tasks := w1.tasks, temps := w1.temps, now := w1.now, last := w1.last)
    decreases |slots|
  {
    if slots != [] {
      CoversRest(w.refs, slots);
      ReleaseAllFrame(Release(w, slots[0]), Release(w1, slots[0]), slots[1..]);
    }
  }

  class TcpTimeWheel {
    const bucketCount: int
    const slots: SlotTable
    var wheel: seq<seq<Slot>>
    ghost var now: nat
    ghost var last: map<Slot, nat>

    constructor (bucketCount: int, slots: SlotTable)
      ensures this.bucketCount == bucketCount && this.slots == slots
      ensures wheel == Initial(if bucketCount < 0 then 0 else bucketCount).buckets
      ensures now == 0 && last == map[]
    {
      this.bucketCount := bucketCount;
      this.slots := slots;
      now, last := 0, map[];
      wheel := [];
      new;
      var i := 0;
      while i < bucketCount
        invariant 0 <= i && (i <= bucketCount || i == 0)
        invariant wheel == seq(i, _ => []) && now == 0 && last == map[]
      {
        wheel := wheel + [[]];
        i := i + 1;
      }
    }

    /** The wheel and its slots inside a world with the given tasks and temporaries. */
    ghost function View(tasks: seq<Slot>, temps: multiset<Slot>): World
      reads this, slots
    {
      World(wheel, slots.refs, tasks, temps, slots.conns, slots.expired, slots.shutdowns, now, last)
    }

    /** The caller keeps its pointer; the bucket gets a copy. */
    method Fresh(s: Slot)
      requires s in slots.refs && wheel != []
      modifies this, slots
      ensures forall tasks, temps :: View(tasks, temps) == TimeWheel.Fresh(old(View(tasks, temps)), s)
    {
      var back := |wheel| - 1;
      slots.Retain(s);
      wheel := wheel[back := wheel[back] + [s]];
      last := last[s := now];
    }

    /** The timer's callback: the front bucket is popped and an empty one pushed. */
    method LoopFunc()
      requires wheel != [] && Covers(slots.refs, multiset(wheel[0]))
      modifies this, slots
      ensures forall tasks, temps :: View(tasks, temps) == Do(old(View(tasks, temps)), Tick)
    {
      hide ReleaseAll, Release;
      var front := wheel[0];
      now := now + 1;
      wheel := wheel[1..];
      ghost var popped := slots.Table();
      slots.DestroyBucket(front);
      wheel := wheel + [[]];
      forall tasks, temps ensures View(tasks, temps) == Do(old(View(tasks, temps)), Tick) {
        ReleaseAllFrame(popped, popped.(buckets := wheel, tasks := tasks, temps := temps, now := now, last := last), front);
      }
    }
  }

  lemma CoversPrefix(refs: map<Slot, nat>, slots: seq<Slot>, k: nat)
    requires k <= |slots| && Covers(refs, multiset(slots))
    ensures Covers(refs, multiset(slots[..k]))
  {
    assert slots == slots[..k] + slots[k..];
    assert multiset(slots) == multiset(slots[..k]) + multiset(slots[k..]);
  }

  class TcpServer {
    const slots: SlotTable
    const timeWheel: TcpTimeWheel
    var tasks: seq<Slot>
    ghost var temps: multiset<Slot>

    constructor (bucketCount: nat)
      ensures fresh(slots) && fresh(timeWheel)
      ensures timeWheel.slots == slots && View() == Initial(bucketCount)
    {
      var table := new SlotTable();
      slots := table;
      tasks, temps := [], multiset{};
      timeWheel := new TcpTimeWheel(bucketCount, table);
    }

    ghost function View(): World
      reads this, timeWheel, timeWheel.slots
    {
      timeWheel.View(tasks, temps)
    }

    /** registerToTimeWheel makes a slot and has the wheel refreshed with it; its own pointer is still on
        the stack afterwards. */
    method Register(s: Slot)
      requires timeWheel.slots == slots && s !in slots.refs
      modifies this, slots
      ensures View() == Do(Do(old(View()), Action.Register(s)), Refresh(s))
    {
      slots.Make(s);
      temps := temps + multiset{s};
      FreshTcpConnection(s);
    }

    /** A task holding a pointer to the slot is queued with the main reactor. */
    method FreshTcpConnection(s: Slot)
      requires timeWheel.slots == slots && s in slots.refs && s in temps
      modifies this, slots
      ensures View() == Do(old(View()), Refresh(s))
      ensures temps == old(temps)
    {
      slots.Retain(s);
      tasks := tasks + [s];
    }

    /** A connection's coroutine finished a read: the slot, when it is still there, is refreshed and the
        coroutine's own pointer dropped. */
    method AfterRead(s: Slot)
      requires timeWheel.slots == slots && s in slots.refs
      modifies this, slots
      ensures
        var w := old(View());
        View() == if w.refs[s] == 0 then w else Do(Do(Do(w, Lock(s)), Refresh(s)), Action.Drop(s))
    {
      hide Release, ReleaseAll, Fresh, Turned, Covers;
      if slots.refs[s] > 0 {
        slots.Retain(s);
        temps := temps + multiset{s};
        FreshTcpConnection(s);
        temps := temps - multiset{s};
        ghost var held := View();
        ReleaseFrame(slots.Table(), held, s);
        slots.Drop(s);
      }
    }

    /** The main reactor runs the oldest refresh task. */
    method RunTask()
      requires timeWheel.slots == slots && Enabled(View(), Action.RunTask)
      modifies this, timeWheel, slots
      ensures View() == Do(old(View()), Action.RunTask)
    {
      var s := tasks[0];
      tasks := tasks[1..];
      timeWheel.Fresh(s);
      ReleaseFrame(slots.Table(), View(), s);
      slots.Drop(s);
    }
  }
}
