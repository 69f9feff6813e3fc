/** What a sub-reactor does with one result of epoll_wait, as the loop over it that the code runs; the
    work-sharing machine takes the same pass in atomic steps. */
module EventBatch {
  import opened Interest
  import opened FdEvents
  import W = WorkSharing

  /** One entry: the fd, what it is ready for, and the coroutine of its FdEvent. */
  datatype Entry = Entry(fd: Fd, events: Mask, coroutine: Option<nat>)

  /** first_coroutine, the registrations, what went to the global queue, and the pending tasks. */
  datatype Sorted = Sorted(first: Option<nat>, poll: Poll, pushed: seq<Fd>, tasks: seq<W.Task>)

  function SortOne(t: Sorted, e: Entry): Sorted {
    if e.events == {} then t.(poll := DelInLoop(t.poll, e.fd))
    else if e.coroutine.Some? then
      if t.first.None? then t.(first := e.coroutine)
      else t.(poll := DelInLoop(t.poll, e.fd), pushed := t.pushed + [e.fd])
    else t.(tasks := t.tasks + W.Callbacks(W.Ready(e.fd, e.events)))
  }

  function SortAll(t: Sorted, es: seq<Entry>): Sorted {
    if es == [] then t else SortOne(SortAll(t, es[..|es| - 1]), es[|es| - 1])
  }

  /** The entries that hold a ready coroutine. */
  function Ready(es: seq<Entry>): (ready: seq<Entry>)
    ensures forall i :: 0 <= i < |ready| ==> ready[i].coroutine.Some?
  {
    if es == [] then []
    else
      var e := es[|es| - 1];
      Ready(es[..|es| - 1]) + (if e.events != {} && e.coroutine.Some? then [e] else [])
  }

  function Fds(es: seq<Entry>): seq<Fd> {
    seq(|es|, i requires 0 <= i < |es| => es[i].fd)
  }

  /** Of the ready entries, the first is kept unless a coroutine is kept already, and exactly the others are
      queued, in order. */
  ghost predicate Keeps(t: Sorted, t': Sorted, ready: seq<Entry>) {
    && t'.first == (if t.first.Some? || ready == [] then t.first else ready[0].coroutine)
    && t'.pushed == t.pushed + Fds(if t.first.Some? || ready == [] then ready else ready[1..])
  }

  lemma KeepsOneMore(t: Sorted, before: Sorted, ready: seq<Entry>, e: Entry)
    requires Keeps(t, before, ready) && forall i :: 0 <= i < |ready| ==> ready[i].coroutine.Some?
    ensures
      Keeps(t, SortOne(before, e), ready + (if e.events != {} && e.coroutine.Some? then [e] else []))
  {
    hide DelInLoop, W.Callbacks;
    if e.events != {} && e.coroutine.Some? {
      var more := ready + [e];
      assert more[0] == if ready == [] then e else ready[0];
      if ready == [] {
        assert more[1..] == [] && Fds(more) == [e.fd] && t.pushed + Fds([]) == t.pushed;
      } else {
        assert more[1..] == ready[1..] + [e];
        assert Fds(more) == Fds(ready) + [e.fd] && Fds(more[1..]) == Fds(ready[1..]) + [e.fd];
      }
    } else {
      assert ready + [] == ready;
    }
  }

  /** Of the ready coroutines of a batch, the first is kept unless one is kept already, and exactly the
      others go to the queue, in order. */
  lemma {:induction false} KeepsFirstQueuesRest(t: Sorted, es: seq<Entry>)
    ensures
      var t', ready := SortAll(t, es), Ready(es);
      && t'.first == (if t.first.Some? || ready == [] then t.first else ready[0].coroutine)
      && t'.pushed == t.pushed + Fds(if t.first.Some? || ready == [] then ready else ready[1..])
  {
    hide SortOne, Fds;
    KeepsAll(t, es);
  }

  lemma {:induction false} KeepsAll(t: Sorted, es: seq<Entry>)
    ensures Keeps(t, SortAll(t, es), Ready(es))
  {
    hide SortOne, Fds, Keeps;
    if es == [] {
      KeepsNone(t);
    } else {
      var n := |es| - 1;
      KeepsAll(t, es[..n]);
      KeepsOneMore(t, SortAll(t, es[..n]), Ready(es[..n]), es[n]);
    }
  }

  lemma KeepsNone(t: Sorted)
    ensures Keeps(t, t, [])
  {
    assert t.pushed + Fds([]) == t.pushed;
  }

  /** What an entry without a coroutine makes pending: its read callback before its write callback. */
  function CallbacksIn(e: Entry): seq<W.Task> {
    if e.coroutine.Some? then []
    else if e.events == {Read, Write} then [W.Callback(e.fd, Read), W.Callback(e.fd, Write)]
    else if e.events == {Read} then [W.Callback(e.fd, Read)]
    else if e.events == {Write} then [W.Callback(e.fd, Write)]
    else []
  }

  function AllCallbacks(es: seq<Entry>): seq<W.Task> {
    if es == [] then [] else AllCallbacks(es[..|es| - 1]) + CallbacksIn(es[|es| - 1])
  }

  lemma OneTasks(t: Sorted, e: Entry)
    ensures SortOne(t, e).tasks == t.tasks + CallbacksIn(e)
  {
    hide DelInLoop;
    assert e.events == {} || e.events == {Read} || e.events == {Write} || e.events == {Read, Write} by {
      assert forall x <- e.events :: x == Read || x == Write;
    }
    assert t.tasks + [] == t.tasks;
  }

  /** The callbacks of the entries without a coroutine become pending in order, and nothing else does. */
  lemma {:induction false} TasksOfCallbacks(t: Sorted, es: seq<Entry>)
    ensures SortAll(t, es).tasks == t.tasks + AllCallbacks(es)
  {
    hide SortOne, CallbacksIn;
    if es == [] {
      assert t.tasks + [] == t.tasks;
    } else {
      var n := |es| - 1;
      TasksOfCallbacks(t, es[..n]);
      OneTasks(SortAll(t, es[..n]), es[n]);
    }
  }

  ghost predicate HasError(es: seq<Entry>, fd: Fd) {
    exists i :: 0 <= i < |es| && es[i].fd == fd && es[i].events == {}
  }

  /** Exactly what was queued, or had an error, loses its registration; the others keep their masks. */
  lemma {:induction false} UnregistersQueued(t: Sorted, es: seq<Entry>)
    requires Agree(t.poll) && t.pushed == []
    ensures
      var t' := SortAll(t, es);
      && Agree(t'.poll)
      && forall fd :: fd in t'.poll.kernel <==>
           fd in t.poll.kernel && fd !in t'.pushed && !HasError(es, fd)
    ensures forall fd <- SortAll(t, es).poll.kernel :: fd in t.poll.kernel &&
              SortAll(t, es).poll.kernel[fd] == t.poll.kernel[fd]
  {
    if es != [] {
      var n := |es| - 1;
      UnregistersQueued(t, es[..n]);
      var s, e := SortAll(t, es[..n]), es[n];
      DelAgrees(s.poll, e.fd);
      forall fd ensures HasError(es, fd) <==> HasError(es[..n], fd) || (e.fd == fd && e.events == {}) {
        LastError(es, fd);
      }
      hide Agree, DelInLoop, HasError;
    }
  }

  lemma LastError(es: seq<Entry>, fd: Fd)
    requires es != []
    ensures
      var n := |es| - 1;
      HasError(es, fd) <==> HasError(es[..n], fd) || (es[n].fd == fd && es[n].events == {})
  {
    var n := |es| - 1;
    if HasError(es[..n], fd) {
      var i :| 0 <= i < n && es[..n][i].fd == fd && es[..n][i].events == {};
      assert es[i].fd == fd;
    }
    if HasError(es, fd) {
      var i :| 0 <= i < |es| && es[i].fd == fd && es[i].events == {};
      if i < n { assert es[..n][i].fd == fd; }
    }
  }

  /** The queue of FdEvents that all sub-reactors share. */
  class CoroutineTaskQueue {
    var tasks: seq<FdEvent>

    constructor ()
      ensures tasks == []
    {
      tasks := [];
    }

    method Push(e: FdEvent)
      modifies this
      ensures tasks == old(tasks) + [e]
    {
      tasks := tasks + [e];
    }

    method Pop() returns (e: FdEvent?)
      modifies this
      ensures if old(tasks) == [] then e == null && tasks == [] else e == old(tasks)[0] && tasks == old(tasks)[1..]
    {
      if tasks == [] {
        return null;
      }
      e := tasks[0];
      tasks := tasks[1..];
    }
  }

  /** The part of a sub-reactor's loop that handles what epoll_wait returned. */
  class SubReactorLoop {
    const reactor: Reactor
    const queue: CoroutineTaskQueue
    var first: Option<nat>
    var tasks: seq<W.Task>

    constructor (reactor: Reactor, queue: CoroutineTaskQueue)
      ensures this.reactor == reactor && this.queue == queue && first == None && tasks == []
    {
      this.reactor, this.queue, first, tasks := reactor, queue, None, [];
    }

    ghost function View(pushed: seq<Fd>): Sorted
      reads this, reactor
    {
      Sorted(first, reactor.View(), pushed, tasks)
    }

    /** Every entry's FdEvent is some connection's, not the wake fd's. */
    method HandleEvents(events: seq<(FdEvent, Mask)>)
      requires reactor.Valid()
      requires forall i :: 0 <= i < |events| ==> events[i].0.fd != reactor.wakeFd
      modifies this, reactor, queue, set e | e in events :: e.0
      ensures reactor.Valid() && old(queue.tasks) <= queue.tasks
      ensures
        var pushed := queue.tasks[|old(queue.tasks)|..];
        && View(FdsOf(pushed)) == SortAll(old(View([])), old(Entries(events)))
        && forall e :: e in pushed ==> e.reactor == null
    {
      hide SortOne, DelInLoop, AddInLoop, Agree;
      ghost var t0, es := View([]), Entries(events);
      ghost var pushed: seq<FdEvent> := [];
      var i := 0;
      while i < |events|
        invariant 0 <= i <= |events| && reactor.Valid() && Entries(events) == es
        invariant View(FdsOf(pushed)) == SortAll(t0, es[..i])
        invariant queue.tasks == old(queue.tasks) + pushed && forall e :: e in pushed ==> e.reactor == null
      {
        assert es[i] == EntryOf(events[i].0, events[i].1) && es[..i + 1][..i] == es[..i];
        var queued := HandleEvent(events[i].0, events[i].1, FdsOf(pushed));
        ghost var more := if queued then [events[i].0] else [];
        assert FdsOf(pushed + more) == FdsOf(pushed) + FdsOf(more);
        pushed := pushed + more;
        i := i + 1;
      }
      assert es[..i] == es;
    }

    /** The body of the loop. */
    method HandleEvent(ptr: FdEvent, ready: Mask, ghost pushed: seq<Fd>) returns (queued: bool)
      requires reactor.Valid() && ptr.fd != reactor.wakeFd
      modifies this, reactor, queue, ptr`reactor
      ensures reactor.Valid()
      ensures View(pushed + if queued then [ptr.fd] else []) == SortOne(old(View(pushed)), old(EntryOf(ptr, ready)))
      ensures queue.tasks == old(queue.tasks) + if queued then [ptr] else []
      ensures ptr.reactor == if queued then null else old(ptr.reactor)
    {
      queued := false;
      assert pushed + [] == pushed;
      if ready == {} {
        reactor.DelEventInLoopThread(ptr.fd);
      } else if ptr.coroutine.Some? {
        if first == None {
          first := ptr.coroutine;
          return;
        }
        reactor.DelEventInLoopThread(ptr.fd);
        ptr.reactor := null;
        queue.Push(ptr);
        queued := true;
      } else {
        if Read in ready {
          tasks := tasks + [W.Callback(ptr.fd, Read)];
        }
        if Write in ready {
          tasks := tasks + [W.Callback(ptr.fd, Write)];
        }
      }
    }
  }

  ghost function EntryOf(e: FdEvent, ready: Mask): Entry
    reads e
  {
    Entry(e.fd, ready, e.coroutine)
  }

  ghost function Entries(events: seq<(FdEvent, Mask)>): seq<Entry>
    reads set e | e in events :: e.0
  {
    seq(|events|, i requires 0 <= i < |events| reads set e | e in events :: e.0 => EntryOf(events[i].0, events[i].1))
  }

  function FdsOf(es: seq<FdEvent>): seq<Fd> {
    seq(|es|, i requires 0 <= i < |es| => es[i].fd)
  }

  /** The machine's Handle, with the Detach and Push that follow it for a queued one, is the same pass. */
  lemma MachineAgrees(s: W.State, r: W.Rid)
    requires W.Enabled(s, r, W.Handle) && s.loops[r].kind == W.SubReactor
    ensures
      var l := s.loops[r];
      var e := l.pc.events[0];
      var t := SortOne(Sorted(l.first, l.poll, [], l.tasks), Entry(e.fd, e.events, s.conns[e.fd].coroutine));
      var s1 := W.Do(s, r, W.Handle);
      var s' := if s1.loops[r].pc.Batch? then s1 else W.Do(W.Do(s1, r, W.Detach), r, W.Push);
      && s'.loops[r] == l.(pc := W.Batch(l.pc.events[1..]), first := t.first, poll := t.poll, tasks := t.tasks)
      && s'.queue == s.queue + (if t.pushed == [] then [] else [W.Item(e.fd, r)])
      && (t.pushed != [] ==> s'.conns == s.conns[e.fd := s.conns[e.fd].(reactor := None)])
      && (t.pushed == [] ==> s'.conns == s.conns)
  {
    hide DelInLoop, W.Do, W.Enabled, W.Callbacks;
    HandleIs(s, r);
    var s1 := W.HandleEvent(s, r);
    if s1.loops[r].pc.Unregistered? { DetachAndPush(s1, r); }
    assert s.queue + [] == s.queue;
  }

  lemma HandleIs(s: W.State, r: W.Rid)
    requires W.Enabled(s, r, W.Handle)
    ensures r in s.loops && W.OnMain(s.loops[r]) && s.loops[r].pc.Batch? && s.loops[r].pc.events != []
    ensures s.loops[r].pc.events[0].fd in s.conns && W.Do(s, r, W.Handle) == W.HandleEvent(s, r)
  {
    hide W.HandleEvent, W.CoStep;
  }

  lemma DetachAndPush(s: W.State, r: W.Rid)
    requires r in s.loops && W.OnMain(s.loops[r]) && s.loops[r].pc.Unregistered? && s.loops[r].pc.fd in s.conns
    ensures W.Enabled(s, r, W.Detach) && W.Enabled(W.Do(s, r, W.Detach), r, W.Push)
    ensures
      var l := s.loops[r];
      W.Do(W.Do(s, r, W.Detach), r, W.Push) ==
      W.State(s.loops[r := l.(pc := W.Batch(l.pc.events))],
              s.conns[l.pc.fd := s.conns[l.pc.fd].(reactor := None)], s.queue + [W.Item(l.pc.fd, r)])
  {
    hide W.CoStep, W.HandleEvent;
  }
}
