/** Coroutines of one thread: resuming, yielding and setting callbacks, in any order. */
module Coroutines {
  import opened CoCtx

  datatype Co = Co(saved: Frame, inCoFunc: bool, canResume: bool)

  /** The thread's t_main_coroutine and t_cur_coroutine, and every coroutine it handles. */
  datatype Thread<T> = Thread(main: T, cur: T, cos: map<T, Co>)

  /** `frame` is what coctx_swap saves if the call gets that far. */
  datatype Act<T> =
    | Yield(frame: Frame)
    | Resume(co: T, frame: Frame)
    | SetCallBack(co: T, top: Word, self: Word)
    | SetIsInCoFunc(value: bool)            // by CoFunction, on the coroutine that runs
    | SetCanResume(co: T, value: bool)

  const CO_FUNCTION: Word := 1

  const ZEROED := Frame(0, 0, 0, 0, 0, 0, 0, 0, 0, 0, 0, 0, 0, 0)

  /** The stack pointer and base at the aligned top of the block; the first switch enters CoFunction(self). */
  function Fresh(top: Word, self: Word): Frame {
    ZEROED.(rsp := top, rbp := top, ret := CO_FUNCTION, rdi := self)
  }

  ghost predicate Known<T>(t: Thread<T>, a: Act<T>) {
    t.main in t.cos && t.cur in t.cos && (a.Yield? || a.SetIsInCoFunc? || a.co in t.cos)
  }

  /** The call gets as far as coctx_swap. */
  ghost predicate Switches<T>(t: Thread<T>, a: Act<T>)
    requires Known(t, a)
  {
    match a
    case Yield(_) => t.cur != t.main
    case Resume(co, _) => t.cur == t.main && t.cos[co].canResume && t.cur != co
    case _ => false
  }

  ghost function Do<T>(t: Thread<T>, a: Act<T>): Thread<T>
    requires Known(t, a)
  {
    match a
    case Yield(f) =>
      if !Switches(t, a) then t else t.(cur := t.main, cos := t.cos[t.cur := t.cos[t.cur].(saved := f)])
    case Resume(co, f) =>
      if !Switches(t, a) then t else t.(cur := co, cos := t.cos[t.main := t.cos[t.main].(saved := f)])
    case SetCallBack(co, top, self) =>
      if co == t.main || t.cos[co].inCoFunc then t
      else t.(cos := t.cos[co := t.cos[co].(saved := Fresh(top, self), canResume := true)])
    case SetIsInCoFunc(v) => t.(cos := t.cos[t.cur := t.cos[t.cur].(inCoFunc := v)])
    case SetCanResume(co, v) => t.(cos := t.cos[co := t.cos[co].(canResume := v)])
  }

  /** The frame a switch enters. */
  ghost function Entered<T>(t: Thread<T>, a: Act<T>): Frame
    requires Known(t, a) && Switches(t, a)
  {
    if a.Yield? then t.cos[t.main].saved else t.cos[a.co].saved
  }

  ghost predicate Run<T>(states: seq<Thread<T>>, acts: seq<Act<T>>) {
    && |states| == |acts| + 1 && states[0].cur == states[0].main
    && (forall i :: 0 <= i < |acts| ==> Known(states[i], acts[i]) && states[i + 1] == Do(states[i], acts[i]))
  }

  /** How many of the first k acts switch away from the main coroutine, and how many back to it. */
  ghost function Resumes<T>(states: seq<Thread<T>>, acts: seq<Act<T>>, k: nat): nat
    requires Run(states, acts) && k <= |acts|
  {
    if k == 0 then 0
    else Resumes(states, acts, k - 1) + if acts[k - 1].Resume? && Switches(states[k - 1], acts[k - 1]) then 1 else 0
  }

  ghost function Yields<T>(states: seq<Thread<T>>, acts: seq<Act<T>>, k: nat): nat
    requires Run(states, acts) && k <= |acts|
  {
    if k == 0 then 0
    else Yields(states, acts, k - 1) + if acts[k - 1].Yield? && Switches(states[k - 1], acts[k - 1]) then 1 else 0
  }

  /** Switches away and switches back alternate: at every moment there is at most one more of the former,
      and there is one more exactly while a coroutine runs. */
  lemma {:induction false} SwitchesAlternate<T>(states: seq<Thread<T>>, acts: seq<Act<T>>, k: nat)
    requires Run(states, acts) && k <= |acts|
    ensures
      Resumes(states, acts, k) == Yields(states, acts, k) + if states[k].cur == states[k].main then 0 else 1
    ensures states[k].main == states[0].main
  {
    if k > 0 { SwitchesAlternate(states, acts, k - 1); }
  }

  ghost predicate NoSwitch<T>(states: seq<Thread<T>>, acts: seq<Act<T>>, i: nat, j: nat)
    requires Run(states, acts) && i <= j <= |acts|
  {
    forall k :: i <= k < j ==> !Switches(states[k], acts[k])
  }

  lemma {:induction false} MainKept<T>(states: seq<Thread<T>>, acts: seq<Act<T>>, i: nat, j: nat)
    requires Run(states, acts) && i <= j <= |acts| && NoSwitch(states, acts, i, j)
    requires states[i].main in states[i].cos
    ensures states[j].cur == states[i].cur && states[j].main == states[i].main
    ensures states[j].main in states[j].cos && states[j].cos[states[j].main].saved == states[i].cos[states[i].main].saved
    decreases j - i
  {
    if i < j { MainKept(states, acts, i, j - 1); }
  }

  /** Every yield returns to just after the resume that started the coroutine. */
  lemma YieldReturnsToResume<T>(states: seq<Thread<T>>, acts: seq<Act<T>>, i: nat, j: nat)
    requires Run(states, acts) && i < j < |acts| && NoSwitch(states, acts, i + 1, j)
    requires acts[i].Resume? && Switches(states[i], acts[i]) && acts[j].Yield?
    ensures Switches(states[j], acts[j]) && Entered(states[j], acts[j]) == acts[i].frame
    ensures states[j + 1].cur == states[i].cur
  {
    MainKept(states, acts, i + 1, j);
  }

  /** While a coroutine is in the middle of its callback and does not run, nothing touches its frame, not
      even setCallBack. */
  lemma {:induction false} SuspendedKept<T>(states: seq<Thread<T>>, acts: seq<Act<T>>, co: T, i: nat, j: nat)
    requires Run(states, acts) && i <= j <= |acts|
    requires co in states[i].cos && states[i].cos[co].inCoFunc && co != states[i].main
    requires forall k :: i <= k <= j ==> states[k].cur != co
    ensures co in states[j].cos && states[j].cos[co].inCoFunc && co != states[j].main
    ensures states[j].cos[co].saved == states[i].cos[co].saved
    decreases j - i
  {
    if i < j { SuspendedKept(states, acts, co, i, j - 1); }
  }

  /** A coroutine that yielded in the middle of its callback is entered again just after that yield. */
  lemma ResumeReturnsToYield<T>(states: seq<Thread<T>>, acts: seq<Act<T>>, i: nat, j: nat)
    requires Run(states, acts) && i < j < |acts|
    requires acts[i].Yield? && Switches(states[i], acts[i]) && states[i].cos[states[i].cur].inCoFunc
    requires acts[j].Resume? && Switches(states[j], acts[j]) && acts[j].co == states[i].cur
    requires forall k :: i < k <= j ==> states[k].cur != states[i].cur
    ensures Entered(states[j], acts[j]) == acts[i].frame && states[j + 1].cur == states[i].cur
  {
    SuspendedKept(states, acts, states[i].cur, i + 1, j);
  }

  lemma {:induction false} CallBackKept<T>(states: seq<Thread<T>>, acts: seq<Act<T>>, co: T, i: nat, j: nat)
    requires Run(states, acts) && i <= j <= |acts| && co in states[i].cos && co != states[i].main
    requires forall k :: i <= k <= j ==> states[k].cur != co
    requires forall k :: i <= k < j ==> !(acts[k].SetCallBack? && acts[k].co == co)
    ensures co in states[j].cos && co != states[j].main && states[j].cos[co].saved == states[i].cos[co].saved
    decreases j - i
  {
    if i < j { CallBackKept(states, acts, co, i, j - 1); }
  }

  /** After an accepted setCallBack the next resume calls CoFunction with the coroutine, the stack pointer and the
      base at the top that was set, and zero in every other register. */
  lemma FirstResumeEntersCoFunction<T>(states: seq<Thread<T>>, acts: seq<Act<T>>, i: nat, j: nat)
    requires Run(states, acts) && i < j < |acts|
    requires acts[i].SetCallBack? && acts[i].co != states[i].main && !states[i].cos[acts[i].co].inCoFunc
    requires acts[j].Resume? && Switches(states[j], acts[j]) && acts[j].co == acts[i].co
    requires forall k :: i < k <= j ==> states[k].cur != acts[i].co
    requires forall k :: i < k < j ==> !(acts[k].SetCallBack? && acts[k].co == acts[i].co)
    ensures
      var f, top := Entered(states[j], acts[j]), acts[i].top;
      && f.rsp == top && f.rbp == top && f.ret == CO_FUNCTION && f.rdi == acts[i].self
      && f.rbx == f.rcx == f.rdx == f.rsi == f.r8 == f.r9 == f.r12 == f.r13 == f.r14 == f.r15 == 0
    ensures states[j + 1].cur == acts[i].co
  {
    CallBackKept(states, acts, acts[i].co, i + 1, j);
  }

  // --- The objects ---

  /** `ctx` is the address of m_coctx. */
  class Coroutine {
    const ctx: Word
    const self: Word
    const stackSp: Word
    const stackSize: nat
    var inCoFunc: bool
    var canResume: bool

    constructor (ctx: Word, self: Word, stackSp: Word, stackSize: nat)
      ensures this.ctx == ctx && this.self == self && this.stackSp == stackSp && this.stackSize == stackSize
      ensures !inCoFunc && canResume
    {
      this.ctx, this.self, this.stackSp, this.stackSize := ctx, self, stackSp, stackSize;
      inCoFunc, canResume := false, true;
    }

    ghost function Value(mem: Memory): Co
      reads this
    {
      Co(FrameAt(mem, ctx), inCoFunc, canResume)
    }

    /** The end of the block, rounded down to a multiple of 16. */
    function Top(): Word {
      (stackSp + stackSize) / 16 * 16
    }
  }

  class CoThread {
    const main: Coroutine
    const machine: Machine
    var cur: Coroutine
    ghost const all: set<Coroutine>

    constructor (main: Coroutine, machine: Machine, all: set<Coroutine>)
      ensures this.main == main && this.machine == machine && this.all == all && cur == main
    {
      this.main, this.machine, this.all, cur := main, machine, all, main;
    }

    /** No two contexts overlap. */
    ghost predicate Valid()
      reads this
    {
      main in all && cur in all && forall c, c' :: c in all && c' in all && c != c' ==> Apart(c.ctx, c'.ctx)
    }

    /** The word at `at` lies in no context. */
    ghost predicate Clear(at: Word) {
      forall c :: c in all ==> Outside(at, c.ctx)
    }

    ghost function View(): Thread<Coroutine>
      reads this, machine, all
    {
      Thread(main, cur, map c | c in all :: c.Value(machine.mem))
    }

    /** coctx_swap called from `site`. The word that the call pushes and the one that the switch pops lie in
        no context. */
    method Switch(from: Coroutine, to: Coroutine, site: Word)
      requires Valid() && from in all && to in all && from != to
      requires Clear(machine.rsp - 8) && Clear(FrameAt(machine.mem, to.ctx).rsp)
      modifies machine
      ensures machine.ReturnedTo(old(FrameAt(machine.mem, to.ctx)))
      ensures FrameAt(machine.mem, from.ctx) == old(machine.CallFrom(site, from.ctx, to.ctx))
      ensures forall c :: c in all && c != from ==> FrameAt(machine.mem, c.ctx) == old(FrameAt(machine.mem, c.ctx))
    {
      ghost var m0 := machine.mem;
      machine.Call(site, from.ctx, to.ctx);
      ghost var m1 := machine.mem;
      hide FrameAt;
      forall c | c in all ensures FrameAt(m1, c.ctx) == FrameAt(m0, c.ctx) {
        FrameKept(m0, m1, c.ctx);
      }
      machine.CoctxSwap();
      forall c | c in all && c != from ensures FrameAt(machine.mem, c.ctx) == FrameAt(m1, c.ctx) {
        FrameKept(m1, machine.mem, c.ctx);
      }
    }

    /** `site` is where the call of coctx_swap in Yield returns to. */
    method Yield(site: Word)
      requires Valid()
      requires cur != main ==> Clear(machine.rsp - 8) && Clear(FrameAt(machine.mem, main.ctx).rsp)
      modifies this`cur, machine
      ensures Valid()
      ensures
        var act := Act.Yield(old(machine.CallFrom(site, cur.ctx, main.ctx)));
        && View() == Do(old(View()), act)
        && (Switches(old(View()), act) ==> machine.ReturnedTo(Entered(old(View()), act)))
      ensures cur == main
      ensures old(cur) == main ==> unchanged(machine)
      ensures old(cur) != main ==> machine.ReturnedTo(old(FrameAt(machine.mem, main.ctx)))
      ensures old(cur) != main ==>
        FrameAt(machine.mem, old(cur.ctx)) == old(machine.CallFrom(site, cur.ctx, main.ctx))
    {
      hide FrameAt;
      if cur == main {
        return;
      }
      var co := cur;
      cur := main;
      Switch(co, main, site);
    }

    method Resume(co: Coroutine, site: Word)
      requires Valid() && co in all
      requires cur == main && co != cur ==> Clear(machine.rsp - 8) && Clear(FrameAt(machine.mem, co.ctx).rsp)
      modifies this`cur, machine
      ensures Valid()
      ensures
        var act := Act.Resume(co, old(machine.CallFrom(site, main.ctx, co.ctx)));
        && View() == Do(old(View()), act)
        && (Switches(old(View()), act) ==> machine.ReturnedTo(Entered(old(View()), act)))
      ensures
        var refused := old(cur) != main || !co.canResume || co == main;
        && (refused ==> cur == old(cur) && unchanged(machine))
        && (!refused ==> cur == co && machine.ReturnedTo(old(FrameAt(machine.mem, co.ctx))))
        && (!refused ==> FrameAt(machine.mem, main.ctx) == old(machine.CallFrom(site, main.ctx, co.ctx)))
    {
      hide FrameAt;
      if cur != main || !co.canResume || cur == co {
        return;
      }
      cur := co;
      Switch(main, co, site);
    }

    method SetCallBack(co: Coroutine) returns (ok: bool)
      requires Valid() && co in all
      modifies co`canResume, machine`mem
      ensures Valid() && View() == Do(old(View()), Act.SetCallBack(co, co.Top(), co.self))
      ensures ok <==> co != main && !old(co.inCoFunc)
      ensures !ok ==> machine.mem == old(machine.mem) && co.canResume == old(co.canResume)
      ensures ok ==> co.canResume
      ensures
        var f := FrameAt(machine.mem, co.ctx);
        ok ==>
          && f.rsp == f.rbp && f.rsp % 16 == 0
          && co.stackSp + co.stackSize - 16 < f.rsp <= co.stackSp + co.stackSize
          && f.rdi == co.self && f.ret == CO_FUNCTION
          && f.rbx == f.rcx == f.rdx == f.rsi == f.r8 == f.r9 == f.r12 == f.r13 == f.r14 == f.r15 == 0
    {
      hide FrameAt;
      if co == main || co.inCoFunc {
        return false;
      }
      WriteFresh(co.ctx, co.Top(), co.self);
      co.canResume := true;
      ok := true;
    }

    /** memset and the four assignments. */
    method WriteFresh(ctx: Word, top: Word, self: Word)
      requires Valid() && exists c :: c in all && c.ctx == ctx
      modifies machine`mem
      ensures FrameAt(machine.mem, ctx) == Fresh(top, self)
      ensures forall c :: c in all && c.ctx != ctx ==> FrameAt(machine.mem, c.ctx) == old(FrameAt(machine.mem, c.ctx))
    {
      ghost var m0 := machine.mem;
      var mem := Stored(machine.mem, ctx, ZEROED);
      StoredFrame(machine.mem, ctx, ZEROED);
      machine.mem := mem[ctx + 104 := top][ctx + 48 := top][ctx + 72 := CO_FUNCTION][ctx + 56 := self];
      hide Stored;
      forall c | c in all && c.ctx != ctx ensures FrameAt(machine.mem, c.ctx) == FrameAt(m0, c.ctx) {
        FrameKept(m0, machine.mem, c.ctx);
      }
    }
  }
}
