/** The coroutine pool: coroutines made once, and overflow coroutines on blocks of further arenas. */
module CoroutinePools {
  import opened Arenas

  /** What the pool hands out: a coroutine's index, -1 for an overflow one, and its stack. */
  datatype Handle = Handle(index: int, sp: Address)

  /** m_free_cors[i]: whether it is handed out, and the coroutine's own m_is_in_cofunc. */
  datatype Slot = Slot(handed: bool, inCoFunc: bool)

  /** `out` is history that no operation reads: what is handed out and not yet returned. */
  datatype Pool = Pool(size: nat, stackSize: nat, arenas: seq<Arena>, free: seq<Slot>, out: set<Handle>)

  /** The constructor takes every block of the first arena in order. `start` is what malloc returns. */
  function Initial(size: nat, stackSize: nat, start: Address): Pool {
    Pool(size, stackSize, [Arena(start, stackSize, seq(size, _ => true), size)], seq(size, _ => Slot(false, false)), {})
  }

  function FirstIdle(free: seq<Slot>, from: nat): (i: nat)
    requires from <= |free|
    ensures from <= i <= |free| && (i < |free| ==> !free[i].handed && !free[i].inCoFunc)
    ensures forall k :: from <= k < i ==> free[k].handed || free[k].inCoFunc
    decreases |free| - from
  {
    if from == |free| || (!free[from].inCoFunc && !free[from].handed) then from else FirstIdle(free, from + 1)
  }

  /** The first arena from `from` on with a free block. */
  function FirstRoom(arenas: seq<Arena>, from: nat): (k: nat)
    requires from <= |arenas|
    ensures from <= k <= |arenas| && (k < |arenas| ==> arenas[k].Free() < |arenas[k].taken|)
    ensures forall j :: from <= j < k ==> arenas[j].Free() >= |arenas[j].taken|
    decreases |arenas| - from
  {
    if from == |arenas| || arenas[from].Free() < |arenas[from].taken| then from else FirstRoom(arenas, from + 1)
  }

  function NewArena(p: Pool, start: Address): Arena {
    Arena(start, p.stackSize, seq(p.size, _ => false), 0)
  }

  /** Handing out block `b` of arena `k`, which is the first free one. */
  function Hand(p: Pool, arenas: seq<Arena>, k: nat): (Pool, Handle)
    requires k < |arenas| && arenas[k].Free() < |arenas[k].taken|
  {
    var a := arenas[k];
    var h := Handle(-1, a.BlockAt(a.Free()));
    (p.(arenas := arenas[k := a.Take()], out := p.out + {h}), h)
  }

  /** getCoroutineInstanse; `start` is what malloc would return for a new arena. */
  function Get(p: Pool, start: Address): (Pool, Handle)
    requires p.size > 0 && |p.free| == p.size && p.arenas != []
  {
    var i := FirstIdle(p.free, 0);
    if i < p.size then
      var h := Handle(i, p.arenas[0].BlockAt(i));
      (p.(free := p.free[i := p.free[i].(handed := true)], out := p.out + {h}), h)
    else
      var k := FirstRoom(p.arenas, 1);
      if k < |p.arenas| then Hand(p, p.arenas, k) else Hand(p, p.arenas + [NewArena(p, start)], k)
  }

  /** returnCoroutine. */
  function Return(p: Pool, h: Handle): Pool {
    if 0 <= h.index < p.size && h.index < |p.free| then
      p.(free := p.free[h.index := p.free[h.index].(handed := false)], out := p.out - {h})
    else
      p.(arenas := seq(|p.arenas|, k requires 0 <= k < |p.arenas| =>
           if k > 0 then p.arenas[k].Back(h.sp) else p.arenas[k]),
         out := p.out - {h})
  }

  // --- The invariant ---

  predicate ArenasApart(a: Arena, b: Arena) {
    a.Limit() <= b.start || b.Limit() <= a.start
  }

  ghost predicate GoodArenas(arenas: seq<Arena>, size: nat, stackSize: nat) {
    && arenas != []
    && (forall k :: 0 <= k < |arenas| ==>
          arenas[k].Valid() && arenas[k].blockSize == stackSize && |arenas[k].taken| == size)
    && (forall i, j :: 0 <= i < j < |arenas| ==> ArenasApart(arenas[i], arenas[j]))
  }

  /** h is the overflow coroutine on block b of arena k. */
  predicate Overflow(arenas: seq<Arena>, h: Handle, k: nat, b: nat) {
    1 <= k < |arenas| && b < |arenas[k].taken| && h == Handle(-1, arenas[k].BlockAt(b))
  }

  predicate Taken(arenas: seq<Arena>, h: Handle, k: nat, b: nat) {
    Overflow(arenas, h, k, b) && arenas[k].taken[b]
  }

  ghost predicate Owned(p: Pool, h: Handle)
    requires |p.free| == p.size && p.arenas != []
  {
    if h.index == -1 then exists k: nat, b: nat :: Taken(p.arenas, h, k, b)
    else 0 <= h.index < p.size && h.sp == p.arenas[0].BlockAt(h.index) && p.free[h.index].handed
  }

  ghost predicate Inv(p: Pool) {
    && p.size > 0 && p.stackSize > 0 && |p.free| == p.size && GoodArenas(p.arenas, p.size, p.stackSize)
    && (forall h :: h in p.out ==> Owned(p, h))
    && (forall i :: 0 <= i < p.size && p.free[i].handed ==> Handle(i, p.arenas[0].BlockAt(i)) in p.out)
    && (forall k: nat, b: nat, h :: Taken(p.arenas, h, k, b) ==> h in p.out)
  }

  /** Two different blocks of the arenas do not overlap. */
  lemma BlocksDisjoint(arenas: seq<Arena>, size: nat, stackSize: nat, k: nat, b: nat, k': nat, b': nat)
    requires stackSize > 0 && GoodArenas(arenas, size, stackSize)
    requires k < |arenas| && k' < |arenas| && b < size && b' < size && (k != k' || b != b')
    ensures
      var s, s' := arenas[k].BlockAt(b), arenas[k'].BlockAt(b');
      s + stackSize <= s' || s' + stackSize <= s
  {
    AddressRoundTrip(arenas[k], b);
    AddressRoundTrip(arenas[k'], b');
    if k == k' {
      hide GoodArenas;
      if b < b' { BlocksApart(arenas[k], b, b'); } else { BlocksApart(arenas[k], b', b); }
    } else if k < k' {
      assert ArenasApart(arenas[k], arenas[k']);
    } else {
      assert ArenasApart(arenas[k'], arenas[k]);
    }
  }

  /** Only the arena that a block belongs to has it. */
  lemma OnlyOwnArena(arenas: seq<Arena>, size: nat, stackSize: nat, k: nat, b: nat, j: nat)
    requires stackSize > 0 && GoodArenas(arenas, size, stackSize) && k < |arenas| && j < |arenas| && b < size
    ensures arenas[j].Has(arenas[k].BlockAt(b)) <==> j == k
    ensures arenas[k].IndexOf(arenas[k].BlockAt(b)) == b
  {
    AddressRoundTrip(arenas[k], b);
    if j < k { assert ArenasApart(arenas[j], arenas[k]); }
    if k < j { assert ArenasApart(arenas[k], arenas[j]); }
    hide GoodArenas, Arena.BlockAt, Arena.IndexOf;
  }

  /** Coroutines that are out have pairwise disjoint stacks. */
  lemma OutDisjoint(p: Pool, h: Handle, h': Handle)
    requires Inv(p) && h in p.out && h' in p.out && h != h'
    ensures h.sp + p.stackSize <= h'.sp || h'.sp + p.stackSize <= h.sp
  {
    var k, b := Place(p, h);
    var k', b' := Place(p, h');
    hide Inv, Owned, Overflow, Arena.BlockAt;
    BlocksDisjoint(p.arenas, p.size, p.stackSize, k, b, k', b');
  }

  /** The arena and block of what is out. */
  lemma Place(p: Pool, h: Handle) returns (k: nat, b: nat)
    requires Inv(p) && h in p.out
    ensures GoodArenas(p.arenas, p.size, p.stackSize) && p.stackSize > 0
    ensures k < |p.arenas| && b < p.size && h == Handle(if k == 0 then b else -1, p.arenas[k].BlockAt(b))
    ensures k > 0 ==> p.arenas[k].taken[b]
  {
    assert Owned(p, h);
    if h.index == -1 {
      k, b :| Taken(p.arenas, h, k, b);
    } else {
      k, b := 0, h.index;
    }
    hide Arena.BlockAt;
  }

  // --- Every operation keeps it ---

  /** The bits of one arena change; where its blocks are does not. */
  lemma GoodUpdate(arenas: seq<Arena>, k: nat, a: Arena, size: nat, stackSize: nat)
    requires GoodArenas(arenas, size, stackSize) && k < |arenas|
    requires a.Valid() && a.start == arenas[k].start && a.blockSize == stackSize && |a.taken| == size
    ensures GoodArenas(arenas[k := a], size, stackSize)
    ensures forall h, j: nat, b: nat :: Overflow(arenas[k := a], h, j, b) <==> Overflow(arenas, h, j, b)
  {
    var arenas' := arenas[k := a];
    assert a.Limit() == arenas[k].Limit();
    forall i, j | 0 <= i < j < |arenas'| ensures ArenasApart(arenas'[i], arenas'[j]) {
      assert ArenasApart(arenas[i], arenas[j]);
    }
    assert forall b: nat :: a.BlockAt(b) == arenas[k].BlockAt(b);
  }

  lemma HandKeeps(p: Pool, k: nat)
    requires Inv(p) && 1 <= k < |p.arenas| && p.arenas[k].Free() < |p.arenas[k].taken|
    ensures
      var (q, h) := Hand(p, p.arenas, k);
      Inv(q) && h !in p.out && q.out == p.out + {h}
  {
    var a := p.arenas[k];
    var f := a.Free();
    var (q, h) := Hand(p, p.arenas, k);
    TakeKeeps(a);
    GoodUpdate(p.arenas, k, a.Take(), p.size, p.stackSize);
    assert Overflow(p.arenas, h, k, f);
    hide Arena.BlockAt, GoodArenas;
    assert h !in p.out by {
      if h in p.out {
        assert Owned(p, h);
        var k': nat, b': nat :| Taken(p.arenas, h, k', b');
        SameBlock(p, h, k, f, k', b');
      }
    }
    HandOwned(p, q, h, k, f);
  }

  /** An overflow handle is on one block only. */
  lemma SameBlock(p: Pool, h: Handle, k: nat, b: nat, k': nat, b': nat)
    requires p.stackSize > 0 && GoodArenas(p.arenas, p.size, p.stackSize)
    requires Overflow(p.arenas, h, k, b) && Overflow(p.arenas, h, k', b')
    ensures k == k' && b == b'
  {
    if k != k' || b != b' { BlocksDisjoint(p.arenas, p.size, p.stackSize, k, b, k', b'); }
  }

  lemma HandOwned(p: Pool, q: Pool, h: Handle, k: nat, f: nat)
    requires Inv(p) && Overflow(p.arenas, h, k, f)
    requires q == p.(arenas := q.arenas, out := p.out + {h}) && GoodArenas(q.arenas, p.size, p.stackSize)
    requires |q.arenas| == |p.arenas| && q.arenas == p.arenas[k := q.arenas[k]] && q.arenas[k].taken == p.arenas[k].taken[f := true]
    requires forall h, j: nat, b: nat :: Overflow(q.arenas, h, j, b) <==> Overflow(p.arenas, h, j, b)
    ensures Inv(q)
  {
    hide Arena.BlockAt, GoodArenas;
    forall x | x in q.out ensures Owned(q, x) {
      if x == h {
        assert Taken(q.arenas, x, k, f);
      } else {
        assert Owned(p, x);
        if x.index == -1 {
          var j: nat, b: nat :| Taken(p.arenas, x, j, b);
          assert Taken(q.arenas, x, j, b);
        }
      }
    }
    forall j: nat, b: nat, x | Taken(q.arenas, x, j, b) ensures x in q.out {
      if j == k && b == f { assert x == h; } else { assert Taken(p.arenas, x, j, b); }
    }
  }

  lemma GrowKeeps(p: Pool, start: Address)
    requires Inv(p) && forall k :: 0 <= k < |p.arenas| ==> ArenasApart(p.arenas[k], NewArena(p, start))
    ensures Inv(p.(arenas := p.arenas + [NewArena(p, start)]))
    ensures NewArena(p, start).Free() == 0
  {
    var q := p.(arenas := p.arenas + [NewArena(p, start)]);
    NoneTaken(p.size);
    hide Arena.BlockAt;
    assert GoodArenas(q.arenas, p.size, p.stackSize) by { hide Owned, Taken; }
    forall x | x in q.out ensures Owned(q, x) {
      hide GoodArenas;
      assert Owned(p, x);
      if x.index == -1 {
        var j: nat, b: nat :| Taken(p.arenas, x, j, b);
        assert Taken(q.arenas, x, j, b);
      }
    }
    forall j: nat, b: nat, x | Taken(q.arenas, x, j, b) ensures x in q.out {
      hide GoodArenas;
      assert j < |p.arenas|;
      assert Taken(p.arenas, x, j, b);
    }
  }

  lemma {:induction false} NoneTaken(n: nat)
    ensures Count(seq(n, _ => false)) == 0
  {
    if n > 0 {
      assert seq(n, _ => false)[1..] == seq(n - 1, _ => false);
      NoneTaken(n - 1);
    }
  }

  lemma {:induction false} AllTaken(n: nat)
    ensures Count(seq(n, _ => true)) == n
  {
    if n > 0 {
      assert seq(n, _ => true)[1..] == seq(n - 1, _ => true);
      AllTaken(n - 1);
    }
  }

  lemma InitialInv(size: nat, stackSize: nat, start: Address)
    requires size > 0 && stackSize > 0
    ensures Inv(Initial(size, stackSize, start))
  {
    AllTaken(size);
  }

  /** What is handed out was not out, and its stack is disjoint from every stack that is. */
  lemma GetKeeps(p: Pool, start: Address)
    requires Inv(p) && forall k :: 0 <= k < |p.arenas| ==> ArenasApart(p.arenas[k], NewArena(p, start))
    ensures
      var (q, h) := Get(p, start);
      && Inv(q) && h !in p.out && q.out == p.out + {h}
      && forall x :: x in p.out ==> h.sp + p.stackSize <= x.sp || x.sp + p.stackSize <= h.sp
  {
    var (q, h) := Get(p, start);
    var i := FirstIdle(p.free, 0);
    if i < p.size {
      PoolKeeps(p, i, true);
    } else {
      var k := FirstRoom(p.arenas, 1);
      if k < |p.arenas| {
        HandKeeps(p, k);
      } else {
        GrowKeeps(p, start);
        HandKeeps(p.(arenas := p.arenas + [NewArena(p, start)]), k);
      }
    }
    hide Get, Inv;
    forall x | x in p.out ensures h.sp + p.stackSize <= x.sp || x.sp + p.stackSize <= h.sp {
      OutDisjoint(q, h, x);
    }
  }

  /** Handing out or returning the coroutine with index i. */
  lemma PoolKeeps(p: Pool, i: nat, handed: bool)
    requires Inv(p) && i < p.size && p.free[i].handed != handed
    ensures
      var h := Handle(i, p.arenas[0].BlockAt(i));
      && (h in p.out <==> !handed)
      && Inv(p.(free := p.free[i := p.free[i].(handed := handed)], out := if handed then p.out + {h} else p.out - {h}))
  {
    var h := Handle(i, p.arenas[0].BlockAt(i));
    var q := p.(free := p.free[i := p.free[i].(handed := handed)], out := if handed then p.out + {h} else p.out - {h});
    hide Arena.BlockAt, GoodArenas, Overflow;
    assert h in p.out ==> Owned(p, h);
    forall x | x in q.out ensures Owned(q, x) {
      assert x in p.out ==> Owned(p, x);
    }
    forall j: nat, b: nat, x | Taken(q.arenas, x, j, b) ensures x in q.out {
      assert Taken(p.arenas, x, j, b);
      assert x.index == -1 by { assert Overflow(p.arenas, x, j, b); OverflowIndex(p.arenas, x, j, b); }
    }
  }

  lemma OverflowIndex(arenas: seq<Arena>, h: Handle, k: nat, b: nat)
    requires Overflow(arenas, h, k, b)
    ensures h.index == -1
  {
  }

  predicate Idle(s: Slot) {
    !s.handed && !s.inCoFunc
  }

  /** The first idle coroutine is what a get hands out, and the return of it changes nothing but its flag, whether
      its callback has ended or not. */
  lemma FirstIdleIsHanded(p: Pool, start: Address, i: nat, busy: bool)
    requires Inv(p) && i < p.size && Idle(p.free[i]) && forall j :: 0 <= j < i ==> !Idle(p.free[j])
    ensures p.arenas != [] && |p.free| == p.size
    ensures
      var (q, h) := Get(p, start);
      && h == Handle(i, p.arenas[0].start + i * p.stackSize)
      && q == p.(free := p.free[i := Slot(true, false)], out := p.out + {h})
      && Return(q.(free := q.free[i := Slot(true, busy)]), h) == p.(free := p.free[i := Slot(false, busy)])
  {
    var h := Handle(i, p.arenas[0].start + i * p.stackSize);
    hide FirstRoom, Taken, Arena.Take, Arena.Free;
    assert FirstIdle(p.free, 0) == i;
    assert !Owned(p, h);
    assert p.out + {h} - {h} == p.out;
  }

  /** No pooled coroutine is idle, and no further arena has a free block. */
  ghost predicate Exhausted(p: Pool) {
    && (forall i :: 0 <= i < |p.free| ==> !Idle(p.free[i]))
    && (forall k, b :: 1 <= k < |p.arenas| && 0 <= b < |p.arenas[k].taken| ==> p.arenas[k].taken[b])
  }

  lemma FullIff(a: Arena)
    ensures a.Free() >= |a.taken| <==> forall b :: 0 <= b < |a.taken| ==> a.taken[b]
  {
  }

  /** getCoroutineInstanse makes a new arena exactly when nothing it has is free, and then one only. */
  lemma NewArenaIff(p: Pool, start: Address)
    requires p.size > 0 && |p.free| == p.size && p.arenas != []
    ensures
      var q := Get(p, start).0;
      |q.arenas| == if Exhausted(p) then |p.arenas| + 1 else |p.arenas|
  {
    forall k | 0 <= k < |p.arenas|
      ensures p.arenas[k].Free() >= |p.arenas[k].taken| <==>
              forall b :: 0 <= b < |p.arenas[k].taken| ==> p.arenas[k].taken[b]
    {
      FullIff(p.arenas[k]);
    }
    var i := FirstIdle(p.free, 0);
    hide Arena.BlockAt, Arena.Take, Arena.Free, FirstIdle, FirstRoom;
    if i == p.size {
      var k := FirstRoom(p.arenas, 1);
      if k == |p.arenas| { FullIff(NewArena(p, start)); }
    }
  }

  /** A block given back is free for the next get, so that one makes no new arena. */
  lemma ReturnedIsReused(p: Pool, h: Handle, start: Address)
    requires Inv(p) && h in p.out && h.index == -1
    ensures var q := Return(p, h); q.size > 0 && |q.free| == q.size && q.arenas != []
    ensures |Get(Return(p, h), start).0.arenas| == |p.arenas|
  {
    hide Arena.BlockAt, GoodArenas;
    assert Owned(p, h);
    var k: nat, b: nat :| Taken(p.arenas, h, k, b);
    ReturnFreesOwnBlock(p, h, k, b);
    NewArenaIff(Return(p, h), start);
    assert !Return(p, h).arenas[k].taken[b];
  }

  /** Returning an overflow coroutine frees its own block and nothing else. */
  lemma ReturnFreesOwnBlock(p: Pool, h: Handle, k: nat, b: nat)
    requires Inv(p) && Taken(p.arenas, h, k, b)
    ensures
      var a := p.arenas[k];
      Return(p, h) ==
      p.(arenas := p.arenas[k := a.(taken := a.taken[b := false], refs := a.refs - 1)], out := p.out - {h})
  {
    var a := p.arenas[k];
    forall j: nat | j < |p.arenas| ensures p.arenas[j].Has(h.sp) <==> j == k {
      OnlyOwnArena(p.arenas, p.size, p.stackSize, k, b, j);
    }
    OnlyOwnArena(p.arenas, p.size, p.stackSize, k, b, k);
    hide Arena.BlockAt, Arena.IndexOf, Arena.Has, Inv;
    assert a.Back(h.sp) == a.(taken := a.taken[b := false], refs := a.refs - 1);
  }

  lemma ReturnKeeps(p: Pool, h: Handle)
    requires Inv(p) && h in p.out
    ensures Inv(Return(p, h)) && Return(p, h).out == p.out - {h}
  {
    assert Owned(p, h);
    if h.index != -1 {
      PoolKeeps(p, h.index, false);
    } else {
      var k: nat, b: nat :| Taken(p.arenas, h, k, b);
      ReturnFreesOwnBlock(p, h, k, b);
      var a := p.arenas[k];
      var a' := a.(taken := a.taken[b := false], refs := a.refs - 1);
      CountSet(a.taken, b, false);
      GoodUpdate(p.arenas, k, a', p.size, p.stackSize);
      hide Return, GoodArenas, Arena.BlockAt;
      ReturnOwned(p, p.(arenas := p.arenas[k := a'], out := p.out - {h}), h, k, b);
    }
  }

  lemma ReturnOwned(p: Pool, q: Pool, h: Handle, k: nat, b: nat)
    requires Inv(p) && Taken(p.arenas, h, k, b)
    requires q == p.(arenas := q.arenas, out := p.out - {h}) && GoodArenas(q.arenas, p.size, p.stackSize)
    requires |q.arenas| == |p.arenas| && q.arenas == p.arenas[k := q.arenas[k]] && q.arenas[k].taken == p.arenas[k].taken[b := false]
    requires forall h, j: nat, b: nat :: Overflow(q.arenas, h, j, b) <==> Overflow(p.arenas, h, j, b)
    ensures Inv(q)
  {
    hide Arena.BlockAt, GoodArenas;
    forall x | x in q.out ensures Owned(q, x) {
      assert Owned(p, x);
      if x.index == -1 {
        var j: nat, c: nat :| Taken(p.arenas, x, j, c);
        assert j != k || c != b;
        assert Taken(q.arenas, x, j, c);
      }
    }
    forall j: nat, c: nat, x | Taken(q.arenas, x, j, c) ensures x in q.out {
      assert Taken(p.arenas, x, j, c);
      if x == h { SameBlock(p, h, k, b, j, c); }
    }
  }

  // --- Whole runs ---

  datatype Act =
    | GetOne(start: Address)                // what malloc would return
    | ReturnOne(handle: Handle)
    | SetInCoFunc(index: nat, value: bool)  // a pooled coroutine starts or ends its callback

  /** malloc returns memory of its own, and callers return what they hold. */
  ghost predicate Enabled(p: Pool, a: Act) {
    match a
    case GetOne(start) =>
      && p.size > 0 && |p.free| == p.size && p.arenas != []
      && forall k :: 0 <= k < |p.arenas| ==> ArenasApart(p.arenas[k], NewArena(p, start))
    case ReturnOne(h) => h in p.out
    case SetInCoFunc(i, _) => i < |p.free|
  }

  ghost function Do(p: Pool, a: Act): Pool
    requires Enabled(p, a)
  {
    match a
    case GetOne(start) => Get(p, start).0
    case ReturnOne(h) => Return(p, h)
    case SetInCoFunc(i, v) => p.(free := p.free[i := p.free[i].(inCoFunc := v)])
  }

  lemma DoKeeps(p: Pool, a: Act)
    requires Inv(p) && Enabled(p, a)
    ensures Inv(Do(p, a))
  {
    match a
    case GetOne(start) => GetKeeps(p, start);
    case ReturnOne(h) => ReturnKeeps(p, h);
    case SetInCoFunc(i, v) =>
      var q := Do(p, a);
      hide GoodArenas, Arena.BlockAt, Taken, Do;
      assert q == p.(free := q.free) && forall k :: 0 <= k < p.size ==> q.free[k].handed == p.free[k].handed;
      forall h | h in q.out ensures Owned(q, h) { assert Owned(p, h); }
  }

  ghost predicate Run(states: seq<Pool>, acts: seq<Act>, size: nat, stackSize: nat, start: Address) {
    && |states| == |acts| + 1 && states[0] == Initial(size, stackSize, start)
    && (forall i :: 0 <= i < |acts| ==> Enabled(states[i], acts[i]) && states[i + 1] == Do(states[i], acts[i]))
  }

  /** In every run, coroutines handed out and not yet returned have pairwise disjoint stacks, and every
      arena counts its taken blocks. */
  lemma {:induction false} RunIsSafe(
    states: seq<Pool>, acts: seq<Act>, size: nat, stackSize: nat, start: Address, i: nat)
    requires size > 0 && stackSize > 0 && Run(states, acts, size, stackSize, start) && i < |states|
    ensures Inv(states[i]) && states[i].stackSize == stackSize
    ensures forall h, h' :: h in states[i].out && h' in states[i].out && h != h' ==>
              h.sp + stackSize <= h'.sp || h'.sp + stackSize <= h.sp
    ensures forall k :: 0 <= k < |states[i].arenas| ==> states[i].arenas[k].refs == Count(states[i].arenas[k].taken)
  {
    var p := states[i];
    if i == 0 {
      InitialInv(size, stackSize, start);
    } else {
      RunIsSafe(states, acts, size, stackSize, start, i - 1);
      DoKeeps(states[i - 1], acts[i - 1]);
      hide Inv, Enabled;
    }
    forall h, h' | h in p.out && h' in p.out && h != h'
      ensures h.sp + p.stackSize <= h'.sp || h'.sp + p.stackSize <= h.sp
    {
      OutDisjoint(p, h, h');
    }
    ArenasCount(p);
  }

  lemma ArenasCount(p: Pool)
    requires Inv(p)
    ensures forall k :: 0 <= k < |p.arenas| ==> p.arenas[k].refs == Count(p.arenas[k].taken)
  {
    assert forall k :: 0 <= k < |p.arenas| ==> p.arenas[k].Valid();
  }

  // --- Counting outside the lock ---

  /** m_ref_counts changes after the block's bit, outside the arena's lock. For each arena, what its counter
      reads, and how many increments and decrements threads still have to make. */
  datatype Racing = Racing(pool: Pool, counters: seq<int>, plus: seq<nat>, minus: seq<nat>) {
    ghost predicate Sized() {
      |counters| == |plus| == |minus| == |pool.arenas|
    }
  }

  datatype RacingAct = Bits(act: Act) | CountUp(arena: nat) | CountDown(arena: nat)

  ghost predicate RacingEnabled(s: Racing, a: RacingAct) {
    match a
    case Bits(act) => Enabled(s.pool, act)
    case CountUp(k) => k < |s.plus| && k < |s.counters| && s.plus[k] > 0
    case CountDown(k) => k < |s.minus| && k < |s.counters| && s.minus[k] > 0
  }

  /** getBlock finds a block in arena k. */
  predicate SetsBit(p: Pool, a: Act, k: nat) {
    a.GetOne? && p.arenas != [] && FirstIdle(p.free, 0) == |p.free| && FirstRoom(p.arenas, 1) == k
  }

  /** backBlock is called on arena k. */
  predicate ClearsBit(p: Pool, a: Act, k: nat) {
    && a.ReturnOne? && !(0 <= a.handle.index < p.size && a.handle.index < |p.free|)
    && 0 < k < |p.arenas| && p.arenas[k].Has(a.handle.sp)
  }

  function At<T>(s: seq<T>, k: nat, none: T): T {
    if k < |s| then s[k] else none
  }

  /** The bits change at once and leave the counters as they are; a counter change is made some time later. */
  ghost function RacingDo(s: Racing, a: RacingAct): Racing
    requires RacingEnabled(s, a)
  {
    match a
    case Bits(act) =>
      var q := Do(s.pool, act);
      Racing(q,
        seq(|q.arenas|, k requires 0 <= k < |q.arenas| => At(s.counters, k, 0)),
        seq(|q.arenas|, k requires 0 <= k < |q.arenas| => At(s.plus, k, 0) + if SetsBit(s.pool, act, k) then 1 else 0),
        seq(|q.arenas|, k requires 0 <= k < |q.arenas| => At(s.minus, k, 0) + if ClearsBit(s.pool, act, k) then 1 else 0))
    case CountUp(k) => s.(counters := s.counters[k := s.counters[k] + 1], plus := s.plus[k := s.plus[k] - 1])
    case CountDown(k) => s.(counters := s.counters[k := s.counters[k] - 1], minus := s.minus[k := s.minus[k] - 1])
  }

  /** At first all blocks of the first arena are taken and counted. */
  ghost predicate RacingRun(
    states: seq<Racing>, acts: seq<RacingAct>, size: nat, stackSize: nat, start: Address)
  {
    && |states| == |acts| + 1 && states[0] == Racing(Initial(size, stackSize, start), [size], [0], [0])
    && forall i :: 0 <= i < |acts| ==>
         RacingEnabled(states[i], acts[i]) && states[i + 1] == RacingDo(states[i], acts[i])
  }

  /** Every counter, with the changes still to be made to it, is the number of taken blocks. */
  ghost predicate Accounts(s: Racing) {
    && s.Sized()
    && forall k :: 0 <= k < |s.counters| ==> s.counters[k] + s.plus[k] - s.minus[k] == s.pool.arenas[k].refs
  }

  /** What an operation does to the count of one arena. */
  lemma BitsCount(p: Pool, a: Act, k: nat)
    requires Inv(p) && Enabled(p, a) && k < |Do(p, a).arenas|
    ensures |p.arenas| <= |Do(p, a).arenas|
    ensures Do(p, a).arenas[k].refs ==
      (if k < |p.arenas| then p.arenas[k].refs else 0)
      + (if SetsBit(p, a, k) then 1 else 0) - (if ClearsBit(p, a, k) then 1 else 0)
  {
    hide GoodArenas, Owned, Taken, Count, Arena.BlockAt, Arena.Free, Arena.Has, FirstFree;
    assert p.arenas != [] by { InvHasArenas(p); }
  }

  lemma InvHasArenas(p: Pool)
    requires Inv(p)
    ensures p.arenas != []
  {
  }

  lemma RacingDoKeeps(s: Racing, a: RacingAct)
    requires Inv(s.pool) && Accounts(s) && RacingEnabled(s, a)
    ensures Inv(RacingDo(s, a).pool) && Accounts(RacingDo(s, a))
  {
    hide Inv, Do, Enabled, SetsBit, ClearsBit;
    if a.Bits? {
      DoKeeps(s.pool, a.act);
      var s' := RacingDo(s, a);
      forall k | 0 <= k < |s'.counters|
        ensures s'.counters[k] + s'.plus[k] - s'.minus[k] == s'.pool.arenas[k].refs
      {
        BitsCount(s.pool, a.act, k);
      }
    }
  }

  /** However the counter changes are delayed and reordered, stacks that are out are disjoint, and a counter,
      with the increments and decrements still to come, is the number of taken blocks; so it reads that number
      exactly when as many increments as decrements are still to come. */
  lemma {:induction false} RacingRunIsSafe(
    states: seq<Racing>, acts: seq<RacingAct>, size: nat, stackSize: nat, start: Address, i: nat)
    requires size > 0 && stackSize > 0 && RacingRun(states, acts, size, stackSize, start) && i < |states|
    ensures Inv(states[i].pool) && Accounts(states[i])
    ensures forall h, h' :: h in states[i].pool.out && h' in states[i].pool.out && h != h' ==>
              h.sp + states[i].pool.stackSize <= h'.sp || h'.sp + states[i].pool.stackSize <= h.sp
    ensures
      var s := states[i];
      forall k: nat :: k < |s.counters| ==>
        && s.counters[k] + s.plus[k] - s.minus[k] == Count(s.pool.arenas[k].taken)
        && (s.counters[k] == Count(s.pool.arenas[k].taken) <==> s.plus[k] == s.minus[k])
  {
    hide Inv, RacingEnabled, RacingDo, Count, Initial;
    var p := states[i].pool;
    if i == 0 {
      InitialInv(size, stackSize, start);
      InitialAccounts(size, stackSize, start);
    } else {
      RacingRunIsSafe(states, acts, size, stackSize, start, i - 1);
      RacingDoKeeps(states[i - 1], acts[i - 1]);
    }
    forall h, h' | h in p.out && h' in p.out && h != h'
      ensures h.sp + p.stackSize <= h'.sp || h'.sp + p.stackSize <= h.sp
    {
      OutDisjoint(p, h, h');
    }
    ArenasCount(p);
  }

  lemma InitialAccounts(size: nat, stackSize: nat, start: Address)
    ensures Accounts(Racing(Initial(size, stackSize, start), [size], [0], [0]))
  {
  }

  // --- Coroutines whose callback does not end ---

  /** getCoroutineInstanse, again and again. */
  function Gets(p: Pool, starts: seq<Address>): (q: Pool)
    requires p.size > 0 && |p.free| == p.size && p.arenas != []
    ensures q.size == p.size && |q.free| == p.size && q.arenas != []
    decreases |starts|
  {
    if starts == [] then p else Gets(Get(p, starts[0]).0, starts[1..])
  }

  ghost predicate HandedUpTo(p: Pool, i: nat) {
    && |p.free| == p.size && p.arenas != [] && i <= p.size
    && forall j :: 0 <= j < p.size ==> p.free[j] == Slot(j < i, false)
  }

  lemma {:induction false} GetsInOrder(p: Pool, starts: seq<Address>, i: nat)
    requires p.size > 0 && HandedUpTo(p, i) && i + |starts| <= p.size
    ensures HandedUpTo(Gets(p, starts), i + |starts|) && Gets(p, starts).arenas == p.arenas
    decreases |starts|
  {
    hide FirstIdle, FirstRoom, Hand, NewArena, Arena.BlockAt;
    if starts != [] {
      assert p.free[i] == Slot(false, false);
      GetsInOrder(Get(p, starts[0]).0, starts[1..], i + 1);
    }
  }

  /** A new pool hands out its coroutines in order, coroutine k on block k of the first arena. */
  lemma NewPoolGets(size: nat, stackSize: nat, at: Address, starts: seq<Address>, start: Address)
    requires |starts| < size
    ensures
      var q := Gets(Initial(size, stackSize, at), starts);
      Get(q, start).1 == Handle(|starts|, at + |starts| * stackSize) && |Get(q, start).0.arenas| == 1
  {
    GetsInOrder(Initial(size, stackSize, at), starts, 0);
    var q := Gets(Initial(size, stackSize, at), starts);
    hide Gets, FirstIdle, FirstRoom, Hand, NewArena;
    assert q.free[|starts|] == Slot(false, false);
  }

  /** What one get does to the slots. */
  lemma GetSlots(p: Pool, start: Address)
    requires p.size > 0 && |p.free| == p.size && p.arenas != []
    ensures
      var i, q := FirstIdle(p.free, 0), Get(p, start).0;
      && q.size == p.size && |q.free| == p.size && q.arenas != []
      && q.free == if i < p.size then p.free[i := p.free[i].(handed := true)] else p.free
  {
    hide FirstIdle, FirstRoom, Arena.BlockAt, Arena.Take;
  }

  lemma {:induction false} BusyStays(p: Pool, starts: seq<Address>, i: nat)
    requires p.size > 0 && |p.free| == p.size && p.arenas != []
    requires i < p.size && !p.free[i].handed && p.free[i].inCoFunc
    ensures !Gets(p, starts).free[i].handed
    decreases |starts|
  {
    hide Get, FirstIdle;
    if starts != [] {
      GetSlots(p, starts[0]);
      BusyStays(Get(p, starts[0]).0, starts[1..], i);
    }
  }

  /** How many gets are served before slot i is. */
  function IdleBefore(free: seq<Slot>, i: nat): (n: nat)
    requires i <= |free|
    ensures n == 0 ==> forall k :: 0 <= k < i ==> free[k].handed || free[k].inCoFunc
  {
    if i == 0 then 0
    else IdleBefore(free, i - 1) + if !free[i - 1].handed && !free[i - 1].inCoFunc then 1 else 0
  }

  lemma {:induction false} IdleAfterHand(free: seq<Slot>, j: nat, i: nat)
    requires j < |free| && i <= |free| && !free[j].handed && !free[j].inCoFunc
    ensures IdleBefore(free[j := free[j].(handed := true)], i) == IdleBefore(free, i) - if j < i then 1 else 0
  {
    if i > 0 { IdleAfterHand(free, j, i - 1); }
  }

  /** Enough gets reach every idle slot. */
  lemma {:induction false} IdleComes(p: Pool, i: nat) returns (starts: seq<Address>)
    requires p.size > 0 && |p.free| == p.size && p.arenas != []
    requires i < p.size && !p.free[i].handed && !p.free[i].inCoFunc
    ensures Gets(p, starts).free[i].handed
    decreases IdleBefore(p.free, i)
  {
    hide Get, FirstIdle;
    var j, q := FirstIdle(p.free, 0), Get(p, 0).0;
    GetSlots(p, 0);
    assert j <= i;
    if j == i {
      starts := [0];
      assert [0][1..] == [];
      assert Gets(q, []) == q;
    } else {
      IdleAfterHand(p.free, j, i);
      var more := IdleComes(q, i);
      starts := [0] + more;
      assert starts[1..] == more;
    }
  }

  /** A pooled coroutine that has been returned can be handed out again if and only if its callback has ended.
      A connection's coroutine that gave the thread away for good when its peer closed never ends it. */
  lemma ComesBackIff(p: Pool, i: nat)
    requires Inv(p) && i < p.size && !p.free[i].handed
    ensures p.size > 0 && |p.free| == p.size && p.arenas != []
    ensures (exists starts: seq<Address> :: Gets(p, starts).free[i].handed) <==> !p.free[i].inCoFunc
  {
    hide Gets, Owned, Taken, Arena.BlockAt;
    if p.free[i].inCoFunc {
      forall starts: seq<Address> ensures !Gets(p, starts).free[i].handed { BusyStays(p, starts, i); }
    } else {
      var starts := IdleComes(p, i);
    }
  }

  /** In a whole run, such a coroutine is not handed out before its callback ends, whatever else is got and
      returned. */
  lemma {:induction false} NotBeforeItEnds(
    states: seq<Pool>, acts: seq<Act>, size: nat, stackSize: nat, start: Address, i: nat, j: nat, k: nat)
    requires size > 0 && stackSize > 0 && Run(states, acts, size, stackSize, start)
    requires j <= k < |states| && |states[j].free| == states[j].size > i
    requires !states[j].free[i].handed && states[j].free[i].inCoFunc
    requires forall n :: j <= n < k ==> acts[n] != SetInCoFunc(i, false)
    ensures |states[k].free| == states[k].size > i && !states[k].free[i].handed && states[k].free[i].inCoFunc
    decreases k
  {
    if j < k {
      NotBeforeItEnds(states, acts, size, stackSize, start, i, j, k - 1);
      hide Enabled, Do, Initial;
      BusyStep(states[k - 1], acts[k - 1], i);
    }
  }

  lemma BusyStep(p: Pool, a: Act, i: nat)
    requires Enabled(p, a) && |p.free| == p.size > i && !p.free[i].handed && p.free[i].inCoFunc
    requires a != SetInCoFunc(i, false)
    ensures var q := Do(p, a); |q.free| == q.size > i && !q.free[i].handed && q.free[i].inCoFunc
  {
    hide Get, FirstIdle, FirstRoom, Arena.BlockAt, Arena.Back;
    if a.GetOne? { GetSlots(p, a.start); }
  }
}
