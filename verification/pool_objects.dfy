/** CoroutinePool over Memory objects. */
module PoolObjects {
  import opened Arenas
  import opened CoroutinePools

  class CoroutinePool {
    const poolSize: nat
    const stackSize: nat
    var freeCors: seq<Slot>
    var sps: seq<Address>            // the stacks of the pooled coroutines
    var memoryPool: seq<Memory>
    ghost var out: set<Handle>

    /** `start` is what malloc returns for the first arena. */
    constructor (poolSize: nat, stackSize: nat, start: Address)
      ensures this.poolSize == poolSize && this.stackSize == stackSize
      ensures Valid() && View() == Initial(poolSize, stackSize, start)
    {
      this.poolSize, this.stackSize := poolSize, stackSize;
      freeCors, sps, out := [], [], {};
      var first := new Memory(stackSize, poolSize, start);
      memoryPool := [first];
      new;
      var i := 0;
      while i < poolSize
        invariant 0 <= i <= poolSize && memoryPool == [first] && out == {} && fresh(first)
        invariant first.Valid() && first.start == start && first.blockSize == stackSize && first.refCounts == i
        invariant |first.blocks| == poolSize && forall k :: 0 <= k < poolSize ==> (first.blocks[k] <==> k < i)
        invariant freeCors == seq(i, _ => Slot(false, false))
        invariant |sps| == i && forall k :: 0 <= k < i ==> sps[k] == first.View().BlockAt(k)
      {
        FirstFreeIs(first.blocks, i);
        var ok, sp := first.GetBlock();
        sps := sps + [sp];
        freeCors := freeCors + [Slot(false, false)];
        i := i + 1;
      }
      assert first.blocks == seq(poolSize, _ => true);
    }

    ghost predicate Valid()
      reads this, memoryPool
    {
      && |freeCors| == |sps| == poolSize && memoryPool != []
      && (forall i, j :: 0 <= i < j < |memoryPool| ==> memoryPool[i] != memoryPool[j])
      && (forall k :: 0 <= k < |memoryPool| ==> memoryPool[k].Valid())
      && (forall i :: 0 <= i < poolSize ==> sps[i] == memoryPool[0].View().BlockAt(i))
    }

    ghost function ArenasOf(): seq<Arena>
      reads this, memoryPool
    {
      seq(|memoryPool|, k requires 0 <= k < |memoryPool| reads this, memoryPool => memoryPool[k].View())
    }

    ghost function View(): Pool
      reads this, memoryPool
    {
      Pool(poolSize, stackSize, ArenasOf(), freeCors, out)
    }

    /** `start` is what malloc returns if a new arena is made. */
    method GetCoroutineInstanse(start: Address) returns (h: Handle)
      requires Valid() && poolSize > 0
      modifies this`freeCors, this`memoryPool, this`out, memoryPool
      ensures Valid() && (View(), h) == Get(old(View()), start)
    {
      var i := 0;
      while i < poolSize
        invariant 0 <= i <= poolSize
        invariant FirstIdle(freeCors, 0) == FirstIdle(freeCors, i)
      {
        if !freeCors[i].inCoFunc && !freeCors[i].handed {
          freeCors := freeCors[i := freeCors[i].(handed := true)];
          h := Handle(i, sps[i]);
          out := out + {h};
          assert ArenasOf() == old(ArenasOf());
          assert FirstIdle(old(freeCors), 0) == i;
          assert sps[i] == old(ArenasOf())[0].BlockAt(i);
          return;
        }
        i := i + 1;
      }
      h := GetOverflow(start);
    }

    /** The second half: a block of a further arena, or of a new one. */
    method GetOverflow(start: Address) returns (h: Handle)
      requires Valid() && poolSize > 0
      modifies this`memoryPool, this`out, memoryPool
      ensures Valid() && freeCors == old(freeCors)
      ensures
        var p := old(View());
        var k := FirstRoom(p.arenas, 1);
        (View(), h) == if k < |p.arenas| then Hand(p, p.arenas, k) else Hand(p, p.arenas + [NewArena(p, start)], k)
    {
      hide Arena.BlockAt, Arena.Take, FirstFree, Count, NewArena;
      ghost var p := View();
      var i := 1;
      while i < |memoryPool|
        invariant 1 <= i <= |memoryPool| && Valid()
        invariant memoryPool == old(memoryPool) && freeCors == old(freeCors) && out == old(out) && View() == p
        invariant FirstRoom(p.arenas, 1) == FirstRoom(p.arenas, i)
      {
        var ok, tmp := memoryPool[i].GetBlock();
        if ok {
          h := Handle(-1, tmp);
          out := out + {h};
          assert ArenasOf() == p.arenas[i := p.arenas[i].Take()];
          return;
        }
        assert ArenasOf() == p.arenas;
        i := i + 1;
      }
      h := GetFromNew(start);
    }

    method GetFromNew(start: Address) returns (h: Handle)
      requires Valid() && poolSize > 0
      modifies this`memoryPool, this`out
      ensures Valid() && freeCors == old(freeCors)
      ensures
        var p := old(View());
        (View(), h) == Hand(p, p.arenas + [NewArena(p, start)], |p.arenas|)
    {
      var more := new Memory(stackSize, poolSize, start);
      memoryPool := memoryPool + [more];
      ghost var grown := ArenasOf();
      assert grown == old(ArenasOf()) + [NewArena(old(View()), start)];
      var ok, tmp := more.GetBlock();
      h := Handle(-1, tmp);
      out := out + {h};
      var k := |memoryPool| - 1;
      assert ArenasOf() == grown[k := grown[k].Take()];
    }

    method ReturnCoroutine(h: Handle)
      requires Valid()
      modifies this`freeCors, this`out, memoryPool
      ensures Valid() && View() == Return(old(View()), h)
    {
      hide Arena.BlockAt, FirstFree, Count;
      out := out - {h};
      if 0 <= h.index < poolSize {
        freeCors := freeCors[h.index := freeCors[h.index].(handed := false)];
        return;
      }
      ghost var arenas := ArenasOf();
      var i := 1;
      while i < |memoryPool|
        invariant 1 <= i <= |memoryPool| && Valid() && |arenas| == |memoryPool|
        invariant memoryPool == old(memoryPool) && freeCors == old(freeCors) && out == old(out) - {h}
        invariant forall k :: 0 <= k < |memoryPool| ==>
          memoryPool[k].View() == if 1 <= k < i then arenas[k].Back(h.sp) else arenas[k]
      {
        if memoryPool[i].HasBlock(h.sp) {
          memoryPool[i].BackBlock(h.sp);
        }
        i := i + 1;
      }
    }
  }

  lemma FirstFreeIs(blocks: seq<bool>, i: nat)
    requires i < |blocks| && forall k :: 0 <= k < |blocks| ==> (blocks[k] <==> k < i)
    ensures FirstFree(blocks, 0) == i
  {
    var f := FirstFree(blocks, 0);
    assert !blocks[i];
  }
}
