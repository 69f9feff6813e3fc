/** The stack allocator: an arena of equal blocks with a taken bit each. */
module Arenas {
  type Address = int

  /** Memory: `taken` is m_blocks. */
  datatype Arena = Arena(start: Address, blockSize: nat, taken: seq<bool>, refs: int)
  {
    ghost predicate Valid() {
      blockSize > 0 && refs == Count(taken)
    }

    /** One past m_end. */
    function Limit(): Address {
      start + |taken| * blockSize
    }

    function Has(s: Address): bool {
      start <= s <= Limit() - 1
    }

    function BlockAt(i: nat): Address {
      start + i * blockSize
    }

    function IndexOf(s: Address): int
      requires blockSize > 0
    {
      (s - start) / blockSize
    }

    /** The first block that is not taken. */
    function Free(): nat {
      FirstFree(taken, 0)
    }

    function Take(): Arena
      requires Free() < |taken|
    {
      this.(taken := taken[Free() := true], refs := refs + 1)
    }

    function Back(s: Address): Arena {
      if !Has(s) then this
      else
        HasIndex(this, s);
        this.(taken := taken[IndexOf(s) := false], refs := refs - 1)
    }
  }

  function Count(taken: seq<bool>): nat {
    if taken == [] then 0 else (if taken[0] then 1 else 0) + Count(taken[1..])
  }

  function FirstFree(taken: seq<bool>, from: nat): (i: nat)
    requires from <= |taken|
    ensures from <= i <= |taken| && (i < |taken| ==> !taken[i])
    ensures forall k :: from <= k < i ==> taken[k]
    decreases |taken| - from
  {
    if from == |taken| || !taken[from] then from else FirstFree(taken, from + 1)
  }

  lemma DivRange(d: int, size: nat, n: nat)
    requires size > 0 && 0 <= d < n * size
    ensures 0 <= d / size < n && d / size * size <= d < (d / size + 1) * size
  {
    var q := d / size;
    assert d == q * size + d % size;
    if q >= n { MulMono(n, q, size); }
  }

  lemma MulMono(a: int, b: int, k: nat)
    requires a <= b
    ensures a * k <= b * k
  {
    assert (b - a) * k >= 0;
  }

  /** A pointer into the arena has the index of the block it points into. */
  lemma HasIndex(a: Arena, s: Address)
    requires a.Has(s)
    ensures a.blockSize > 0
    ensures 0 <= a.IndexOf(s) < |a.taken|
    ensures a.BlockAt(a.IndexOf(s)) <= s < a.BlockAt(a.IndexOf(s)) + a.blockSize
  {
    DivRange(s - a.start, a.blockSize, |a.taken|);
  }

  /** Index to address and back; every block lies inside the arena. */
  lemma AddressRoundTrip(a: Arena, i: nat)
    requires a.blockSize > 0 && i < |a.taken|
    ensures a.Has(a.BlockAt(i)) && a.IndexOf(a.BlockAt(i)) == i
    ensures a.start <= a.BlockAt(i) && a.BlockAt(i) + a.blockSize <= a.Limit()
  {
    var size := a.blockSize;
    MulMono(i + 1, |a.taken|, size);
    MulMono(0, i, size);
    Distribute(i, size);
    DivUnique(i * size, i, size);
  }

  lemma Distribute(i: int, size: nat)
    ensures (i + 1) * size == i * size + size
  {
  }

  lemma DivUnique(d: int, i: nat, size: nat)
    requires size > 0 && d == i * size
    ensures d / size == i
  {
    var q := d / size;
    assert d == q * size + d % size;
    Distribute(q, size);
    if q < i { MulMono(q + 1, i, size); }
    if q > i { Distribute(i, size); MulMono(i + 1, q, size); }
  }

  lemma BlocksApart(a: Arena, i: nat, j: nat)
    requires i < j
    ensures a.BlockAt(i) + a.blockSize <= a.BlockAt(j)
  {
    MulMono(i + 1, j, a.blockSize);
    assert (i + 1) * a.blockSize == i * a.blockSize + a.blockSize;
  }

  lemma {:induction false} CountSet(taken: seq<bool>, i: nat, v: bool)
    requires i < |taken|
    ensures Count(taken[i := v]) == Count(taken) + (if v then 1 else 0) - (if taken[i] then 1 else 0)
  {
    if i == 0 {
      assert taken[i := v][1..] == taken[1..];
    } else {
      assert taken[i := v][1..] == taken[1..][i - 1 := v];
      CountSet(taken[1..], i - 1, v);
    }
  }

  /** The reference count stays the number of taken blocks when a block is taken. */
  lemma TakeKeeps(a: Arena)
    requires a.Valid() && a.Free() < |a.taken|
    ensures a.Take().Valid()
  {
    CountSet(a.taken, a.Free(), true);
  }

  /** When a pointer into the arena is given back, it stays so exactly when the block was taken. */
  lemma BackKeepsIff(a: Arena, s: Address)
    requires a.Valid() && a.Has(s)
    ensures 0 <= a.IndexOf(s) < |a.taken|
    ensures a.Back(s).Valid() <==> a.taken[a.IndexOf(s)]
  {
    HasIndex(a, s);
    CountSet(a.taken, a.IndexOf(s), false);
  }

  /** For instance when a block is given back twice: the count then is one less than the blocks taken. */
  lemma GivenBackTwice(start: Address, blockSize: nat)
    requires blockSize > 0
    ensures
      var a := Arena(start, blockSize, [false], 0);
      && a.Valid() && a.Free() == 0 && a.Take().Valid()
      && var b := a.Take().Back(start);
      && b.Valid() && b.Back(start).refs == -1 && Count(b.Back(start).taken) == 0 && !b.Back(start).Valid()
  {
    var a := Arena(start, blockSize, [false], 0);
    AddressRoundTrip(a, 0);
    assert a.BlockAt(0) == start && a.IndexOf(start) == 0 && a.Has(start);
    hide Arena.IndexOf, Arena.Has, Arena.BlockAt;
    TakeKeeps(a);
    assert a.Take().taken == [true];
    var b := a.Take().Back(start);
    assert b.taken == [false];
    assert Count([false]) == 0;
  }

  class Memory {
    const blockSize: nat
    const start: Address
    const end: Address
    var blocks: seq<bool>
    var refCounts: int

    /** `start` is what malloc returns. */
    constructor (blockSize: nat, blockCount: nat, start: Address)
      ensures View() == Arena(start, blockSize, seq(blockCount, _ => false), 0) && Valid()
    {
      this.blockSize, this.start := blockSize, start;
      end := start + blockCount * blockSize - 1;
      blocks := seq(blockCount, _ => false);
      refCounts := 0;
    }

    ghost predicate Valid()
      reads this
    {
      end == start + |blocks| * blockSize - 1
    }

    function View(): Arena
      reads this
    {
      Arena(start, blockSize, blocks, refCounts)
    }

    /** Not ok stands for the null pointer, which is returned exactly when every block is taken. */
    method GetBlock() returns (ok: bool, s: Address)
      requires Valid()
      modifies this
      ensures Valid()
      ensures ok <==> old(View()).Free() < |old(blocks)|
      ensures if ok then View() == old(View()).Take() && s == old(View()).BlockAt(old(View()).Free())
              else View() == old(View()) && forall i :: 0 <= i < |blocks| ==> blocks[i]
    {
      var t := -1;
      var i := 0;
      while i < |blocks|
        invariant 0 <= i <= |blocks| && t == -1 && blocks == old(blocks)
        invariant FirstFree(blocks, 0) == FirstFree(blocks, i)
      {
        if !blocks[i] {
          blocks := blocks[i := true];
          t := i;
          break;
        }
        i := i + 1;
      }
      if t == -1 {
        return false, 0;
      }
      refCounts := refCounts + 1;
      return true, start + t * blockSize;
    }

    method BackBlock(s: Address)
      requires Valid()
      modifies this
      ensures Valid() && View() == old(View()).Back(s)
    {
      if s > end || s < start {
        return;
      }
      HasIndex(View(), s);
      var i := (s - start) / blockSize;
      blocks := blocks[i := false];
      refCounts := refCounts - 1;
    }

    function HasBlock(s: Address): bool
      requires Valid()
      reads this
      ensures HasBlock(s) <==> View().Has(s)
    {
      start <= s <= end
    }
  }
}
