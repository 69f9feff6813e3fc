/** coctx_swap, instruction by instruction, on the registers and on one flat memory of 8-byte words. */
module CoCtx {
  type Word = int

  type Memory = map<Word, Word>

  function Cell(mem: Memory, at: Word): Word {
    if at in mem then mem[at] else 0
  }

  /** The fourteen words of a coctx, regs[0] first. `rsp` points at the return address of the coctx_swap
      call, which is also kept in `ret`. */
  datatype Frame = Frame(
    r15: Word, r14: Word, r13: Word, r12: Word, r9: Word, r8: Word, rbp: Word,
    rdi: Word, rsi: Word, ret: Word, rdx: Word, rcx: Word, rbx: Word, rsp: Word)

  const CTX_SIZE := 112

  /** The coctx at address ctx. */
  function FrameAt(mem: Memory, ctx: Word): Frame {
    Frame(Cell(mem, ctx), Cell(mem, ctx + 8), Cell(mem, ctx + 16), Cell(mem, ctx + 24), Cell(mem, ctx + 32),
          Cell(mem, ctx + 40), Cell(mem, ctx + 48), Cell(mem, ctx + 56), Cell(mem, ctx + 64), Cell(mem, ctx + 72),
          Cell(mem, ctx + 80), Cell(mem, ctx + 88), Cell(mem, ctx + 96), Cell(mem, ctx + 104))
  }

  /** The word at `at` shares no byte with the coctx at ctx. */
  predicate Outside(at: Word, ctx: Word) {
    at + 8 <= ctx || ctx + CTX_SIZE <= at
  }

  predicate Apart(ctx: Word, ctx': Word) {
    ctx + CTX_SIZE <= ctx' || ctx' + CTX_SIZE <= ctx
  }

  /** Memory with five, five and four words of the frame stored, in the order of the instructions. */
  function StoreUpper(mem: Memory, ctx: Word, f: Frame): Memory {
    mem[ctx + 104 := f.rsp][ctx + 96 := f.rbx][ctx + 88 := f.rcx][ctx + 80 := f.rdx][ctx + 72 := f.ret]
  }

  function StoreMiddle(mem: Memory, ctx: Word, f: Frame): Memory {
    mem[ctx + 64 := f.rsi][ctx + 56 := f.rdi][ctx + 48 := f.rbp][ctx + 40 := f.r8][ctx + 32 := f.r9]
  }

  function StoreLower(mem: Memory, ctx: Word, f: Frame): Memory {
    mem[ctx + 24 := f.r12][ctx + 16 := f.r13][ctx + 8 := f.r14][ctx := f.r15]
  }

  function Stored(mem: Memory, ctx: Word, f: Frame): Memory {
    StoreLower(StoreMiddle(StoreUpper(mem, ctx, f), ctx, f), ctx, f)
  }

  lemma LowerCells(mem: Memory, ctx: Word, f: Frame)
    ensures
      var m := StoreLower(mem, ctx, f);
      && Cell(m, ctx) == f.r15 && Cell(m, ctx + 8) == f.r14 && Cell(m, ctx + 16) == f.r13 && Cell(m, ctx + 24) == f.r12
      && forall a: Word :: a < ctx || a >= ctx + 32 ==> Cell(m, a) == Cell(mem, a)
  {
  }

  lemma MiddleCells(mem: Memory, ctx: Word, f: Frame)
    ensures
      var m := StoreMiddle(mem, ctx, f);
      && Cell(m, ctx + 32) == f.r9 && Cell(m, ctx + 40) == f.r8 && Cell(m, ctx + 48) == f.rbp
      && Cell(m, ctx + 56) == f.rdi && Cell(m, ctx + 64) == f.rsi
      && forall a: Word :: a < ctx + 32 || a >= ctx + 72 ==> Cell(m, a) == Cell(mem, a)
  {
  }

  lemma UpperCells(mem: Memory, ctx: Word, f: Frame)
    ensures
      var m := StoreUpper(mem, ctx, f);
      && Cell(m, ctx + 72) == f.ret && Cell(m, ctx + 80) == f.rdx && Cell(m, ctx + 88) == f.rcx
      && Cell(m, ctx + 96) == f.rbx && Cell(m, ctx + 104) == f.rsp
      && forall a: Word :: a < ctx + 72 || a >= ctx + 112 ==> Cell(m, a) == Cell(mem, a)
  {
  }

  /** Storing a frame makes it the one that is there, and changes no word outside it. */
  lemma StoredFrame(mem: Memory, ctx: Word, f: Frame)
    ensures FrameAt(Stored(mem, ctx, f), ctx) == f
    ensures forall a: Word :: Outside(a, ctx) ==> Cell(Stored(mem, ctx, f), a) == Cell(mem, a)
  {
    var m1 := StoreUpper(mem, ctx, f);
    var m2 := StoreMiddle(m1, ctx, f);
    UpperCells(mem, ctx, f);
    MiddleCells(m1, ctx, f);
    LowerCells(m2, ctx, f);
    hide StoreUpper, StoreMiddle, StoreLower, Cell;
  }

  /** A frame none of whose words changed. */
  lemma FrameKept(before: Memory, after: Memory, ctx: Word)
    requires forall a: Word :: ctx <= a <= ctx + 104 ==> Cell(after, a) == Cell(before, a)
    ensures FrameAt(after, ctx) == FrameAt(before, ctx)
  {
    hide Cell;
  }

  /** Saving one context leaves the other as it is. */
  lemma SavedContext(mem: Memory, from: Word, to: Word, f: Frame)
    requires Apart(from, to)
    ensures FrameAt(Stored(mem, from, f), to) == FrameAt(mem, to)
  {
    StoredFrame(mem, from, f);
    hide Stored, FrameAt, Cell;
    FrameKept(mem, Stored(mem, from, f), to);
  }

  /** What the pushed return address changes of the memory after saving. */
  lemma LoadedContext(mem: Memory, saved: Memory, from: Word, f: Frame, n: Frame)
    requires saved == Stored(mem, from, f) && Outside(n.rsp, from)
    ensures FrameAt(saved[n.rsp := n.ret], from) == f
    ensures forall a: Word :: Outside(a, from) && a != n.rsp ==> Cell(saved[n.rsp := n.ret], a) == Cell(mem, a)
  {
    StoredFrame(mem, from, f);
    hide Stored, FrameAt;
    FrameKept(saved, saved[n.rsp := n.ret], from);
  }

  class Machine {
    var rax: Word
    var rbx: Word
    var rcx: Word
    var rdx: Word
    var rsi: Word
    var rdi: Word
    var rbp: Word
    var rsp: Word
    var r8: Word
    var r9: Word
    var r12: Word
    var r13: Word
    var r14: Word
    var r15: Word
    var rip: Word
    var mem: Memory

    constructor ()
    {
    }

    /** The frame that a call to coctx_swap, whose return address is on top of the stack, comes back to. */
    ghost function Calling(): Frame
      reads this
    {
      Frame(r15, r14, r13, r12, r9, r8, rbp, rdi, rsi, Cell(mem, rsp), rdx, rcx, rbx, rsp)
    }

    /** The machine is just past the call that f was saved in. */
    ghost predicate ReturnedTo(f: Frame)
      reads this
    {
      && r15 == f.r15 && r14 == f.r14 && r13 == f.r13 && r12 == f.r12 && r9 == f.r9 && r8 == f.r8
      && rbp == f.rbp && rdi == f.rdi && rsi == f.rsi && rdx == f.rdx && rcx == f.rcx && rbx == f.rbx
      && rsp == f.rsp + 8 && rip == f.ret
    }

    /** What a call with these arguments would save, with `site` the address it returns to. */
    ghost function CallFrom(site: Word, arg0: Word, arg1: Word): Frame
      reads this
    {
      Frame(r15, r14, r13, r12, r9, r8, rbp, arg0, arg1, site, rdx, rcx, rbx, rsp - 8)
    }

    /** The call instruction and its two arguments. */
    method Call(site: Word, arg0: Word, arg1: Word)
      modifies this`rdi, this`rsi, this`rsp, this`mem
      ensures Calling() == old(CallFrom(site, arg0, arg1)) && rdi == arg0 && rsi == arg1
      ensures rsp == old(rsp) - 8 && mem == old(mem)[rsp := site]
    {
      rdi, rsi := arg0, arg1;
      rsp := rsp - 8;
      mem := mem[rsp := site];
    }

    /** rdi points at the context to save, rsi at the one to load. When the two do not overlap, and the two
        stack words that the switch touches lie in neither, the caller's frame is saved, the other one is
        entered and stays as it is, and no other word changes but the one under the loaded stack pointer. */
    method CoctxSwap()
      requires Apart(rdi, rsi) && Outside(rsp, rdi)
      requires var to := FrameAt(mem, rsi).rsp; Outside(to, rdi) && Outside(to, rsi)
      modifies this
      ensures ReturnedTo(old(FrameAt(mem, rsi)))
      ensures FrameAt(mem, old(rdi)) == old(Calling())
      ensures forall a: Word :: Outside(a, old(rdi)) && a != rsp - 8 ==> Cell(mem, a) == old(Cell(mem, a))
    {
      ghost var m0, from, to := mem, rdi, rsi;
      ghost var f, n := Calling(), FrameAt(mem, rsi);
      hide FrameAt, Stored;
      SaveContext();
      SavedContext(m0, from, to, f);
      LoadContext();
      LoadedContext(m0, Stored(m0, from, f), from, f, n);
    }

    /** The first sixteen instructions: every store goes through rdi. */
    method SaveContext()
      requires Outside(rsp, rdi)
      modifies this`rax, this`mem
      ensures mem == Stored(old(mem), rdi, old(Calling()))
    {
      ghost var f := Calling();
      SaveUpper();
      SaveMiddle();
      SaveLower();
    }

    method SaveUpper()
      requires Outside(rsp, rdi)
      modifies this`rax, this`mem
      ensures mem == StoreUpper(old(mem), rdi, old(Calling()))
    {
      rax := rsp;
      mem := mem[rdi + 104 := rax];
      mem := mem[rdi + 96 := rbx];
      mem := mem[rdi + 88 := rcx];
      mem := mem[rdi + 80 := rdx];
      rax := Cell(mem, rax);
      mem := mem[rdi + 72 := rax];
    }

    method SaveMiddle()
      modifies this`mem
      ensures mem == old(mem)[rdi + 64 := rsi][rdi + 56 := rdi][rdi + 48 := rbp][rdi + 40 := r8][rdi + 32 := r9]
    {
      mem := mem[rdi + 64 := rsi];
      mem := mem[rdi + 56 := rdi];
      mem := mem[rdi + 48 := rbp];
      mem := mem[rdi + 40 := r8];
      mem := mem[rdi + 32 := r9];
    }

    method SaveLower()
      modifies this`mem
      ensures mem == old(mem)[rdi + 24 := r12][rdi + 16 := r13][rdi + 8 := r14][rdi := r15]
    {
      mem := mem[rdi + 24 := r12];
      mem := mem[rdi + 16 := r13];
      mem := mem[rdi + 8 := r14];
      mem := mem[rdi := r15];
    }

    /** The rest: every load goes through rsi, which is itself loaded last, after the return address has been
        pushed under the loaded stack pointer. */
    method LoadContext()
      requires Outside(FrameAt(mem, rsi).rsp, rsi)
      modifies this
      ensures ReturnedTo(old(FrameAt(mem, rsi)))
      ensures mem == old(mem)[old(FrameAt(mem, rsi)).rsp := old(FrameAt(mem, rsi)).ret]
    {
      LoadStackAndLower();
      LoadUpper();
      Return();
    }

    method LoadStackAndLower()
      modifies this`rax, this`rbp, this`rsp, this`r15, this`r14, this`r13, this`r12
      ensures rbp == Cell(mem, rsi + 48) && rsp == Cell(mem, rsi + 104)
      ensures r15 == Cell(mem, rsi) && r14 == Cell(mem, rsi + 8) && r13 == Cell(mem, rsi + 16) && r12 == Cell(mem, rsi + 24)
    {
      rax := 0;
      rbp := Cell(mem, rsi + 48);
      rsp := Cell(mem, rsi + 104);
      r15 := Cell(mem, rsi);
      r14 := Cell(mem, rsi + 8);
      r13 := Cell(mem, rsi + 16);
      r12 := Cell(mem, rsi + 24);
    }

    method LoadUpper()
      modifies this`r9, this`r8, this`rdi, this`rdx, this`rcx, this`rbx
      ensures r9 == Cell(mem, rsi + 32) && r8 == Cell(mem, rsi + 40) && rdi == Cell(mem, rsi + 56)
      ensures rdx == Cell(mem, rsi + 80) && rcx == Cell(mem, rsi + 88) && rbx == Cell(mem, rsi + 96)
    {
      r9 := Cell(mem, rsi + 32);
      r8 := Cell(mem, rsi + 40);
      rdi := Cell(mem, rsi + 56);
      rdx := Cell(mem, rsi + 80);
      rcx := Cell(mem, rsi + 88);
      rbx := Cell(mem, rsi + 96);
    }

    method Return()
      requires Outside(rsp, rsi)
      modifies this`rsp, this`mem, this`rsi, this`rip
      ensures mem == old(mem)[old(rsp) := old(Cell(mem, rsi + 72))]
      ensures rsi == old(Cell(mem, rsi + 64)) && rip == old(Cell(mem, rsi + 72)) && rsp == old(rsp) + 8
    {
      rsp := rsp + 8;
      // pushq 72(%rsi)
      rsp := rsp - 8;
      mem := mem[rsp := Cell(mem, rsi + 72)];
      rsi := Cell(mem, rsi + 64);
      // ret
      rip := Cell(mem, rsp);
      rsp := rsp + 8;
    }
  }
}
