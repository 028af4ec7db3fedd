/** make_fcontext and jump_fcontext for x86_64, instruction by instruction. */
module X86Context {
  import opened ByteMemory

  /** The registers that the two routines touch, and memory. */
  datatype Cpu = Cpu(
    rax: Word64, rbx: Word64, rcx: Word64, rdx: Word64, rsi: Word64, rdi: Word64, rbp: Word64, rsp: Word64,
    r8: Word64, r12: Word64, r13: Word64, r14: Word64, r15: Word64,
    mxcsr: Word32, cw: Word16, rip: Word64, mem: Memory)

  /** What System V AMD64 ABI, section 3.2.1, makes a callee preserve, and where to go on. */
  datatype Frame = Frame(
    mxcsr: Word32, cw: Word16, r12: Word64, r13: Word64, r14: Word64, r15: Word64,
    rbx: Word64, rbp: Word64, rip: Word64)

  const FRAME := 0x40
  const TOP := 0x1_0000_0000_0000_0000

  function FrameAt(m: Memory, a: int): Frame {
    Frame(Load32(m, a), Load16(m, a + 0x4), Load64(m, a + 0x8), Load64(m, a + 0x10), Load64(m, a + 0x18),
          Load64(m, a + 0x20), Load64(m, a + 0x28), Load64(m, a + 0x30), Load64(m, a + 0x38))
  }

  /** What a context that calls jump_fcontext is to find again: the return address is the one
      that the call instruction pushed. */
  function Kept(c: Cpu): Frame {
    Frame(c.mxcsr, c.cw, c.r12, c.r13, c.r14, c.r15, c.rbx, c.rbp, Load64(c.mem, c.rsp))
  }

  lemma FrameSame(m: Memory, n: Memory, a: int)
    requires Same(m, n, a, a + FRAME)
    ensures FrameAt(m, a) == FrameAt(n, a)
  {
    LoadSame(m, n, a, 4);
    LoadSame(m, n, a + 0x4, 2);
    LoadSame(m, n, a + 0x8, 8);
    LoadSame(m, n, a + 0x10, 8);
    LoadSame(m, n, a + 0x18, 8);
    LoadSame(m, n, a + 0x20, 8);
    LoadSame(m, n, a + 0x28, 8);
    LoadSame(m, n, a + 0x30, 8);
    LoadSame(m, n, a + 0x38, 8);
  }

  /** The eight stores of jump_fcontext write a frame below the return address. */
  lemma FrameStored(m0: Memory, a: int, f: Frame)
    requires f.rip == Load64(m0, a + 0x38)
    ensures var m := Store(m0, a, 4, f.mxcsr);
      var m := Store(m, a + 0x4, 2, f.cw);
      var m := Store(m, a + 0x8, 8, f.r12);
      var m := Store(m, a + 0x10, 8, f.r13);
      var m := Store(m, a + 0x18, 8, f.r14);
      var m := Store(m, a + 0x20, 8, f.r15);
      var m := Store(m, a + 0x28, 8, f.rbx);
      var m := Store(m, a + 0x30, 8, f.rbp);
      FrameAt(m, a) == f && forall x :: x < a || a + 0x38 <= x ==> m(x) == m0(x)
  {
    hide Store, Load, Limit;
    Limits();
    Stored(m0, a, 4, f.mxcsr);
    var m1 := Store(m0, a, 4, f.mxcsr);
    Stored(m1, a + 0x4, 2, f.cw);
    var m2 := Store(m1, a + 0x4, 2, f.cw);
    Stored(m2, a + 0x8, 8, f.r12);
    var m3 := Store(m2, a + 0x8, 8, f.r12);
    Stored(m3, a + 0x10, 8, f.r13);
    var m4 := Store(m3, a + 0x10, 8, f.r13);
    Stored(m4, a + 0x18, 8, f.r14);
    var m5 := Store(m4, a + 0x18, 8, f.r14);
    Stored(m5, a + 0x20, 8, f.r15);
    var m6 := Store(m5, a + 0x20, 8, f.r15);
    Stored(m6, a + 0x28, 8, f.rbx);
    var m7 := Store(m6, a + 0x28, 8, f.rbx);
    Stored(m7, a + 0x30, 8, f.rbp);
  }

  /** The five stores of make_fcontext. */
  lemma MadeStored(m0: Memory, a: int, fn: Word64, mxcsr: Word32, cw: Word16, trampoline: Word64, finish: Word64)
    ensures var m := Store(m0, a + 0x28, 8, fn);
      var m := Store(m, a, 4, mxcsr);
      var m := Store(m, a + 0x4, 2, cw);
      var m := Store(m, a + 0x38, 8, trampoline);
      var m := Store(m, a + 0x30, 8, finish);
      var f := FrameAt(m, a);
      && f.mxcsr == mxcsr && f.cw == cw && f.rbx == fn && f.rbp == finish && f.rip == trampoline
      && forall x :: x < a || a + FRAME <= x ==> m(x) == m0(x)
  {
    hide Store, Load, Limit;
    Limits();
    Stored(m0, a + 0x28, 8, fn);
    var m1 := Store(m0, a + 0x28, 8, fn);
    Stored(m1, a, 4, mxcsr);
    var m2 := Store(m1, a, 4, mxcsr);
    Stored(m2, a + 0x4, 2, cw);
    var m3 := Store(m2, a + 0x4, 2, cw);
    Stored(m3, a + 0x38, 8, trampoline);
    var m4 := Store(m3, a + 0x38, 8, trampoline);
    Stored(m4, a + 0x30, 8, finish);
  }

  /** From c to d by jump_fcontext: c's registers and return address are in the frame just
      below its stack pointer, nothing else in memory changed, and d has the registers of the
      frame that rdi pointed to, with that frame popped.  Both the return value of the resumed
      call (rax, rdx) and the arguments of a new context function (rdi, rsi) are the frame of
      the jumper and the data. */
  ghost predicate Switched(c: Cpu, d: Cpu) {
    var a := c.rsp - 0x38;
    var f := FrameAt(d.mem, c.rdi);
    && FrameAt(d.mem, a) == Kept(c)
    && (forall x :: x < a || c.rsp <= x ==> d.mem(x) == c.mem(x))
    && f == Frame(d.mxcsr, d.cw, d.r12, d.r13, d.r14, d.r15, d.rbx, d.rbp, d.rip)
    && d.rsp == c.rdi + FRAME
    && d.rax == d.rdi == a
    && d.rdx == d.rsi == c.rsi
  }

  /** From c to d by make_fcontext(top = rdi, size = rsi, fn = rdx): the new frame is in rax,
      nothing else in memory changed, and the caller's registers are kept. */
  ghost predicate Made(c: Cpu, d: Cpu, trampoline: Word64, finish: Word64) {
    var f := FrameAt(d.mem, d.rax);
    && d.rax == Down16(c.rdi) - FRAME
    && f.mxcsr == c.mxcsr && f.cw == c.cw
    && f.rbx == c.rdx && f.rbp == finish && f.rip == trampoline
    && (forall x :: x < d.rax || d.rax + FRAME <= x ==> d.mem(x) == c.mem(x))
    && d.rip == Load64(d.mem, c.rsp)
    && d.rsp == c.rsp + 8
    && d == c.(rax := d.rax, rcx := finish, rsp := d.rsp, rip := d.rip, mem := d.mem)
  }

  /** From c to d by the trampoline: the context function is entered with the address of
      finish as its return address. */
  ghost predicate Trampolined(c: Cpu, d: Cpu) {
    && d.rsp == c.rsp - 8
    && Load64(d.mem, d.rsp) == c.rbp
    && (forall x :: x < d.rsp || c.rsp <= x ==> d.mem(x) == c.mem(x))
    && d == c.(rsp := d.rsp, rip := c.rbx, mem := d.mem)
  }

  /** A jump with room for its frame always lands in exactly such a state. */
  lemma JumpLands(c: Cpu) returns (d: Cpu)
    requires 0x38 <= c.rsp && c.rdi + FRAME < TOP
    ensures Switched(c, d) && d.rcx == c.rcx
  {
    hide Store, FrameAt;
    var a, k := c.rsp - 0x38, Kept(c);
    FrameStored(c.mem, a, k);
    var m := Store(c.mem, a, 4, k.mxcsr);
    m := Store(m, a + 0x4, 2, k.cw);
    m := Store(m, a + 0x8, 8, k.r12);
    m := Store(m, a + 0x10, 8, k.r13);
    m := Store(m, a + 0x18, 8, k.r14);
    m := Store(m, a + 0x20, 8, k.r15);
    m := Store(m, a + 0x28, 8, k.rbx);
    m := Store(m, a + 0x30, 8, k.rbp);
    var f := FrameAt(m, c.rdi);
    d := Cpu(a, f.rbx, c.rcx, c.rsi, c.rsi, a, f.rbp, c.rdi + FRAME, f.rip,
             f.r12, f.r13, f.r14, f.r15, f.mxcsr, f.cw, f.rip, m);
  }

  class Machine {
    var rax: Word64
    var rbx: Word64
    var rcx: Word64
    var rdx: Word64
    var rsi: Word64
    var rdi: Word64
    var rbp: Word64
    var rsp: Word64
    var r8: Word64
    var r12: Word64
    var r13: Word64
    var r14: Word64
    var r15: Word64
    var mxcsr: Word32
    var cw: Word16
    var rip: Word64
    var mem: Memory

    ghost function State(): Cpu reads this {
      Cpu(rax, rbx, rcx, rdx, rsi, rdi, rbp, rsp, r8, r12, r13, r14, r15, mxcsr, cw, rip, mem)
    }

    /** Below a stack pointer that leaves room for the frame. */
    method SaveContext()
      requires 0x38 <= rsp
      modifies this`mem, this`rsp
      ensures rsp == old(rsp) - 0x38
      ensures FrameAt(mem, rsp) == Kept(old(State()))
      ensures forall x :: x < rsp || rsp + 0x38 <= x ==> mem(x) == old(mem(x))
    {
      hide Store, FrameAt;
      FrameStored(mem, rsp - 0x38, Kept(State()));
      rsp := rsp - 0x38;
      mem := Store(mem, rsp, 4, mxcsr);
      mem := Store(mem, rsp + 0x4, 2, cw);
      mem := Store(mem, rsp + 0x8, 8, r12);
      mem := Store(mem, rsp + 0x10, 8, r13);
      mem := Store(mem, rsp + 0x18, 8, r14);
      mem := Store(mem, rsp + 0x20, 8, r15);
      mem := Store(mem, rsp + 0x28, 8, rbx);
      mem := Store(mem, rsp + 0x30, 8, rbp);
    }

    /** Loads the frame that rdi points to. */
    method RestoreContext()
      requires rdi + FRAME < TOP
      modifies this`rsp, this`r8, this`mxcsr, this`cw, this`r12, this`r13, this`r14, this`r15, this`rbx, this`rbp
      ensures FrameAt(mem, rdi) == Frame(mxcsr, cw, r12, r13, r14, r15, rbx, rbp, r8)
      ensures rsp == rdi + FRAME
    {
      hide Load64, Load32, Load16;
      rsp := rdi;
      r8 := Load64(mem, rsp + 0x38);
      mxcsr := Load32(mem, rsp);
      cw := Load16(mem, rsp + 0x4);
      r12 := Load64(mem, rsp + 0x8);
      r13 := Load64(mem, rsp + 0x10);
      r14 := Load64(mem, rsp + 0x18);
      r15 := Load64(mem, rsp + 0x20);
      rbx := Load64(mem, rsp + 0x28);
      rbp := Load64(mem, rsp + 0x30);
      rsp := rsp + 0x40;
    }

    /** The stack pointer must leave room for the frame, and rdi must point to one. */
    method JumpFcontext()
      requires 0x38 <= rsp && rdi + FRAME < TOP
      modifies this
      ensures Switched(old(State()), State())
      ensures r8 == rip && rcx == old(rcx)
    {
      hide FrameAt, Load64;
      SaveContext();
      rax := rsp;
      RestoreContext();
      rdx := rsi;
      rdi := rax;
      rip := r8;
    }

    /** The frame of a new context, at the top of its stack. */
    method BuildFrame(trampoline: Word64, finish: Word64)
      requires 0x4f <= rdi
      modifies this`rax, this`rcx, this`mem
      ensures rax == Down16(rdi) - FRAME && rcx == finish
      ensures var f := FrameAt(mem, rax);
        && f.mxcsr == mxcsr && f.cw == cw
        && f.rbx == rdx && f.rbp == finish && f.rip == trampoline
        && forall x :: x < rax || rax + FRAME <= x ==> mem(x) == old(mem(x))
    {
      hide Store, FrameAt, Down16;
      MadeStored(mem, Down16(rdi) - FRAME, rdx, mxcsr, cw, trampoline, finish);
      rax := rdi;
      rax := Down16(rax);
      rax := rax - 0x40;
      mem := Store(mem, rax + 0x28, 8, rdx);
      mem := Store(mem, rax, 4, mxcsr);
      mem := Store(mem, rax + 0x4, 2, cw);
      rcx := trampoline;
      mem := Store(mem, rax + 0x38, 8, rcx);
      rcx := finish;
      mem := Store(mem, rax + 0x30, 8, rcx);
    }

    method MakeFcontext(trampoline: Word64, finish: Word64)
      requires 0x4f <= rdi && rsp + 8 < TOP
      modifies this
      ensures Made(old(State()), State(), trampoline, finish)
    {
      hide FrameAt, Load64, Down16;
      BuildFrame(trampoline, finish);
      rip := Load64(mem, rsp);
      rsp := rsp + 8;
    }

    method Trampoline()
      requires 8 <= rsp
      modifies this
      ensures Trampolined(old(State()), State())
    {
      hide Load, Store, Limit;
      Limits();
      rsp := rsp - 8;
      Stored(mem, rsp, 8, rbp);
      mem := Store(mem, rsp, 8, rbp);
      rip := rbx;
    }
  }
}
