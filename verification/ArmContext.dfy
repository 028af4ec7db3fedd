/** make_fcontext and jump_fcontext for 32-bit ARM.  Unlike on x86_64 the result of
    jump_fcontext is a structure in memory: its address is passed in a1, saved with the
    registers, and written through when the context is resumed. */
module ArmContext {
  import opened ByteMemory

  /** The callee-saved registers of the AAPCS: v1 to v8, and the upper half of
      the VFP registers, d8 to d15. */
  datatype Cpu = Cpu(
    a1: Word32, a2: Word32, a3: Word32, a4: Word32, v: seq<nat>, d: seq<nat>,
    sp: Word32, lr: Word32, pc: Word32, mem: Memory)
  {
    ghost predicate Valid() {
      && |v| == |d| == 8
      && (forall i :: 0 <= i < 8 ==> v[i] < Limit(4) && d[i] < Limit(8))
    }
  }

  /** `block` is the pointer to the result, v1 to v8 and lr. */
  datatype Frame = Frame(d: seq<nat>, block: seq<nat>, pc: Word32)

  const FRAME := 108
  const TOP := 0x1_0000_0000

  function FrameAt(m: Memory, a: int): (f: Frame)
    ensures |f.d| == 8 && |f.block| == 10
    ensures forall i :: 0 <= i < 10 ==> f.block[i] < Limit(4)
    ensures forall i :: 0 <= i < 8 ==> f.d[i] < Limit(8)
  {
    Frame(LoadAll(m, a, 8, 8), LoadAll(m, a + 64, 4, 10), Load32(m, a + 104))
  }

  function Block(c: Cpu): (b: seq<nat>)
    requires |c.v| == 8
    ensures |b| == 10 && b[0] == c.a1 && b[1..9] == c.v && b[9] == c.lr
  {
    [c.a1] + c.v + [c.lr]
  }

  lemma FrameSame(m: Memory, n: Memory, a: int)
    requires Same(m, n, a, a + FRAME)
    ensures FrameAt(m, a) == FrameAt(n, a)
  {
    LoadAllSame(m, n, a, 8, 8);
    LoadAllSame(m, n, a + 64, 4, 10);
    LoadSame(m, n, a + 104, 4);
  }

  /** The frame at a holds what c is to find again.  Without hardware floating point the VFP
      registers are neither saved nor restored. */
  ghost predicate Holds(m: Memory, a: int, c: Cpu, vfp: bool)
    requires |c.v| == 8
  {
    var f := FrameAt(m, a);
    && (vfp ==> f.d == c.d) && f.block == Block(c) && f.pc == c.lr
  }

  ghost predicate Loaded(f: Frame, c: Cpu, vfp: bool)
    requires |f.block| == 10
  {
    && (vfp ==> f.d == c.d) && c.a4 == f.block[0] && c.v == f.block[1..9] && c.lr == f.block[9] && c.pc == f.pc
  }

  /** The two-word structure that a caller of jump_fcontext set aside lies outside both the
      frame at f and the frame about to be written below sp. */
  ghost predicate ResultApart(a: int, f: int, sp: int) {
    (a + 8 <= f || f + FRAME <= a) && (a + 8 <= sp - FRAME || sp <= a)
  }

  /** From c to d by jump_fcontext: c's registers are in a frame just below its stack pointer;
      the resumed context's structure has the jumper's frame and the data; nothing else in
      memory changed; d has the registers of the frame that a2 pointed to, that frame popped.
      A new context function finds the frame of the jumper and the data in a1 and a2. */
  ghost predicate Switched(c: Cpu, d: Cpu, vfp: bool) {
    var a := c.sp - FRAME;
    && c.Valid() && d.Valid()
    && Holds(d.mem, a, c, vfp)
    && Loaded(FrameAt(c.mem, c.a2), d, vfp) && (!vfp ==> d.d == c.d)
    && d.sp == c.a2 + FRAME
    && d.a1 == Load32(d.mem, d.a4) == a
    && d.a2 == Load32(d.mem, d.a4 + 4) == d.a3 == c.a3
    && forall x :: (x < a || c.sp <= x) && (x < d.a4 || d.a4 + 8 <= x) ==> d.mem(x) == c.mem(x)
  }

  /** From c to d by make_fcontext(top = a1, size = a2, fn = a3). */
  ghost predicate Made(c: Cpu, d: Cpu, finish: Word32) {
    var f := FrameAt(d.mem, d.a1);
    && d.a1 == Down16(c.a1) - 124
    && f.pc == c.a3 && f.block[0] == d.a1 + FRAME && f.block[9] == finish
    && (forall x :: x < d.a1 || d.a1 + FRAME <= x ==> d.mem(x) == c.mem(x))
    && d.a3 == d.a1 + FRAME
    && d == c.(a1 := d.a1, a2 := finish, a3 := d.a3, pc := c.lr, mem := d.mem)
  }

  class Machine {
    const vfp: bool
    var a1: Word32
    var a2: Word32
    var a3: Word32
    var a4: Word32
    var v: seq<nat>
    var d: seq<nat>
    var sp: Word32
    var lr: Word32
    var pc: Word32
    var mem: Memory

    ghost function State(): Cpu reads this { Cpu(a1, a2, a3, a4, v, d, sp, lr, pc, mem) }

    /** push {lr}, push {a1,v1-v8,lr}, and d8-d15 below. */
    method SaveContext()
      requires State().Valid() && FRAME <= sp
      modifies this`sp, this`mem
      ensures sp == old(sp) - FRAME
      ensures Holds(mem, sp, State(), vfp)
      ensures forall x :: x < sp || sp + FRAME <= x ==> mem(x) == old(mem(x))
    {
      hide Store, Load, StoreAll, LoadAll, Limit;
      Limits();
      ghost var m0, block := mem, Block(State());
      sp := sp - 4;
      mem := Store(mem, sp, 4, lr);
      Stored(m0, sp, 4, lr);
      ghost var m1 := mem;
      sp := sp - 40;
      mem := StoreAll(mem, sp, 4, [a1] + v + [lr]);
      StoredAll(m1, sp, 4, block);
      LoadSame(mem, m1, sp + 40, 4);
      ghost var m2 := mem;
      sp := sp - 64;
      if vfp {
        mem := StoreAll(mem, sp, 8, d);
        StoredAll(m2, sp, 8, d);
        LoadSame(mem, m2, sp + 104, 4);
        LoadAllSame(mem, m2, sp + 64, 4, 10);
      }
    }

    /** The frame that a2 points to is loaded and popped up to the program counter. */
    method RestoreContext()
      requires State().Valid() && a2 + FRAME < TOP
      modifies this`a4, this`v, this`d, this`sp, this`lr
      ensures State().Valid()
      ensures var f := FrameAt(mem, a2);
        (if vfp then d == f.d else d == old(d)) && a4 == f.block[0] && v == f.block[1..9] && lr == f.block[9]
      ensures sp == a2 + 104
    {
      hide LoadAll, Load, Limit;
      Limits();
      sp := a2;
      if vfp {
        d := LoadAll(mem, sp, 8, 8);
      }
      sp := sp + 64;
      var block := LoadAll(mem, sp, 4, 10);
      a4 := block[0];
      v := block[1..9];
      lr := block[9];
      sp := sp + 40;
    }

    /** The jumper's frame and the data, into the resumed context's structure. */
    method WriteResult()
      modifies this`mem
      ensures Load32(mem, a4) == a1 && Load32(mem, a4 + 4) == a3
      ensures forall x :: x < a4 || a4 + 8 <= x ==> mem(x) == old(mem(x))
    {
      hide Load, Store, Limit;
      Limits();
      Stored(mem, a4, 4, a1);
      mem := Store(mem, a4, 4, a1);
      Stored(mem, a4 + 4, 4, a3);
      mem := Store(mem, a4 + 4, 4, a3);
    }

    /** a2 points to the frame of another context, whose result structure is apart. */
    method JumpFcontext()
      requires State().Valid() && FRAME <= sp && a2 + FRAME < TOP
      requires a2 + FRAME <= sp - FRAME || sp <= a2
      requires ResultApart(FrameAt(mem, a2).block[0], a2, sp)
      modifies this
      ensures Switched(old(State()), State(), vfp)
    {
      hide FrameAt, Load32, Limit, Block;
      ghost var c := State();
      SaveContext();
      ghost var m1 := mem;
      FrameSame(c.mem, m1, a2);
      a1 := sp;
      RestoreContext();
      WriteResult();
      FrameSame(m1, mem, c.a2);
      FrameSame(m1, mem, c.sp - FRAME);
      FramePc(mem, c.a2);
      a2 := a3;
      pc := Load32(mem, sp);
      sp := sp + 4;
    }

    method MakeFcontext(finish: Word32)
      requires State().Valid() && 139 <= a1
      modifies this
      ensures Made(old(State()), State(), finish)
    {
      hide Store, Load, LoadAll, Limit, Down16;
      MadeStored(mem, Down16(a1) - 124, a3, finish);
      a1 := Down16(a1);
      a1 := a1 - 124;
      mem := Store(mem, a1 + 104, 4, a3);
      a2 := a1 + 108;
      a3 := a2;
      mem := Store(mem, a1 + 64, 4, a3);
      a2 := finish;
      mem := Store(mem, a1 + 100, 4, a2);
      pc := lr;
    }
  }

  /** A jump always lands in exactly such a state. */
  lemma JumpLands(c: Cpu, vfp: bool) returns (d: Cpu)
    requires c.Valid() && FRAME <= c.sp && c.a2 + FRAME < TOP
    requires ResultApart(FrameAt(c.mem, c.a2).block[0], c.a2, c.sp)
    ensures Switched(c, d, vfp)
  {
    hide Store, Load, StoreAll, LoadAll, Limit;
    Limits();
    var a, f := c.sp - FRAME, FrameAt(c.mem, c.a2);
    Stored(c.mem, a + 104, 4, c.lr);
    var m1 := Store(c.mem, a + 104, 4, c.lr);
    StoredAll(m1, a + 64, 4, Block(c));
    var m2 := StoreAll(m1, a + 64, 4, Block(c));
    LoadSame(m2, m1, a + 104, 4);
    var m3 := if vfp then StoreAll(m2, a, 8, c.d) else m2;
    StoredAll(m2, a, 8, c.d);
    LoadSame(m3, m2, a + 104, 4);
    LoadAllSame(m3, m2, a + 64, 4, 10);
    var r := f.block[0];
    Stored(m3, r, 4, a);
    var m4 := Store(m3, r, 4, a);
    Stored(m4, r + 4, 4, c.a3);
    var m5 := Store(m4, r + 4, 4, c.a3);
    FrameSame(m3, m5, a);
    hide FrameAt;
    d := Cpu(a, c.a3, c.a3, r, f.block[1..9], if vfp then f.d else c.d, c.a2 + FRAME, f.block[9], f.pc, m5);
  }

  lemma FramePc(m: Memory, a: int)
    ensures FrameAt(m, a).pc == Load32(m, a + 104)
  {
  }

  /** The words of the block, one by one. */
  lemma BlockWord(m: Memory, a: int, n: nat, i: nat)
    requires i < n
    ensures LoadAll(m, a, 4, n)[i] == Load(m, a + 4 * i, 4)
    decreases n
  {
    if i > 0 {
      BlockWord(m, a + 4, n - 1, i - 1);
    }
  }

  lemma MadeStored(m0: Memory, a: int, fn: Word32, finish: Word32)
    requires 0 <= a + FRAME < TOP
    ensures var m := Store(m0, a + 104, 4, fn);
      var m := Store(m, a + 64, 4, a + FRAME);
      var m := Store(m, a + 100, 4, finish);
      var f := FrameAt(m, a);
      && f.pc == fn && f.block[0] == a + FRAME && f.block[9] == finish
      && forall x :: x < a || a + FRAME <= x ==> m(x) == m0(x)
  {
    hide Store, Load, LoadAll, Limit;
    Limits();
    Stored(m0, a + 104, 4, fn);
    var m1 := Store(m0, a + 104, 4, fn);
    Stored(m1, a + 64, 4, a + FRAME);
    var m2 := Store(m1, a + 64, 4, a + FRAME);
    Stored(m2, a + 100, 4, finish);
    var m3 := Store(m2, a + 100, 4, finish);
    BlockWord(m3, a + 64, 10, 0);
    BlockWord(m3, a + 64, 10, 9);
  }
}
