/** Runs of any number of contexts on one processor: what a context finds when it is entered. */
module X86Runs {
  import opened ByteMemory
  import opened ContextRuns
  import opened X86Context

  /** A context that is not running: it called jump_fcontext in the state `at`, or it was made
      and never entered. */
  datatype Parked =
    | Jumped(at: Cpu)
    | Fresh(frame: Word64, fn: Word64, mxcsr: Word32, cw: Word16)
  {
    /** The address that stands for the context: its fcontext_t. */
    function Frame(): int { if Jumped? then at.rsp - 0x38 else frame }
  }

  /** `trampoline` and `finish` are code addresses. */
  datatype Program = Program(stacks: seq<Stack>, trampoline: Word64, finish: Word64) {
    ghost predicate Valid() { Apart(stacks, TOP) }
  }

  type State = World<Cpu, Parked>

  /** The running context leaves the frames of the others alone. */
  ghost predicate Worked(w: State, w': State) {
    && w' == w.(cpu := w'.cpu)
    && forall j :: j in w.parked ==>
         Same(w.cpu.mem, w'.cpu.mem, w.parked[j].Frame(), w.parked[j].Frame() + FRAME)
  }

  /** Context j, which is not running, is set up, or set up again, on its stack. */
  ghost predicate MadeOn(p: Program, w: State, j: nat, w': State) {
    && j < |p.stacks| && j != w.cur
    && w.cpu.rdi == p.stacks[j].hi && p.stacks[j].lo + 0x4f <= p.stacks[j].hi
    && w' == World(w'.cpu, w.cur, w.parked[j := Fresh(w'.cpu.rax, w.cpu.rdx, w.cpu.mxcsr, w.cpu.cw)])
    && Made(w.cpu, w'.cpu, p.trampoline, p.finish)
  }

  /** The running context has room for a frame on its stack and jumps to a parked one; `landed` is
      the state in which jump_fcontext jumps to the return address. */
  ghost predicate JumpedTo(p: Program, w: State, j: nat, landed: Cpu, w': State) {
    && w.cur < |p.stacks| && p.stacks[w.cur].lo + 0x38 <= w.cpu.rsp && w.cpu.rsp + 8 <= p.stacks[w.cur].hi
    && j in w.parked && w.cpu.rdi == w.parked[j].Frame()
    && w' == World(w'.cpu, j, (w.parked - {j})[w.cur := Jumped(w.cpu)])
    && (if w.parked[j].Fresh? then Trampolined(landed, w'.cpu) else w'.cpu == landed)
    && Switched(w.cpu, landed)
  }

  ghost predicate Next(p: Program, w: State, e: Event, w': State) {
    match e
    case Work => Worked(w, w')
    case Make(j) => MadeOn(p, w, j, w')
    case Jump(j) => exists landed :: JumpedTo(p, w, j, landed, w')
  }

  ghost predicate IsRun(p: Program, ws: seq<State>, es: seq<Event>) {
    && p.Valid() && |ws| == |es| + 1
    && ws[0].parked == map[] && ws[0].cur < |p.stacks|
    && forall i :: 0 <= i < |es| ==> Next(p, ws[i], es[i], ws[i + 1])
  }

  /** The frame of a parked context is on its stack and holds what is to be restored. */
  ghost predicate Intact(p: Program, m: Memory, j: nat, c: Parked)
    requires j < |p.stacks|
  {
    var f := FrameAt(m, c.Frame());
    && p.stacks[j].lo <= c.Frame() && c.Frame() + FRAME <= p.stacks[j].hi
    && match c
       case Jumped(at) => f == Kept(at)
       case Fresh(_, fn, mxcsr, cw) =>
         && c.frame == Down16(p.stacks[j].hi) - FRAME
         && f.mxcsr == mxcsr && f.cw == cw && f.rbx == fn && f.rbp == p.finish && f.rip == p.trampoline
  }

  ghost predicate Inv(p: Program, w: State) {
    && w.cur < |p.stacks| && w.cur !in w.parked
    && forall j :: j in w.parked ==> j < |p.stacks| && Intact(p, w.cpu.mem, j, w.parked[j])
  }

  lemma IntactSame(p: Program, m: Memory, n: Memory, j: nat, c: Parked)
    requires j < |p.stacks| && Intact(p, m, j, c)
    requires Same(m, n, c.Frame(), c.Frame() + FRAME)
    ensures Intact(p, n, j, c)
  {
    FrameSame(m, n, c.Frame());
  }

  /** A context whose stack is not written stays intact. */
  lemma OtherStack(p: Program, m: Memory, n: Memory, j: nat, c: Parked, i: nat)
    requires p.Valid() && j < |p.stacks| && i < |p.stacks| && i != j && Intact(p, m, j, c)
    requires forall x :: !(p.stacks[i].lo <= x < p.stacks[i].hi) ==> m(x) == n(x)
    ensures Intact(p, n, j, c)
  {
    IntactSame(p, m, n, j, c);
  }

  lemma MakeKeeps(p: Program, w: State, j: nat, w': State)
    requires p.Valid() && Inv(p, w) && MadeOn(p, w, j, w')
    ensures Inv(p, w')
  {
    hide FrameAt;
    forall i | i in w'.parked
      ensures i < |p.stacks| && Intact(p, w'.cpu.mem, i, w'.parked[i])
    {
      if i != j {
        OtherStack(p, w.cpu.mem, w'.cpu.mem, i, w.parked[i], j);
      }
    }
  }

  /** What the two stacks involved in a jump look like while it happens. */
  lemma JumpWrites(p: Program, w: State, j: nat, landed: Cpu, w': State)
    requires p.Valid() && Inv(p, w) && JumpedTo(p, w, j, landed, w')
    ensures forall x :: !(p.stacks[w.cur].lo <= x < p.stacks[w.cur].hi) ==> landed.mem(x) == w.cpu.mem(x)
    ensures forall x :: !(p.stacks[j].lo <= x < p.stacks[j].hi) ==> w'.cpu.mem(x) == landed.mem(x)
    ensures Intact(p, landed.mem, j, w.parked[j])
    ensures Intact(p, landed.mem, w.cur, Jumped(w.cpu))
    ensures w'.cpu.rsp <= landed.rsp == w.parked[j].Frame() + FRAME
  {
    hide FrameAt;
    assert landed.rsp == w.parked[j].Frame() + FRAME;
    OtherStack(p, w.cpu.mem, landed.mem, j, w.parked[j], w.cur);
  }

  lemma JumpKeeps(p: Program, w: State, j: nat, landed: Cpu, w': State)
    requires p.Valid() && Inv(p, w) && JumpedTo(p, w, j, landed, w')
    ensures Inv(p, w')
  {
    hide Intact, Switched, Trampolined;
    JumpWrites(p, w, j, landed, w');
    forall i | i in w'.parked
      ensures i < |p.stacks| && Intact(p, w'.cpu.mem, i, w'.parked[i])
    {
      if i != w.cur {
        OtherStack(p, w.cpu.mem, landed.mem, i, w.parked[i], w.cur);
      }
      OtherStack(p, landed.mem, w'.cpu.mem, i, w'.parked[i], j);
    }
  }

  lemma NextKeeps(p: Program, w: State, e: Event, w': State)
    requires p.Valid() && Inv(p, w) && Next(p, w, e, w')
    ensures Inv(p, w')
  {
    hide Intact, MadeOn, JumpedTo;
    match e {
      case Work =>
        forall j | j in w.parked
          ensures j < |p.stacks| && Intact(p, w'.cpu.mem, j, w.parked[j])
        {
          IntactSame(p, w.cpu.mem, w'.cpu.mem, j, w.parked[j]);
        }
      case Make(j) => MakeKeeps(p, w, j, w');
      case Jump(j) =>
        var landed :| JumpedTo(p, w, j, landed, w');
        JumpKeeps(p, w, j, landed, w');
    }
  }

  lemma {:induction false} RunKeeps(p: Program, ws: seq<State>, es: seq<Event>, k: nat)
    requires IsRun(p, ws, es) && k <= |es|
    ensures Inv(p, ws[k])
  {
    hide Next;
    if k == 0 {
    } else {
      RunKeeps(p, ws, es, k - 1);
      NextKeeps(p, ws[k - 1], es[k - 1], ws[k]);
    }
  }

  lemma RunStep(p: Program, ws: seq<State>, es: seq<Event>, k: nat)
    requires IsRun(p, ws, es) && k < |es|
    ensures Inv(p, ws[k]) && Next(p, ws[k], es[k], ws[k + 1])
  {
    RunKeeps(p, ws, es, k);
  }

  lemma ParkedStep(p: Program, w: State, e: Event, w': State)
    requires Inv(p, w) && Next(p, w, e, w')
    ensures OthersStay(w, e, w')
  {
    hide Intact, Switched, Made, Trampolined;
  }

  lemma RunStays(p: Program, ws: seq<State>, es: seq<Event>, j: nat, i: nat, k: nat)
    requires IsRun(p, ws, es) && LeftAlone(es, j, i, k) && j in ws[i].parked
    ensures j in ws[k].parked && ws[k].parked[j] == ws[i].parked[j]
  {
    hide Next, Inv, OthersStay, LeftAlone;
    forall n | 0 <= n < |es| ensures OthersStay(ws[n], es[n], ws[n + 1]) {
      RunStep(p, ws, es, n);
      ParkedStep(p, ws[n], es[n], ws[n + 1]);
    }
    StaysParked(ws, es, j, i, k);
  }

  /** Both ways of handing over (frame of the jumper, data). */
  ghost predicate Received(w: State, w': State)
    requires w.cur in w'.parked
  {
    && w'.cpu.rax == w'.cpu.rdi == w'.parked[w.cur].Frame() == w.cpu.rsp - 0x38
    && w'.cpu.rdx == w'.cpu.rsi == w.cpu.rsi
  }

  /** Every register that a callee must preserve is as it was, the stack pointer is just above
      the return address that had been pushed, and execution goes on there. */
  ghost predicate Resumed(was: Cpu, now: Cpu) {
    && now.rbx == was.rbx && now.rbp == was.rbp
    && now.r12 == was.r12 && now.r13 == was.r13 && now.r14 == was.r14 && now.r15 == was.r15
    && now.mxcsr == was.mxcsr && now.cw == was.cw
    && now.rsp == was.rsp + 8 && now.rip == Load64(was.mem, was.rsp)
  }

  lemma EnterJumped(p: Program, w: State, j: nat, landed: Cpu, w': State)
    requires p.Valid() && Inv(p, w) && JumpedTo(p, w, j, landed, w') && w.parked[j].Jumped?
    ensures Resumed(w.parked[j].at, w'.cpu)
  {
    hide FrameAt, Load64;
    JumpWrites(p, w, j, landed, w');
  }

  /** A context that jumped away at step i and is next entered at step k resumes as it left,
      whatever the other contexts did in between, and receives the jumper's frame and data. */
  lemma ResumesAsLeft(p: Program, ws: seq<State>, es: seq<Event>, i: nat, k: nat)
    requires IsRun(p, ws, es) && i < k < |es|
    requires es[i].Jump? && es[k].Jump? && es[k].j == ws[i].cur && LeftAlone(es, ws[i].cur, i + 1, k)
    ensures Resumed(ws[i].cpu, ws[k + 1].cpu)
    ensures ws[k + 1].cur == ws[i].cur && ws[k].cur in ws[k + 1].parked && Received(ws[k], ws[k + 1])
  {
    hide FrameAt, Intact, Inv, Resumed;
    RunStep(p, ws, es, i);
    RunStep(p, ws, es, k);
    RunStays(p, ws, es, ws[i].cur, i + 1, k);
    var landed :| JumpedTo(p, ws[k], ws[i].cur, landed, ws[k + 1]);
    EnterJumped(p, ws[k], ws[i].cur, landed, ws[k + 1]);
  }

  /** Entering a made context, whatever the top of its stack is: it starts in its function,
      with the stack aligned as the ABI (section 3.2.2) asks at a function's entry, finish as
      return address and the floating-point control state of its maker. */
  ghost predicate Started(p: Program, top: int, maker: Cpu, now: Cpu) {
    && now.rip == maker.rdx
    && now.rsp % 16 == 8 && Load64(now.mem, now.rsp) == p.finish
    && top - 0x17 <= now.rsp <= top - 8
    && now.mxcsr == maker.mxcsr && now.cw == maker.cw
  }

  lemma EnterFresh(p: Program, w: State, j: nat, landed: Cpu, w': State, maker: Cpu)
    requires p.Valid() && Inv(p, w) && JumpedTo(p, w, j, landed, w')
    requires w.parked[j].Fresh? && w.parked[j] == Fresh(w.parked[j].frame, maker.rdx, maker.mxcsr, maker.cw)
    ensures j < |p.stacks| && Started(p, p.stacks[j].hi, maker, w'.cpu)
  {
    hide Load, Load64, Load32, Load16;
    JumpWrites(p, w, j, landed, w');
  }

  /** A context made at step i and first entered at step k: its frame lies within 0x4f bytes
      below the top of its stack, and it is given the jumper's frame and the data. */
  lemma StartsAsMade(p: Program, ws: seq<State>, es: seq<Event>, i: nat, k: nat)
    requires IsRun(p, ws, es) && i < k < |es|
    requires es[i].Make? && es[k].Jump? && es[k].j == es[i].j && LeftAlone(es, es[i].j, i + 1, k)
    ensures es[i].j < |p.stacks|
    ensures var top := p.stacks[es[i].j].hi;
      && Started(p, top, ws[i].cpu, ws[k + 1].cpu)
      && top - 0x4f <= ws[i + 1].cpu.rax && ws[i + 1].cpu.rax + FRAME <= top
    ensures ws[k + 1].cur == es[i].j && ws[k].cur in ws[k + 1].parked && Received(ws[k], ws[k + 1])
  {
    hide FrameAt, Intact, Inv, Started;
    RunStep(p, ws, es, i);
    RunStep(p, ws, es, k);
    RunStays(p, ws, es, es[i].j, i + 1, k);
    var landed :| JumpedTo(p, ws[k], es[i].j, landed, ws[k + 1]);
    EnterFresh(p, ws[k], es[i].j, landed, ws[k + 1], ws[i].cpu);
  }
}
