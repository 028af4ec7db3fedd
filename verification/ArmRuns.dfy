/** Runs of any number of contexts on one ARM processor. */
module ArmRuns {
  import opened ByteMemory
  import opened ContextRuns
  import opened ArmContext

  datatype Parked =
    | Jumped(at: Cpu)
    | Fresh(frame: Word32, fn: Word32)
  {
    function Frame(): int { if Jumped? then at.sp - FRAME else frame }

    /** Where jump_fcontext leaves its result when it enters this context. */
    function Result(): int { if Jumped? then at.a1 else frame + FRAME }
  }

  datatype Program = Program(stacks: seq<Stack>, finish: Word32, vfp: bool) {
    ghost predicate Valid() { Apart(stacks, TOP) }

    /** An address of two words outside every other stack, and not below sp on its own. */
    ghost predicate Own(j: nat, a: int, sp: int)
      requires j < |stacks|
    {
      && (forall i :: 0 <= i < |stacks| && i != j ==> a + 8 <= stacks[i].lo || stacks[i].hi <= a)
      && (a + 8 <= stacks[j].lo || sp <= a)
    }
  }

  type State = World<Cpu, Parked>

  /** The running context leaves the frames of the others alone. */
  ghost predicate Worked(w: State, w': State) {
    && w' == w.(cpu := w'.cpu)
    && forall j :: j in w.parked ==>
         Same(w.cpu.mem, w'.cpu.mem, w.parked[j].Frame(), w.parked[j].Frame() + FRAME)
  }

  ghost predicate MadeOn(p: Program, w: State, j: nat, w': State) {
    && j < |p.stacks| && j != w.cur
    && w.cpu.a1 == p.stacks[j].hi && p.stacks[j].lo + 139 <= p.stacks[j].hi
    && w' == World(w'.cpu, w.cur, w.parked[j := Fresh(w'.cpu.a1, w.cpu.a3)])
    && Made(w.cpu, w'.cpu, p.finish)
  }

  /** The running context has room for a frame, its result structure is its own, and it jumps
      to a parked context. */
  ghost predicate JumpedTo(p: Program, w: State, j: nat, w': State) {
    && w.cur < |p.stacks| && p.stacks[w.cur].lo + FRAME <= w.cpu.sp <= p.stacks[w.cur].hi
    && p.Own(w.cur, w.cpu.a1, w.cpu.sp)
    && j in w.parked && w.cpu.a2 == w.parked[j].Frame()
    && w' == World(w'.cpu, j, (w.parked - {j})[w.cur := Jumped(w.cpu)])
    && Switched(w.cpu, w'.cpu, p.vfp)
  }

  ghost predicate Next(p: Program, w: State, e: Event, w': State) {
    match e
    case Work => Worked(w, w')
    case Make(j) => MadeOn(p, w, j, w')
    case Jump(j) => JumpedTo(p, w, j, w')
  }

  ghost predicate IsRun(p: Program, ws: seq<State>, es: seq<Event>) {
    && p.Valid() && |ws| == |es| + 1
    && ws[0].parked == map[] && ws[0].cur < |p.stacks|
    && forall i :: 0 <= i < |es| ==> Next(p, ws[i], es[i], ws[i + 1])
  }

  ghost predicate Intact(p: Program, m: Memory, j: nat, c: Parked)
    requires j < |p.stacks|
  {
    && p.stacks[j].lo <= c.Frame() && c.Frame() + FRAME <= p.stacks[j].hi
    && p.Own(j, c.Result(), c.Frame() + FRAME)
    && match c
       case Jumped(at) => at.Valid() && Holds(m, c.Frame(), at, p.vfp)
       case Fresh(a, fn) =>
         var f := FrameAt(m, a);
         && a == Down16(p.stacks[j].hi) - 124
         && f.pc == fn && f.block[0] == c.Result() && f.block[9] == p.finish
  }

  ghost predicate Inv(p: Program, w: State) {
    && w.cur < |p.stacks| && w.cur !in w.parked
    && forall j :: j in w.parked ==> j < |p.stacks| && Intact(p, w.cpu.mem, j, w.parked[j])
  }

  lemma IntactSame(p: Program, m: Memory, n: Memory, j: nat, c: Parked)
    requires j < |p.stacks| && Intact(p, m, j, c)
    requires Same(m, n, c.Frame(), c.Frame() + FRAME)
    ensures Intact(p, n, j, c)
  {
    hide FrameAt;
    FrameSame(m, n, c.Frame());
  }

  predicate Outside(s: Stack, x: int) { x < s.lo || s.hi <= x }

  lemma Disjoint(p: Program, i: nat, j: nat)
    requires p.Valid() && i < |p.stacks| && j < |p.stacks| && i != j
    ensures p.stacks[i].hi <= p.stacks[j].lo || p.stacks[j].hi <= p.stacks[i].lo
  {
  }

  lemma OwnOutside(p: Program, k: nat, a: int, sp: int, j: nat)
    requires k < |p.stacks| && j < |p.stacks| && k != j && p.Own(k, a, sp)
    ensures a + 8 <= p.stacks[j].lo || p.stacks[j].hi <= a
  {
  }

  /** Writes on another stack, and to the result of another context whose result is its own,
      leave a frame intact. */
  lemma OtherStack(p: Program, m: Memory, n: Memory, j: nat, c: Parked, i: nat, k: nat, a: int, sp: int)
    requires p.Valid() && j < |p.stacks| && i < |p.stacks| && k < |p.stacks| && i != j && k != j && Intact(p, m, j, c)
    requires p.Own(k, a, sp)
    requires forall x :: Outside(p.stacks[i], x) && (x < a || a + 8 <= x) ==> m(x) == n(x)
    ensures Intact(p, n, j, c)
  {
    hide Program.Own, Program.Valid, FrameAt, Holds;
    Disjoint(p, i, j);
    OwnOutside(p, k, a, sp, j);
    IntactSame(p, m, n, j, c);
  }

  lemma MakeKeeps(p: Program, w: State, j: nat, w': State)
    requires p.Valid() && Inv(p, w) && MadeOn(p, w, j, w')
    ensures Inv(p, w')
  {
    hide FrameAt, Holds;
    forall i | i in w'.parked
      ensures i < |p.stacks| && Intact(p, w'.cpu.mem, i, w'.parked[i])
    {
      if i != j {
        Disjoint(p, i, j);
        var c := w.parked[i];
        IntactSame(p, w.cpu.mem, w'.cpu.mem, i, c);
      }
    }
  }

  /** What the entered context finds, and what a jump writes. */
  lemma JumpWrites(p: Program, w: State, j: nat, w': State)
    requires p.Valid() && Inv(p, w) && JumpedTo(p, w, j, w')
    ensures w'.cpu.a4 == w.parked[j].Result()
    ensures forall x :: Outside(p.stacks[w.cur], x) && (x < w'.cpu.a4 || w'.cpu.a4 + 8 <= x) ==>
      w.cpu.mem(x) == w'.cpu.mem(x)
    ensures Intact(p, w'.cpu.mem, w.cur, Jumped(w.cpu))
  {
    hide FrameAt;
  }

  lemma JumpKeeps(p: Program, w: State, j: nat, w': State)
    requires p.Valid() && Inv(p, w) && JumpedTo(p, w, j, w')
    ensures Inv(p, w')
  {
    hide FrameAt, Switched;
    JumpWrites(p, w, j, w');
    var c := w.parked[j];
    assert p.Own(j, c.Result(), c.Frame() + FRAME);
    hide Intact;
    forall i | i in w'.parked
      ensures i < |p.stacks| && Intact(p, w'.cpu.mem, i, w'.parked[i])
    {
      if i != w.cur {
        OtherStack(p, w.cpu.mem, w'.cpu.mem, i, w.parked[i], w.cur, j, c.Result(), c.Frame() + FRAME);
      }
    }
  }

  lemma NextKeeps(p: Program, w: State, e: Event, w': State)
    requires p.Valid() && Inv(p, w) && Next(p, w, e, w')
    ensures Inv(p, w')
  {
    hide Intact, MadeOn, JumpedTo;
    match e {
      case Work =>
        forall j | j in w.parked
          ensures j < |p.stacks| && Intact(p, w'.cpu.mem, j, w.parked[j])
        {
          IntactSame(p, w.cpu.mem, w'.cpu.mem, j, w.parked[j]);
        }
      case Make(j) => MakeKeeps(p, w, j, w');
      case Jump(j) => JumpKeeps(p, w, j, w');
    }
  }

  lemma {:induction false} RunKeeps(p: Program, ws: seq<State>, es: seq<Event>, k: nat)
    requires IsRun(p, ws, es) && k <= |es|
    ensures Inv(p, ws[k])
  {
    hide Next;
    if k == 0 {
    } else {
      RunKeeps(p, ws, es, k - 1);
      NextKeeps(p, ws[k - 1], es[k - 1], ws[k]);
    }
  }

  lemma RunStep(p: Program, ws: seq<State>, es: seq<Event>, k: nat)
    requires IsRun(p, ws, es) && k < |es|
    ensures Inv(p, ws[k]) && Next(p, ws[k], es[k], ws[k + 1])
  {
    RunKeeps(p, ws, es, k);
  }

  lemma ParkedStep(p: Program, w: State, e: Event, w': State)
    requires Inv(p, w) && Next(p, w, e, w')
    ensures OthersStay(w, e, w')
  {
    hide Intact, Switched, Made;
  }

  lemma RunStays(p: Program, ws: seq<State>, es: seq<Event>, j: nat, i: nat, k: nat)
    requires IsRun(p, ws, es) && LeftAlone(es, j, i, k) && j in ws[i].parked
    ensures j in ws[k].parked && ws[k].parked[j] == ws[i].parked[j]
  {
    hide Next, Inv, OthersStay, LeftAlone;
    forall n | 0 <= n < |es| ensures OthersStay(ws[n], es[n], ws[n + 1]) {
      RunStep(p, ws, es, n);
      ParkedStep(p, ws[n], es[n], ws[n + 1]);
    }
    StaysParked(ws, es, j, i, k);
  }

  /** Every register that a callee must preserve is as it was, the stack pointer too, execution
      goes on at the return address, and the structure at `was.a1` holds the jumper's frame and
      its data. */
  ghost predicate Resumed(vfp: bool, was: Cpu, jumper: Cpu, now: Cpu) {
    && now.v == was.v && (vfp ==> now.d == was.d)
    && now.sp == was.sp && now.pc == was.lr
    && Load32(now.mem, was.a1) == jumper.sp - FRAME && Load32(now.mem, was.a1 + 4) == jumper.a3
  }

  lemma EnterJumped(p: Program, w: State, j: nat, w': State)
    requires p.Valid() && Inv(p, w) && JumpedTo(p, w, j, w') && w.parked[j].Jumped?
    ensures Resumed(p.vfp, w.parked[j].at, w.cpu, w'.cpu)
    ensures w'.parked[w.cur].Frame() == w.cpu.sp - FRAME
  {
    hide FrameAt, Load32;
  }

  lemma ResumesAsLeft(p: Program, ws: seq<State>, es: seq<Event>, i: nat, k: nat)
    requires IsRun(p, ws, es) && i < k < |es|
    requires es[i].Jump? && es[k].Jump? && es[k].j == ws[i].cur && LeftAlone(es, ws[i].cur, i + 1, k)
    ensures Resumed(p.vfp, ws[i].cpu, ws[k].cpu, ws[k + 1].cpu) && ws[k + 1].cur == ws[i].cur
    ensures ws[k].cur in ws[k + 1].parked && ws[k + 1].parked[ws[k].cur].Frame() == ws[k].cpu.sp - FRAME
  {
    hide FrameAt, Intact, Inv, Resumed;
    RunStep(p, ws, es, i);
    RunStep(p, ws, es, k);
    RunStays(p, ws, es, ws[i].cur, i + 1, k);
    EnterJumped(p, ws[k], ws[i].cur, ws[k + 1]);
  }

  /** A new context starts in its function with finish as return address, a stack aligned as
      the AAPCS (section 6.2.1.2) asks at a public interface, and the jumper's frame and data as
      arguments. */
  ghost predicate Started(p: Program, top: int, maker: Cpu, jumper: Cpu, now: Cpu) {
    && now.pc == maker.a3 && now.lr == p.finish
    && now.sp % 16 == 0 && top - 31 <= now.sp <= top - 16
    && now.a1 == jumper.sp - FRAME && now.a2 == jumper.a3
  }

  lemma EnterFresh(p: Program, w: State, j: nat, w': State, maker: Cpu)
    requires p.Valid() && Inv(p, w) && JumpedTo(p, w, j, w')
    requires w.parked[j].Fresh? && w.parked[j].fn == maker.a3
    ensures j < |p.stacks| && Started(p, p.stacks[j].hi, maker, w.cpu, w'.cpu)
  {
    hide FrameAt, Load32, Holds, Block, Program.Own, Program.Valid;
  }

  lemma StartsAsMade(p: Program, ws: seq<State>, es: seq<Event>, i: nat, k: nat)
    requires IsRun(p, ws, es) && i < k < |es|
    requires es[i].Make? && es[k].Jump? && es[k].j == es[i].j && LeftAlone(es, es[i].j, i + 1, k)
    ensures es[i].j < |p.stacks|
    ensures var top := p.stacks[es[i].j].hi;
      && Started(p, top, ws[i].cpu, ws[k].cpu, ws[k + 1].cpu)
      && top - 139 <= ws[i + 1].cpu.a1 && ws[i + 1].cpu.a1 + FRAME + 8 <= top
    ensures ws[k + 1].cur == es[i].j
    ensures ws[k].cur in ws[k + 1].parked && ws[k + 1].parked[ws[k].cur].Frame() == ws[k].cpu.sp - FRAME
  {
    hide FrameAt, Intact, Inv, Started;
    RunStep(p, ws, es, i);
    RunStep(p, ws, es, k);
    RunStays(p, ws, es, es[i].j, i + 1, k);
    EnterFresh(p, ws[k], es[i].j, ws[k + 1], ws[i].cpu);
  }
}
