/** What the sequential queue is that the concurrent one amounts to: first in, first out, with pops
    from the back and erasures; and that calls come to their end. */
module QueueLaws {
  import opened Basics
  import opened QueueSpec
  import opened QueueLock

  // ---------------------------------------------------------------- the deque, call by call

  /** How many elements a batch pop of n takes from q. */
  function Count(n: nat, q: seq<Task>): nat {
    if q == [] then 0 else if n == 0 then 1 else Min(n, |q|)
  }

  /** What one call may do to the queue and hand out. */
  ghost predicate Allowed(op: Op, before: seq<Task>, result: seq<Task>, after: seq<Task>) {
    match op
    case Push(x) => result == [] && after == before + [x]
    case PushAll(xs) => result == [] && after == before + xs
    case Pop => before == result + after && |result| == Count(1, before)
    case PopFront(n) => before == result + after && |result| == Count(n, before)
    case PopBack(n) => before == after + result && |result| == Count(n, before)
    case PopAll => result == before && after == []
    case Erase(x) =>
      if x in before then
        result == [x] && exists a, b :: before == a + [x] + b && x !in a && after == a + b
      else result == [] && after == before
  }

  lemma {:induction false} ErasedOnce(q: seq<Task>, x: Task) returns (a: seq<Task>, b: seq<Task>)
    requires x in q
    ensures q == a + [x] + b && x !in a && Without(q, x) == a + b
  {
    if q[0] == x {
      a, b := [], q[1..];
    } else {
      a, b := ErasedOnce(q[1..], x);
      a := [q[0]] + a;
    }
  }

  lemma OpAllowed(op: Op, q: seq<Task>)
    ensures Allowed(op, q, Result(op, q), After(op, q))
  {
    hide FrontTaken, FrontLeft, BackTaken, BackLeft, Without;
    match op {
      case Pop => FrontCount(q, 1);
      case PopFront(n) => FrontCount(q, n);
      case PopBack(n) => BackCount(q, n);
      case Erase(x) =>
        if x in q {
          var a, b := ErasedOnce(q, x);
        } else {
          WithoutNone(q, x);
        }
      case _ =>
    }
  }

  lemma FrontCount(q: seq<Task>, n: nat)
    ensures q == FrontTaken(q, n) + FrontLeft(q, n) && |FrontTaken(q, n)| == Count(n, q)
  {
    FrontSplits(q, n);
  }

  lemma BackCount(q: seq<Task>, n: nat)
    ensures q == BackLeft(q, n) + BackTaken(q, n) && |BackTaken(q, n)| == Count(n, q)
  {
    BackSplits(q, n);
  }

  /** In every run, every call that has taken effect did to the queue, and handed out, what the
      deque allows, and nothing else happened to the queue. */
  lemma RunAllowed(events: seq<Event>, i: nat)
    requires i < |Run(events).log|
    ensures var log := Run(events).log;
      Allowed(log[i].op, Replay(log[..i]), log[i].result, Replay(log[..i + 1]))
    ensures Replay(Run(events).log[..0]) == [] && Replay(Run(events).log) == Settled(Run(events))
  {
    var log := Run(events).log;
    RunLinearizes(events);
    assert log[..i + 1][..i] == log[..i];
    hide Run, Settled;
    OpAllowed(log[i].op, Replay(log[..i]));
  }

  // ---------------------------------------------------------------- first in, first out

  /** What the calls of a log added, in order. */
  function Ins(log: seq<Entry>): seq<Task> {
    if log == [] then []
    else
      Ins(log[..|log| - 1]) +
      match log[|log| - 1].op
      case Push(x) => [x]
      case PushAll(xs) => xs
      case _ => []
  }

  /** What they handed out, in order. */
  function Outs(log: seq<Entry>): seq<Task> {
    if log == [] then [] else Outs(log[..|log| - 1]) + log[|log| - 1].result
  }

  predicate FromFront(op: Op) { !op.PopBack? && !op.Erase? }

  lemma AllowedFifo(op: Op, ins: seq<Task>, outs: seq<Task>, before: seq<Task>, result: seq<Task>, after: seq<Task>)
    requires Allowed(op, before, result, after) && FromFront(op) && outs + before == ins
    ensures outs + result + after == ins + match op case Push(x) => [x] case PushAll(xs) => xs case _ => []
  {
    if !op.Push? && !op.PushAll? {
      assert outs + result + after == outs + (result + after);
    }
  }

  lemma {:induction false} LegalFifo(log: seq<Entry>)
    requires Legal(log) && forall i :: 0 <= i < |log| ==> FromFront(log[i].op)
    ensures Outs(log) + Replay(log) == Ins(log)
  {
    if log == [] {
    } else {
      var before, e := log[..|log| - 1], log[|log| - 1];
      LegalFront(log);
      LegalFifo(before);
      OpAllowed(e.op, Replay(before));
      hide After, Result, Legal, Allowed, FromFront;
      AllowedFifo(e.op, Ins(before), Outs(before), Replay(before), e.result, Replay(log));
    }
  }

  /** In every run in which nothing is popped from the back or erased, the elements handed out, in
      order and each batch in its order, followed by those in the queue, are the elements added,
      in order. */
  lemma RunIsFifo(events: seq<Event>)
    requires forall i :: 0 <= i < |Run(events).log| ==> FromFront(Run(events).log[i].op)
    ensures Outs(Run(events).log) + Settled(Run(events)) == Ins(Run(events).log)
  {
    RunLinearizes(events);
    hide Run, Settled;
    LegalFifo(Run(events).log);
  }

  // ---------------------------------------------------------------- progress

  /** The steps that a call still takes, once it gets the lock. */
  function StepsLeft(pc: Pc): nat {
    match pc
    case Idle => 0
    case Return(_) => 1
    case Unlock(_) => 2
    case Surgery(_, _) => 3
    case MoveTail(_) => 4
    case Recheck(_) => 5
    case Acquire(_) => 6
    case Look(_) => 7
  }

  /** Thread t can go on: no other thread has the lock, and what it adds is in no list. */
  ghost predicate CanGo(s: State, t: nat) {
    && (s.lock == None || s.lock == Some(t))
    && forall op :: op in Pending(PcOf(s, t)) ==> Unlinked(op, s.links)
  }

  lemma StepShortens(s: State, t: nat)
    requires Inv(s) && CanGo(s, t)
    ensures var s' := ThreadStep(s, t);
      && CanGo(s', t)
      && (PcOf(s', t).Idle? || StepsLeft(PcOf(s', t)) < StepsLeft(PcOf(s, t)))
  {
    hide Legal, Distinct, Replay, ThreadInv, QueueInv, TailAfter, Result;
    assert Holds(PcOf(s, t)) <==> s.lock == Some(t);
  }

  function Solo(t: nat, n: nat): seq<Event> { seq(n, _ => Step(t)) }

  lemma {:induction false} SoloShortens(events: seq<Event>, t: nat, n: nat)
    requires CanGo(Run(events), t)
    ensures var s' := Run(events + Solo(t, n));
      CanGo(s', t) && (PcOf(s', t).Idle? || StepsLeft(PcOf(s', t)) + n <= StepsLeft(PcOf(Run(events), t)))
  {
    hide CanGo, StepsLeft, ThreadStep, Inv;
    if n == 0 {
      assert events + Solo(t, 0) == events;
    } else {
      SoloShortens(events, t, n - 1);
      var all, before := events + Solo(t, n), events + Solo(t, n - 1);
      assert all[..|all| - 1] == before && all[|all| - 1] == Step(t);
      RunLinearizes(before);
      StepShortens(Run(before), t);
      IdleLeft(PcOf(Run(before), t));
      IdleLeft(PcOf(Run(all), t));
    }
  }

  lemma IdleLeft(pc: Pc)
    ensures StepsLeft(pc) == 0 <==> pc.Idle?
    ensures StepsLeft(pc) <= 7
  {
  }

  /** A thread that has the lock, or finds it free, finishes its call within seven steps of its own,
      and leaves the lock free. */
  lemma CallEnds(events: seq<Event>, t: nat)
    requires CanGo(Run(events), t)
    ensures PcOf(Run(events + Solo(t, 7)), t).Idle? && Run(events + Solo(t, 7)).lock == None
  {
    SoloShortens(events, t, 7);
    IdleLeft(PcOf(Run(events), t));
    IdleLeft(PcOf(Run(events + Solo(t, 7)), t));
    RunLinearizes(events + Solo(t, 7));
    hide Run, QueueInv, ThreadInv, Pending, Unlinked;
    var s := Run(events + Solo(t, 7));
    assert Holds(PcOf(s, t)) <==> s.lock == Some(t);
  }
}
