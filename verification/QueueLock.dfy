/** TSQueue under concurrency: any number of threads, the spin lock, and the early exits
    that compare head_ with tail_ before taking the lock.

    Between the lock and the unlock the source touches tail_ in exactly one step; that
    step is modelled apart from the rest of the pointer surgery, because tail_ is the one
    field that threads without the lock read.  The rest of the surgery is one step: what
    it writes is read only under the lock. */
module QueueLock {
  import opened Basics
  import opened QueueSpec

  /** Elements are told apart by their address. */
  type Task = nat

  datatype Op =
    | Push(x: Task)
    | PushAll(xs: seq<Task>)
    | Pop
    | PopFront(n: nat)
    | PopBack(n: nat)
    | PopAll
    | Erase(x: Task)

  // ---------------------------------------------------------------- the sequential queue

  /** The queue after an operation, and the elements it hands to its caller. */
  function After(op: Op, q: seq<Task>): seq<Task> {
    match op
    case Push(x) => q + [x]
    case PushAll(xs) => q + xs
    case Pop => FrontLeft(q, 1)
    case PopFront(n) => FrontLeft(q, n)
    case PopBack(n) => BackLeft(q, n)
    case PopAll => []
    case Erase(x) => Without(q, x)
  }

  function Result(op: Op, q: seq<Task>): seq<Task> {
    match op
    case Push(x) => []
    case PushAll(xs) => []
    case Pop => FrontTaken(q, 1)
    case PopFront(n) => FrontTaken(q, n)
    case PopBack(n) => BackTaken(q, n)
    case PopAll => q
    case Erase(x) => if x in q then [x] else []
  }

  function Added(op: Op): seq<Task> {
    match op
    case Push(x) => [x]
    case PushAll(xs) => xs
    case _ => []
  }

  // ---------------------------------------------------------------- the concurrent queue

  /** push and erase go straight for the lock; the pops and the batch push look first. */
  predicate LooksFirst(op: Op) { !op.Push? && !op.Erase? }

  /** What they look for: the batch push at its own list, the pops at head_ == tail_. */
  predicate NothingToDo(op: Op, tail: Option<Task>) {
    if op.PushAll? then op.xs == [] else tail == None
  }

  /** What is added is not linked yet, and nothing is added twice. */
  ghost predicate Unlinked(op: Op, links: seq<Task>) {
    Distinct(Added(op)) && forall x :: x in Added(op) ==> x !in links
  }

  datatype Pc =
    | Idle
    | Look(op: Op)                    // something to do? without the lock
    | Acquire(op: Op)                 // spinning on test_and_set
    | Recheck(op: Op)                 // lock held: something to do?
    | MoveTail(op: Op)                // lock held: the one write to tail_
    | Surgery(op: Op, result: seq<Task>) // lock held: the remaining links and the count
    | Unlock(result: seq<Task>)
    | Return(result: seq<Task>)

  /** links is the order in which the pointers currently chain the elements; tail is None
      when tail_ == head_.  calls and log are history variables: the calls made, and the
      operations in the order in which they took effect, with what each handed out. */
  datatype State = State(
    lock: Option<nat>, tail: Option<Task>, links: seq<Task>,
    threads: map<nat, Pc>,
    calls: seq<Invocation>, log: seq<Entry>)

  datatype Invocation = Invocation(thread: nat, op: Op)

  datatype Entry = Entry(thread: nat, op: Op, result: seq<Task>)

  datatype Event = Call(thread: nat, op: Op) | Step(thread: nat)

  function PcOf(s: State, t: nat): Pc { if t in s.threads then s.threads[t] else Idle }

  function Goto(s: State, t: nat, pc: Pc): State { s.(threads := s.threads[t := pc]) }

  function Effect(s: State, t: nat, op: Op, result: seq<Task>): State {
    s.(log := s.log + [Entry(t, op, result)])
  }

  /** The value the code leaves in tail_, worked out from the links and the old tail_ as
      each operation does it. */
  function TailAfter(op: Op, links: seq<Task>, tail: Option<Task>): Option<Task> {
    match op
    case Push(x) => Some(x)
    case PushAll(xs) => if xs == [] then tail else Some(xs[|xs| - 1])
    case Pop => if links != [] && tail == Some(links[0]) then None else tail
    case PopFront(n) => if links != [] && tail == Some(links[Clip(n, |links|) - 1]) then None else tail
    case PopBack(n) =>
      if links == [] then tail
      else if Clip(n, |links|) == |links| then None
      else Some(links[|links| - Clip(n, |links|) - 1])
    case PopAll => None
    case Erase(x) =>
      if x in links && tail == Some(x)
      then if |links| == 1 then None else Some(links[|links| - 2])
      else tail
  }

  ghost function Next(s: State, e: Event): State {
    match e
    case Call(t, op) =>
      if PcOf(s, t) != Idle then s
      else Goto(s.(calls := s.calls + [Invocation(t, op)]), t, if LooksFirst(op) then Look(op) else Acquire(op))
    case Step(t) => ThreadStep(s, t)
  }

  ghost function ThreadStep(s: State, t: nat): State {
    match PcOf(s, t)
    case Idle => s
    case Look(op) =>
      if NothingToDo(op, s.tail) then Goto(Effect(s, t, op, []), t, Return([])) else Goto(s, t, Acquire(op))
    case Acquire(op) =>
      if s.lock != None then s
      else Goto(s.(lock := Some(t)), t, if LooksFirst(op) then Recheck(op) else MoveTail(op))
    case Recheck(op) =>
      if NothingToDo(op, s.tail) then Goto(Effect(s, t, op, []), t, Unlock([])) else Goto(s, t, MoveTail(op))
    case MoveTail(op) =>
      if !Unlinked(op, s.links) then s   // asserted against: a hook is still linked
      else
        var r := Result(op, s.links);
        Goto(Effect(s.(tail := TailAfter(op, s.links, s.tail)), t, op, r), t, Surgery(op, r))
    case Surgery(op, r) => Goto(s.(links := After(op, s.links)), t, Unlock(r))
    case Unlock(r) => Goto(s.(lock := None), t, Return(r))
    case Return(r) => Goto(s, t, Idle)
  }

  ghost function Run(events: seq<Event>): State {
    if events == [] then State(None, None, [], map[], [], [])
    else Next(Run(events[..|events| - 1]), events[|events| - 1])
  }

  // ---------------------------------------------------------------- linearization

  /** The sequential queue after the logged operations. */
  function Replay(log: seq<Entry>): seq<Task> {
    if log == [] then [] else After(log[|log| - 1].op, Replay(log[..|log| - 1]))
  }

  /** Every logged operation handed out what the sequential queue would have. */
  ghost predicate Legal(log: seq<Entry>) {
    forall i :: 0 <= i < |log| ==> log[i].result == Result(log[i].op, Replay(log[..i]))
  }

  function LastOf(q: seq<Task>): Option<Task> { if q == [] then None else Some(q[|q| - 1]) }

  predicate Holds(pc: Pc) { pc.Recheck? || pc.MoveTail? || pc.Surgery? || pc.Unlock? }

  /** The links, or what they will be once the surgery under way is done. */
  function Settled(s: State): seq<Task> {
    if s.lock.Some? && PcOf(s, s.lock.value).Surgery? then After(PcOf(s, s.lock.value).op, s.links) else s.links
  }

  /** tail_ always spells the last element of the queue that the log replays to, also while
      the links still lag behind it. */
  ghost predicate QueueInv(s: State) {
    && Legal(s.log)
    && Distinct(s.links)
    && Distinct(Replay(s.log))
    && s.tail == LastOf(Replay(s.log))
    && Replay(s.log) == Settled(s)
  }

  /** At most one thread is between lock and unlock. */
  ghost predicate Exclusive(s: State) {
    forall t: nat {:trigger PcOf(s, t)} :: Holds(PcOf(s, t)) <==> s.lock == Some(t)
  }

  function CalledBy(calls: seq<Invocation>, t: nat): seq<Op> {
    if calls == [] then []
    else CalledBy(calls[..|calls| - 1], t) + if calls[|calls| - 1].thread == t then [calls[|calls| - 1].op] else []
  }

  function DoneBy(log: seq<Entry>, t: nat): seq<Op> {
    if log == [] then []
    else DoneBy(log[..|log| - 1], t) + if log[|log| - 1].thread == t then [log[|log| - 1].op] else []
  }

  function LastResult(log: seq<Entry>, t: nat): Option<seq<Task>> {
    if log == [] then None
    else if log[|log| - 1].thread == t then Some(log[|log| - 1].result)
    else LastResult(log[..|log| - 1], t)
  }

  function Pending(pc: Pc): seq<Op> {
    if pc.Look? || pc.Acquire? || pc.Recheck? || pc.MoveTail? then [pc.op] else []
  }

  /** Every call takes effect exactly once, not before it is made, and before it returns;
      and it returns what it took. */
  ghost predicate ThreadInv(s: State, t: nat) {
    var pc := PcOf(s, t);
    && CalledBy(s.calls, t) == DoneBy(s.log, t) + Pending(pc)
    && (pc.Look? || pc.Recheck? ==> LooksFirst(pc.op))
    && (pc.Surgery? || pc.Unlock? || pc.Return? ==> LastResult(s.log, t) == Some(pc.result))
  }

  ghost predicate Inv(s: State) {
    QueueInv(s) && Exclusive(s) && forall t: nat :: ThreadInv(s, t)
  }

  /** Removing from a queue of distinct elements leaves the rest distinct, and moves the
      last element only when that is the one removed. */
  lemma ErasedTail(q: seq<Task>, x: Task)
    requires Distinct(q)
    ensures Distinct(Without(q, x))
    ensures TailAfter(Erase(x), q, LastOf(q)) == LastOf(Without(q, x))
  {
    if x in q {
      var k :| 0 <= k < |q| && q[k] == x;
      WithoutAt(q, k);
    } else {
      WithoutNone(q, x);
    }
  }

  /** Each operation's own arithmetic on tail_ ends at the last element left. */
  lemma TailIsLast(op: Op, q: seq<Task>)
    requires Distinct(q) && Unlinked(op, q)
    ensures TailAfter(op, q, LastOf(q)) == LastOf(After(op, q))
    ensures Distinct(After(op, q))
  {
    if op.Erase? {
      ErasedTail(q, op.x);
    } else if op.Push? || op.PushAll? {
      JoinedDistinct(q, Added(op));
    }
  }

  lemma JoinedDistinct(q: seq<Task>, xs: seq<Task>)
    requires Distinct(q) && Distinct(xs) && forall x :: x in xs ==> x !in q
    ensures Distinct(q + xs)
  {
    forall i, j | 0 <= i < j < |q + xs| ensures (q + xs)[i] != (q + xs)[j] {
      assert j >= |q| ==> (q + xs)[j] in xs;
    }
  }

  lemma LegalExtends(log: seq<Entry>, e: Entry)
    requires Legal(log) && e.result == Result(e.op, Replay(log))
    ensures Legal(log + [e]) && Replay(log + [e]) == After(e.op, Replay(log))
  {
    assert (log + [e])[..|log|] == log;
    assert forall i :: 0 <= i < |log| ==> (log + [e])[..i] == log[..i];
  }

  lemma DoneExtends(log: seq<Entry>, e: Entry)
    ensures forall t :: DoneBy(log + [e], t) == DoneBy(log, t) + if e.thread == t then [e.op] else []
    ensures forall t :: LastResult(log + [e], t) == if e.thread == t then Some(e.result) else LastResult(log, t)
  {
    assert (log + [e])[..|log|] == log;
  }

  lemma CallKeeps(s: State, t: nat, op: Op)
    requires Inv(s)
    ensures Inv(Next(s, Call(t, op)))
  {
    var s' := Next(s, Call(t, op));
    if PcOf(s, t) == Idle {
      assert forall u :: u != t ==> PcOf(s', u) == PcOf(s, u);
      assert s'.calls[..|s.calls|] == s.calls;
      forall u: nat ensures ThreadInv(s', u) {
        assert ThreadInv(s, u);
      }
      assert QueueInv(s');
    }
  }

  /** A step with an effect: the log grows by what the sequential queue would do. */
  lemma EffectKeeps(s: State, s': State, t: nat, op: Op, r: seq<Task>)
    requires Inv(s) && Pending(PcOf(s, t)) == [op] && r == Result(op, Replay(s.log))
    requires s'.log == s.log + [Entry(t, op, r)] && s'.calls == s.calls
    requires forall u :: u != t ==> PcOf(s', u) == PcOf(s, u)
    requires PcOf(s', t) in {Return(r), Unlock(r), Surgery(op, r)}
    ensures Legal(s'.log) && Replay(s'.log) == After(op, Replay(s.log))
    ensures forall u: nat :: ThreadInv(s', u)
  {
    LegalExtends(s.log, Entry(t, op, r));
    DoneExtends(s.log, Entry(t, op, r));
    forall u: nat ensures ThreadInv(s', u) {
      assert ThreadInv(s, u);
    }
  }

  /** A step without an effect moves one thread along. */
  lemma QuietKeeps(s: State, s': State, t: nat)
    requires Inv(s) && s'.log == s.log && s'.calls == s.calls
    requires forall u :: u != t ==> PcOf(s', u) == PcOf(s, u)
    requires Pending(PcOf(s', t)) == Pending(PcOf(s, t))
    requires PcOf(s', t).Recheck? ==> LooksFirst(PcOf(s', t).op)
    requires !PcOf(s', t).Look? && !PcOf(s', t).Surgery?
    requires PcOf(s', t).Unlock? || PcOf(s', t).Return? ==>
      (PcOf(s, t).Surgery? || PcOf(s, t).Unlock?) && PcOf(s', t).result == PcOf(s, t).result
    ensures forall u: nat :: ThreadInv(s', u)
  {
    forall u: nat ensures ThreadInv(s', u) {
      assert ThreadInv(s, u);
    }
  }

  /** An early exit, with the lock or without it, is right: a pop answers "empty" only when the
      queue was empty at that read, and nothing is handed out or changed. */
  lemma EarlyExitIsEmpty(s: State, t: nat)
    requires Inv(s) && (PcOf(s, t).Look? || PcOf(s, t).Recheck?) && NothingToDo(PcOf(s, t).op, s.tail)
    ensures !PcOf(s, t).op.PushAll? ==> Replay(s.log) == []
    ensures Result(PcOf(s, t).op, Replay(s.log)) == [] && After(PcOf(s, t).op, Replay(s.log)) == Replay(s.log)
  {
    assert ThreadInv(s, t);
  }

  lemma LookKeeps(s: State, t: nat)
    requires Inv(s) && PcOf(s, t).Look?
    ensures Inv(ThreadStep(s, t))
  {
    hide Legal, Distinct, Replay, ThreadInv;
    var s' := ThreadStep(s, t);
    assert forall u :: u != t ==> PcOf(s', u) == PcOf(s, u);
    if NothingToDo(PcOf(s, t).op, s.tail) {
      EarlyExitIsEmpty(s, t);
      EffectKeeps(s, s', t, PcOf(s, t).op, []);
    } else {
      QuietKeeps(s, s', t);
    }
  }

  lemma RecheckKeeps(s: State, t: nat)
    requires Inv(s) && PcOf(s, t).Recheck?
    ensures Inv(ThreadStep(s, t))
  {
    hide Legal, Distinct, Replay, ThreadInv;
    var s' := ThreadStep(s, t);
    assert s.lock == Some(t);
    assert forall u :: u != t ==> PcOf(s', u) == PcOf(s, u);
    if NothingToDo(PcOf(s, t).op, s.tail) {
      EarlyExitIsEmpty(s, t);
      EffectKeeps(s, s', t, PcOf(s, t).op, []);
    } else {
      QuietKeeps(s, s', t);
    }
  }

  lemma MoveTailKeeps(s: State, t: nat)
    requires Inv(s) && PcOf(s, t).MoveTail?
    ensures Inv(ThreadStep(s, t))
  {
    var s' := ThreadStep(s, t);
    var op := PcOf(s, t).op;
    if Unlinked(op, s.links) {
      assert s.lock == Some(t);
      assert forall u :: u != t ==> PcOf(s', u) == PcOf(s, u);
      TailIsLast(op, s.links);
      EffectKeeps(s, s', t, op, Result(op, s.links));
    }
  }

  lemma LockKeeps(s: State, t: nat)
    requires Inv(s) && (PcOf(s, t).Acquire? || PcOf(s, t).Surgery? || PcOf(s, t).Unlock? || PcOf(s, t).Return?)
    ensures Inv(ThreadStep(s, t))
  {
    var s' := ThreadStep(s, t);
    if s' != s {
      assert forall u :: u != t ==> PcOf(s', u) == PcOf(s, u);
      QuietKeeps(s, s', t);
    }
  }

  /** Under every interleaving, the operations take effect one after another on a
      sequential queue: the log is legal, the links and the tail agree with it, and every
      thread gets what its call took, between call and return. */
  lemma {:induction false} RunLinearizes(events: seq<Event>)
    ensures Inv(Run(events))
  {
    if events == [] {
    } else {
      var s := Run(events[..|events| - 1]);
      RunLinearizes(events[..|events| - 1]);
      hide Inv, ThreadStep;
      match events[|events| - 1] {
        case Call(t, op) => CallKeeps(s, t, op);
        case Step(t) =>
          match PcOf(s, t) {
            case Idle => IdleStays(s, t);
            case Look(_) => LookKeeps(s, t);
            case Recheck(_) => RecheckKeeps(s, t);
            case MoveTail(_) => MoveTailKeeps(s, t);
            case _ => LockKeeps(s, t);
          }
      }
    }
  }

  lemma IdleStays(s: State, t: nat)
    requires PcOf(s, t).Idle?
    ensures ThreadStep(s, t) == s
  {
  }

  // ---------------------------------------------------------------- real-time order

  lemma StepGrows(s: State, e: Event)
    ensures s.log <= Next(s, e).log && s.calls <= Next(s, e).calls
  {
  }

  /** What has taken effect stays so, in its order. */
  lemma {:induction false} LogGrows(events: seq<Event>, k: nat)
    requires k <= |events|
    ensures Run(events[..k]).log <= Run(events).log
  {
    if k == |events| {
      assert events[..k] == events;
    } else {
      var before := events[..|events| - 1];
      assert before[..k] == events[..k];
      LogGrows(before, k);
      StepGrows(Run(before), events[|events| - 1]);
    }
  }

  /** Call number d of thread t has returned. */
  predicate Returned(s: State, t: nat, d: nat) {
    d + (if PcOf(s, t) == Idle then 0 else 1) < |CalledBy(s.calls, t)|
  }

  /** Call number c of thread u has not been made. */
  predicate NotMade(s: State, u: nat, c: nat) {
    c >= |CalledBy(s.calls, u)|
  }

  /** Entry i of the log is that of call number d of thread t. */
  predicate IsEntryOf(log: seq<Entry>, i: nat, t: nat, d: nat) {
    i < |log| && log[i].thread == t && |DoneBy(log[..i], t)| == d
  }

  lemma {:induction false} DoneGrows(log: seq<Entry>, t: nat, i: nat, j: nat)
    requires i <= j <= |log|
    ensures |DoneBy(log[..i], t)| <= |DoneBy(log[..j], t)|
    ensures i < j && log[i].thread == t ==> |DoneBy(log[..i], t)| < |DoneBy(log[..j], t)|
    decreases j - i
  {
    if i == j {
    } else {
      assert log[..j][..j - 1] == log[..j - 1] && log[..j][j - 1] == log[j - 1];
      DoneGrows(log, t, i, j - 1);
    }
  }

  lemma {:induction false} FindEntry(log: seq<Entry>, t: nat, d: nat) returns (i: nat)
    requires d < |DoneBy(log, t)|
    ensures IsEntryOf(log, i, t, d)
  {
    var front := log[..|log| - 1];
    if d < |DoneBy(front, t)| {
      i := FindEntry(front, t, d);
      assert front[..i] == log[..i];
    } else {
      i := |log| - 1;
    }
  }

  /** A call that has returned is in the log. */
  lemma ReturnedTookEffect(events: seq<Event>, t: nat, d: nat) returns (i: nat)
    requires Returned(Run(events), t, d)
    ensures IsEntryOf(Run(events).log, i, t, d)
  {
    RunLinearizes(events);
    assert ThreadInv(Run(events), t);
    i := FindEntry(Run(events).log, t, d);
  }

  /** If, at some point of a run, one call has returned and another has not been made yet, then
      the first takes effect before the second. */
  lemma RealTimeOrder(events: seq<Event>, k: nat, t: nat, d: nat, i: nat, u: nat, c: nat, j: nat)
    requires k <= |events| && Returned(Run(events[..k]), t, d) && NotMade(Run(events[..k]), u, c)
    requires IsEntryOf(Run(events).log, i, t, d) && IsEntryOf(Run(events).log, j, u, c)
    ensures i < |Run(events[..k]).log| <= j
  {
    var s, log := Run(events[..k]), Run(events).log;
    RunLinearizes(events[..k]);
    LogGrows(events, k);
    var m := |s.log|;
    assert log[..m] == s.log;
    assert ThreadInv(s, t) && ThreadInv(s, u);
    hide Run, Inv, DoneBy, CalledBy;
    if i >= m {
      DoneGrows(log, t, m, i);
    }
    if j < m {
      DoneGrows(log, u, j, m);
    }
  }

  // ---------------------------------------------------------------- nothing lost, nothing twice

  function Pushed(log: seq<Entry>): multiset<Task> {
    if log == [] then multiset{}
    else Pushed(log[..|log| - 1]) + multiset(Added(log[|log| - 1].op))
  }

  function HandedOut(log: seq<Entry>): multiset<Task> {
    if log == [] then multiset{}
    else HandedOut(log[..|log| - 1]) + multiset(log[|log| - 1].result)
  }

  lemma OpConserves(op: Op, q: seq<Task>)
    ensures multiset(After(op, q)) + multiset(Result(op, q)) == multiset(q) + multiset(Added(op))
  {
    hide FrontTaken, FrontLeft, BackTaken, BackLeft, Without;
    match op
    case Push(x) =>
    case PushAll(xs) =>
    case Pop => FrontSplits(q, 1);
    case PopFront(n) => FrontSplits(q, n);
    case PopBack(n) => BackSplits(q, n);
    case PopAll =>
    case Erase(x) => WithoutCounts(q, x);
  }

  lemma LegalFront(log: seq<Entry>)
    requires log != [] && Legal(log)
    ensures Legal(log[..|log| - 1])
    ensures log[|log| - 1].result == Result(log[|log| - 1].op, Replay(log[..|log| - 1]))
  {
    var before := log[..|log| - 1];
    assert forall i :: 0 <= i < |before| ==> before[i] == log[i] && before[..i] == log[..i];
  }

  lemma {:induction false} LegalConserves(log: seq<Entry>)
    requires Legal(log)
    ensures Pushed(log) == HandedOut(log) + multiset(Replay(log))
  {
    if log == [] {
    } else {
      var before, e := log[..|log| - 1], log[|log| - 1];
      LegalFront(log);
      hide After, Result, Legal;
      LegalConserves(before);
      OpConserves(e.op, Replay(before));
      OneMore(Pushed(before), multiset(Added(e.op)), HandedOut(before),
              multiset(Replay(before)), multiset(e.result), multiset(Replay(log)));
    }
  }

  lemma OneMore(pushed: multiset<Task>, more: multiset<Task>, out: multiset<Task>,
                kept: multiset<Task>, result: multiset<Task>, left: multiset<Task>)
    requires pushed == out + kept && left + result == kept + more
    ensures pushed + more == out + result + left
  {
    assert pushed + more == out + (kept + more);
    assert out + (left + result) == out + result + left;
  }

  /** Over every concurrent run, the elements pushed are exactly those handed out plus those
      still in the queue, each as often as it was pushed. */
  lemma RunConserves(events: seq<Event>)
    ensures Pushed(Run(events).log) == HandedOut(Run(events).log) + multiset(Settled(Run(events)))
  {
    RunLinearizes(events);
    LegalConserves(Run(events).log);
  }
}
