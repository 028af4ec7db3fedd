/** Processer::Steal and Scheduler::AvgTotalTasks: moving tasks between processors.  No
    other thread changes a queue between the counting and the moving. */
module Scheduling {
  import opened Basics
  import opened QueueSpec
  import opened Balance
  import RR = RoundRobin

  /** Tasks are told apart by their address. */
  type Task = nat

  /** The parameter of pop_back is a uint32_t. */
  function U32(n: nat): nat { n % 0x1_0000_0000 }

  function WithoutOpt(q: seq<Task>, t: Option<Task>): seq<Task> {
    if t.Some? then Without(q, t.value) else q
  }

  /** What taking t out of q removes. */
  function PinOf(q: seq<Task>, t: Option<Task>): seq<Task> {
    if t.Some? && t.value in q then [t.value] else []
  }

  lemma PinCounts(q: seq<Task>, t: Option<Task>)
    ensures multiset(q) == multiset(WithoutOpt(q, t)) + multiset(PinOf(q, t))
    ensures |q| == |WithoutOpt(q, t)| + |PinOf(q, t)|
  {
    if t.Some? { WithoutCounts(q, t.value); }
    assert |multiset(q)| == |q| && |multiset(WithoutOpt(q, t))| == |WithoutOpt(q, t)|;
  }

  /** Two takings, one after the other. */
  lemma PinsCount(q: seq<Task>, t: Option<Task>, u: Option<Task>)
    ensures var p := WithoutOpt(q, t);
      && multiset(q) == multiset(WithoutOpt(p, u)) + multiset(PinOf(q, t) + PinOf(p, u))
      && |q| == |WithoutOpt(p, u)| + |PinOf(q, t) + PinOf(p, u)|
  {
    hide WithoutOpt, PinOf;
    PinCounts(q, t);
    PinCounts(WithoutOpt(q, t), u);
  }

  /** The tasks of a queue other than two given ones, in their order. */
  function Others(q: seq<Task>, t: Option<Task>, u: Option<Task>): seq<Task> {
    if q == [] then []
    else (if Some(q[0]) == t || Some(q[0]) == u then [] else [q[0]]) + Others(q[1..], t, u)
  }

  lemma {:induction false} WithoutIsOthers(q: seq<Task>, t: Option<Task>)
    requires Distinct(q)
    ensures WithoutOpt(q, t) == Others(q, t, None)
  {
    if q == [] {
    } else {
      assert Distinct(q[1..]) && q[0] !in q[1..];
      WithoutIsOthers(q[1..], t);
      if t == Some(q[0]) {
        WithoutNone(q[1..], q[0]);
      }
    }
  }

  lemma {:induction false} OthersDistinct(q: seq<Task>, t: Option<Task>)
    requires Distinct(q)
    ensures Distinct(Others(q, t, None)) && forall x :: x in Others(q, t, None) ==> x in q
  {
    if q == [] {
    } else {
      assert Distinct(q[1..]) && q[0] !in q[1..];
      OthersDistinct(q[1..], t);
    }
  }

  lemma OthersSplit(x: Task, rest: seq<Task>, t: Option<Task>, u: Option<Task>)
    ensures Others([x] + rest, t, u) == (if Some(x) == t || Some(x) == u then [] else [x]) + Others(rest, t, u)
  {
    assert ([x] + rest)[1..] == rest;
  }

  lemma {:induction false} OthersTwice(q: seq<Task>, t: Option<Task>, u: Option<Task>)
    ensures Others(Others(q, t, None), u, None) == Others(q, t, u)
  {
    if q == [] {
    } else {
      var kept := Others(q[1..], t, None);
      OthersTwice(q[1..], t, u);
      OthersSplit(q[0], kept, u, None);
      assert q == [q[0]] + q[1..] && [] + kept == kept;
      OthersSplit(q[0], q[1..], t, u);
      OthersSplit(q[0], q[1..], t, None);
      hide Others;
    }
  }

  /** What a thief may take are all runnable tasks but the running one and its successor, in order. */
  lemma UnpinnedAreOthers(q: seq<Task>, running: Option<Task>, next: Option<Task>)
    requires Distinct(q)
    ensures WithoutOpt(WithoutOpt(q, running), next) == Others(q, running, next)
  {
    WithoutIsOthers(q, running);
    OthersDistinct(q, running);
    OthersTwice(q, running, next);
    WithoutIsOthers(WithoutOpt(q, running), next);
  }

  /** A queue's tasks before are those it has after and those taken. */
  ghost predicate Split(before: seq<Task>, after: seq<Task>, taken: seq<Task>) {
    multiset(after) + multiset(taken) == multiset(before)
  }

  /** Every one of these tasks is in the queue. */
  predicate Kept(pins: seq<Task>, q: seq<Task>) {
    forall t :: t in pins ==> t in q
  }

  lemma KeptAtBack(q: seq<Task>, pins: seq<Task>)
    ensures Kept(pins, q + pins)
  {
  }

  /** An SList handle, as the sequence it holds; the links are the subject of TsQueue. */
  class TaskList {
    var tasks: seq<Task>

    constructor ()
      ensures tasks == []
    {
      tasks := [];
    }

    constructor Of(q: seq<Task>)
      ensures tasks == q
    {
      tasks := q;
    }

    /** The move constructor empties the other handle. */
    constructor Moved(other: TaskList)
      modifies other
      ensures tasks == old(other.tasks) && other.tasks == []
    {
      tasks := other.tasks;
      new;
      other.tasks := [];
    }

    method Append(other: TaskList)
      requires other != this
      modifies this, other
      ensures tasks == old(tasks) + old(other.tasks) && other.tasks == []
    {
      tasks := tasks + other.tasks;
      other.tasks := [];
    }

    method Cut(n: nat) returns (o: TaskList)
      modifies this
      ensures fresh(o) && o.tasks == CutTaken(old(tasks), n) && tasks == CutLeft(old(tasks), n)
    {
      o := new TaskList.Of(CutTaken(tasks, n));
      tasks := CutLeft(tasks, n);
    }

    /** The destructor, at the end of a handle's scope, asserts that nothing is left in it. */
    method Destroy()
      requires tasks == []
    {
    }
  }

  /** The last n of some tasks, and the others; all of them if there are fewer. */
  function LastOf(q: seq<Task>, n: nat): seq<Task> { q[|q| - Min(n, |q|)..] }
  function ButLast(q: seq<Task>, n: nat): seq<Task> { q[..|q| - Min(n, |q|)] }

  /** Which tasks a theft of n takes: the back of the new queue, and for what that lacks, if it
      lacks any, the back of the unpinned runnable tasks r.  Those that stay keep their order, the
      pinned ones behind the others. */
  ghost predicate Robbed(n: nat, q: seq<Task>, run: seq<Task>, r: seq<Task>, pins: seq<Task>,
                         q': seq<Task>, run': seq<Task>, stolen: seq<Task>) {
    if n <= |q| then
      q' == ButLast(q, n) && run' == run && stolen == LastOf(q, n)
    else
      q' == [] && run' == ButLast(r, n - |q|) + pins && stolen == LastOf(r, n - |q|) + q
  }

  /** A batch pop of n > 0 that fits the 32-bit parameter. */
  lemma BackIsLast(q: seq<Task>, n: nat)
    requires 0 < n < 0x1_0000_0000
    ensures BackTaken(q, U32(n)) == LastOf(q, n) && BackLeft(q, U32(n)) == ButLast(q, n)
  {
  }

  lemma RobbedNew(n: nat, q: seq<Task>, run: seq<Task>, r: seq<Task>, pins: seq<Task>)
    requires 0 < n < 0x1_0000_0000 && |BackTaken(q, U32(n))| >= n
    ensures Robbed(n, q, run, r, pins, BackLeft(q, U32(n)), run, BackTaken(q, U32(n)))
  {
    BackIsLast(q, n);
  }

  lemma RobbedBoth(n: nat, q: seq<Task>, run: seq<Task>, r: seq<Task>, pins: seq<Task>)
    requires 0 < n < 0x1_0000_0000 && |BackTaken(q, U32(n))| < n
    ensures var k := U32(n - |BackTaken(q, U32(n))|);
      Robbed(n, q, run, r, pins, BackLeft(q, U32(n)), BackLeft(r, k) + pins, BackTaken(r, k) + BackTaken(q, U32(n)))
  {
    BackIsLast(q, n);
    BackIsLast(r, n - |q|);
  }

  /** How Steal ends: its two lists are joined and moved out to the caller, and destroyed. */
  method Join(slist2: TaskList, slist: TaskList) returns (stolen: TaskList)
    requires slist != slist2
    modifies slist, slist2
    ensures fresh(stolen) && stolen.tasks == old(slist2.tasks + slist.tasks)
  {
    slist2.Append(slist);
    stolen := new TaskList.Moved(slist2);
    slist2.Destroy();
    slist.Destroy();
  }

  class Processer {
    var newQueue: seq<Task>
    var runnableQueue: seq<Task>
    var running: Option<Task>
    var next: Option<Task>
    var active: bool

    function Tasks(): seq<Task> reads this { newQueue + runnableQueue }

    function RunnableSize(): nat reads this { |newQueue| + |runnableQueue| }

    /** The runnable tasks a thief may take, and those it must leave: the one running and
        the one after it. */
    function Unpinned(): seq<Task> reads this`runnableQueue, this`running, this`next { WithoutOpt(WithoutOpt(runnableQueue, running), next) }

    function Pinned(): seq<Task> reads this`runnableQueue, this`running, this`next {
      PinOf(runnableQueue, running) + PinOf(WithoutOpt(runnableQueue, running), next)
    }

    function Movable(): nat reads this { |newQueue| + |Unpinned()| }

    /** At most two tasks are pinned; the rest of the runnable queue is unpinned. */
    lemma PinnedAtMostTwo()
      ensures |Pinned()| <= 2 && Movable() + |Pinned()| == RunnableSize()
      ensures multiset(Unpinned()) + multiset(Pinned()) == multiset(runnableQueue)
      ensures Kept(Pinned(), runnableQueue)
    {
      PinsCount(runnableQueue, running, next);
      forall t | t in Pinned() ensures t in runnableQueue {
        assert t in multiset(Pinned()) && t in multiset(runnableQueue);
      }
    }

    /** Under the lock of the runnable queue: the pinned tasks are taken out, then up to n
        of the others (all of them for None), and the pinned ones are pushed back. */
    method StealRunnable(n: Option<nat>) returns (stolen: TaskList)
      modifies this`runnableQueue
      ensures fresh(stolen)
      ensures stolen.tasks == if n.Some? then BackTaken(old(Unpinned()), n.value) else old(Unpinned())
      ensures runnableQueue == (if n.Some? then BackLeft(old(Unpinned()), n.value) else []) + old(Pinned())
    {
      hide BackTaken, BackLeft, Without;
      var pushRunning := running.Some? && running.value in runnableQueue;
      runnableQueue := WithoutOpt(runnableQueue, running);
      var pushNext := next.Some? && next.value in runnableQueue;
      runnableQueue := WithoutOpt(runnableQueue, next);
      if n.Some? {
        stolen := new TaskList.Of(BackTaken(runnableQueue, n.value));
        runnableQueue := BackLeft(runnableQueue, n.value);
      } else {
        stolen := new TaskList.Of(runnableQueue);
        runnableQueue := [];
      }
      if pushRunning { runnableQueue := runnableQueue + [running.value]; }
      if pushNext { runnableQueue := runnableQueue + [next.value]; }
    }

    /** Gives up to n tasks away, newest first, or everything movable for n = 0.  The running
        task and its successor stay.  The two lists in between end empty on every path. */
    method Steal(n: nat) returns (stolen: TaskList)
      modifies this`newQueue, this`runnableQueue
      ensures fresh(stolen)
      ensures Split(old(Tasks()), Tasks(), stolen.tasks)
      ensures 0 < n ==> |stolen.tasks| <= n
      ensures 0 < n < 0x1_0000_0000 ==> |stolen.tasks| == Min(n, old(Movable()))
      ensures n == 0 ==> |stolen.tasks| == old(Movable())
      ensures Kept(old(Pinned()), runnableQueue)
      ensures 0 < n < 0x1_0000_0000 ==> Robbed(n, old(newQueue), old(runnableQueue), old(Unpinned()), old(Pinned()),
                                               newQueue, runnableQueue, stolen.tasks)
      ensures n == 0 ==> newQueue == [] && runnableQueue == old(Pinned()) && stolen.tasks == old(Unpinned() + newQueue)
    {
      PinnedAtMostTwo();
      if n > 0 {
        stolen := StealSome(n);
      } else {
        stolen := StealAll();
      }
    }

    method StealSome(n: nat) returns (stolen: TaskList)
      requires 0 < n
      modifies this`newQueue, this`runnableQueue
      ensures fresh(stolen)
      ensures Split(old(Tasks()), Tasks(), stolen.tasks)
      ensures |stolen.tasks| <= n
      ensures n < 0x1_0000_0000 ==> |stolen.tasks| == Min(n, old(Movable()))
      ensures Kept(old(Pinned()), runnableQueue)
      ensures n < 0x1_0000_0000 ==> Robbed(n, old(newQueue), old(runnableQueue), old(Unpinned()), old(Pinned()),
                                           newQueue, runnableQueue, stolen.tasks)
    {
      hide BackTaken, BackLeft, Pinned, Unpinned, U32, Kept, Split, Min, Robbed;
      PinnedAtMostTwo();
      ghost var q, run, r, pins := newQueue, runnableQueue, Unpinned(), Pinned();
      var slist := new TaskList.Of(BackTaken(newQueue, U32(n)));
      newQueue := BackLeft(newQueue, U32(n));
      ghost var s1 := slist.tasks;
      if |slist.tasks| >= n {
        EnoughNew(q, run, r, n);
        if n < 0x1_0000_0000 { RobbedNew(n, q, run, r, pins); }
        stolen := new TaskList.Moved(slist);
        slist.Destroy();
        return;
      }
      var slist2 := StealRunnable(Some(U32(n - |slist.tasks|)));
      NewAndRunnable(q, run, r, pins, n, s1);
      if n < 0x1_0000_0000 { RobbedBoth(n, q, run, r, pins); }
      stolen := Join(slist2, slist);
    }

    method StealAll() returns (stolen: TaskList)
      modifies this`newQueue, this`runnableQueue
      ensures fresh(stolen)
      ensures Split(old(Tasks()), Tasks(), stolen.tasks)
      ensures |stolen.tasks| == old(Movable())
      ensures newQueue == [] && runnableQueue == old(Pinned()) && stolen.tasks == old(Unpinned() + newQueue)
    {
      hide BackTaken, BackLeft, Pinned, Unpinned, U32;
      PinnedAtMostTwo();
      ghost var q, run, r, pins := newQueue, runnableQueue, Unpinned(), Pinned();
      var slist := new TaskList.Of(newQueue);
      newQueue := [];
      var slist2 := StealRunnable(None);
      StealBalance([], runnableQueue, slist.tasks, slist2.tasks, q, run, r, pins);
      stolen := Join(slist2, slist);
    }
  }

  /** What is stolen is appended to a list, and the list it came in is destroyed. */
  method StealInto(p: Processer, n: nat, tasks: TaskList)
    requires 0 < n < 0x1_0000_0000
    modifies p`newQueue, p`runnableQueue, tasks
    ensures old(tasks.tasks) <= tasks.tasks
    ensures Robbed(n, old(p.newQueue), old(p.runnableQueue), old(p.Unpinned()), old(p.Pinned()),
                   p.newQueue, p.runnableQueue, tasks.tasks[|old(tasks.tasks)|..])
    ensures Split(old(p.Tasks()), p.Tasks(), tasks.tasks[|old(tasks.tasks)|..])
    ensures |tasks.tasks| == |old(tasks.tasks)| + Min(n, old(p.Movable()))
  {
    hide Processer.Movable, Processer.Pinned, Processer.Unpinned, Processer.Tasks, Kept, Split, Robbed;
    var tmp := p.Steal(n);
    ghost var stolen := tmp.tasks;
    tasks.Append(tmp);
    tmp.Destroy();
    assert tasks.tasks[|old(tasks.tasks)|..] == stolen;
  }

  lemma StealBalance(new': seq<Task>, run': seq<Task>, s1: seq<Task>, s2: seq<Task>,
                     q: seq<Task>, run: seq<Task>, r: seq<Task>, pins: seq<Task>)
    requires Split(q, new', s1)
    requires multiset(r) + multiset(pins) == multiset(run)
    requires multiset(run') + multiset(s2) == multiset(r) + multiset(pins)
    ensures Split(q + run, new' + run', s2 + s1)
  {
    assert multiset(new' + run') + multiset(s2 + s1)
        == (multiset(new') + multiset(s1)) + (multiset(run') + multiset(s2));
  }

  /** The new queue had enough. */
  lemma EnoughNew(q: seq<Task>, run: seq<Task>, r: seq<Task>, n: nat)
    requires n > 0 && |BackTaken(q, U32(n))| >= n
    ensures var s := BackTaken(q, U32(n));
      Split(q + run, BackLeft(q, U32(n)) + run, s) && |s| <= n && (n < 0x1_0000_0000 ==> |s| == Min(n, |q| + |r|))
  {
    hide BackTaken, BackLeft, U32;
    BackConserves(q, n);
    assert multiset(BackLeft(q, U32(n)) + run) + multiset(BackTaken(q, U32(n)))
        == (multiset(BackLeft(q, U32(n))) + multiset(BackTaken(q, U32(n)))) + multiset(run);
  }

  /** The rest came from the runnable queue. */
  lemma NewAndRunnable(q: seq<Task>, run: seq<Task>, r: seq<Task>, pins: seq<Task>, n: nat, s1: seq<Task>)
    requires n > 0 && s1 == BackTaken(q, U32(n)) && |s1| < n && multiset(r) + multiset(pins) == multiset(run)
    ensures var k := U32(n - |s1|);
      var s2, left := BackTaken(r, k), BackLeft(r, k) + pins;
      && Split(q + run, BackLeft(q, U32(n)) + left, s2 + s1) && Kept(pins, left)
      && |s2 + s1| <= n && (n < 0x1_0000_0000 ==> |s2 + s1| == Min(n, |q| + |r|))
  {
    hide BackTaken, BackLeft, U32, Kept;
    var k := U32(n - |s1|);
    BackConserves(q, n);
    BackConserves(r, n - |s1|);
    KeptAtBack(BackLeft(r, k), pins);
    StealBalance(BackLeft(q, U32(n)), BackLeft(r, k) + pins, s1, BackTaken(r, k), q, run, r, pins);
  }

  /** A batch pop asked for n > 0 elements yields at most n, and exactly as many as there
      are, up to n, when n fits the 32-bit parameter. */
  lemma BackConserves(q: seq<Task>, n: nat)
    requires n > 0
    ensures Split(q, BackLeft(q, U32(n)), BackTaken(q, U32(n)))
    ensures |BackTaken(q, U32(n))| <= n
    ensures n < 0x1_0000_0000 ==> |BackTaken(q, U32(n))| == Min(n, |q|)
  {
    assert q == BackLeft(q, U32(n)) + BackTaken(q, U32(n));
  }

  // ---------------------------------------------------------------- AvgTotalTasks

  /** All tasks of several queues together. */
  function Union(qs: seq<seq<Task>>): multiset<Task> {
    if qs == [] then multiset{} else multiset(qs[0]) + Union(qs[1..])
  }

  lemma Shuffle(a: multiset<Task>, b: multiset<Task>, c: multiset<Task>, d: multiset<Task>, e: multiset<Task>)
    requires b + c == d + e
    ensures a + b + c == a + d + e
  {
    assert a + b + c == a + (b + c);
    assert a + d + e == a + (d + e);
  }

  lemma {:induction false} UnionUpdate(qs: seq<seq<Task>>, i: nat, q: seq<Task>)
    requires i < |qs|
    ensures Union(qs[i := q]) + multiset(qs[i]) == Union(qs) + multiset(q)
  {
    if i == 0 {
      assert qs[0 := q][1..] == qs[1..];
    } else {
      assert qs[i := q][1..] == qs[1..][i - 1 := q];
      UnionUpdate(qs[1..], i - 1, q);
      assert Union(qs[i := q]) == multiset(qs[0]) + Union(qs[1..][i - 1 := q]);
      assert multiset(qs[1..][i - 1]) == multiset(qs[i]);
      Shuffle(multiset(qs[0]), Union(qs[1..][i - 1 := q]), multiset(qs[i]), Union(qs[1..]), multiset(q));
    }
  }

  lemma {:induction false} GiftsOfNothing(sizes: seq<nat>, avg: nat)
    ensures |Gifts(sizes, avg, 0)| == |sizes| && Sum(Gifts(sizes, avg, 0)) == 0
    ensures forall i :: 0 <= i < |sizes| ==> Gifts(sizes, avg, 0)[i] == 0
  {
    if sizes == [] {
    } else {
      GiftsOfNothing(sizes[1..], avg);
    }
  }

  class Scheduler {
    var processers: seq<Processer>
    var lastActive: nat

    ghost predicate Valid()
      reads this
    {
      forall i, j :: 0 <= i < j < |processers| ==> processers[i] != processers[j]
    }

    function Queues(): seq<seq<Task>>
      reads this, processers
    {
      seq(|processers|, i requires 0 <= i < |processers| reads this, processers => processers[i].Tasks())
    }

    /** The tasks in hand and those in the queues are, together, all there are. */
    ghost predicate Holding(tasks: seq<Task>, all: multiset<Task>)
      reads this, processers
    {
      multiset(tasks) + Union(Queues()) == all
    }

    /** sizes[i] tasks in processor i, free[i] of them movable. */
    ghost predicate Census(sizes: seq<nat>, free: seq<nat>)
      reads this, processers
    {
      && |sizes| == |free| == |processers|
      && forall i :: 0 <= i < |processers| ==>
           processers[i].RunnableSize() == sizes[i] && processers[i].Movable() == free[i]
    }

    method CountTasks(ghost sizes: seq<nat>, ghost free: seq<nat>) returns (counts: seq<nat>, total: nat)
      requires Census(sizes, free)
      ensures counts == sizes && total == Sum(sizes)
    {
      counts, total := [], 0;
      for i := 0 to |processers|
        invariant counts == sizes[..i]
        invariant total + Sum(sizes[i..]) == Sum(sizes)
      {
        counts := counts + [processers[i].RunnableSize()];
        total := total + counts[i];
        assert sizes[i..][1..] == sizes[i + 1..];
      }
    }

    /** Takes what is above average from one processor. */
    method CollectFrom(i: nat, size: nat, avg: nat, tasks: TaskList, ghost all: multiset<Task>)
      requires Valid() && i < |processers| && size == processers[i].RunnableSize() < 0x1_0000_0000
      requires Holding(tasks.tasks, all)
      modifies processers[i..i + 1]`newQueue, processers[i..i + 1]`runnableQueue, tasks
      ensures forall j :: 0 <= j < |processers| && j != i ==>
        processers[j].RunnableSize() == old(processers[j].RunnableSize()) && processers[j].Movable() == old(processers[j].Movable())
      ensures old(tasks.tasks) <= tasks.tasks
      ensures if avg < size then
          Robbed(size - avg, old(processers[i].newQueue), old(processers[i].runnableQueue),
                 old(processers[i].Unpinned()), old(processers[i].Pinned()),
                 processers[i].newQueue, processers[i].runnableQueue, tasks.tasks[|old(tasks.tasks)|..])
        else processers[i].Tasks() == old(processers[i].Tasks()) && tasks.tasks == old(tasks.tasks)
      ensures |tasks.tasks| == old(|tasks.tasks|) + Stolen(size, old(processers[i].Movable()), avg)
      ensures processers[i].RunnableSize() == size - Stolen(size, old(processers[i].Movable()), avg)
      ensures Holding(tasks.tasks, all)
    {
      hide Union, Processer.Movable, Processer.Pinned, Processer.Unpinned, U32, Kept, Split, Robbed;
      ghost var qs, hand := Queues(), tasks.tasks;
      if avg < size {
        StealInto(processers[i], size - avg, tasks);
        ghost var q, stolen := processers[i].Tasks(), tasks.tasks[|hand|..];
        assert tasks.tasks == hand + stolen;
        Moved(qs[i], q, stolen);
        assert Queues() == qs[i := q];
        UnionUpdate(qs, i, q);
        Hand(multiset(hand), multiset(stolen), Union(qs[i := q]), multiset(qs[i]), Union(qs), multiset(q));
      }
    }

    /** Takes what is above average from every processor. */
    method CollectExcess(counts: seq<nat>, avg: nat, tasks: TaskList, ghost free: seq<nat>, ghost all: multiset<Task>)
      requires Valid() && Census(counts, free) && tasks.tasks == [] && Holding([], all)
      requires forall i :: 0 <= i < |counts| ==> counts[i] < 0x1_0000_0000
      modifies processers`newQueue, processers`runnableQueue, tasks
      ensures Holding(tasks.tasks, all)
      ensures |tasks.tasks| == Sum(Steals(counts, free, avg))
      ensures forall i :: 0 <= i < |counts| ==> processers[i].RunnableSize() == KeptSizes(counts, free, avg)[i]
    {
      hide Sum, Steals, Stolen, Union, Processer.Movable, Processer.RunnableSize, Holding;
      StealsEmpty(avg);
      assert counts[0..] == counts && free[0..] == free;
      for i := 0 to |processers|
        invariant Holding(tasks.tasks, all)
        invariant |tasks.tasks| + Sum(Steals(counts[i..], free[i..], avg)) == Sum(Steals(counts, free, avg))
        invariant forall j :: 0 <= j < |processers| ==>
          && processers[j].RunnableSize() == counts[j] - (if j < i then Stolen(counts[j], free[j], avg) else 0)
          && (i <= j ==> processers[j].Movable() == free[j])
      {
        StealsStep(counts, free, avg, i);
        CollectFrom(i, counts[i], avg, tasks, all);
      }
      assert counts[|processers|..] == [] && free[|processers|..] == [];
    }

    /** AddTask(SList): the list goes to the end of the new queue of one processor. */
    method AddTo(i: nat, given: TaskList)
      requires Valid() && i < |processers|
      modifies processers[i..i + 1]`newQueue, given
      ensures given.tasks == [] && processers[i].newQueue == old(processers[i].newQueue + given.tasks)
      ensures forall j :: 0 <= j < |processers| && j != i ==>
        processers[j].RunnableSize() == old(processers[j].RunnableSize())
      ensures processers[i].RunnableSize() == old(processers[i].RunnableSize()) + old(|given.tasks|)
      ensures Union(Queues()) == Union(old(Queues())) + multiset(old(given.tasks))
    {
      ghost var qs, q := Queues(), given.tasks;
      var p := processers[i];
      p.newQueue := p.newQueue + given.tasks;
      given.tasks := [];
      assert multiset(p.Tasks()) == multiset(qs[i]) + multiset(q);
      assert Queues() == qs[i := p.Tasks()];
      UnionUpdate(qs, i, p.Tasks());
      Receive(Union(qs[i := p.Tasks()]), multiset(qs[i]), Union(qs), multiset(q));
    }

    /** Fills one processor up to the average; stops when there is nothing left to give.  The
        list cut off for it ends empty either way. */
    method GiveTo(i: nat, count: nat, avg: nat, tasks: TaskList, ghost all: multiset<Task>)
      returns (stop: bool)
      requires Valid() && i < |processers| && Holding(tasks.tasks, all)
      modifies processers[i..i + 1]`newQueue, tasks
      ensures stop <==> count < avg && old(tasks.tasks) == []
      ensures processers[i].newQueue + tasks.tasks == old(processers[i].newQueue + tasks.tasks)
      ensures |tasks.tasks| == old(|tasks.tasks|) - Gift(count, avg, old(|tasks.tasks|))
      ensures forall j :: 0 <= j < |processers| && j != i ==>
        processers[j].RunnableSize() == old(processers[j].RunnableSize())
      ensures processers[i].RunnableSize() == old(processers[i].RunnableSize()) + Gift(count, avg, old(|tasks.tasks|))
      ensures Holding(tasks.tasks, all)
    {
      hide Queues, Union, CutTaken, CutLeft;
      stop := false;
      if avg > count {
        ghost var hand, before := tasks.tasks, Union(Queues());
        CutConserves(hand, avg - count);
        ghost var queue := processers[i].newQueue;
        var given := tasks.Cut(avg - count);
        ghost var out := given.tasks;
        if given.tasks == [] {
          stop := true;
        } else {
          AddTo(i, given);
          Given(multiset(hand), multiset(out), multiset(tasks.tasks), before, Union(Queues()));
        }
        given.Destroy();
        Handed(queue, hand, out, tasks.tasks);
      }
    }

    /** Fills processors below average, in order, until the tasks run out. */
    method HandOut(counts: seq<nat>, avg: nat, tasks: TaskList, ghost sizes: seq<nat>, ghost all: multiset<Task>)
      requires Valid() && Holding(tasks.tasks, all) && |counts| == |sizes| == |processers|
      requires forall i :: 0 <= i < |sizes| ==> processers[i].RunnableSize() == sizes[i]
      modifies processers`newQueue, tasks
      ensures Holding(tasks.tasks, all)
      ensures var pool := old(|tasks.tasks|);
        && |tasks.tasks| == pool - Sum(Gifts(counts, avg, pool))
        && |Gifts(counts, avg, pool)| == |processers|
        && forall i :: 0 <= i < |processers| ==>
             processers[i].RunnableSize() == sizes[i] + Gifts(counts, avg, pool)[i]
    {
      hide Sum, Gifts, Gift, Ahead, Union, Queues, Processer.RunnableSize, Holding;
      ghost var pool := |tasks.tasks|;
      ghost var gifts := Gifts(counts, avg, pool);
      GiftsStart(counts, avg, pool);
      for i := 0 to |processers|
        invariant Holding(tasks.tasks, all)
        invariant Ahead(counts, avg, |tasks.tasks|, gifts, i, pool - Sum(gifts))
        invariant forall j :: 0 <= j < |processers| ==>
          processers[j].RunnableSize() == sizes[j] + if j < i then gifts[j] else 0
      {
        GiftsStep(counts, avg, |tasks.tasks|, gifts, i, pool - Sum(gifts));
        var stop := GiveTo(i, counts[i], avg, tasks, all);
        if stop {
          break;
        }
      }
      GiftsEnd(counts, avg, |tasks.tasks|, gifts, pool - Sum(gifts));
    }

    /** What nobody needed goes to the first processor, so that the list in hand ends empty. */
    method Deal(counts: seq<nat>, avg: nat, tasks: TaskList, ghost sizes: seq<nat>, ghost all: multiset<Task>)
      requires Valid() && Holding(tasks.tasks, all) && 0 < |counts| == |sizes| == |processers|
      requires forall i :: 0 <= i < |sizes| ==> processers[i].RunnableSize() == sizes[i]
      modifies processers`newQueue, tasks
      ensures tasks.tasks == [] && Union(Queues()) == all
      ensures var pool := old(|tasks.tasks|);
        && |Gifts(counts, avg, pool)| == |processers|
        && forall i :: 0 <= i < |processers| ==>
             processers[i].RunnableSize() == sizes[i] + Dealt(counts, avg, pool, i)
    {
      hide Sum, Gifts, Union, Queues, Processer.RunnableSize;
      HandOut(counts, avg, tasks, sizes, all);
      if tasks.tasks != [] {
        AddTo(0, tasks);
      }
    }

    /** Levels the number of tasks over all processors.  Below two processors, or with an
        average of zero, nothing moves.  Otherwise every processor ends with the size that
        Balanced computes from the sizes and the movable tasks there were, and no task is
        lost or duplicated.  Every list in between is empty when it is destroyed. */
    method AvgTotalTasks(ghost sizes: seq<nat>, ghost free: seq<nat>)
      requires Valid() && Census(sizes, free)
      requires forall i :: 0 <= i < |sizes| ==> sizes[i] < 0x1_0000_0000
      modifies processers`newQueue, processers`runnableQueue
      ensures |sizes| < 2 || Average(sizes) == 0 ==> Queues() == old(Queues())
      ensures Union(Queues()) == Union(old(Queues()))
      ensures |sizes| >= 2 && Average(sizes) > 0 ==> forall i :: 0 <= i < |sizes| ==>
        processers[i].RunnableSize() == Balanced(sizes, free, Average(sizes))[i]
    {
      hide Sum, Union, Balanced, Processer.RunnableSize, Processer.Movable;
      ghost var all := Union(Queues());
      if |processers| < 2 {
        return;
      }
      var counts, total := CountTasks(sizes, free);
      var avg := total / |processers|;
      if avg <= 0 {
        return;
      }
      Level(counts, avg, free, all);
    }

    /** The three loops, once the average is known. */
    method Level(counts: seq<nat>, avg: nat, ghost free: seq<nat>, ghost all: multiset<Task>)
      requires Valid() && Census(counts, free) && Holding([], all) && processers != []
      requires forall i :: 0 <= i < |counts| ==> counts[i] < 0x1_0000_0000
      modifies processers`newQueue, processers`runnableQueue
      ensures Union(Queues()) == all
      ensures forall i :: 0 <= i < |counts| ==> processers[i].RunnableSize() == Balanced(counts, free, avg)[i]
    {
      hide Sum, Steals, Stolen, Gifts, Dealt, Union, Balanced, KeptSizes, Processer.RunnableSize, Processer.Movable;
      var tasks := new TaskList();
      CollectExcess(counts, avg, tasks, free, all);
      BalancedSize(counts, free, avg);
      Deal(counts, avg, tasks, KeptSizes(counts, free, avg), all);
      tasks.Destroy();
    }

    // -------------------------------------------------------------- AddTask, CreateMilliTimer

    function Actives(): seq<bool>
      reads this, processers
    {
      seq(|processers|, i requires 0 <= i < |processers| reads this, processers => processers[i].active)
    }

    /** The scan shared by AddTask and CreateMilliTimer: from lastActive on, wrapping around, to
        the first active processor.  The index stays within the 32 bits of the original. */
    method Scan() returns (k: nat, idx: nat)
      requires processers != []
      ensures k < |processers| && idx <= |processers|
      ensures k == RR.Pick(Actives(), lastActive)
      ensures idx == RR.After(Actives(), k)
    {
      hide RR.Pick, RR.Rot;
      var n := |processers|;
      idx := lastActive;
      k := 0;
      ghost var s := RR.Mod(lastActive, n);
      PickIsSeek(Actives(), lastActive);
      for i := 0 to n
        invariant k < n
        invariant i == 0 ==> idx == lastActive
        invariant i > 0 ==> k == RR.Rot(n, s, i - 1) && idx == k + 1 && !processers[k].active
        invariant i < n ==> RR.Seek(Actives(), s, i) == RR.Pick(Actives(), lastActive)
        invariant i == n ==> k == RR.Pick(Actives(), lastActive)
      {
        RotNext(n, s, i);
        idx := RR.Mod(idx, n);
        k := idx;
        if processers[idx].active {
          break;
        }
        idx := idx + 1;
      }
    }

    /** A task bound to an active processor goes there.  Any other goes to the processor that
        the scan chooses, and the next scan starts after it. */
    method AddTask(t: Task, proc: Processer?)
      requires Valid() && processers != []
      modifies this`lastActive, processers`newQueue, (if proc == null then {} else {proc})`newQueue
      ensures proc != null && proc.active ==>
        && lastActive == old(lastActive) && proc.newQueue == old(proc.newQueue) + [t]
        && forall p :: p in processers && p != proc ==> p.newQueue == old(p.newQueue)
      ensures proc == null || !proc.active ==>
        var k := old(RR.Pick(Actives(), lastActive));
        && lastActive == RR.After(Actives(), k) + 1
        && processers[k].newQueue == old(processers[k].newQueue) + [t]
        && forall i :: 0 <= i < |processers| && i != k ==> processers[i].newQueue == old(processers[i].newQueue)
    {
      hide RR.Pick;
      if proc != null && proc.active {
        proc.newQueue := proc.newQueue + [t];
        return;
      }
      var k, idx := Scan();
      lastActive := idx + 1;
      processers[k].newQueue := processers[k].newQueue + [t];
    }

    /** A timer made outside this scheduler's processors goes to the processor that the scan
        chooses, and the next scan starts at it. */
    method CreateMilliTimer(current: Option<Processer>) returns (p: Processer)
      requires processers != []
      modifies this`lastActive
      ensures current.Some? && current.value.active && current.value in processers ==>
        p == current.value && lastActive == old(lastActive)
      ensures !(current.Some? && current.value.active && current.value in processers) ==>
        var k := old(RR.Pick(Actives(), lastActive));
        p == processers[k] && lastActive == RR.After(Actives(), k)
    {
      if current.Some? && current.value.active && current.value in processers {
        return current.value;
      }
      var k, idx := Scan();
      lastActive := idx;
      return processers[k];
    }
  }

  lemma PickIsSeek(active: seq<bool>, last: nat)
    requires active != []
    ensures RR.Pick(active, last) == RR.Seek(active, RR.Mod(last, |active|), 0)
  {
  }

  lemma RotNext(n: nat, s: nat, i: nat)
    requires s < n && i < n
    ensures RR.Rot(n, s, 0) == s
    ensures i > 0 ==> RR.Mod(RR.Rot(n, s, i - 1) + 1, n) == RR.Rot(n, s, i)
  {
  }

  /** From processor i on, a pool yields the gifts decided at the start, and `left` over. */
  ghost predicate Ahead(counts: seq<nat>, avg: nat, pool: nat, gifts: seq<nat>, i: nat, left: int) {
    i <= |counts| == |gifts| && Gifts(counts[i..], avg, pool) == gifts[i..] && pool - Sum(gifts[i..]) == left
  }

  lemma GiftsStart(counts: seq<nat>, avg: nat, pool: nat)
    ensures |Gifts(counts, avg, pool)| == |counts|
    ensures Ahead(counts, avg, pool, Gifts(counts, avg, pool), 0, pool - Sum(Gifts(counts, avg, pool)))
  {
    var gifts := Gifts(counts, avg, pool);
    GiftsMeetDeficit(counts, avg, pool);
    assert counts[0..] == counts && gifts[0..] == gifts;
  }

  /** The next gift; and once the pool is empty, nobody from here on gets anything. */
  lemma GiftsStep(counts: seq<nat>, avg: nat, pool: nat, gifts: seq<nat>, i: nat, left: int)
    requires i < |counts| && Ahead(counts, avg, pool, gifts, i, left)
    ensures gifts[i] == Gift(counts[i], avg, pool) <= pool
    ensures Ahead(counts, avg, pool - gifts[i], gifts, i + 1, left)
    ensures pool == 0 ==> left == 0 && forall j :: i <= j < |gifts| ==> gifts[j] == 0
  {
    assert counts[i..][1..] == counts[i + 1..] && gifts[i..][1..] == gifts[i + 1..];
    if pool == 0 {
      GiftsOfNothing(counts[i..], avg);
      assert forall j :: i <= j < |gifts| ==> gifts[j] == gifts[i..][j - i];
    }
  }

  lemma GiftsEnd(counts: seq<nat>, avg: nat, pool: nat, gifts: seq<nat>, left: int)
    ensures Ahead(counts, avg, pool, gifts, |counts|, left) ==> pool == left
  {
  }

  /** What a processor is given, processor 0 getting what is left over as well. */
  ghost function Dealt(counts: seq<nat>, avg: nat, pool: nat, i: nat): int
    requires i < |counts| == |Gifts(counts, avg, pool)|
  {
    Gifts(counts, avg, pool)[i] + if i == 0 then pool - Sum(Gifts(counts, avg, pool)) else 0
  }

  /** The sizes once the excess has been taken. */
  function KeptSizes(sizes: seq<nat>, free: seq<nat>, avg: nat): (r: seq<nat>)
    requires |sizes| == |free|
    ensures |r| == |sizes|
  {
    seq(|sizes|, i requires 0 <= i < |sizes| => sizes[i] - Stolen(sizes[i], free[i], avg))
  }

  /** The definition of Balanced, for every processor at once. */
  lemma BalancedSize(sizes: seq<nat>, free: seq<nat>, avg: nat)
    requires |sizes| == |free|
    ensures var pool := Sum(Steals(sizes, free, avg));
      && |Gifts(sizes, avg, pool)| == |sizes|
      && forall i :: 0 <= i < |sizes| ==>
           Balanced(sizes, free, avg)[i] == KeptSizes(sizes, free, avg)[i] + Dealt(sizes, avg, pool, i)
  {
    Lengths(sizes, free, avg, Sum(Steals(sizes, free, avg)));
  }

  lemma Receive(after: multiset<Task>, was: multiset<Task>, before: multiset<Task>, given: multiset<Task>)
    requires after + was == before + (was + given)
    ensures after == before + given
  {
    forall x ensures after[x] == (before + given)[x] {
      assert (after + was)[x] == (before + (was + given))[x];
    }
  }

  /** Tasks that leave the list in hand for a queue. */
  lemma Given(hand: multiset<Task>, given: multiset<Task>, left: multiset<Task>, before: multiset<Task>, after: multiset<Task>)
    requires hand == given + left && after == before + given
    ensures left + after == hand + before
  {
  }

  lemma Handed(queue: seq<Task>, hand: seq<Task>, out: seq<Task>, left: seq<Task>)
    requires hand == out + left
    ensures queue + hand == (queue + out) + left && (out == [] ==> queue + hand == queue + left)
  {
  }

  lemma CutConserves(q: seq<Task>, n: nat)
    ensures multiset(q) == multiset(CutTaken(q, n)) + multiset(CutLeft(q, n))
    ensures q == CutTaken(q, n) + CutLeft(q, n)
    ensures |CutTaken(q, n)| == Min(n, |q|) && |CutLeft(q, n)| == |q| - Min(n, |q|)
  {
    assert q == CutTaken(q, n) + CutLeft(q, n);
  }

  lemma StealsEmpty(avg: nat)
    ensures Sum(Steals([], [], avg)) == 0
  {
  }

  lemma StealsStep(sizes: seq<nat>, free: seq<nat>, avg: nat, i: nat)
    requires |sizes| == |free| && i < |sizes|
    ensures Sum(Steals(sizes[i..], free[i..], avg))
         == Stolen(sizes[i], free[i], avg) + Sum(Steals(sizes[i + 1..], free[i + 1..], avg))
  {
    assert sizes[i..][1..] == sizes[i + 1..] && free[i..][1..] == free[i + 1..];
  }

  lemma Moved(before: seq<Task>, after: seq<Task>, moved: seq<Task>)
    requires Split(before, after, moved)
    ensures |after| + |moved| == |before| && multiset(after) + multiset(moved) == multiset(before)
  {
    assert |multiset(before)| == |before| && |multiset(after)| == |after| && |multiset(moved)| == |moved|;
  }

  /** Tasks that leave a queue for the list in hand. */
  lemma Hand(hand: multiset<Task>, moved: multiset<Task>, after: multiset<Task>,
             was: multiset<Task>, before: multiset<Task>, now: multiset<Task>)
    requires after + was == before + now && now + moved == was
    ensures hand + moved + after == hand + before
  {
    forall x ensures (hand + moved + after)[x] == (hand + before)[x] {
      assert (after + was)[x] == (before + now)[x] && (now + moved)[x] == was[x];
    }
  }
}
