/** The cache of finished tasks: CreateTask, GetFreeTaskList and Add2FreeTaskList. */
module TaskCache {
  import opened Basics

  /** A task, by its place in the order of creation. */
  type Task = nat

  /** stackSize is what was asked for when the task was created. */
  datatype Rec = Rec(stackSize: int, id: nat)

  const WIDTH := 0x1_0000_0000

  /** The value of a 32-bit counter. */
  function U32(n: int): nat { n % WIDTH }

  /** Going around the counter and one up. */
  lemma U32Wraps(q: nat, r: nat)
    requires r < WIDTH
    ensures U32(q * WIDTH + r) == r
  {
  }

  lemma U32Steps(n: nat)
    ensures U32(U32(n) + 1) == U32(n + 1)
    ensures n > 0 ==> U32(U32(n) - 1) == U32(n - 1)
  {
    var q, r := n / WIDTH, n % WIDTH;
    U32Wraps(q, r);
    hide U32;
    assert n == q * WIDTH + r;
    if r == WIDTH - 1 {
      U32Wraps(q + 1, 0);
      U32Wraps(1, 0);
    } else {
      U32Wraps(q, r + 1);
      U32Wraps(0, r + 1);
    }
    if r == 0 {
      if q > 0 {
        U32Wraps(q - 1, WIDTH - 1);
        U32Below();
      }
    } else {
      U32Wraps(q, r - 1);
      U32Wraps(0, r - 1);
    }
  }

  lemma U32Below()
    ensures U32(-1) == WIDTH - 1
  {
  }

  /** tasks: all that were ever created.  free: the multimap of cached tasks, in the order of its
      keys.  live: those handed out and not finished.  factory, count: the 32-bit counters of ids
      and of tasks. */
  datatype Pool = Pool(tasks: seq<Rec>, free: seq<Task>, live: set<Task>, factory: nat, count: nat)

  function Size(p: Pool, t: Task): int
    requires t < |p.tasks|
  {
    p.tasks[t].stackSize
  }

  ghost predicate Known(p: Pool, q: seq<Task>) {
    forall i :: 0 <= i < |q| ==> q[i] < |p.tasks|
  }

  /** multimap::lower_bound: the first cached task that is large enough. */
  function LowerBound(p: Pool, q: seq<Task>, size: int): (k: nat)
    requires Known(p, q)
    ensures k <= |q|
  {
    if q == [] || Size(p, q[0]) >= size then 0 else 1 + LowerBound(p, q[1..], size)
  }

  /** multimap::emplace: behind the tasks with the same key. */
  function Insert(p: Pool, q: seq<Task>, t: Task): (r: seq<Task>)
    requires Known(p, q) && t < |p.tasks|
    ensures Known(p, r)
  {
    if q == [] || Size(p, q[0]) > Size(p, t) then [t] + q else [q[0]] + Insert(p, q[1..], t)
  }

  /** CreateTask: a cached task if one is large enough, a new one otherwise. */
  function Create(p: Pool, size: int): (r: (Task, Pool))
    requires Known(p, p.free)
  {
    var k := LowerBound(p, p.free, size);
    var count := U32(p.count + 1);
    if k < |p.free| then
      var t := p.free[k];
      (t, p.(free := p.free[..k] + p.free[k + 1..], live := p.live + {t}, count := count))
    else
      var t, id := |p.tasks|, U32(p.factory + 1);
      (t, p.(tasks := p.tasks + [Rec(size, id)], live := p.live + {t}, factory := id, count := count))
  }

  /** A task is done: the counter goes down and it is cached. */
  function Finish(p: Pool, t: Task): Pool
    requires Known(p, p.free) && t < |p.tasks|
  {
    p.(free := Insert(p, p.free, t), live := p.live - {t}, count := U32(p.count - 1))
  }

  // ---------------------------------------------------------------- the invariant

  ghost predicate Sorted(p: Pool, q: seq<Task>)
    requires Known(p, q)
  {
    forall i, j :: 0 <= i < j < |q| ==> Size(p, q[i]) <= Size(p, q[j])
  }

  /** Every task is cached or handed out, never both and never twice; ids count the creations,
      and the counter of tasks the live ones, both modulo the width. */
  ghost predicate Inv(p: Pool) {
    && Known(p, p.free) && Sorted(p, p.free) && Distinct(p.free)
    && (forall t: Task :: t < |p.tasks| <==> t in p.free || t in p.live)
    && (forall t :: t in p.free ==> t !in p.live)
    && p.factory == U32(|p.tasks|) && p.count == U32(|p.live|)
    && forall t: Task :: t < |p.tasks| ==> p.tasks[t].id == U32(t + 1)
  }

  lemma TailOf(q: seq<Task>)
    requires q != []
    ensures forall x :: x in q[1..] ==> x in q
    ensures forall x :: x in q <==> x == q[0] || x in q[1..]
    ensures Distinct(q) ==> Distinct(q[1..]) && q[0] !in q[1..]
  {
    assert q == [q[0]] + q[1..];
  }

  lemma {:induction false} LowerBoundIs(p: Pool, q: seq<Task>, size: int)
    requires Known(p, q)
    ensures var k := LowerBound(p, q, size);
      && (k < |q| ==> Size(p, q[k]) >= size)
      && forall i :: 0 <= i < k ==> Size(p, q[i]) < size
  {
    if q == [] || Size(p, q[0]) >= size {
    } else {
      TailOf(q);
      LowerBoundIs(p, q[1..], size);
      var k := LowerBound(p, q, size);
      forall i | 0 <= i < k ensures Size(p, q[i]) < size {
        assert i > 0 ==> q[i] == q[1..][i - 1];
      }
    }
  }

  lemma {:induction false} InsertIs(p: Pool, q: seq<Task>, t: Task)
    requires Known(p, q) && t < |p.tasks|
    ensures forall x :: x in Insert(p, q, t) ==> x in q || x == t
    ensures forall x :: x in q || x == t ==> x in Insert(p, q, t)
    ensures Distinct(q) && t !in q ==> Distinct(Insert(p, q, t))
  {
    hide Size;
    if q == [] {
    } else {
      TailOf(q);
      InsertIs(p, q[1..], t);
      Headed(p, q[0], Insert(p, q[1..], t));
      Headed(p, t, q);
    }
  }

  lemma {:induction false} InsertSorted(p: Pool, q: seq<Task>, t: Task)
    requires Known(p, q) && t < |p.tasks| && Sorted(p, q)
    ensures Sorted(p, Insert(p, q, t))
  {
    if q == [] {
    } else {
      TailOf(q);
      if Size(p, q[0]) <= Size(p, t) {
        InsertSorted(p, q[1..], t);
        InsertIs(p, q[1..], t);
        Headed(p, q[0], Insert(p, q[1..], t));
      } else {
        Headed(p, t, q);
      }
    }
  }

  /** A smallest element in front of a sorted list. */
  lemma Headed(p: Pool, h: Task, q: seq<Task>)
    requires Known(p, q) && h < |p.tasks|
    ensures Known(p, [h] + q)
    ensures Sorted(p, q) && (forall x :: x in q ==> Size(p, h) <= Size(p, x)) ==> Sorted(p, [h] + q)
    ensures Distinct(q) && h !in q ==> Distinct([h] + q)
  {
  }

  /** A task that is reused has a stack at least as large as requested, and no cached task that
      would do has a smaller one; a new task is made only if none would do, with what was
      requested. */
  lemma BestFit(p: Pool, size: int)
    requires Inv(p)
    ensures var (t, p') := Create(p, size);
      && t < |p'.tasks| && t in p'.live && t !in p.live && t !in p'.free && Size(p', t) >= size
      && (t in p.free ==> forall u :: u in p.free && Size(p, u) >= size ==> Size(p, t) <= Size(p, u))
      && (t !in p.free <==> forall u :: u in p.free ==> Size(p, u) < size)
      && (t !in p.free ==> Size(p', t) == size)
  {
    LowerBoundIs(p, p.free, size);
  }

  lemma CreateKeeps(p: Pool, size: int)
    requires Inv(p)
    ensures Inv(Create(p, size).1)
  {
    hide Inv;
    InvKnown(p);
    if LowerBound(p, p.free, size) < |p.free| {
      CachedKeeps(p, size);
    } else {
      NewKeeps(p, size);
    }
  }

  lemma CachedKeeps(p: Pool, size: int)
    requires Inv(p) && LowerBound(p, p.free, size) < |p.free|
    ensures Inv(Create(p, size).1)
  {
    hide Sorted, Distinct, U32, LowerBound;
    U32Steps(|p.live|);
    var (t, p') := Create(p, size);
    assert p'.live == p.live + {t} && |p'.live| == |p.live| + 1;
    Without(p, LowerBound(p, p.free, size));
    SortedSame(p, p', p'.free);
  }

  lemma NewKeeps(p: Pool, size: int)
    requires Inv(p) && LowerBound(p, p.free, size) == |p.free|
    ensures Inv(Create(p, size).1)
  {
    hide Sorted, Distinct, U32, LowerBound;
    U32Steps(|p.tasks|);
    U32Steps(|p.live|);
    var (t, p') := Create(p, size);
    assert p'.live == p.live + {t} && |p'.live| == |p.live| + 1;
    SortedSame(p, p', p.free);
  }

  /** The order depends only on the sizes of the tasks listed. */
  lemma SortedSame(p: Pool, p': Pool, q: seq<Task>)
    requires Known(p, q) && |p.tasks| <= |p'.tasks| && forall i :: 0 <= i < |p.tasks| ==> p'.tasks[i] == p.tasks[i]
    ensures Known(p', q) && (Sorted(p, q) ==> Sorted(p', q))
  {
  }

  /** One task leaves the cache. */
  lemma Without(p: Pool, k: nat)
    requires Known(p, p.free) && Sorted(p, p.free) && Distinct(p.free) && k < |p.free|
    ensures var q := p.free[..k] + p.free[k + 1..];
      && Known(p, q) && Sorted(p, q) && Distinct(q) && p.free[k] !in q
      && forall t :: t in p.free <==> t in q || t == p.free[k]
  {
    var q := p.free[..k] + p.free[k + 1..];
    forall i | 0 <= i < |q| ensures q[i] == p.free[if i < k then i else i + 1] {
    }
    assert p.free == p.free[..k] + [p.free[k]] + p.free[k + 1..];
  }

  lemma FinishKeeps(p: Pool, t: Task)
    requires Inv(p) && t in p.live
    ensures Inv(Finish(p, t))
  {
    hide Insert, Sorted, Distinct, U32;
    U32Steps(|p.live|);
    InsertIs(p, p.free, t);
    InsertSorted(p, p.free, t);
    var p' := Finish(p, t);
    assert p.live == p'.live + {t};
    SortedSame(p, p', p'.free);
  }

  // ---------------------------------------------------------------- runs

  datatype Action = Created(size: int) | Finished(t: Task)

  ghost predicate Step(p: Pool, a: Action, p': Pool) {
    && Known(p, p.free)
    && match a
       case Created(size) => p' == Create(p, size).1
       case Finished(t) => t in p.live && t < |p.tasks| && p' == Finish(p, t)
  }

  ghost predicate IsRun(ps: seq<Pool>, es: seq<Action>) {
    && |ps| == |es| + 1 && ps[0] == Pool([], [], {}, 0, 0)
    && forall i :: 0 <= i < |es| ==> Step(ps[i], es[i], ps[i + 1])
  }

  lemma {:induction false} RunKeeps(ps: seq<Pool>, es: seq<Action>, k: nat)
    requires IsRun(ps, es) && k <= |es|
    ensures Inv(ps[k])
  {
    if k == 0 {
    } else {
      RunKeeps(ps, es, k - 1);
      assert Step(ps[k - 1], es[k - 1], ps[k]);
      match es[k - 1] {
        case Created(size) => CreateKeeps(ps[k - 1], size);
        case Finished(t) => FinishKeeps(ps[k - 1], t);
      }
    }
  }

  /** Two tasks have the same id if and only if a multiple of 2^32 tasks was created from one to
      the other; in particular the first 2^32 - 1 all differ, and none of them has the id 0 that
      stands for being outside any task. */
  lemma IdsDistinct(ps: seq<Pool>, es: seq<Action>, k: nat, t: Task, u: Task)
    requires IsRun(ps, es) && k <= |es| && t < u < |ps[k].tasks|
    ensures ps[k].tasks[t].id == ps[k].tasks[u].id <==> (u - t) % WIDTH == 0
    ensures ps[k].tasks[t].id == 0 <==> (t + 1) % WIDTH == 0
    ensures u < WIDTH - 1 ==> ps[k].tasks[t].id != ps[k].tasks[u].id && ps[k].tasks[t].id != 0
  {
    RunKeeps(ps, es, k);
  }

  // ---------------------------------------------------------------- which of several that do

  /** A task is put behind those whose stacks are not larger, in front of the larger ones. */
  lemma {:induction false} InsertAt(p: Pool, q: seq<Task>, t: Task) returns (k: nat)
    requires Known(p, q) && Sorted(p, q) && t < |p.tasks|
    ensures k <= |q| && Insert(p, q, t) == q[..k] + [t] + q[k..]
    ensures forall i :: 0 <= i < k ==> Size(p, q[i]) <= Size(p, t)
    ensures forall i :: k <= i < |q| ==> Size(p, q[i]) > Size(p, t)
  {
    if q == [] || Size(p, q[0]) > Size(p, t) {
      k := 0;
      assert q[..0] + [t] + q[0..] == [t] + q;
    } else {
      assert forall i :: 0 <= i < |q| - 1 ==> q[1..][i] == q[i + 1];
      var j := InsertAt(p, q[1..], t);
      k := j + 1;
      hide Sorted;
      InsertBehind(p, q, t, j);
    }
  }

  lemma InsertBehind(p: Pool, q: seq<Task>, t: Task, j: nat)
    requires Known(p, q) && q != [] && t < |p.tasks| && Size(p, q[0]) <= Size(p, t) && j < |q|
    requires Known(p, q[1..]) && Insert(p, q[1..], t) == q[1..][..j] + [t] + q[1..][j..]
    requires forall i :: 0 <= i < j ==> Size(p, q[1..][i]) <= Size(p, t)
    requires forall i :: j <= i < |q| - 1 ==> Size(p, q[1..][i]) > Size(p, t)
    ensures Insert(p, q, t) == q[..j + 1] + [t] + q[j + 1..]
    ensures forall i :: 0 <= i < j + 1 ==> Size(p, q[i]) <= Size(p, t)
    ensures forall i :: j + 1 <= i < |q| ==> Size(p, q[i]) > Size(p, t)
  {
    assert Insert(p, q, t) == [q[0]] + Insert(p, q[1..], t);
    hide Insert, Size;
    InsertSlices(q, t, j);
    forall i | 0 < i < |q| ensures q[i] == q[1..][i - 1] {
    }
  }

  lemma InsertSlices(q: seq<Task>, t: Task, j: nat)
    requires j < |q|
    ensures [q[0]] + (q[1..][..j] + [t] + q[1..][j..]) == q[..j + 1] + [t] + q[j + 1..]
  {
    assert [q[0]] + q[1..][..j] == q[..j + 1] && q[1..][j..] == q[j + 1..];
  }

  /** When a task was last finished, counted from 1. */
  function FinishTime(es: seq<Action>, t: Task, k: nat): nat
    requires k <= |es|
    ensures FinishTime(es, t, k) <= k
  {
    if k == 0 then 0 else if es[k - 1] == Finished(t) then k else FinishTime(es, t, k - 1)
  }

  /** Cached tasks with stacks of the same size are in the order in which they were finished. */
  ghost predicate InOrder(p: Pool, q: seq<Task>, es: seq<Action>, k: nat)
    requires Known(p, q) && k <= |es|
  {
    forall i, j :: 0 <= i < j < |q| && Size(p, q[i]) == Size(p, q[j]) ==> FinishTime(es, q[i], k) < FinishTime(es, q[j], k)
  }

  lemma FinishTimes(es: seq<Action>, t: Task, k: nat)
    requires k < |es| && es[k] == Finished(t)
    ensures FinishTime(es, t, k + 1) == k + 1
    ensures forall u :: u != t ==> FinishTime(es, u, k + 1) == FinishTime(es, u, k)
  {
  }

  lemma FinishOrder(p: Pool, t: Task, es: seq<Action>, k: nat)
    requires Inv(p) && k < |es| && es[k] == Finished(t) && t in p.live && InOrder(p, p.free, es, k)
    ensures t < |p.tasks| && Known(p, Insert(p, p.free, t)) && InOrder(p, Insert(p, p.free, t), es, k + 1)
  {
    hide FinishTime, InOrder, Insert;
    var m := InsertAt(p, p.free, t);
    FinishTimes(es, t, k);
    assert forall i :: 0 <= i < |p.free| ==> p.free[i] in p.free && p.free[i] != t;
    hide Inv, Sorted;
    PutBehind(p, p.free, t, m, es, k);
  }

  lemma PutBehind(p: Pool, q: seq<Task>, t: Task, m: nat, es: seq<Action>, k: nat)
    requires Known(p, q) && t < |p.tasks| && m <= |q| && k < |es| && InOrder(p, q, es, k)
    requires FinishTime(es, t, k + 1) == k + 1
    requires forall i :: 0 <= i < |q| ==> FinishTime(es, q[i], k + 1) == FinishTime(es, q[i], k)
    requires forall i :: m <= i < |q| ==> Size(p, q[i]) > Size(p, t)
    ensures Known(p, q[..m] + [t] + q[m..]) && InOrder(p, q[..m] + [t] + q[m..], es, k + 1)
  {
    var r := q[..m] + [t] + q[m..];
    hide FinishTime;
    forall i | 0 <= i < |r| ensures r[i] == if i < m then q[i] else if i == m then t else q[i - 1] {
    }
  }

  lemma CreateOrder(p: Pool, size: int, es: seq<Action>, k: nat)
    requires Inv(p) && k < |es| && es[k] == Created(size) && InOrder(p, p.free, es, k)
    ensures var p' := Create(p, size).1;
      Known(p', p'.free) && InOrder(p', p'.free, es, k + 1)
  {
    hide Inv, LowerBound, U32, Sorted;
    CreateKeeps(p, size);
    InvKnown(p);
    InvKnown(Create(p, size).1);
  }

  lemma {:induction false} RunInOrder(ps: seq<Pool>, es: seq<Action>, k: nat)
    requires IsRun(ps, es) && k <= |es|
    ensures Inv(ps[k]) && InOrder(ps[k], ps[k].free, es, k)
  {
    RunKeeps(ps, es, k);
    if k == 0 {
    } else {
      RunInOrder(ps, es, k - 1);
      assert Step(ps[k - 1], es[k - 1], ps[k]);
      hide Inv, InOrder, Create, Insert;
      InvKnown(ps[k - 1]);
      match es[k - 1] {
        case Created(size) => CreateOrder(ps[k - 1], size, es, k - 1);
        case Finished(t) =>
          FinishOrder(ps[k - 1], t, es, k - 1);
          OrderSame(ps[k - 1], ps[k], ps[k].free, es, k);
      }
    }
  }

  lemma OrderSame(p: Pool, p': Pool, q: seq<Task>, es: seq<Action>, k: nat)
    requires Known(p, q) && p'.tasks == p.tasks && k <= |es| && InOrder(p, q, es, k)
    ensures Known(p', q) && InOrder(p', q, es, k)
  {
  }

  /** In every run, of the cached tasks whose stacks are of the same size, the one finished first is
      reused first. */
  lemma OldestFirst(ps: seq<Pool>, es: seq<Action>, k: nat, u: Task)
    requires IsRun(ps, es) && k < |es| && es[k].Created? && u in ps[k].free
    ensures Known(ps[k], ps[k].free)
    ensures var t := Create(ps[k], es[k].size).0;
      t in ps[k].free && t != u && Size(ps[k], t) == Size(ps[k], u) ==> FinishTime(es, t, k) < FinishTime(es, u, k)
  {
    RunInOrder(ps, es, k);
    hide IsRun, Inv, InOrder;
    InvKnown(ps[k]);
    FirstOfItsSize(ps[k], es[k].size, u, es, k);
  }

  lemma FirstOfItsSize(p: Pool, size: int, u: Task, es: seq<Action>, k: nat)
    requires Known(p, p.free) && k <= |es| && InOrder(p, p.free, es, k) && u in p.free
    ensures var t := Create(p, size).0;
      t in p.free && t != u && Size(p, t) == Size(p, u) ==> FinishTime(es, t, k) < FinishTime(es, u, k)
  {
    var q := p.free;
    LowerBoundIs(p, q, size);
    var i, j :| i == LowerBound(p, q, size) && 0 <= j < |q| && q[j] == u;
    hide LowerBound, FinishTime;
  }

  // ---------------------------------------------------------------- the scheduler's part

  class Scheduler {
    var tasks: seq<Rec>
    var freeTaskMap: seq<Task>
    var taskIdFactory: nat
    var taskCount: nat
    ghost var live: set<Task>

    ghost function View(): Pool reads this { Pool(tasks, freeTaskMap, live, taskIdFactory, taskCount) }

    method GetFreeTaskList(stackSize: int) returns (t: Option<Task>)
      requires Known(View(), freeTaskMap)
      modifies this`freeTaskMap
      ensures var k := LowerBound(old(View()), old(freeTaskMap), stackSize);
        if k < |old(freeTaskMap)| then
          t == Some(old(freeTaskMap)[k]) && freeTaskMap == old(freeTaskMap[..k] + freeTaskMap[k + 1..])
        else t == None && freeTaskMap == old(freeTaskMap)
    {
      var itr := LowerBound(Pool(tasks, freeTaskMap, {}, 0, 0), freeTaskMap, stackSize);
      LowerBoundSame(View(), Pool(tasks, freeTaskMap, {}, 0, 0), freeTaskMap, stackSize);
      if itr < |freeTaskMap| {
        var task := freeTaskMap[itr];
        freeTaskMap := freeTaskMap[..itr] + freeTaskMap[itr + 1..];
        return Some(task);
      }
      return None;
    }

    /** A request for size 0 stands for the configured size. */
    method CreateTask(requested: int, configured: int) returns (t: Task)
      requires Inv(View())
      modifies this
      ensures (t, View()) == Create(old(View()), if requested != 0 then requested else configured)
      ensures Inv(View())
    {
      hide LowerBound, U32, Inv;
      var stackSize := if requested != 0 then requested else configured;
      CreateKeeps(View(), stackSize);
      InvKnown(View());
      var cached := GetFreeTaskList(stackSize);
      if cached.Some? {
        t := cached.value;
      } else {
        t := |tasks|;
        taskIdFactory := U32(taskIdFactory + 1);
        tasks := tasks + [Rec(stackSize, taskIdFactory)];
      }
      taskCount := U32(taskCount + 1);
      live := live + {t};
    }

    /** A task that is done is counted off and cached. */
    method TaskDone(t: Task)
      requires Inv(View()) && t in live
      modifies this
      ensures View() == Finish(old(View()), t) && Inv(View())
    {
      FinishKeeps(View(), t);
      taskCount := U32(taskCount - 1);
      live := live - {t};
      freeTaskMap := Insert(Pool(tasks, freeTaskMap, {}, 0, 0), freeTaskMap, t);
      InsertSame(old(View()), Pool(tasks, old(freeTaskMap), {}, 0, 0), old(freeTaskMap), t);
    }
  }

  lemma InvKnown(p: Pool)
    requires Inv(p)
    ensures Known(p, p.free)
  {
  }

  lemma {:induction false} LowerBoundSame(p: Pool, p': Pool, q: seq<Task>, size: int)
    requires Known(p, q) && p'.tasks == p.tasks
    ensures LowerBound(p, q, size) == LowerBound(p', q, size)
  {
    if q == [] {
    } else {
      LowerBoundSame(p, p', q[1..], size);
    }
  }

  lemma {:induction false} InsertSame(p: Pool, p': Pool, q: seq<Task>, t: Task)
    requires Known(p, q) && t < |p.tasks| && p'.tasks == p.tasks
    ensures Insert(p, q, t) == Insert(p', q, t)
  {
    if q == [] {
    } else {
      InsertSame(p, p', q[1..], t);
    }
  }
}
