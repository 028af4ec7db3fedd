# cpp_go, verified in Dafny

cpp_go is a coroutine runtime: tasks are queued, spread over processors, parked on I/O, woken by
events or timers, and switched by a few lines of assembly.  This project models that path and proves
what each station promises.

| file | what it covers |
|---|---|
| `Basics.dfy` | definitions that several files share |
| `IoScript.dfy`, `IoVec.dfy` | the scatter/gather loops of `net_fd.cpp` against a kernel that answers as it likes, and what its answers make of a call |
| `QueueSpec.dfy`, `TsQueue.dfy` | the intrusive lists and queues of `ts_queue.h`, on the heap |
| `QueueLock.dfy`, `QueueLaws.dfy` | the same queue under its spin lock: every interleaving, early exits included; what kind of queue it is, and that calls end |
| `RingQueue.dfy`, `RingCalls.dfy` | the lock-free ring queue, at the granularity of single atomic accesses, and what its callers see |
| `Balance.dfy`, `Scheduler.dfy` | stealing and levelling of tasks between processors |
| `RoundRobin.dfy` | the shared index by which `AddTask` and `CreateMilliTimer` choose a processor |
| `TaskCache.dfy` | the cache of finished tasks, ids and counters |
| `ContextRuns.dfy` | contexts that take turns, whatever the machine |
| `ByteMemory.dfy`, `X86Context.dfy`, `X86Runs.dfy` | the x86_64 context switch, one instruction at a time, and its runs |
| `ArmContext.dfy`, `ArmRuns.dfy` | the ARM context switch, with its result in memory, and its runs |
| `WaitSet.dfy`, `EpollRuns.dfy`, `EpollMasks.dfy`, `EpollWakes.dfy` | the epoll wait set as a state machine, and its runs |
| `NetFd.dfy`, `EpollIoWait.dfy` | the methods of `NetFD` and `EpollIoWait` against that state machine |
| `SelectSet.dfy`, `SelectRuns.dfy`, `SelectIoWait.dfy` | the same for the select back end |
| `SelectCopies.dfy` | what copying a NetFD in use does to the select back end, exactly |
| `BackEnds.dfy` | both back ends side by side |

`dafny verify dfyconfig.toml` checks all of it.

How the models are built: code that changes state in place is a class with methods (queues on linked
nodes, iovec arrays, wait sets, schedulers, the two machines), each proved against functions on values;
invariants and theorems over whole runs are then lemmas about those functions.  Code whose point is
concurrency is a transition system over its atomic steps.  What the runtime does not control is left
open: the kernel may answer any system call in any permitted way (interrupted, not ready, failed, any
partial count; any readiness; an `EPOLL_CTL_ADD` refused at will), code running in a context may do
anything but write to the saved frames of others, threads may interleave in any order.

## What the code does not do as it reads

- `st_write` returns an `int`: a count of 2^31 bytes or more is reported as a negative number, an error
  or less than was sent (`ScatterGather.ToInt32`, `ScatterGather.LargeCountsMisreported`).
- The comments on the epoll back end describe edge-triggered operation.  `pollfd.events` has 16 bits, so
  the edge-trigger bit is lost from every stored mask: a registered descriptor is watched with it if and
  only if the last step that changed its mask was a Poll (`EpollMasks.EdgeTriggeredIff`, and
  `EpollMasks.EdgeBitLost` for a run in which a waiting Poll loses it).
- For the same reason `oldEvents != events` in `PollsetAdd` always holds, and `assert(events > 0)` in
  `PollsetModify` fails whenever it is reached, because bit 31 makes the `int` negative.  It is reached if
  and only if an acceptable Poll is made on a shared NetFD on whose descriptor another one is parked
  (`EpollRuns.ModifyAssertFails`, `Epoll.EpollIoWait.PollsetAdd`; the fourth step of
  `EpollMasks.EdgeBitLost` is such a Poll).  Builds with `NDEBUG` go on correctly.
- A Poll for two events of which one is reported, or an error or hang-up reported without the requested
  event, leaves the descriptor registered with nobody waiting on it (`EpollRuns.TwoBitsLeak`,
  `EpollRuns.HangUpLeaks`).  From then on Polls on it are refused, until the next event on it, which makes
  the kernel forget it (`EpollMasks.RefusedUntilReported`, `EpollMasks.AcceptedOnceReported`).  That event
  is also the one at which the assert in `WaitLoop` that an entry exists fails: it does so if and only if
  the last delivery on the descriptor woke everybody and left part of the mask
  (`EpollMasks.EntryAssertFails`, `EpollMasks.EntryAssertFailsIff`).
- When the kernel's masks are exact throughout a run is `EpollRuns.RunExactIff`; when no registered
  descriptor is ever without an entry, which asks for less, is `EpollMasks.NeverAbandonedIff`.
- Copying a shared NetFD copies its `pollfd` whole, also while a Poll uses it.  The epoll back end
  overwrites what it finds there; the select back end adds to it.
  - A copy of a NetFD that is waited on asks for that one's events as well
    (`SelectCopies.CopyOfParkedAsksForBoth`).  Parked NetFDs ask for what their Polls asked for, with no
    stale result, throughout a run if and only if every Poll that parks finds nothing else in its NetFD
    (`SelectCopies.RequestsKeptIff`).
  - A copy of a NetFD that was woken, and whose Poll has not returned, takes over its result.  When the
    copy is woken, `PollsetDel` clears the sets for that stale result too, for which another NetFD may be
    waiting: its wake-up is lost (`SelectCopies.LostWakeUp`).  Everything asked for is watched throughout
    a run if and only if no scan wakes somebody with a stale result that a sleeper on the same descriptor
    asks for (`SelectCopies.WatchedIff`); and only what is watched can wake (`SelectCopies.WakeableIff`).
  - When the sets hold nothing else either is `SelectCopies.SetsExactIff`; requests of several bits
    count there, too, since what is left of them stays in the NetFD and in the sets.
- The ring queue needs no bound on twice its capacity: the first attempt to release a popped slot may
  compare with a wrapped index, but the failed compare-exchange loads the right one
  (`RingQueue.ReleaseTakesTwoAttempts`, and `RingQueue.FirstAttemptExact` for when the first one is
  right).
- Levelling is exact only if every processor above average can give up its excess; the task that is
  running and the one after it stay (`Balance.LevelIff`, `Balance.LevelFails`).  An average of at least two always suffices
  (`Balance.TwoPinnedLevel`).

## Model

`Processer::Steal` is cited by its declaration; its body is lines 292 to 363 of `processer.cpp`, a file in a
legacy encoding.

| member | source | states |
|---|---|---|
| `ScatterGather.GatherIsConcatenation` | cpp_go/src/netio/inner_net/net_fd.cpp:616-619 | the meaning given to a list of iovecs is the concatenation of their buffers |
| `ScatterGather.ScanStopsInside` | cpp_go/src/netio/inner_net/net_fd.cpp:730-741 | for any count the buffers can hold, the advance loop stops inside the array, empty entries included, and what remains names exactly the bytes from that count on |
| `ScatterGather.StepOver` | cpp_go/src/netio/inner_net/net_fd.cpp:572-582 | the in-place loop stops where the scan does; passed entries become empty, all others are untouched |
| `ScatterGather.Advance` | cpp_go/src/netio/inner_net/net_fd.cpp:570-588 | after n bytes the array's residual part names exactly the bytes from the n-th on |
| `ScatterGather.TakenConserves` | cpp_go/src/netio/inner_net/net_fd.cpp:705-755 | bytes accepted followed by bytes still named are the original bytes |
| `ScatterGather.StWritevResid` | cpp_go/src/netio/inner_net/net_fd.cpp:705-755 | result and number of bytes sent are exactly what the kernel's answers, the waits and the timeout make of them; on success, failure and timeout alike the byte stream is conserved |
| `IoScript.WriteVerdict` | cpp_go/src/netio/inner_net/net_fd.cpp:705-755 | a write fails if and only if, with a byte unsent, the kernel refuses or a wait fails; it returns 0 with bytes unsent if and only if it finds the socket not ready with timeout 0; EINTR is retried |
| `IoScript.ReachesAll` | cpp_go/src/netio/inner_net/net_fd.cpp:705-755 | if the counts reach the total before any of these, everything is sent and the result is 0 |
| `IoScript.AfterIs` | cpp_go/src/netio/inner_net/net_fd.cpp:726-747 | the bytes moved by some answers are their sum, up to what there is |
| `ScatterGather.EmptiesLeft` | cpp_go/src/netio/inner_net/net_fd.cpp:730-741 | an advance leaves the empty entries behind the last byte, and takes one of them only when no byte is left |
| `ScatterGather.StWriteResid` | cpp_go/src/netio/inner_net/net_fd.cpp:756-769 | result and residue are exactly what the kernel's answers make of them; the residue is the unsent suffix of the buffer |
| `ScatterGather.ToInt32` | cpp_go/src/netio/inner_net/net_fd.cpp:605 | the count survives the return type if and only if it is below 2^31 |
| `ScatterGather.LargeCountsMisreported` | cpp_go/src/netio/inner_net/net_fd.cpp:605 | concrete counts that are misreported |
| `ScatterGather.StWrite` | cpp_go/src/netio/inner_net/net_fd.cpp:597-607 | whether it fails, and how many bytes are sent, the kernel's answers decide; the result is that number as an int, or -1; accepted bytes are a prefix of the buffer |
| `ScatterGather.SkipStopsInside` | cpp_go/src/netio/inner_net/net_fd.cpp:660-663 | the search for the first unsent byte never leaves the caller's array |
| `ScatterGather.SkipMonotone` | cpp_go/src/netio/inner_net/net_fd.cpp:665-690 | later copies never need more entries than the first, so the working array chosen then is large enough |
| `ScatterGather.CopyRest` | cpp_go/src/netio/inner_net/net_fd.cpp:660-690 | the working iovecs are exactly the unsent suffix, within their array, and the caller's iovecs are unchanged |
| `ScatterGather.SendRound` | cpp_go/src/netio/inner_net/net_fd.cpp:636-691 | one round keeps: sent bytes are a prefix, working iovecs are what is left |
| `ScatterGather.StWritev` | cpp_go/src/netio/inner_net/net_fd.cpp:608-704 | the result is exactly what the kernel's answers make of it, a failed allocation and a last buffer of 2^31 bytes or more included; what was sent is a prefix of the concatenation, each byte once and in order |
| `ScatterGather.ToldMeans` | cpp_go/src/netio/inner_net/net_fd.cpp:608-704 | the result is the byte count, -1, or 0 with timeout 0; the byte count only if everything was sent, and always then if the last buffer is below 2^31 bytes |
| `ScatterGather.DeliveredTrans` | cpp_go/src/netio/inner_net/net_fd.cpp:544-596 | consecutive short reads place a prefix of the stream without gap or overlap |
| `ScatterGather.StReadvResid` | cpp_go/src/netio/inner_net/net_fd.cpp:544-596 | result and number of bytes read are exactly what the kernel's answers and the stream make of them; a prefix of the stream fills the front of the concatenated buffers, the rest of memory is untouched, and the residual iovecs name exactly the unfilled bytes |
| `IoScript.ReadVerdict` | cpp_go/src/netio/inner_net/net_fd.cpp:544-596 | a read succeeds if and only if the buffers are full, the count is zero (end of stream), or the socket is not ready with timeout 0; it fails if and only if, before that, the kernel refuses or a wait fails |
| `RingQueue.NextSlot` | cpp_go/src/common/lock_free_ring_queue.h:117-123 | truncation to the index type never disturbs the ring arithmetic |
| `RingQueue.StoreKeeps` | cpp_go/src/common/lock_free_ring_queue.h:57-58 | a push never writes a slot that holds a live element or is being read |
| `RingQueue.TakeKeeps` | cpp_go/src/common/lock_free_ring_queue.h:87-89 | a pop reads the element pushed in its turn |
| `RingQueue.FullRefines` | cpp_go/src/common/lock_free_ring_queue.h:49-52 | full is answered only when elements and unreleased pops fill the capacity |
| `RingQueue.EmptyRefines` | cpp_go/src/common/lock_free_ring_queue.h:79-82 | empty is answered only when the queue is empty |
| `RingQueue.StepRefines` | cpp_go/src/common/lock_free_ring_queue.h:43-102 | every atomic step keeps the invariant and is a step of a bounded FIFO, or none |
| `RingQueue.RunRefines` | cpp_go/src/common/lock_free_ring_queue.h:43-102 | every interleaving of one producer and one consumer refines a bounded FIFO |
| `RingQueue.SpecIsFifo` | cpp_go/src/common/lock_free_ring_queue.h:20-29 | what the bounded FIFO hands out is a prefix of what was pushed |
| `RingQueue.PopsReturnPushesInOrder` | cpp_go/src/common/lock_free_ring_queue.h:43-102 | in every run the pops return the pushed values in order, at most capacity outstanding |
| `RingCalls.PushesAnswered` | cpp_go/src/common/lock_free_ring_queue.h:43-102 | in every run the producer is idle exactly when, by the answers given, no push is under way: a push ends with "full" or with success, and only so |
| `RingCalls.PushedItsArgument` | cpp_go/src/common/lock_free_ring_queue.h:43-102 | a push pushes its own argument |
| `RingCalls.PopsAnswered` | cpp_go/src/common/lock_free_ring_queue.h:43-102 | likewise the consumer, with "empty" or having taken an element and given the slot back |
| `RingCalls.PoppedWhatItTook` | cpp_go/src/common/lock_free_ring_queue.h:43-102 | a pop returns exactly what it took, and nothing else is returned |
| `RingCalls.PushSucceeds` | cpp_go/src/common/lock_free_ring_queue.h:43-102 | a push that finds room has pushed its argument after six steps of its own without spurious failures, whatever the consumer does |
| `RingCalls.PopSucceeds` | cpp_go/src/common/lock_free_ring_queue.h:43-102 | a pop that finds an element has returned the oldest one after six steps of its own, whatever the producer does |
| `RingCalls.PushEnds` | cpp_go/src/common/lock_free_ring_queue.h:43-102 | six such steps end any push |
| `RingCalls.PopEnds` | cpp_go/src/common/lock_free_ring_queue.h:43-102 | six such steps end any pop |
| `RingQueue.ReleaseTakesTwoAttempts` | cpp_go/src/common/lock_free_ring_queue.h:91-96 | without spurious failures a pop is released after at most two compare-exchanges, for every width |
| `RingQueue.FirstAttemptExact` | cpp_go/src/common/lock_free_ring_queue.h:91-96 | the first compare-exchange always expects the right index if and only if twice the capacity is representable, or the ring has as many slots as the index type has values |
| `QueueSpec.Clip` | cpp_go/src/common/ts_queue.h:319-372 | a batch pop takes exactly max(1, min(n, length)) elements |
| `QueueSpec.WithoutAt` | cpp_go/src/common/ts_queue.h:452-474 | erasing a member removes it at its place and keeps the order of the others |
| `QueueSpec.WithoutCounts` | cpp_go/src/common/ts_queue.h:452-474 | erasing removes one occurrence if there is one, and nothing else |
| `TsQueue.Hook.Link` | cpp_go/src/common/ts_queue.h:16-21 | two hooks become neighbours |
| `TsQueue.Hook.Unlink` | cpp_go/src/common/ts_queue.h:23-28 | two neighbours are separated |
| `TsQueue.SList.Append` | cpp_go/src/common/ts_queue.h:101-114 | the list holds both sequences, in order, well linked; the argument is empty |
| `TsQueue.SList.Cut` | cpp_go/src/common/ts_queue.h:116-140 | the first n nodes move to the result, the rest stays, both well linked |
| `TsQueue.SList.Erase` | cpp_go/src/common/ts_queue.h:162-173 | one node is taken out and the neighbours are joined, at the ends too |
| `TsQueue.SList.Clear` | cpp_go/src/common/ts_queue.h:178-184 | iterating with erase visits and frees each node once, in order |
| `TsQueue.CutThenAppend` | cpp_go/src/common/ts_queue.h:101-140 | cutting at any n and appending the rest restores the list |
| `TsQueue.AppendThenCut` | cpp_go/src/common/ts_queue.h:101-140 | appending b to a and cutting at the length of a gives both back |
| `TsQueue.TSQueue.PushWithoutLock` | cpp_go/src/common/ts_queue.h:476-488 | one element joins at the tail; the queue stays well linked; its length is returned |
| `TsQueue.TSQueue.Pop` | cpp_go/src/common/ts_queue.h:280-293 | the first element leaves and is fully unlinked; nothing on an empty queue |
| `TsQueue.TSQueue.PushListWithoutLock` | cpp_go/src/common/ts_queue.h:302-316 | a list is drained into the queue, in order |
| `TsQueue.TSQueue.PopFront` | cpp_go/src/common/ts_queue.h:319-342 | a prefix leaves as a well-formed list |
| `TsQueue.TSQueue.PopBackWithoutLock` | cpp_go/src/common/ts_queue.h:352-372 | a suffix leaves as a well-formed list |
| `TsQueue.TSQueue.PopAllWithoutLock` | cpp_go/src/common/ts_queue.h:433-444 | everything leaves, the queue is empty and well formed |
| `TsQueue.TSQueue.MembersAreLinked` | cpp_go/src/common/ts_queue.h:455-456 | a member always has a neighbour, so the unlinked test cannot reject one |
| `TsQueue.TSQueue.EraseWithoutLock` | cpp_go/src/common/ts_queue.h:452-474 | for a member or a fully unlinked hook: true if and only if it is a member, which is removed; no assert can fail |
| `QueueLock.EarlyExitIsEmpty` | cpp_go/src/common/ts_queue.h:280-297 | an early exit of a pop answers empty only if the queue was empty at that read; of a batch push, it changes nothing |
| `QueueLock.TailIsLast` | cpp_go/src/common/ts_queue.h:280-488 | what each operation writes to the tail is the last element it leaves, or the sentinel if it leaves none |
| `QueueLock.MoveTailKeeps` | cpp_go/src/common/ts_queue.h:286-287 | that write, seen by threads without the lock before the links are, is where an operation takes effect |
| `QueueLock.RunLinearizes` | cpp_go/src/common/ts_queue.h:280-494 | in every interleaving of any number of threads the logged calls are a run of a sequential deque, of each thread all calls but the one under way are logged in their order, and a call returns what its entry took |
| `QueueLock.LogGrows` | cpp_go/src/common/ts_queue.h:280-494 | what has taken effect stays so, in its order |
| `QueueLock.ReturnedTookEffect` | cpp_go/src/common/ts_queue.h:280-494 | every call that has returned has its place in that order |
| `QueueLock.RealTimeOrder` | cpp_go/src/common/ts_queue.h:280-494 | a call that has returned before another is made takes effect before it |
| `QueueLock.LegalConserves` | cpp_go/src/common/ts_queue.h:446-494 | in a sequential run, elements pushed are those handed out and those left |
| `QueueLock.RunConserves` | cpp_go/src/common/spinlock.h:40-62 | in every concurrent run no element is lost or handed out twice |
| `QueueLaws.RunAllowed` | cpp_go/src/common/ts_queue.h:280-488 | in every run, each call did to the queue and handed out exactly this: pushes append; pops take one, or the given number of, elements off the front, batch pops off the back in queue order, pop-all everything; an erase takes out one element and leaves the order of the others |
| `QueueLaws.RunIsFifo` | cpp_go/src/common/ts_queue.h:280-398 | in every run without back pops and erasures, what was handed out, in order, followed by what is queued, is what was added, in order |
| `QueueLaws.CallEnds` | cpp_go/src/common/ts_queue.h:280-494 | a thread that has the lock, or finds it free, finishes its call within seven steps of its own and leaves the lock free |
| `Balance.RemainderIsSurplus` | cpp_go/src/scheduler/scheduler.cpp:381-406 | what is above average exceeds what is below it by the remainder of the division |
| `Balance.GiftsInOrder` | cpp_go/src/scheduler/scheduler.cpp:409-422 | if there is not enough for all, processors are filled up in their order |
| `Balance.BalanceBounds` | cpp_go/src/scheduler/scheduler.cpp:398-426 | however little the steals yield: no processor above average drops below it, none below (but 0) rises above it, processor 0 gets at most the remainder extra |
| `Balance.LevelIff` | cpp_go/src/scheduler/scheduler.cpp:371-426 | every processor ends with the average and processor 0 with the remainder on top, if and only if every excess could be given up |
| `Balance.LevelFails` | cpp_go/src/scheduler/scheduler.cpp:398-426 | a concrete case in which it is not so |
| `Balance.TwoPinnedLevel` | cpp_go/src/scheduler/scheduler.cpp:371-426 | with an average of two or more that is always so |
| `Scheduling.Processer.PinnedAtMostTwo` | cpp_go/src/scheduler/processer.h:95-96 | a thief must leave at most two tasks, both of the runnable queue |
| `Scheduling.Processer.StealRunnable` | cpp_go/src/scheduler/processer.h:95-96 | the running task and its successor stay, whatever is asked for |
| `Scheduling.Processer.Steal` | cpp_go/src/scheduler/processer.h:72 | which tasks go: the back of the new queue and, for what that lacks, the back of the unpinned runnable ones, in that order, all that stay keeping their order; all movable ones for 0; at most n, exactly min(n, movable) for 32-bit n; none lost or duplicated; its two lists are empty when destroyed, on every path |
| `Scheduling.UnpinnedAreOthers` | cpp_go/src/scheduler/processer.h:95-96 | unpinned are all runnable tasks but the running one and its successor, in order |
| `Scheduling.TaskList.Destroy` | cpp_go/src/common/ts_queue.h:142-145 | only an empty list may be destroyed |
| `Scheduling.Scheduler.Deal` | cpp_go/src/scheduler/scheduler.cpp:409-426 | after the last loop and the hand-over to processor 0 the list in hand is empty |
| `Scheduling.Scheduler.CollectExcess` | cpp_go/src/scheduler/scheduler.cpp:398-408 | tasks in hand and in the queues together stay the same |
| `Scheduling.Scheduler.HandOut` | cpp_go/src/scheduler/scheduler.cpp:409-422 | processors below average are filled in order until the tasks run out |
| `Scheduling.Scheduler.AvgTotalTasks` | cpp_go/src/scheduler/scheduler.cpp:371-432 | final sizes are those of the arithmetic model, all tasks are conserved, nothing moves below two processors or an average of one; every list handle is empty when destroyed, the break included |
| `RoundRobin.PickNearest` | cpp_go/src/scheduler/scheduler.cpp:352-368 | the processor chosen is active and no active one is nearer to the index; if none is active, the last one visited |
| `RoundRobin.EvenlySpread` | cpp_go/src/scheduler/scheduler.cpp:352-368 | after any calls of AddTask and CreateMilliTimer, any two active processors have been given numbers of tasks that differ by at most one |
| `RoundRobin.OnlyActive` | cpp_go/src/scheduler/scheduler.cpp:352-368 | while one processor is active, an inactive one is given nothing |
| `RoundRobin.EveryTaskAdded` | cpp_go/src/scheduler/scheduler.cpp:352-368 | every task is added exactly once, active processors or not |
| `Scheduling.Scheduler.Scan` | cpp_go/src/scheduler/scheduler.cpp:469-478 | the loop finds that processor, and the index stays within its 32 bits |
| `Scheduling.Scheduler.AddTask` | cpp_go/src/scheduler/scheduler.cpp:334-369 | a bound task goes to its active processor and leaves the index alone; any other goes to the one chosen, and the index moves past it |
| `Scheduling.Scheduler.CreateMilliTimer` | cpp_go/src/scheduler/scheduler.cpp:460-481 | the index moves to the chosen processor, not past it |
| `TaskCache.BestFit` | cpp_go/src/scheduler/scheduler.cpp:150-164 | a reused task is the smallest cached one that is large enough, and a new one is made only if none is |
| `TaskCache.OldestFirst` | cpp_go/src/scheduler/scheduler.h:90-98 | in every run, of the cached tasks with stacks of the same size the one finished first is reused first |
| `TaskCache.RunKeeps` | cpp_go/src/scheduler/scheduler.h:90-98 | in every run each task ever made is cached or live, never both, never twice; the counters count |
| `TaskCache.IdsDistinct` | cpp_go/src/scheduler/scheduler.cpp:108-113 | two tasks share an id if and only if a multiple of 2^32 creations lies between them, reuse keeping ids |
| `TaskCache.Scheduler.GetFreeTaskList` | cpp_go/src/scheduler/scheduler.cpp:150-164 | the first cached task that is large enough leaves the cache |
| `TaskCache.Scheduler.CreateTask` | cpp_go/src/scheduler/scheduler.cpp:101-124 | cached or new, as the model says; size 0 stands for the configured one |
| `TaskCache.Scheduler.TaskDone` | cpp_go/src/scheduler/scheduler.h:90-98 | a finished task is counted off and cached under its size |
| `X86Context.Machine.SaveContext` | cpp_go/src/context/asm/jump_x86_64_sysv_elf_gas.S:33-45 | the stores write a frame below the return address and nothing else |
| `X86Context.Machine.RestoreContext` | cpp_go/src/context/asm/jump_x86_64_sysv_elf_gas.S:50-67 | the loads restore every field of the frame |
| `X86Context.Machine.JumpFcontext` | cpp_go/src/context/asm/jump_x86_64_sysv_elf_gas.S:32-77 | the jumper's preserved registers and return address are in its frame, the target's are loaded, both get (jumper's frame, data) in the right registers |
| `X86Context.JumpLands` | cpp_go/src/context/asm/jump_x86_64_sysv_elf_gas.S:32-77 | from every state with room for a frame such a jump exists, so nothing said about jumps is empty |
| `X86Context.Machine.MakeFcontext` | cpp_go/src/context/asm/make_x86_64_sysv_elf_gas.S:32-64 | the initial frame of a context; the caller's registers are kept |
| `X86Context.Machine.Trampoline` | cpp_go/src/context/asm/make_x86_64_sysv_elf_gas.S:66-71 | the function is entered with finish as its return address |
| `X86Runs.RunKeeps` | cpp_go/src/context/asm/jump_x86_64_sysv_elf_gas.S:32-77 | in every run the frame of every parked context is on its own stack and intact |
| `X86Runs.ResumesAsLeft` | cpp_go/src/context/asm/jump_x86_64_sysv_elf_gas.S:32-77 | a resumed context finds rbx, rbp, r12 to r15, MXCSR, x87 control word and rsp as at its own last jump, goes on at its return address, and receives the jumper's frame and data |
| `X86Runs.StartsAsMade` | cpp_go/src/context/asm/make_x86_64_sysv_elf_gas.S:32-71 | for every top of stack: first entry is in the function, rsp is 8 modulo 16, the return address is finish, the arguments are the jumper's frame and data, the frame was within 0x4f bytes below the top |
| `ArmContext.Machine.SaveContext` | cpp_go/src/context/asm/jump_arm_aapcs_elf_gas.S:48-58 | result pointer, v1 to v8, lr and (with VFP) d8 to d15 are in the frame |
| `ArmContext.Machine.RestoreContext` | cpp_go/src/context/asm/jump_arm_aapcs_elf_gas.S:64-74 | they are loaded from the target's frame |
| `ArmContext.Machine.JumpFcontext` | cpp_go/src/context/asm/jump_arm_aapcs_elf_gas.S:47-84 | as on x86_64, and the target's result structure holds the jumper's frame and data |
| `ArmContext.JumpLands` | cpp_go/src/context/asm/jump_arm_aapcs_elf_gas.S:47-84 | such a jump exists whenever the result structure is apart from both frames |
| `ArmContext.Machine.MakeFcontext` | cpp_go/src/context/asm/make_arm_aapcs_elf_gas.S:47-71 | the initial frame, with the result pointer just above it |
| `ArmRuns.RunKeeps` | cpp_go/src/context/asm/jump_arm_aapcs_elf_gas.S:47-84 | in every run the frame of every parked context is intact, although results are written through saved pointers |
| `ArmRuns.ResumesAsLeft` | cpp_go/src/context/asm/jump_arm_aapcs_elf_gas.S:47-84 | a resumed context finds v1 to v8, d8 to d15, sp as at its own last jump, goes on at its return address, and finds the jumper's frame and data in its structure |
| `ArmRuns.StartsAsMade` | cpp_go/src/context/asm/make_arm_aapcs_elf_gas.S:47-71 | first entry is in the function with finish in lr, sp aligned to 16, the jumper's frame and data in a1 and a2 |
| `WaitSet.RestCovers` | cpp_go/src/netio/inner_net/epoll_io_wait.cpp:79-105 | the mask computed while erasing covers what the sleepers ask for, and equals it if and only if nothing else of a woken request was left unreported |
| `EpollRuns.ReadyKeeps` | cpp_go/src/netio/inner_net/epoll_io_wait.cpp:63-132 | a delivery keeps lists, masks and counter consistent |
| `EpollRuns.ExpireKeeps` | cpp_go/src/netio/inner_net/epoll_io_wait.cpp:228-277 | a timeout does too, and leaves its descriptor's mask exact |
| `EpollRuns.ParkKeeps` | cpp_go/src/netio/inner_net/epoll_io_wait.cpp:137-203 | so does a Poll that parks |
| `EpollRuns.RunKeeps` | cpp_go/src/netio/inner_net/epoll_io_wait.cpp:55-353 | in every run: kernel masks cover the parked requests, the counter is the number of registered descriptors, and every live timer's NetFD is parked |
| `EpollRuns.AssertsHold` | cpp_go/src/netio/inner_net/epoll_io_wait.cpp:230-231 | the timeout finds its NetFD, and no EPOLL_CTL_DEL or MOD can fail |
| `EpollRuns.ModifyAssertFails` | cpp_go/src/netio/inner_net/epoll_io_wait.cpp:166-203 | PollsetAdd succeeds on a registered descriptor, by PollsetModify, if and only if the request is acceptable, the NetFD is shared and another one is parked there; the assert of PollsetModify then fails |
| `EpollRuns.ReadyExactIff` | cpp_go/src/netio/inner_net/epoll_io_wait.cpp:104-131 | when one delivery leaves the mask exact |
| `EpollRuns.RunExactIff` | cpp_go/src/netio/inner_net/epoll_io_wait.cpp:76-131 | the kernel's interest set is exact throughout a run if and only if every delivery in it is clean |
| `EpollRuns.DisciplinedExact` | cpp_go/src/netio/inner_net/epoll_io_wait.cpp:76-203 | with one-bit requests and full reports on errors: mask equals the union of requests, registered exactly while someone waits |
| `EpollRuns.LeftoverRefuses` | cpp_go/src/netio/inner_net/epoll_io_wait.cpp:144-148 | right after an unclean delivery that wakes everybody, a Poll on the descriptor is refused |
| `EpollMasks.AbandonedIff` | cpp_go/src/netio/inner_net/epoll_io_wait.cpp:104-131 | in every run, a descriptor is registered without an entry if and only if the last delivery on it drained it |
| `EpollMasks.RefusedUntilReported` | cpp_go/src/netio/inner_net/epoll_io_wait.cpp:144-148 | from such a delivery to the next event on the descriptor, every Poll on it is refused |
| `EpollMasks.AcceptedOnceReported` | cpp_go/src/netio/inner_net/epoll_io_wait.cpp:104-119 | that event makes the descriptor exact again, and Polls on it are accepted |
| `EpollMasks.EntryAssertFailsIff` | cpp_go/src/netio/inner_net/epoll_io_wait.cpp:74-75 | the assert that an entry exists fails at an event if and only if the last delivery on the descriptor drained it |
| `EpollMasks.NeverAbandonedIff` | cpp_go/src/netio/inner_net/epoll_io_wait.cpp:74-131 | every registered descriptor has an entry throughout a run if and only if no delivery drains one |
| `EpollMasks.EntryAssertFails` | cpp_go/src/netio/inner_net/epoll_io_wait.cpp:74-75 | a concrete state and event at which it fails |
| `EpollMasks.FoundThoughInexact` | cpp_go/src/netio/inner_net/epoll_io_wait.cpp:74-131 | a concrete run in which a mask is not exact and yet the next event finds an entry |
| `EpollMasks.EdgeTriggeredIff` | cpp_go/src/netio/inner_net/epoll_io_wait.cpp:137-198 | a registered descriptor is watched edge-triggered if and only if the last step that changed its mask was a Poll that parked |
| `EpollMasks.EdgeBitLost` | cpp_go/src/netio/inner_net/epoll_io_wait.cpp:122-126 | a concrete run after which a waiting Poll is no longer watched edge-triggered |
| `EpollRuns.TwoBitsLeak` | cpp_go/src/netio/inner_net/epoll_io_wait.cpp:104-131 | a concrete run with a two-bit request |
| `EpollRuns.HangUpLeaks` | cpp_go/src/netio/inner_net/epoll_io_wait.cpp:86-131 | a concrete run with a hang-up |
| `EpollWakes.WokenOnce` | cpp_go/src/netio/inner_net/epoll_io_wait.cpp:290-341 | a Poll that parks is woken exactly once, by an event or its timer, never both; events that bring nothing it asked for and none of POLLERR, POLLHUP, POLLRDHUP, POLLNVAL pass it over; its result is what it asked for of the event and those four bits; ETIME if and only if the timer woke it, EBADF if and only if POLLNVAL came, success if and only if an event with none of the four did |
| `EpollWakes.DeliveryWakes` | cpp_go/src/netio/inner_net/epoll_io_wait.cpp:31-101 | in every run, an event wakes exactly those NetFDs parked on its descriptor that asked for one of its bits, and all of them if it has POLLERR, POLLHUP, POLLRDHUP or POLLNVAL, each with exactly those bits |
| `EpollRuns.RoomSuffices` | cpp_go/src/netio/inner_net/epoll_io_wait.cpp:152-156 | the list that epoll_wait fills has room for every registered descriptor, up to half of the limit |
| `EpollRuns.RoomStep` | cpp_go/src/netio/inner_net/epoll_io_wait.cpp:152-156 | it grows only when there are more descriptors than it holds, and then to twice their number |
| `Epoll.EpollIoWait.constructor` | cpp_go/src/netio/inner_net/epoll_io_wait.cpp:34-54 | the invariant holds at the start, with nothing registered but the interrupter |
| `NetFds.NetFD.Assign` | cpp_go/src/netio/inner_net/net_fd.cpp:31-63 | the pollfd is copied whole and a share is joined; a NetFD that is not shared and in use by another task is refused, and the target made invalid |
| `Epoll.EpollIoWait.NewNetFD` | cpp_go/src/netio/inner_net/net_fd.cpp:13-22 | a new NetFD comes into use |
| `Epoll.EpollIoWait.Assign` | cpp_go/src/netio/inner_net/net_fd.cpp:31-63 | assigning to an unused NetFD, whatever is copied, or refusing to, keeps the invariant |
| `Epoll.EpollIoWait.PollsetAdd` | cpp_go/src/netio/inner_net/epoll_io_wait.cpp:159-203 | the method is the model's Add, and when the assert on its way fails |
| `Epoll.EpollIoWait.PollBegin` | cpp_go/src/netio/inner_net/epoll_io_wait.cpp:290-308 | Poll up to the switch keeps the invariant, and parks exactly when the descriptor is valid, the request is some of POLLIN, POLLOUT and POLLPRI, and the NetFD is shared with another one parked there or the kernel accepts the descriptor |
| `Epoll.EpollIoWait.PollsetTimeoutDel` | cpp_go/src/netio/inner_net/epoll_io_wait.cpp:228-277 | erasing while collecting the others' requests |
| `Epoll.EpollIoWait.TimerFires` | cpp_go/src/netio/inner_net/inner_io_wait.cpp:131-142 | the timer's callback is the model's Timeout |
| `Epoll.EpollIoWait.WakeEntries` | cpp_go/src/netio/inner_net/epoll_io_wait.cpp:74-101 | the erase-while-iterating loop wakes exactly those who asked for a reported bit, or everybody at an exception, with those bits, and collects every request |
| `Epoll.EpollIoWait.DeliverOne` | cpp_go/src/netio/inner_net/epoll_io_wait.cpp:73-131 | one event is the model's Deliver, whom it wakes with which bits, and whether an entry was found for it |
| `Epoll.EpollIoWait.WaitLoop` | cpp_go/src/netio/inner_net/epoll_io_wait.cpp:55-136 | a list of events is their deliveries one after the other, the interrupter skipped; its length is returned, and the asserts for entries held if and only if every descriptor had one at the start |
| `Epoll.EpollIoWait.PollEnd` | cpp_go/src/netio/inner_net/epoll_io_wait.cpp:313-341 | Poll after the switch: timeout, POLLNVAL and the other exceptions decide the result; the fields are cleared |
| `SelectRuns.RunSound` | cpp_go/src/netio/inner_net/select_io_wait.cpp:53-266 | in every run without timeouts, whatever is copied: each NetFD is parked once and not queued, or woken and queued exactly once, or unused; parked descriptors are below maxfd |
| `SelectRuns.ScannedSets` | cpp_go/src/netio/inner_net/select_io_wait.cpp:157-196 | a set loses a descriptor exactly if somebody was woken for it |
| `SelectRuns.ScanWatchedIff` | cpp_go/src/netio/inner_net/select_io_wait.cpp:57-93 | a scan leaves everything watched that sleepers ask for if and only if nobody is woken with a stale result that one of them asks for |
| `SelectRuns.ScanExactIff` | cpp_go/src/netio/inner_net/select_io_wait.cpp:57-93 | it leaves the sets exact if and only if, besides, what woken NetFDs asked for was reported or is still asked for |
| `SelectRuns.RunKeeps` | cpp_go/src/netio/inner_net/select_io_wait.cpp:53-196 | in every run in which the Polls that park ask for one event and find nothing stale, a descriptor is in a set if and only if a parked NetFD asks for it, or it is the interrupter's |
| `SelectCopies.RequestsKeptIff` | cpp_go/src/netio/inner_net/select_io_wait.cpp:137-150 | over every run: parked NetFDs ask for exactly what their latest Poll asked for, with no result yet, if and only if every Poll that parks finds nothing else in its NetFD |
| `SelectCopies.WatchedIff` | cpp_go/src/netio/inner_net/select_io_wait.cpp:72-93 | over every run: whatever parked NetFDs ask for is in the sets, throughout, if and only if every scan is considerate |
| `SelectCopies.SetsExactIff` | cpp_go/src/netio/inner_net/select_io_wait.cpp:53-196 | over every run: the sets are exact throughout if and only if every scan is considerate and thorough |
| `SelectCopies.FoundNothingWatched` | cpp_go/src/netio/inner_net/select_io_wait.cpp:137-196 | if Polls find nothing stale, whatever is asked for stays watched, requests of several bits included |
| `SelectCopies.UncopiedKeeps` | cpp_go/src/netio/inner_net/select_io_wait.cpp:53-266 | if no request or result is ever copied and requests have one bit, Polls find nothing stale and the sets are exact throughout |
| `SelectCopies.WakeableIff` | cpp_go/src/netio/inner_net/select_io_wait.cpp:51-74 | a parked NetFD is woken whenever something it asks for is ready if and only if the sets have all that it asks for |
| `SelectCopies.CopyOfParkedAsksForBoth` | cpp_go/src/netio/inner_net/net_fd.cpp:51-62 | a concrete run in which a copy asks for, and is woken by, what only its original asked for |
| `SelectCopies.LostWakeUp` | cpp_go/src/netio/inner_net/select_io_wait.cpp:87 | a concrete run in which a copied result clears the write set, and a NetFD sleeps on although it is ready |
| `Select.SelectIoWait.constructor` | cpp_go/src/netio/inner_net/select_io_wait.cpp:7-25 | the invariant holds at the start |
| `Select.SelectIoWait.NewNetFD` | cpp_go/src/netio/inner_net/net_fd.cpp:13-22 | a new NetFD comes into use |
| `Select.SelectIoWait.Assign` | cpp_go/src/netio/inner_net/net_fd.cpp:31-63 | assigning to an unused NetFD, whatever is copied, or refusing to, keeps the invariant, and exact sets exact |
| `Select.SelectIoWait.PollsetAdd` | cpp_go/src/netio/inner_net/select_io_wait.cpp:111-156 | the method is the model's Add |
| `Select.SelectIoWait.PollsetDel` | cpp_go/src/netio/inner_net/select_io_wait.cpp:157-196 | which sets are cleared, and which part of the request remains |
| `Select.SelectIoWait.PollBegin` | cpp_go/src/netio/inner_net/select_io_wait.cpp:228-245 | Poll up to the switch keeps the invariant, parks exactly on descriptors from 0 to 1023 with some of POLLIN, POLLOUT and POLLPRI, and keeps exact sets exact if it asks for one event and finds nothing stale |
| `Select.SelectIoWait.WaitLoop` | cpp_go/src/netio/inner_net/select_io_wait.cpp:26-110 | a round without a report does nothing; otherwise the scan with erasing is the model's Scan; it keeps the invariant, and exact sets exact |
| `Select.SelectIoWait.PollEnd` | cpp_go/src/netio/inner_net/select_io_wait.cpp:247-266 | Poll after the switch: a timeout is reported and leaves owner_task set; otherwise the fields are cleared |
| `BackEnds.EpollWakes` | cpp_go/src/netio/inner_net/epoll_io_wait.cpp:63-132 | a full list of events wakes whoever has something ready, with exactly that, and keeps the others in order |
| `BackEnds.FullBatchExists` | cpp_go/src/netio/inner_net/epoll_io_wait.cpp:57-63 | for every state and readiness without errors there is such a list, so nothing said about them is empty |
| `BackEnds.WakesAgree` | cpp_go/src/netio/inner_net/select_io_wait.cpp:53-93 | from agreeing states, the same readiness leads both back ends to agreeing states |
| `BackEnds.SameWakeUps` | cpp_go/src/netio/inner_net/select_io_wait.cpp:53-196 | over whole runs both back ends wake the same NetFDs with the same events at every step, and keep the same ones parked |

## Left out

- Ring queue: several producers or consumers, the `notify` flag, the destructor and weak memory ordering; the model is one producer, one consumer, sequentially consistent.
- `QueueLock`: the pointer surgery of an operation other than its write of the tail is one step, and `emptyUnsafe` is not modelled; the surgery itself is `TsQueue`.
- `TsQueue`: `erase` with its check argument, whose field is not maintained by batch moves, the `TSQueue_DEBUG` code, and destruction of the queue.
- `Scheduling`: the queues of a processor and the list handles hold sequences here, since `TsQueue` covers their links; no other thread changes a queue between the counting and the moving of `AvgTotalTasks`; the processors' own loop is left out.
- `RoundRobin`: starting and stopping of processors, so the set of active ones is fixed.
- `TaskCache`: the contents of function objects, the garbage queue build option, and rounding of stack sizes to pages.
- `ScatterGather`: `inner_send`, whose Unix branch does not advance its buffer; totals of more than 2^64 bytes; and runs in which the kernel answers for ever without progress.
- `X86Runs`, `ArmRuns`: one processor at a time; the running context is assumed to leave the saved frames of parked contexts alone; signals and the red zone are not modelled; on ARM the Thumb bit of branch targets is ignored and results of `jump_fcontext` lie outside other stacks.
- `X86Context.Machine.MakeFcontext`: `finish` itself, which exits the process, is only an address.
- `EpollRuns`: closing of descriptors that are being waited on, several NetFDs of one descriptor on different threads, and timers that fire on another thread than the wait set's; a task is identified with the NetFD it waits on.
- `Epoll.EpollIoWait.WaitLoop`: the time waited, and errors of `epoll_wait`; an assert that fails does not end the program but is reported in the result.
- `std::multimap::find` is taken to return the first of equal keys.
- Edge- versus level-triggered delivery: any registered descriptor may be reported at any time.
- `SelectRuns`: timeouts, after which `owner_task` stays set so that the NetFD cannot be used again, and the Windows branches.
- `Epoll.EpollIoWait.Assign`, `Select.SelectIoWait.Assign`: the target is in no Poll; `NetFds.NetFD.Assign` allows any, but an entry of the map whose NetFD was given another descriptor or lost its task is not followed further.
- `BackEnds.SameWakeUps`: runs in which the back ends differ by design: descriptors beyond the size of an fd_set, a second NetFD on a descriptor that is not shared, errors and hang-ups, and Polls on NetFDs in which select finds stale requests or results, as copies of NetFDs in use have them.
- Sockets, errno mapping, the interrupter's sockets, `/proc` parsing, clocks, debug listeners, channels, mutexes and condition variables.
- The other assembly variants, makefiles and build options.
