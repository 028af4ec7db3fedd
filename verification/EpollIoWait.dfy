/** EpollIoWait and InnerIoWait, method by method, against the functions of WaitSet.  The
    asserts of the original that always hold are asserts here; the two that can fail, in WaitLoop
    and PollsetModify, do not stop the program, as in a build without asserts, and are reported in
    the results. */
module Epoll {
  import opened Basics
  import opened WaitSet
  import opened EpollRuns
  import opened NetFds

  lemma UnionNext<N>(recs: map<N, Rec>, q: seq<N>, i: nat)
    requires i <= |q| && forall n :: n in q ==> n in recs
    ensures i < |q| ==> Union(recs, q[..i + 1]) == Union(recs, q[..i]) + recs[q[i]].events
    ensures i == 0 ==> Union(recs, q[..i]) == {}
    ensures i == |q| ==> q[..i] == q
  {
    if i < |q| {
      assert q[..i + 1][..i] == q[..i];
    }
  }

  // The functions of WaitSet, component by component.

  lemma AddHelpIs<N>(s: State<N>, n: N, events: Mask, kernelOk: bool, limit: int)
    requires n in s.recs
    ensures var fd, recs := s.recs[n].fd, s.recs[n := s.recs[n].(events := Short(events))];
      AddHelp(s, n, events, kernelOk, limit) ==
        if fd in s.kernel || !kernelOk then (false, State(recs, s.fdMap, s.kernel, s.cnt, s.room))
        else (true, State(recs, s.fdMap, s.kernel[fd := events], s.cnt + 1, Grown(s.cnt + 1, s.room, limit)))
  {
  }

  lemma ModifyHelpIs<N>(s: State<N>, n: N, events: Mask)
    requires n in s.recs && forall m :: m in Entries(s, s.recs[n].fd) ==> m in s.recs
    ensures var fd, recs := s.recs[n].fd, s.recs[n := s.recs[n].(events := Short(events))];
      var oldEvents := Union(recs, Entries(s, fd));
      ModifyHelp(s, n, events) == State(recs, s.fdMap,
        if oldEvents != events then s.kernel[fd := oldEvents + events] else s.kernel, s.cnt, s.room)
  {
  }

  function Fired<N(==)>(s: State<N>, n: N): State<N>
    requires n in s.recs
  {
    s.(recs := s.recs[n := s.recs[n].(armed := false, queued := s.recs[n].queued + 1)])
  }

  lemma TimeoutIs<N>(s: State<N>, n: N)
    requires n in s.recs && forall m :: m in Entries(s, s.recs[n].fd) ==> m in s.recs
    ensures TimeoutDel(s, n).recs == s.recs
    ensures Timeout(s, n) == Fired(TimeoutDel(s, n), n)
  {
    hide Union;
  }

  datatype Operation = ControlAdd | ControlModify | ControlDelete

  class EpollIoWait {
    var fdMap: map<int, seq<NetFD>>
    var kernel: map<int, Mask>
    var evtlistCnt: int
    var eventList: nat
    const limit: int
    const notify: int

    /** The NetFDs that are used with this wait set. */
    ghost var all: set<NetFD>

    ghost function Recs(): (r: map<NetFD, Rec>)
      reads this`all, all
      ensures r.Keys == all && forall n :: n in all ==> r[n] == n.Record()
    {
      map n | n in all :: n.Record()
    }

    ghost function View(): State<NetFD>
      reads this, all
    {
      State(Recs(), fdMap, kernel, evtlistCnt, eventList)
    }

    /** Only n has changed. */
    twostate lemma Touched(n: NetFD)
      requires all == old(all) && n in all && forall m :: m in all && m != n ==> unchanged(m)
      ensures Recs() == old(Recs())[n := n.Record()]
    {
    }

    ghost predicate Valid()
      reads this, all
    {
      Inv(View()) && notify !in kernel
    }

    /** InitModule: the kernel watches nothing but the interrupter. */
    constructor (notify: int, size: nat, limit: int)
      ensures this.notify == notify && this.limit == limit && all == {} && Valid()
      ensures View() == State(map[], map[], map[], 0, size)
    {
      this.notify, this.limit, all := notify, limit, {};
      fdMap, kernel, evtlistCnt, eventList := map[], map[], 0, size;
    }

    /** A new NetFD is used with this wait set. */
    method NewNetFD(fd: int, share: bool) returns (n: NetFD)
      requires Valid()
      modifies this`all
      ensures fresh(n) && all == old(all) + {n} && Valid()
      ensures View() == WaitSet.Assign(old(View()), n, Plain(fd), share)
    {
      hide Recs, Inv, Exact, Lists;
      n := MakeNetFD(fd, share);
      AssignKeeps(View(), n, Plain(fd), share);
      Adopt(n);
    }

    method MakeNetFD(fd: int, share: bool) returns (n: NetFD)
      ensures fresh(n) && n.Record() == Rec(fd, share, {}, {}, false, false, false, false, 0)
    {
      n := new NetFD(share);
      n.fd := fd;
    }

    method Adopt(n: NetFD)
      requires n !in all
      modifies this`all
      ensures all == old(all) + {n} && Recs() == old(Recs())[n := n.Record()]
    {
      all := all + {n};
    }

    /** A NetFD that no Poll uses is assigned another one, which may be in use if it is shared.
        The task that runs is in no Poll, so none that is in use is its own. */
    method Assign(n: NetFD, rfd: NetFD) returns (ok: bool)
      requires Valid() && n in all && !n.owner
      modifies n`fd, n`events, n`revents, n`shared, n`owner
      ensures Valid() && ok == old(rfd.shared || !rfd.owner)
      ensures ok ==> View() == WaitSet.Assign(old(View()), n, old(PollFd(rfd.fd, rfd.events, rfd.revents)), old(n.shared || rfd.shared))
      ensures !ok ==> View() == WaitSet.Assign(old(View()), n, old(PollFd(-1, n.events, n.revents)), old(n.shared))
    {
      hide Recs, Inv;
      AssignKeeps(View(), n, PollFd(rfd.fd, rfd.events, rfd.revents), n.shared || rfd.shared);
      AssignKeeps(View(), n, PollFd(-1, n.events, n.revents), n.shared);
      ok := n.Assign(rfd, false);
      Touched(n);
    }

    /** The kernel's part.  An ADD may also be refused for reasons of its own. */
    method EpollCtl(op: Operation, fd: int, mask: Mask, kernelOk: bool := true) returns (rc: int)
      modifies this`kernel
      ensures rc == 0 || (rc == -1 && kernel == old(kernel))
      ensures op.ControlAdd? ==> (rc == 0 <==> fd !in old(kernel) && kernelOk)
      ensures !op.ControlAdd? ==> (rc == 0 <==> fd in old(kernel))
      ensures rc == 0 ==> kernel == if op.ControlDelete? then old(kernel) - {fd} else old(kernel)[fd := mask]
    {
      if op.ControlAdd? {
        if fd in kernel || !kernelOk {
          return -1;
        }
        kernel := kernel[fd := mask];
      } else {
        if fd !in kernel {
          return -1;
        }
        kernel := if op.ControlDelete? then kernel - {fd} else kernel[fd := mask];
      }
      return 0;
    }

    /** `positive` is whether its assert on the argument, an int, holds. */
    method PollsetModify(fd: int, events: Mask) returns (positive: bool)
      requires fd in kernel
      modifies this`kernel
      ensures kernel == old(kernel)[fd := events] && positive == PositiveInt(events)
    {
      positive := PositiveInt(events);
      var rc := EpollCtl(ControlModify, fd, events);
      assert rc == 0;
    }

    method SetEvents(n: NetFD, events: Mask)
      requires n in all
      modifies n`events
      ensures Recs() == old(Recs()[n := Recs()[n].(events := Short(events))])
    {
      hide Recs, Short;
      n.events := Short(events);
      Touched(n);
    }

    method PollsetAddHelp(n: NetFD, events: Mask, kernelOk: bool) returns (rc: int)
      requires n in all
      modifies this`kernel, this`evtlistCnt, this`eventList, n`events
      ensures rc == 0 || rc == -1
      ensures (rc == 0) == AddHelp(old(View()), n, events, kernelOk, limit).0
      ensures View() == AddHelp(old(View()), n, events, kernelOk, limit).1
    {
      hide Recs, Grown, Short, AddHelp;
      AddHelpIs(View(), n, events, kernelOk, limit);
      SetEvents(n, events);
      rc := Register(n.fd, events, kernelOk);
    }

    method Register(fd: int, events: Mask, kernelOk: bool) returns (rc: int)
      modifies this`kernel, this`evtlistCnt, this`eventList
      ensures rc == if fd in old(kernel) || !kernelOk then -1 else 0
      ensures rc != 0 ==> kernel == old(kernel) && evtlistCnt == old(evtlistCnt) && eventList == old(eventList)
      ensures rc == 0 ==> kernel == old(kernel)[fd := events] && evtlistCnt == old(evtlistCnt) + 1
      ensures rc == 0 ==> eventList == Grown(old(evtlistCnt) + 1, old(eventList), limit)
    {
      rc := EpollCtl(ControlAdd, fd, events, kernelOk);
      if rc < 0 {
        return -1;
      }
      evtlistCnt := evtlistCnt + 1;
      if evtlistCnt > eventList && evtlistCnt * 2 <= limit {
        eventList := evtlistCnt * 2;
      }
    }

    /** `asserts` is whether the asserts on the way hold. */
    method PollsetAdd(n: NetFD, request: Mask, kernelOk: bool) returns (rc: int, asserts: bool)
      requires Valid() && n in all && !n.owner
      modifies this`kernel, this`evtlistCnt, this`eventList, n`events
      ensures asserts <==> !old(Joins(View(), n, request))
      ensures rc == 0 || rc == -1
      ensures (rc == 0) == Add(old(View()), n, request, kernelOk, limit).0
      ensures View() == Add(old(View()), n, request, kernelOk, limit).1
    {
      hide Recs, AddHelp, ModifyHelp, Inv;
      if n.fd < 0 || request == {} || !(request <= REQUESTABLE) {
        return -1, true;
      }
      var events := request + {EdgeTriggered};
      if !n.shared {
        rc := PollsetAddHelp(n, events, kernelOk);
        return rc, true;
      }
      var q := if n.fd in fdMap then fdMap[n.fd] else [];
      if q == [] {
        rc := PollsetAddHelp(n, events, kernelOk);
        return rc, true;
      }
      InvLists(View());
      AssertsHold(View(), Call(n, request, false, kernelOk));
      ModifyAssertFails(View(), n, request, kernelOk, limit);
      OwnRequestApart(View(), n, n.Record().(events := Short(events)));
      asserts := AddShared(n, events, q);
      return 0, asserts;
    }

    /** The descriptor is watched already: its mask is extended. */
    method AddShared(n: NetFD, events: Mask, q: seq<NetFD>) returns (asserts: bool)
      requires n in all && n.fd in kernel && q == Entries(View(), n.fd) && forall m :: m in q ==> m in all
      modifies this`kernel, n`events
      ensures View() == ModifyHelp(old(View()), n, events)
      ensures var q' := old(Union(Recs()[n := n.Record().(events := Short(events))], q));
        asserts <==> q' == events || PositiveInt(q' + events)
    {
      hide Recs, Union, Short, ModifyHelp;
      ModifyHelpIs(View(), n, events);
      SetEvents(n, events);
      var oldEvents := CollectEvents(q);
      asserts := true;
      if oldEvents != events {
        oldEvents := oldEvents + events;
        asserts := PollsetModify(n.fd, oldEvents);
      }
    }

    method CollectEvents(q: seq<NetFD>) returns (events: Mask)
      requires forall m :: m in q ==> m in all
      ensures events == Union(Recs(), q)
    {
      hide Recs, Union;
      ghost var recs := Recs();
      events := {};
      UnionNext(recs, q, 0);
      for i := 0 to |q|
        invariant events == Union(recs, q[..i])
      {
        UnionNext(recs, q, i);
        events := events + q[i].events;
      }
      UnionNext(recs, q, |q|);
    }

    /** Poll up to the task switch. */
    method PollBegin(n: NetFD, request: Mask, timed: bool, kernelOk: bool) returns (rc: int, asserts: bool)
      requires Valid() && n in all && !n.owner && n.fd != notify
      modifies this`kernel, this`evtlistCnt, this`eventList, this`fdMap, n
      ensures rc == 0 || rc == -1
      ensures View() == Enter(old(View()), n, request, timed, kernelOk, limit)
      ensures Valid()
      ensures rc == 0 <==> old(Parks(View(), n, request, kernelOk))
      ensures rc == 0 <==> (old(n.fd) >= 0 && {} != request <= {In, Out, Pri} &&
        ((old(n.shared) && Entries(old(View()), old(n.fd)) != []) || (old(n.fd) !in old(kernel) && kernelOk)))
      ensures asserts <==> !old(Joins(View(), n, request))
    {
      hide Recs, Add, Inv, Parks, Park, Enter, Joins;
      ParksAsked(View(), n, request, kernelOk);
      InvLists(View());
      CallKeeps(View(), n, request, timed, kernelOk, limit);
      EnterIs(View(), n, request, timed, kernelOk, limit);
      rc, asserts := PollsetAdd(n, request, kernelOk);
      if rc < 0 {
        return;
      }
      Enlist(n, timed);
    }

    /** The NetFD joins the list of its descriptor; a timer is made if Poll has a timeout. */
    method Enlist(n: NetFD, timed: bool)
      requires n in all
      modifies this`fdMap, n`owner, n`timed, n`timer, n`armed
      ensures View() == Park(old(View()), n, timed)
    {
      hide Recs;
      n.owner := true;
      n.timed := timed;
      fdMap := fdMap[n.fd := (if n.fd in fdMap then fdMap[n.fd] else []) + [n]];
      if timed {
        n.timer := true;
        n.armed := true;
      }
      Touched(n);
    }

    /** What both WaitLoop and PollsetTimeoutDel do in the end: watch a descriptor for the rest
        of its events, or no longer. */
    method Watch(fd: int, rest: Mask)
      requires fd in kernel
      modifies this`kernel, this`evtlistCnt
      ensures View() == Rewatch(old(View()), fd, rest)
    {
      hide Recs;
      if rest == {} {
        var rc := EpollCtl(ControlDelete, fd, rest);
        assert rc == 0;
        evtlistCnt := evtlistCnt - 1;
      } else {
        var rc := EpollCtl(ControlModify, fd, rest);
        assert rc == 0;
      }
    }

    /** Removes n from the list of its descriptor, and collects what the others ask for. */
    method RemoveEntry(n: NetFD) returns (modEvents: Mask)
      requires n in all && n.fd in fdMap && forall m :: m in fdMap[n.fd] ==> m in all
      modifies this`fdMap
      ensures fdMap == old(fdMap[n.fd := Others(fdMap[n.fd], n)])
      ensures modEvents == OthersWant(old(Recs()), old(fdMap[n.fd]), n)
    {
      hide Recs, Others, OthersWant, Sifted;
      var fd := n.fd;
      ghost var q, recs := fdMap[fd], Recs();
      ghost var i: nat := 0;
      var j: nat := 0;
      modEvents := {};
      SiftStart(recs, q, n);
      while j < |fdMap[fd]|
        invariant fd in fdMap && fdMap == old(fdMap)[fd := fdMap[fd]]
        invariant Sifted(recs, q, n, i, fdMap[fd], j, modEvents)
        decreases |q| - i
        modifies this`fdMap
      {
        SiftStep(recs, q, n, i, fdMap[fd], j, modEvents);
        var found := fdMap[fd][j];
        i := i + 1;
        if found == n {
          fdMap := fdMap[fd := fdMap[fd][..j] + fdMap[fd][j + 1..]];
          continue;
        } else {
          j := j + 1;
        }
        modEvents := modEvents + found.events;
      }
      SiftEnd(recs, q, n, i, fdMap[fd], j, modEvents);
    }

    /** The callback of a Poll's timer. */
    method TimerFires(n: NetFD)
      requires Valid() && n in all && n.armed
      modifies this`fdMap, this`kernel, this`evtlistCnt, n`armed, n`queued
      ensures View() == Timeout(old(View()), n) && Valid()
    {
      hide Recs, Inv, Timeout, TimeoutDel;
      InvLists(View());
      TimeoutIs(View(), n);
      ExpireKeeps(View(), n);
      Expired(View(), n);
      PollsetTimeoutDel(n);
      Fire(n);
    }

    method Fire(n: NetFD)
      requires n in all
      modifies n`armed, n`queued
      ensures View() == Fired(old(View()), n)
    {
      hide Recs;
      n.armed := false;
      n.MakeRunnable();
      Touched(n);
    }

    method PollsetTimeoutDel(n: NetFD)
      requires n in all && n.fd in kernel && n.fd in fdMap && n in fdMap[n.fd]
      requires forall m :: m in fdMap[n.fd] ==> m in all
      modifies this`fdMap, this`kernel, this`evtlistCnt
      ensures View() == TimeoutDel(old(View()), n)
    {
      hide Recs, Others, OthersWant, Rewatch;
      var modEvents := RemoveEntry(n);
      Watch(n.fd, modEvents);
    }

    /** The entries of one descriptor when epoll_wait reports `come`: those concerned are taken
        off the list, made runnable, and their timers stopped. */
    method WakeEntries(fd: int, come: Mask) returns (modEvents: Mask)
      requires fd in fdMap && Distinct(fdMap[fd]) && forall m :: m in fdMap[fd] ==> m in all
      requires forall m :: m in all ==> m.armed ==> m.timer
      modifies this`fdMap, all
      ensures fdMap == old(fdMap[fd := Asleep(Recs(), fdMap[fd], come)])
      ensures Recs() == WakeAll(old(Recs()), old(fdMap[fd]), come)
      ensures modEvents == Union(old(Recs()), old(fdMap[fd]))
      ensures Notified(old(Recs()), old(fdMap[fd]), come, Recs(), fdMap[fd])
    {
      hide Recs, Asleep, WakeAll, Union, Notified;
      ghost var recs, q := Recs(), fdMap[fd];
      modEvents := SweepEntries(fd, come);
      AllNotified(recs, q, come);
    }

    method SweepEntries(fd: int, come: Mask) returns (modEvents: Mask)
      requires fd in fdMap && Distinct(fdMap[fd]) && forall m :: m in fdMap[fd] ==> m in all
      requires forall m :: m in all ==> m.armed ==> m.timer
      modifies this`fdMap, all
      ensures fdMap == old(fdMap[fd := Asleep(Recs(), fdMap[fd], come)])
      ensures Recs() == WakeAll(old(Recs()), old(fdMap[fd]), come)
      ensures modEvents == Union(old(Recs()), old(fdMap[fd]))
    {
      hide Recs, Asleep, WakeAll, Woken, Union, Distinct;
      ghost var q, recs := fdMap[fd], Recs();
      ghost var i: nat := 0;
      var j: nat := 0;
      modEvents := {};
      WakeStart(recs, q, come);
      while j < |fdMap[fd]|
        invariant fd in fdMap && fdMap == old(fdMap)[fd := fdMap[fd]]
        invariant Woken(recs, q, come, i, fdMap[fd], j, modEvents, Recs())
        decreases |q| - i
        modifies this`fdMap, all
      {
        j, modEvents := SweepOne(fd, come, j, modEvents, recs, q, i);
        i := i + 1;
      }
      WakeEnd(recs, q, come, i, fdMap[fd], j, modEvents, Recs());
    }

    /** The next entry: it is taken off the list if it is woken. */
    method SweepOne(fd: int, come: Mask, j: nat, modEvents: Mask, ghost recs: map<NetFD, Rec>, ghost q: seq<NetFD>, ghost i: nat)
      returns (next: nat, modEvents': Mask)
      requires fd in fdMap && j < |fdMap[fd]| && Distinct(q) && (forall m :: m in q ==> m in recs) && recs.Keys == all
      requires forall m :: m in recs ==> recs[m].armed ==> recs[m].timer
      requires Woken(recs, q, come, i, fdMap[fd], j, modEvents, Recs())
      modifies this`fdMap, all
      ensures fd in fdMap && fdMap == old(fdMap)[fd := fdMap[fd]]
      ensures i < |q| && Woken(recs, q, come, i + 1, fdMap[fd], next, modEvents', Recs())
    {
      hide Recs, Asleep, WakeAll, WakeOne, Woken, Union, Wakes, Distinct;
      WakeStep(recs, q, come, i, fdMap[fd], j, modEvents, Recs());
      var netFd := fdMap[fd][j];
      modEvents' := modEvents + netFd.events;
      next := VisitEntry(netFd, fd, come, j);
    }

    method VisitEntry(netFd: NetFD, fd: int, come: Mask, j: nat) returns (next: nat)
      requires fd in fdMap && j < |fdMap[fd]| && fdMap[fd][j] == netFd
      requires netFd in all && (netFd.armed ==> netFd.timer)
      modifies this`fdMap, netFd`revents, netFd`queued, netFd`timer, netFd`armed
      ensures old(Wakes(netFd.events, come)) ==>
        && next == j && fdMap == old(fdMap[fd := fdMap[fd][..j] + fdMap[fd][j + 1..]])
        && Recs() == WakeOne(old(Recs()), netFd, come)
      ensures !old(Wakes(netFd.events, come)) ==>
        next == j + 1 && fdMap == old(fdMap) && Recs() == old(Recs())
    {
      hide Recs, WakeOne;
      if netFd.events * come != {} || come * EXCEPTION != {} {
        WakeEntry(netFd, come);
        fdMap := fdMap[fd := fdMap[fd][..j] + fdMap[fd][j + 1..]];
        return j;
      }
      return j + 1;
    }

    method WakeEntry(n: NetFD, come: Mask)
      requires n in all && (n.armed ==> n.timer) && Wakes(n.events, come)
      modifies n`revents, n`queued, n`timer, n`armed
      ensures Recs() == WakeOne(old(Recs()), n, come)
    {
      hide Recs, Wakes;
      n.revents := (n.events * come) + (come * EXCEPTION);
      n.MakeRunnable();
      n.StopTimer();
      Touched(n);
    }

    /** One event of the list that epoll_wait filled.  `found` is what the original asserts: that
        the descriptor has an entry. */
    method DeliverOne(fd: int, come: Mask) returns (found: bool)
      requires Valid() && fd != notify && Reportable(View(), fd, come)
      modifies this`fdMap, this`kernel, this`evtlistCnt, all
      ensures View() == Deliver(old(View()), fd, come) && Valid()
      ensures found <==> Entries(old(View()), fd) != []
      ensures Notified(old(Recs()), Entries(old(View()), fd), come, Recs(), Entries(View(), fd))
    {
      hide Recs, Inv, Deliver, Rewatch, Asleep, WakeAll, Union, Notified;
      NobodyNotified(Recs(), come);
      InvLists(View());
      DeliverIs(View(), fd, come);
      ReadyKeeps(View(), fd, come);
      NotifyApart(View(), fd, come, notify);
      TimersLive(View());
      var modEvents: Mask := {};
      found := fd in fdMap && fdMap[fd] != [];
      if fd in fdMap {
        assert Distinct(Entries(View(), fd));
        modEvents := WakeEntries(fd, come);
      }
      Watch(fd, modEvents - come);
    }

    /** The list may hold the interrupter, which concerns no NetFD.  `found`: the assert that an
        entry exists held for every event. */
    method WaitLoop(batch: seq<(int, Mask)>) returns (nfd: nat, found: bool)
      requires Valid() && |batch| <= eventList && BatchOk(View(), batch, notify)
      modifies this`fdMap, this`kernel, this`evtlistCnt, all
      ensures View() == DeliverAll(old(View()), batch, notify) && Valid()
      ensures nfd == |batch|
      ensures found <==> AllFound(old(View()), batch, notify)
    {
      hide Recs, Inv, Deliver, DeliverAll, AllFound, Entries;
      ghost var s := View();
      DeliverNext(s, batch, notify, 0);
      FoundNext(s, batch, notify, 0);
      nfd, found := |batch|, true;
      for i := 0 to |batch|
        invariant BatchOk(s, batch[..i], notify) && View() == DeliverAll(s, batch[..i], notify) && Valid()
        invariant found <==> AllFound(s, batch[..i], notify)
      {
        DeliverNext(s, batch, notify, i);
        FoundNext(s, batch, notify, i);
        if batch[i].0 == notify {
          continue;
        }
        var one := DeliverOne(batch[i].0, batch[i].1);
        found := found && one;
      }
      DeliverNext(s, batch, notify, |batch|);
    }

    /** Poll after the switch back: its task has been taken from the run queue. */
    method PollEnd(n: NetFD) returns (rc: int, ghost outcome: Outcome)
      requires Valid() && n in all && n.queued > 0
      modifies n`queued, n`owner, n`timer
      ensures View() == Leave(old(View()), n) && Valid()
      ensures outcome == OutcomeOf(old(n.Record()))
      ensures rc == if outcome == Done then 0 else -1
      ensures outcome == TimedOut <==> old(n.timed && n.timer)
      ensures outcome == Done <==> outcome != TimedOut && old(n.revents) * {Err, Hup, RdHup, Nval} == {}
      ensures outcome == BadFd <==> outcome != TimedOut && Nval in old(n.revents)
    {
      hide Recs, Inv;
      ReturnKeeps(View(), n);
      outcome := OutcomeOf(n.Record());
      OutcomeBits(n.Record());
      n.queued := n.queued - 1;
      n.owner := false;
      if n.timed && n.timer {
        n.timer := false;
        rc := -1;
      } else if Nval in n.revents {
        rc := -1;
      } else if n.revents * EXCEPTION != {} {
        rc := -1;
      } else {
        rc := 0;
      }
      Touched(n);
    }
  }

  /** The scan of RemoveEntry: i entries of the original list q are visited, of which j remain
      at the front of what is now the list. */
  ghost predicate Sifted<N>(recs: map<N, Rec>, q: seq<N>, n: N, i: nat, list: seq<N>, j: nat, modEvents: Mask)
    requires forall m :: m in q ==> m in recs
  {
    && i <= |q| && list == Others(q[..i], n) + q[i..] && j == |Others(q[..i], n)|
    && modEvents == OthersWant(recs, q[..i], n)
  }

  lemma SiftStart<N>(recs: map<N, Rec>, q: seq<N>, n: N)
    requires forall m :: m in q ==> m in recs
    ensures Sifted(recs, q, n, 0, q, 0, {})
  {
    assert q[..0] == [];
  }

  lemma SiftStep<N>(recs: map<N, Rec>, q: seq<N>, n: N, i: nat, list: seq<N>, j: nat, modEvents: Mask)
    requires forall m :: m in q ==> m in recs
    requires Sifted(recs, q, n, i, list, j, modEvents) && j < |list|
    ensures i < |q| && list[j] == q[i] && q[i] in q
    ensures q[i] == n ==> Sifted(recs, q, n, i + 1, list[..j] + list[j + 1..], j, modEvents)
    ensures q[i] != n ==> Sifted(recs, q, n, i + 1, list, j + 1, modEvents + recs[q[i]].events)
  {
    assert q[..i + 1][..i] == q[..i];
    var o := Others(q[..i], n);
    OthersAre(q[..i], n);
    UnionSnoc(recs, o, q[i]);
    assert Others(q[..i + 1], n) == if q[i] == n then o else o + [q[i]];
    assert list == (o + [q[i]]) + q[i + 1..];
    assert list[..j] + list[j + 1..] == o + q[i + 1..];
  }

  lemma SiftEnd<N>(recs: map<N, Rec>, q: seq<N>, n: N, i: nat, list: seq<N>, j: nat, modEvents: Mask)
    requires forall m :: m in q ==> m in recs
    requires Sifted(recs, q, n, i, list, j, modEvents) && j >= |list|
    ensures list == Others(q, n) && modEvents == OthersWant(recs, q, n)
  {
    assert q[..|q|] == q;
  }

  /** The scan of WakeEntries: i entries of the original list q are visited, of which j remain at
      the front of what is now the list; recs' are the records so far. */
  ghost predicate Woken<N>(recs: map<N, Rec>, q: seq<N>, come: Mask, i: nat, list: seq<N>, j: nat,
                           modEvents: Mask, recs': map<N, Rec>)
    requires forall m :: m in q ==> m in recs
  {
    && i <= |q| && list == Asleep(recs, q[..i], come) + q[i..] && j == |Asleep(recs, q[..i], come)|
    && modEvents == Union(recs, q[..i]) && recs' == WakeAll(recs, q[..i], come)
  }

  lemma WakeStart<N>(recs: map<N, Rec>, q: seq<N>, come: Mask)
    requires forall m :: m in q ==> m in recs
    ensures Woken(recs, q, come, 0, q, 0, {}, recs)
  {
    assert q[..0] == [];
  }

  lemma WakeStep<N>(recs: map<N, Rec>, q: seq<N>, come: Mask, i: nat, list: seq<N>, j: nat,
                    modEvents: Mask, recs': map<N, Rec>)
    requires Distinct(q) && forall m :: m in q ==> m in recs
    requires Woken(recs, q, come, i, list, j, modEvents, recs') && j < |list|
    ensures i < |q| && list[j] == q[i] && q[i] in recs' && recs'[q[i]] == recs[q[i]]
    ensures Wakes(recs[q[i]].events, come) ==>
      Woken(recs, q, come, i + 1, list[..j] + list[j + 1..], j, modEvents + recs[q[i]].events, WakeOne(recs', q[i], come))
    ensures !Wakes(recs[q[i]].events, come) ==>
      Woken(recs, q, come, i + 1, list, j + 1, modEvents + recs[q[i]].events, recs')
  {
    hide WakeAll, Union, Asleep, Wakes;
    UnionNext(recs, q, i);
    VisitNext(recs, q, come, i);
    var front := Asleep(recs, q[..i], come);
    WakeAllAt(recs, q[..i], come, q[i]);
    assert list == (front + [q[i]]) + q[i + 1..];
    assert list[..j] + list[j + 1..] == front + q[i + 1..];
  }

  lemma VisitNext<N>(recs: map<N, Rec>, q: seq<N>, come: Mask, i: nat)
    requires i < |q| && forall m :: m in q ==> m in recs
    ensures WakeAll(recs, q[..i + 1], come) == WakeOne(WakeAll(recs, q[..i], come), q[i], come)
    ensures Asleep(recs, q[..i + 1], come)
         == Asleep(recs, q[..i], come) + if Wakes(recs[q[i]].events, come) then [] else [q[i]]
  {
    assert q[..i + 1][..i] == q[..i];
  }

  lemma WakeEnd<N>(recs: map<N, Rec>, q: seq<N>, come: Mask, i: nat, list: seq<N>, j: nat,
                   modEvents: Mask, recs': map<N, Rec>)
    requires forall m :: m in q ==> m in recs
    requires Woken(recs, q, come, i, list, j, modEvents, recs') && j >= |list|
    ensures list == Asleep(recs, q, come) && modEvents == Union(recs, q) && recs' == WakeAll(recs, q, come)
  {
    assert q[..|q|] == q;
  }

  lemma DeliverIs<N>(s: State<N>, fd: int, come: Mask)
    requires Lists(s)
    ensures Deliver(s, fd, come) ==
      if fd in s.fdMap then
        Rewatch(State(WakeAll(s.recs, s.fdMap[fd], come), s.fdMap[fd := Asleep(s.recs, s.fdMap[fd], come)],
                      s.kernel, s.cnt, s.room), fd, Union(s.recs, s.fdMap[fd]) - come)
      else Rewatch(s, fd, {} - come)
    ensures fd in s.fdMap ==> Distinct(s.fdMap[fd]) && forall n :: n in s.fdMap[fd] ==> n in s.recs
  {
    assert ListAt(s, fd);
    if fd !in s.fdMap {
      assert Entries(s, fd) == [];
    }
  }

  /** A live timer is one that its NetFD refers to. */
  lemma TimersLive<N>(s: State<N>)
    requires Inv(s)
    ensures forall n :: n in s.recs && s.recs[n].armed ==> s.recs[n].timer
  {
    forall n | n in s.recs && s.recs[n].armed ensures s.recs[n].timer {
      assert Fine(s.recs[n], Parked(s, n));
    }
  }

  lemma ParksAsked<N>(s: State<N>, n: N, request: Mask, kernelOk: bool)
    requires n in s.recs
    ensures Parks(s, n, request, kernelOk) <==> (s.recs[n].fd >= 0 && {} != request <= {In, Out, Pri} &&
      ((s.recs[n].shared && Entries(s, s.recs[n].fd) != []) || (s.recs[n].fd !in s.kernel && kernelOk)))
  {
  }

  lemma NobodyNotified<N>(recs: map<N, Rec>, come: Mask)
    ensures forall recs', q' :: Notified(recs, [], come, recs', q')
  {
  }

  lemma NotifyApart<N>(s: State<N>, fd: int, come: Mask, notify: int)
    requires Inv(s) && Reportable(s, fd, come) && notify !in s.kernel
    ensures Lists(s) && notify !in Deliver(s, fd, come).kernel
  {
    hide Deliver;
    DeliveredElsewhere(s, fd, come);
  }

  /** Every descriptor of a list of events has an entry. */
  ghost predicate AllFound<N>(s: State<N>, batch: seq<(int, Mask)>, notify: int) {
    forall i :: 0 <= i < |batch| && batch[i].0 != notify ==> Entries(s, batch[i].0) != []
  }

  /** The events before do not take away the entries of the next descriptor. */
  lemma FoundNext<N>(s: State<N>, batch: seq<(int, Mask)>, notify: int, i: nat)
    requires Inv(s) && BatchOk(s, batch, notify) && i <= |batch| && BatchOk(s, batch[..i], notify)
    ensures i == 0 ==> AllFound(s, batch[..i], notify)
    ensures i < |batch| && batch[i].0 != notify ==>
      Entries(DeliverAll(s, batch[..i], notify), batch[i].0) == Entries(s, batch[i].0)
    ensures i < |batch| ==>
      (AllFound(s, batch[..i + 1], notify) <==>
        AllFound(s, batch[..i], notify) && (batch[i].0 == notify || Entries(s, batch[i].0) != []))
  {
    hide DeliverAll, Inv, Entries;
    if i < |batch| {
      assert batch[..i + 1] == batch[..i] + [batch[i]];
    }
  }

  /** The request of a NetFD that is not parked does not show in that of its descriptor. */
  lemma OwnRequestApart<N>(s: State<N>, n: N, r: Rec)
    requires Inv(s) && n in s.recs && !s.recs[n].owner
    ensures Lists(s) && Union(s.recs[n := r], Entries(s, s.recs[n].fd)) == Union(s.recs, Entries(s, s.recs[n].fd))
  {
    Unused(s, n);
    hide Union;
    UnionSame(s.recs, s.recs[n := r], Entries(s, s.recs[n].fd));
  }
}
