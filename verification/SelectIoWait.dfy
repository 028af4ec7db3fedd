/** SelectIoWait, method by method, against the functions of SelectSet; without timeouts. */
module Select {
  import opened WaitSet
  import opened EpollRuns
  import opened NetFds
  import opened SelectSet
  import opened SelectRuns

  class SelectIoWait {
    var fdMap: seq<NetFD>
    var fdSets: FdSets
    var maxfd: int
    const notify: int

    /** The NetFDs that are used with this wait set. */
    ghost var all: set<NetFD>

    ghost function Recs(): (r: map<NetFD, Rec>)
      reads this`all, all
      ensures r.Keys == all && forall n :: n in all ==> r[n] == n.Record()
    {
      map n | n in all :: n.Record()
    }

    ghost function View(): SelectState<NetFD>
      reads this, all
    {
      SelectState(Recs(), fdMap, fdSets, maxfd)
    }

    ghost predicate Valid()
      reads this, all
    {
      Sound(View(), notify)
    }

    /** The sets are exact, and parked NetFDs ask for one event each. */
    ghost predicate Exact()
      reads this, all
    {
      SelectInv(View(), notify)
    }

    twostate lemma Touched(n: NetFD)
      requires all == old(all) && n in all && forall m :: m in all && m != n ==> unchanged(m)
      ensures Recs() == old(Recs())[n := n.Record()]
    {
    }

    /** InitModule: only the interrupter is watched. */
    constructor (notify: int)
      requires notify >= 0
      ensures this.notify == notify && all == {} && Valid() && Exact()
      ensures View() == SelectState(map[], [], FdSets({notify}, {}, {}), notify)
    {
      this.notify, fdMap, fdSets, maxfd, all := notify, [], FdSets({notify}, {}, {}), notify, {};
      new;
      InitKeeps(View(), notify);
    }

    /** A new NetFD is used with this wait set. */
    method NewNetFD(fd: int, share: bool) returns (n: NetFD)
      requires Valid() && fd != notify
      modifies this`all
      ensures fresh(n) && all == old(all) + {n} && Valid() && (old(Exact()) ==> Exact())
      ensures View() == Reassign(old(View()), n, Plain(fd), share)
    {
      hide Recs, Sound, SelectInv;
      n := new NetFD(share);
      n.fd := fd;
      ReassignKeeps(View(), n, Plain(fd), share, notify);
      Adopt(n);
    }

    method Adopt(n: NetFD)
      requires n !in all
      modifies this`all
      ensures all == old(all) + {n} && Recs() == old(Recs())[n := n.Record()]
    {
      all := all + {n};
    }

    /** A NetFD that no Poll uses is assigned another one, which may be in use if it is shared.
        The task that runs is in no Poll, so none that is in use is its own. */
    method Assign(n: NetFD, rfd: NetFD) returns (ok: bool)
      requires Valid() && n in all && rfd in all && !n.owner
      modifies n`fd, n`events, n`revents, n`shared, n`owner
      ensures Valid() && (old(Exact()) ==> Exact()) && ok == old(rfd.shared || !rfd.owner)
      ensures ok ==> View() == Reassign(old(View()), n, old(PollFd(rfd.fd, rfd.events, rfd.revents)), old(n.shared || rfd.shared))
      ensures !ok ==> View() == Reassign(old(View()), n, old(PollFd(-1, n.events, n.revents)), old(n.shared))
    {
      hide Recs, Sound, SelectInv;
      NotNotify(View(), rfd, notify);
      ReassignKeeps(View(), n, PollFd(rfd.fd, rfd.events, rfd.revents), n.shared || rfd.shared, notify);
      ReassignKeeps(View(), n, PollFd(-1, n.events, n.revents), n.shared, notify);
      ok := n.Assign(rfd, false);
      Touched(n);
    }

    method PollsetAdd(n: NetFD, request: Mask) returns (rc: int)
      requires n in all
      modifies this`fdSets, this`maxfd, n`events
      ensures rc == 0 || rc == -1
      ensures (rc == 0) == SelectSet.Add(old(View()), n, request).0
      ensures View() == SelectSet.Add(old(View()), n, request).1
    {
      hide Recs, SelectSet.Add, FdSets.With;
      AddIs(View(), n, request);
      if n.fd < 0 || request == {} || !(request <= REQUESTABLE) {
        return -1;
      }
      if n.fd >= FD_SETSIZE {
        return -1;
      }
      AddRequest(n, request);
      SetFd(n.fd, n.events);
      if maxfd < n.fd {
        maxfd := n.fd;
      }
      return 0;
    }

    method AddRequest(n: NetFD, request: Mask)
      requires n in all
      modifies n`events
      ensures n.events == old(n.events) + request
      ensures Recs() == old(Recs()[n := Recs()[n].(events := Recs()[n].events + request)])
    {
      hide Recs;
      n.events := n.events + request;
      Touched(n);
    }

    /** FD_SET in each of the sets concerned. */
    method SetFd(fd: int, events: Mask)
      modifies this`fdSets
      ensures fdSets == old(fdSets).With(fd, events)
    {
      if In in events {
        fdSets := fdSets.(read := fdSets.read + {fd});
      }
      if Out in events {
        fdSets := fdSets.(write := fdSets.write + {fd});
      }
      if Pri in events {
        fdSets := fdSets.(exception := fdSets.exception + {fd});
      }
    }

    /** Without events, as for a timeout, the read and the write set are cleared. */
    method PollsetDel(n: NetFD, events: Mask)
      requires n in all
      modifies this`fdSets, n`events
      ensures n.events == old(n.events) - events && Recs() == old(Recs())[n := n.Record()]
      ensures old(n.events) == {} ==> fdSets == old(fdSets)
      ensures old(n.events) != {} && events != {} ==> fdSets == old(fdSets).Without(n.fd, events)
      ensures old(n.events) != {} && events == {} ==> fdSets == old(fdSets).Without(n.fd, {In, Out})
    {
      hide Recs;
      if n.events == {} {
        Touched(n);
        return;
      }
      if In in events || events == {} {
        fdSets := fdSets.(read := fdSets.read - {n.fd});
      }
      if Out in events || events == {} {
        fdSets := fdSets.(write := fdSets.write - {n.fd});
      }
      if Pri in events {
        fdSets := fdSets.(exception := fdSets.exception - {n.fd});
      }
      n.events := n.events - events;
      Touched(n);
    }

    /** Poll up to the task switch. */
    method PollBegin(n: NetFD, request: Mask) returns (rc: int)
      requires Valid() && n in all && !n.owner
      modifies this`fdSets, this`maxfd, this`fdMap, n`events, n`owner
      ensures View() == SelectSet.Enter(old(View()), n, request) && Valid()
      ensures rc == if old(Accepts(View(), n, request)) then 0 else -1
      ensures rc == 0 <==> 0 <= old(n.fd) < 1024 && {} != request <= {In, Out, Pri}
      ensures old(Exact() && (Accepts(View(), n, request) ==> NothingStale(n.Record(), request) && Single(request))) ==> Exact()
    {
      hide Recs, Insert, Sound, SelectInv;
      EnterSound(View(), n, request, notify);
      if Exact() && (Accepts(View(), n, request) ==> NothingStale(n.Record(), request) && Single(request)) {
        EnterKeeps(View(), n, request, notify);
      }
      SoundListed(View(), notify);
      rc := PollsetAdd(n, request);
      if rc < 0 {
        return;
      }
      Enlist(n);
    }

    /** multimap::emplace. */
    method Enlist(n: NetFD)
      requires n in all && forall m :: m in fdMap ==> m in all
      modifies this`fdMap, n`owner
      ensures Recs() == old(Recs())[n := old(n.Record()).(owner := true)]
      ensures fdMap == Insert(old(Recs()), old(fdMap), n)
      ensures fdSets == old(fdSets) && maxfd == old(maxfd)
    {
      hide Recs, Insert;
      var i := FindPlace(n);
      Own(n);
      fdMap := fdMap[..i] + [n] + fdMap[i..];
    }

    method Own(n: NetFD)
      requires n in all
      modifies n`owner
      ensures Recs() == old(Recs())[n := old(n.Record()).(owner := true)]
    {
      hide Recs;
      n.owner := true;
      Touched(n);
    }

    method FindPlace(n: NetFD) returns (i: nat)
      requires n in all && forall m :: m in fdMap ==> m in all
      ensures i <= |fdMap| && Insert(Recs(), fdMap, n) == fdMap[..i] + [n] + fdMap[i..]
    {
      hide Recs, Insert, Ahead;
      i := |fdMap|;
      AheadStart(Recs(), fdMap, n);
      while i > 0 && fdMap[i - 1].fd > n.fd
        invariant Ahead(Recs(), fdMap, n, i)
      {
        AheadStep(Recs(), fdMap, n, i);
        i := i - 1;
      }
      AheadEnd(Recs(), fdMap, n, i);
    }

    /** `got` is what select left in copies of the sets; its result is their size. */
    method WaitLoop(got: FdSets, ghost ready: int -> Mask) returns (nfd: nat)
      requires Valid() && got == Reported(fdSets, maxfd, ready)
      modifies this`fdMap, this`fdSets, all
      ensures nfd == |got.read| + |got.write| + |got.exception|
      ensures View() == Wait(old(View()), ready) && Valid() && (old(Exact()) ==> Exact())
    {
      hide Recs, Sound, SelectInv, Reported, Scan;
      nfd := |got.read| + |got.write| + |got.exception|;
      WaitSound(View(), ready, notify);
      if nfd > 0 {
        VisitAll(got, ready);
      }
    }

    method VisitAll(got: FdSets, ghost ready: int -> Mask)
      requires Valid() && got == Reported(fdSets, maxfd, ready)
      modifies this`fdMap, this`fdSets, all
      ensures View() == Scan(old(View()), ready)
    {
      hide Recs, Sound, SelectInv, Reported, Visit, Scan, ScanRecs, ScanKept, ScanSets, Hit, Visited, Cleared;
      ghost var t := View();
      SoundListed(t, notify);
      ScanIs(t, got, ready);
      NoTimers(t, notify);
      ghost var i: nat := 0;
      var j: nat := 0;
      VisitStart(t, got);
      while j < |fdMap|
        invariant maxfd == t.maxfd && all == old(all)
        invariant Visit(t, got, i, j, Recs(), fdMap, fdSets)
        decreases |t.entries| - i
        modifies this`fdMap, this`fdSets, all
      {
        VisitStep(t, got, i, j, Recs(), fdMap, fdSets);
        j := VisitEntry(fdMap[j], j, got);
        i := i + 1;
      }
      VisitEnd(t, got, i, j, Recs(), fdMap, fdSets);
    }

    /** One entry of the scan: it is taken off the list if something it asks for is ready. */
    method VisitEntry(n: NetFD, j: nat, got: FdSets) returns (next: nat)
      requires j < |fdMap| && fdMap[j] == n && n in all && (n.armed ==> n.timer)
      modifies this`fdMap, this`fdSets, n`revents, n`events, n`queued, n`timer, n`armed
      ensures Recs() == old(Recs())[n := Visited(old(n.Record()), got)]
      ensures fdSets == Cleared(old(n.Record()), got, old(fdSets))
      ensures old(Hit(n.Record(), got)) ==> next == j && fdMap == old(fdMap[..j] + fdMap[j + 1..])
      ensures !old(Hit(n.Record(), got)) ==> next == j + 1 && fdMap == old(fdMap)
    {
      hide Recs, Revents, FdSets.Without;
      next := j + 1;
      Collect(n, got);
      if n.revents != {} && n.revents * n.events != {} {
        fdMap := fdMap[..j] + fdMap[j + 1..];
        WakeEntry(n);
        next := j;
      }
      Touched(n);
    }

    method WakeEntry(n: NetFD)
      requires n in all && n.events != {} && n.revents != {} && (n.armed ==> n.timer)
      modifies this`fdSets, n`events, n`queued, n`timer, n`armed
      ensures fdSets == old(fdSets).Without(n.fd, n.revents)
      ensures n.Record() == old(n.Record()).(events := old(n.events) - n.revents, queued := old(n.queued) + 1,
                                             timer := false, armed := false)
    {
      hide Recs, FdSets.Without;
      PollsetDel(n, n.revents);
      n.MakeRunnable();
      n.StopTimer();
    }

    /** revents |= each event asked for whose set has the descriptor. */
    method Collect(n: NetFD, got: FdSets)
      modifies n`revents
      ensures n.revents == Revents(old(n.Record()), got)
    {
      if In in n.events && n.fd in got.read {
        n.revents := n.revents + {In};
      }
      if Out in n.events && n.fd in got.write {
        n.revents := n.revents + {Out};
      }
      if Pri in n.events && n.fd in got.exception {
        n.revents := n.revents + {Pri};
      }
    }

    /** Poll after the switch back.  A return by timeout leaves owner_task set, which only an
        event clears; in the runs considered here no timer is ever made, so Valid excludes it. */
    method PollEnd(n: NetFD) returns (rc: int)
      requires n in all && n.queued > 0
      modifies n`queued, n`revents, n`owner, n`timer
      ensures rc == if old(n.timed && n.timer) then -1 else 0
      ensures old(n.timed && n.timer) ==>
        n.Record() == old(n.Record()).(queued := old(n.queued) - 1, revents := {}, timer := false)
      ensures !old(n.timed && n.timer) ==> View() == SelectSet.Leave(old(View()), n)
      ensures old(Valid()) ==> rc == 0 && Valid() && (old(Exact()) ==> Exact())
    {
      hide Recs, Sound, SelectInv;
      ghost var valid := Valid();
      if valid {
        ReturnInv(View(), n, notify);
        NoTimers(View(), notify);
      }
      n.queued := n.queued - 1;
      n.revents := {};
      if n.timed && n.timer {
        n.timer := false;
        return -1;
      }
      n.owner := false;
      Touched(n);
      return 0;
    }
  }

  lemma ReassignKeeps<N>(t: SelectState<N>, n: N, osfd: PollFd, shared: bool, notify: int)
    requires Sound(t, notify) && (n in t.recs ==> !t.recs[n].owner) && osfd.fd != notify
    ensures Sound(Reassign(t, n, osfd, shared), notify)
    ensures SelectInv(t, notify) ==> SelectInv(Reassign(t, n, osfd, shared), notify)
  {
    hide Sound, SelectInv, Reassign;
    SoundListed(t, notify);
    OtherMove(t, Assigned(n, osfd, shared), Reassign(t, n, osfd, shared), notify);
  }

  /** No NetFD is on the interrupter's descriptor. */
  lemma NotNotify<N>(t: SelectState<N>, n: N, notify: int)
    requires Sound(t, notify) && n in t.recs
    ensures t.recs[n].fd != notify && notify >= 0
  {
    assert Stands(t.recs[n], n in t.entries, notify, t.maxfd);
  }

  lemma NoTimers<N>(t: SelectState<N>, notify: int)
    requires Sound(t, notify)
    ensures forall n :: n in t.recs ==> !t.recs[n].armed && !t.recs[n].timer
  {
    forall n | n in t.recs ensures !t.recs[n].armed && !t.recs[n].timer {
      assert Stands(t.recs[n], n in t.entries, notify, t.maxfd);
    }
  }

  lemma ReturnInv<N>(t: SelectState<N>, n: N, notify: int)
    requires Sound(t, notify) && n in t.recs && t.recs[n].queued > 0
    ensures Sound(SelectSet.Leave(t, n), notify)
    ensures SelectInv(t, notify) ==> SelectInv(SelectSet.Leave(t, n), notify)
  {
    hide Sound, SelectInv;
    SoundListed(t, notify);
    OtherMove(t, Returned(n), SelectSet.Leave(t, n), notify);
  }

  /** The scan after i of the entries, of which j are still at the front of the list. */
  ghost predicate Visit<N>(t: SelectState<N>, got: FdSets, i: nat, j: nat, recs: map<N, Rec>, list: seq<N>, sets: FdSets)
    requires Listed(t)
  {
    var q := t.entries;
    && i <= |q| && list == ScanKept(t.recs, q[..i], got) + q[i..] && j == |ScanKept(t.recs, q[..i], got)|
    && recs == ScanRecs(t.recs, q[..i], got) && sets == ScanSets(t.recs, q[..i], got, t.sets)
  }

  lemma VisitStart<N>(t: SelectState<N>, got: FdSets)
    requires Listed(t)
    ensures Visit(t, got, 0, 0, t.recs, t.entries, t.sets)
  {
    assert t.entries[..0] == [];
  }

  lemma VisitStep<N>(t: SelectState<N>, got: FdSets, i: nat, j: nat, recs: map<N, Rec>, list: seq<N>, sets: FdSets)
    requires Listed(t) && Visit(t, got, i, j, recs, list, sets) && j < |list|
    ensures i < |t.entries| && list[j] == t.entries[i] && list[j] in t.recs && list[j] in recs && recs[list[j]] == t.recs[list[j]]
    ensures var r := t.recs[list[j]];
      && (Hit(r, got) ==> Visit(t, got, i + 1, j, recs[list[j] := Visited(r, got)], list[..j] + list[j + 1..], Cleared(r, got, sets)))
      && (!Hit(r, got) ==> Visit(t, got, i + 1, j + 1, recs[list[j] := Visited(r, got)], list, Cleared(r, got, sets)))
  {
    hide Visited, Cleared, Hit, ScanKept, ScanRecs, ScanSets;
    var q := t.entries;
    ScanNext(t.recs, q, got, t.sets, i);
    var front := ScanKept(t.recs, q[..i], got);
    ScanRecsAt(t.recs, q[..i], got, q[i]);
    assert list == (front + [q[i]]) + q[i + 1..];
    assert list[..j] + list[j + 1..] == front + q[i + 1..];
    assert front + [] == front;
  }

  lemma ScanNext<N>(recs: map<N, Rec>, q: seq<N>, got: FdSets, sets: FdSets, i: nat)
    requires i < |q| && forall m :: m in q ==> m in recs
    ensures ScanRecs(recs, q[..i + 1], got) == ScanRecs(recs, q[..i], got)[q[i] := Visited(recs[q[i]], got)]
    ensures ScanKept(recs, q[..i + 1], got) == ScanKept(recs, q[..i], got) + if Hit(recs[q[i]], got) then [] else [q[i]]
    ensures ScanSets(recs, q[..i + 1], got, sets) == Cleared(recs[q[i]], got, ScanSets(recs, q[..i], got, sets))
  {
    assert q[..i + 1][..i] == q[..i];
  }

  lemma VisitEnd<N>(t: SelectState<N>, got: FdSets, i: nat, j: nat, recs: map<N, Rec>, list: seq<N>, sets: FdSets)
    requires Listed(t) && Visit(t, got, i, j, recs, list, sets) && j >= |list|
    ensures list == ScanKept(t.recs, t.entries, got)
    ensures recs == ScanRecs(t.recs, t.entries, got) && sets == ScanSets(t.recs, t.entries, got, t.sets)
  {
    assert t.entries[..|t.entries|] == t.entries;
  }

  lemma ScanIs<N>(t: SelectState<N>, got: FdSets, ready: int -> Mask)
    requires Listed(t) && got == Reported(t.sets, t.maxfd, ready)
    ensures Scan(t, ready) == SelectState(ScanRecs(t.recs, t.entries, got), ScanKept(t.recs, t.entries, got),
                                          ScanSets(t.recs, t.entries, got, t.sets), t.maxfd)
  {
  }

  /** The entries from i on have larger descriptors than n. */
  ghost predicate Ahead<N>(recs: map<N, Rec>, q: seq<N>, n: N, i: nat)
    requires n in recs && forall m :: m in q ==> m in recs
  {
    i <= |q| && Insert(recs, q, n) == Insert(recs, q[..i], n) + q[i..]
  }

  lemma AheadStart<N>(recs: map<N, Rec>, q: seq<N>, n: N)
    requires n in recs && forall m :: m in q ==> m in recs
    ensures Ahead(recs, q, n, |q|)
  {
    assert q[..|q|] == q;
  }

  lemma AheadStep<N>(recs: map<N, Rec>, q: seq<N>, n: N, i: nat)
    requires n in recs && forall m :: m in q ==> m in recs
    requires Ahead(recs, q, n, i)
    ensures i <= |q| && (i > 0 && recs[q[i - 1]].fd > recs[n].fd ==> Ahead(recs, q, n, i - 1))
  {
    if i > 0 && recs[q[i - 1]].fd > recs[n].fd {
      assert q[..i][..i - 1] == q[..i - 1];
      assert [q[i - 1]] + q[i..] == q[i - 1..];
    }
  }

  lemma AheadEnd<N>(recs: map<N, Rec>, q: seq<N>, n: N, i: nat)
    requires n in recs && forall m :: m in q ==> m in recs
    requires Ahead(recs, q, n, i)
    ensures i <= |q|
    ensures i == 0 || recs[q[i - 1]].fd <= recs[n].fd ==> Insert(recs, q, n) == q[..i] + [n] + q[i..]
  {
  }

  lemma AddIs<N>(t: SelectState<N>, n: N, request: Mask)
    requires n in t.recs
    ensures var fd, events := t.recs[n].fd, t.recs[n].events + request;
      SelectSet.Add(t, n, request) ==
        if Accepts(t, n, request) then
          (true, SelectState(t.recs[n := t.recs[n].(events := events)], t.entries, t.sets.With(fd, events),
                             if t.maxfd < fd then fd else t.maxfd))
        else (false, t)
  {
  }

  lemma SoundListed<N>(t: SelectState<N>, notify: int)
    requires Sound(t, notify)
    ensures Listed(t)
  {
  }
}
