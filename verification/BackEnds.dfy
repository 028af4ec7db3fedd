/** The two wait sets side by side: given the same calls of Poll and the same readiness, they
    wake the same NetFDs with the same events. */
module BackEnds {
  import opened WaitSet
  import E = EpollRuns
  import opened SelectSet
  import S = SelectRuns

  /** The entries with one descriptor, in the order of the multimap. */
  function OnFd<N>(recs: map<N, Rec>, q: seq<N>, fd: int): seq<N>
    requires forall n :: n in q ==> n in recs
  {
    if q == [] then []
    else OnFd(recs, q[..|q| - 1], fd) + if recs[q[|q| - 1]].fd == fd then [q[|q| - 1]] else []
  }

  /** What a NetFD shows to the outside: where it is, whether its task waits or runs, and, while
      it is parked, what it asked for. */
  ghost predicate Alike(r: Rec, u: Rec, parked: bool) {
    && r.fd == u.fd && r.shared == u.shared && r.owner == u.owner && r.queued == u.queued
    && (parked ==> r.events == u.events)
    && (r.owner && !parked ==> r.revents == u.revents)
  }

  /** The same NetFDs are parked on every descriptor, in the same order. */
  ghost predicate SameLists<N>(s: State<N>, t: SelectState<N>)
    requires S.Listed(t)
  {
    forall fd :: Entries(s, fd) == OnFd(t.recs, t.entries, fd)
  }

  ghost predicate Agree<N>(s: State<N>, t: SelectState<N>)
    requires S.Listed(t)
  {
    && SameLists(s, t)
    && s.recs.Keys == t.recs.Keys
    && forall n :: n in s.recs ==> Alike(s.recs[n], t.recs[n], n in t.entries)
  }

  // ---------------------------------------------------------------- what is due

  /** The entries for which nothing is ready. */
  function NotDue<N>(recs: map<N, Rec>, q: seq<N>, ready: int -> Mask): seq<N>
    requires forall n :: n in q ==> n in recs
  {
    if q == [] then []
    else NotDue(recs, q[..|q| - 1], ready) + if S.Due(recs[q[|q| - 1]], ready) then [] else [q[|q| - 1]]
  }

  lemma {:induction false} OnFdAre<N>(recs: map<N, Rec>, q: seq<N>, fd: int)
    requires forall n :: n in q ==> n in recs
    ensures forall n :: n in OnFd(recs, q, fd) ==> n in q && recs[n].fd == fd
    ensures forall n :: n in q && recs[n].fd == fd ==> n in OnFd(recs, q, fd)
  {
    if q == [] {
    } else {
      OnFdAre(recs, q[..|q| - 1], fd);
      assert q == q[..|q| - 1] + [q[|q| - 1]];
    }
  }

  lemma {:induction false} NotDueAre<N>(recs: map<N, Rec>, q: seq<N>, ready: int -> Mask)
    requires forall n :: n in q ==> n in recs
    ensures forall n :: n in NotDue(recs, q, ready) ==> n in q && !S.Due(recs[n], ready)
  {
    if q == [] {
    } else {
      NotDueAre(recs, q[..|q| - 1], ready);
    }
  }

  lemma OnFdSnoc<N>(recs: map<N, Rec>, q: seq<N>, n: N, fd: int)
    requires n in recs && forall m :: m in q ==> m in recs
    ensures OnFd(recs, q + [n], fd) == OnFd(recs, q, fd) + if recs[n].fd == fd then [n] else []
  {
    assert (q + [n])[..|q|] == q;
  }

  lemma NotDueSnoc<N>(recs: map<N, Rec>, q: seq<N>, n: N, ready: int -> Mask)
    requires n in recs && forall m :: m in q ==> m in recs
    ensures NotDue(recs, q + [n], ready) == NotDue(recs, q, ready) + if S.Due(recs[n], ready) then [] else [n]
  {
    assert (q + [n])[..|q|] == q;
  }

  lemma {:induction false} OnFdNotDue<N>(recs: map<N, Rec>, q: seq<N>, ready: int -> Mask, fd: int)
    requires forall n :: n in q ==> n in recs
    ensures forall n :: n in NotDue(recs, q, ready) ==> n in recs
    ensures forall n :: n in OnFd(recs, q, fd) ==> n in recs
    ensures OnFd(recs, NotDue(recs, q, ready), fd) == NotDue(recs, OnFd(recs, q, fd), ready)
  {
    hide OnFd, NotDue;
    NotDueAre(recs, q, ready);
    OnFdAre(recs, q, fd);
    if q == [] {
      OnNothing(recs, q, ready, fd);
    } else {
      var front, last := q[..|q| - 1], q[|q| - 1];
      assert q == front + [last];
      OnFdNotDue(recs, front, ready, fd);
      OnFdNotDueSnoc(recs, front, last, ready, fd);
    }
  }

  lemma OnNothing<N>(recs: map<N, Rec>, q: seq<N>, ready: int -> Mask, fd: int)
    requires q == []
    ensures OnFd(recs, q, fd) == q && NotDue(recs, q, ready) == q
  {
  }

  lemma OnFdNotDueSnoc<N>(recs: map<N, Rec>, q: seq<N>, n: N, ready: int -> Mask, fd: int)
    requires n in recs && forall m :: m in q ==> m in recs
    requires forall m :: m in NotDue(recs, q, ready) ==> m in recs
    requires forall m :: m in OnFd(recs, q, fd) ==> m in recs
    requires forall m :: m in NotDue(recs, q + [n], ready) ==> m in recs
    requires forall m :: m in OnFd(recs, q + [n], fd) ==> m in recs
    requires OnFd(recs, NotDue(recs, q, ready), fd) == NotDue(recs, OnFd(recs, q, fd), ready)
    ensures OnFd(recs, NotDue(recs, q + [n], ready), fd) == NotDue(recs, OnFd(recs, q + [n], fd), ready)
  {
    hide OnFd, NotDue, S.Due;
    OnFdSnoc(recs, q, n, fd);
    NotDueSnoc(recs, q, n, ready);
    var f, o := NotDue(recs, q, ready), OnFd(recs, q, fd);
    OnFdSnoc(recs, f, n, fd);
    NotDueSnoc(recs, o, n, ready);
    assert f + [] == f && o + [] == o;
    assert OnFd(recs, f, fd) + [] == OnFd(recs, f, fd);
  }

  /** Lists depend only on the descriptors and, for NotDue, on the requests. */
  lemma {:induction false} OnFdSame<N>(recs: map<N, Rec>, recs': map<N, Rec>, q: seq<N>, fd: int)
    requires forall n :: n in q ==> n in recs && n in recs' && recs[n].fd == recs'[n].fd
    ensures OnFd(recs, q, fd) == OnFd(recs', q, fd)
  {
    if q == [] {
    } else {
      OnFdSame(recs, recs', q[..|q| - 1], fd);
    }
  }

  lemma {:induction false} NotDueSame<N>(recs: map<N, Rec>, recs': map<N, Rec>, q: seq<N>, ready: int -> Mask)
    requires forall n :: n in q ==> n in recs && n in recs' && recs[n].fd == recs'[n].fd && recs[n].events == recs'[n].events
    ensures NotDue(recs, q, ready) == NotDue(recs', q, ready)
  {
    if q == [] {
    } else {
      NotDueSame(recs, recs', q[..|q| - 1], ready);
    }
  }

  lemma {:induction false} AsleepNotDue<N>(recs: map<N, Rec>, q: seq<N>, come: Mask, ready: int -> Mask)
    requires forall n :: n in q ==> n in recs && (Wakes(recs[n].events, come) <==> S.Due(recs[n], ready))
    ensures Asleep(recs, q, come) == NotDue(recs, q, ready)
  {
    if q == [] {
    } else {
      AsleepNotDue(recs, q[..|q| - 1], come, ready);
    }
  }

  lemma {:induction false} KeptNotDue<N>(recs: map<N, Rec>, q: seq<N>, got: FdSets, ready: int -> Mask)
    requires forall n :: n in q ==> n in recs && (Hit(recs[n], got) <==> S.Due(recs[n], ready))
    ensures ScanKept(recs, q, got) == NotDue(recs, q, ready)
  {
    if q == [] {
    } else {
      hide Hit;
      KeptNotDue(recs, q[..|q| - 1], got, ready);
    }
  }

  lemma {:induction false} NothingDue<N>(recs: map<N, Rec>, q: seq<N>, ready: int -> Mask)
    requires forall n :: n in q ==> n in recs && !S.Due(recs[n], ready)
    ensures NotDue(recs, q, ready) == q
  {
    if q == [] {
    } else {
      NothingDue(recs, q[..|q| - 1], ready);
      assert q == q[..|q| - 1] + [q[|q| - 1]];
    }
  }

  // ---------------------------------------------------------------- one return of epoll_wait

  /** epoll_wait reports every registered descriptor with something ready, and all of that; no
      errors or hang-ups. */
  ghost predicate FullBatch<N>(s: State<N>, batch: seq<(int, Mask)>, ready: int -> Mask, notify: int) {
    && E.BatchOk(s, batch, notify)
    && (forall fd :: ready(fd) * EXCEPTION == {})
    && (forall i :: 0 <= i < |batch| && batch[i].0 != notify ==> batch[i].1 == Short(s.kernel[batch[i].0]) * ready(batch[i].0))
    && (forall fd :: fd in s.kernel && Short(s.kernel[fd]) * ready(fd) != {} ==> exists i :: 0 <= i < |batch| && batch[i].0 == fd)
  }

  /** The part of such a list for some of the registered descriptors. */
  ghost predicate PartBatch<N>(s: State<N>, batch: seq<(int, Mask)>, ready: int -> Mask, fds: set<int>) {
    && (forall i, j :: 0 <= i < j < |batch| ==> batch[i].0 != batch[j].0)
    && (forall i :: 0 <= i < |batch| ==> batch[i].0 in fds && batch[i].0 in s.kernel && batch[i].1 != {})
    && (forall i :: 0 <= i < |batch| && batch[i].0 in s.kernel ==> batch[i].1 == Short(s.kernel[batch[i].0]) * ready(batch[i].0))
    && (forall fd :: fd in fds && fd in s.kernel && Short(s.kernel[fd]) * ready(fd) != {} ==>
          exists i :: 0 <= i < |batch| && batch[i].0 == fd)
  }

  lemma {:induction false} MakePart<N>(s: State<N>, ready: int -> Mask, fds: set<int>) returns (batch: seq<(int, Mask)>)
    requires fds <= s.kernel.Keys
    ensures PartBatch(s, batch, ready, fds)
    decreases fds
  {
    hide Short;
    if fd :| fd in fds {
      batch := MakePart(s, ready, fds - {fd});
      var come := Short(s.kernel[fd]) * ready(fd);
      if come != {} {
        AddPart(s, batch, ready, fds, fd, come);
        batch := batch + [(fd, come)];
      }
    } else {
      batch := [];
    }
  }

  lemma AddPart<N>(s: State<N>, batch: seq<(int, Mask)>, ready: int -> Mask, fds: set<int>, fd: int, come: Mask)
    requires PartBatch(s, batch, ready, fds - {fd}) && fd in fds && fd in s.kernel
    requires come == Short(s.kernel[fd]) * ready(fd) && come != {}
    ensures PartBatch(s, batch + [(fd, come)], ready, fds)
  {
    hide Short;
    var more := batch + [(fd, come)];
    forall f | f in fds && f in s.kernel && Short(s.kernel[f]) * ready(f) != {}
      ensures exists i :: 0 <= i < |more| && more[i].0 == f
    {
      if f == fd {
        assert more[|batch|].0 == f;
      } else {
        var i :| 0 <= i < |batch| && batch[i].0 == f;
        assert more[i].0 == f;
      }
    }
  }

  /** Whatever is ready, errors apart, epoll_wait can report all of it. */
  lemma FullBatchExists<N>(s: State<N>, ready: int -> Mask, notify: int) returns (batch: seq<(int, Mask)>)
    requires forall fd :: ready(fd) * EXCEPTION == {}
    ensures FullBatch(s, batch, ready, notify)
  {
    batch := MakePart(s, ready, s.kernel.Keys);
  }

  /** Nothing about one descriptor has changed. */
  ghost predicate SameOn<N>(s: State<N>, r: State<N>, fd: int) {
    && Entries(r, fd) == Entries(s, fd) && r.recs.Keys == s.recs.Keys
    && forall n :: n in s.recs ==> r.recs[n].fd == s.recs[n].fd && (s.recs[n].fd == fd ==> r.recs[n] == s.recs[n])
  }

  /** A descriptor that is not in the list of events, or the interrupter's. */
  lemma {:induction false} BatchMiss<N>(s: State<N>, batch: seq<(int, Mask)>, notify: int, fd: int)
    requires E.Inv(s) && E.BatchOk(s, batch, notify)
    requires forall i :: 0 <= i < |batch| && batch[i].0 == fd ==> fd == notify
    ensures SameOn(s, E.DeliverAll(s, batch, notify), fd)
    decreases |batch|
  {
    hide E.Inv, Deliver, E.BatchOk, E.Reportable;
    E.DeliverNext(s, batch, notify, if batch == [] then 0 else |batch| - 1);
    if batch != [] {
      var front, last := batch[..|batch| - 1], batch[|batch| - 1];
      assert batch[..|batch| - 1 + 1] == batch;
      BatchMiss(s, front, notify, fd);
      if last.0 != notify {
        E.ReportableRegistered(E.DeliverAll(s, front, notify), last.0, last.1);
        E.DeliveredElsewhere(E.DeliverAll(s, front, notify), last.0, last.1);
      }
    } else {
      assert batch[..0] == batch;
    }
  }

  /** On one descriptor, what was reported has been delivered. */
  ghost predicate DeliveredOn<N>(s: State<N>, r: State<N>, fd: int, come: Mask) {
    && E.ListAt(s, fd)
    && Entries(r, fd) == Asleep(s.recs, Entries(s, fd), come) && r.recs.Keys == s.recs.Keys
    && (forall n :: n in s.recs ==> r.recs[n].fd == s.recs[n].fd)
    && (forall n :: n in s.recs && s.recs[n].fd == fd ==>
          r.recs[n] == if n in Entries(s, fd) then WakeOne(s.recs, n, come)[n] else s.recs[n])
  }

  /** A descriptor that is in the list, with what was reported of it. */
  lemma {:induction false} BatchHit<N>(s: State<N>, batch: seq<(int, Mask)>, notify: int, i: nat)
    requires E.Inv(s) && E.BatchOk(s, batch, notify) && i < |batch| && batch[i].0 != notify
    ensures DeliveredOn(s, E.DeliverAll(s, batch, notify), batch[i].0, batch[i].1)
    decreases |batch|
  {
    hide Deliver, E.Reportable, DeliveredOn, E.Inv, E.BatchOk, E.DeliverAll, E.Elsewhere;
    var front, last := batch[..|batch| - 1], batch[|batch| - 1];
    LastApart(s, batch, notify);
    var t := E.DeliverAll(s, front, notify);
    E.DeliverNext(s, batch, notify, |batch| - 1);
    assert batch[..|batch| - 1 + 1] == batch;
    if i == |batch| - 1 {
      HitLast(s, front, notify, last.0, last.1);
    } else {
      BatchHit(s, front, notify, i);
      if last.0 != notify {
        E.ReportableRegistered(t, last.0, last.1);
        E.DeliveredElsewhere(t, last.0, last.1);
        HitStays(s, t, Deliver(t, last.0, last.1), batch[i].0, batch[i].1, last.0);
      }
    }
  }

  lemma LastApart<N>(s: State<N>, batch: seq<(int, Mask)>, notify: int)
    requires batch != [] && E.BatchOk(s, batch, notify)
    ensures E.BatchOk(s, batch[..|batch| - 1], notify)
    ensures forall i :: 0 <= i < |batch| - 1 ==> batch[..|batch| - 1][i] == batch[i] && batch[i].0 != batch[|batch| - 1].0
  {
  }

  lemma HitStays<N>(s: State<N>, t: State<N>, r: State<N>, fd: int, come: Mask, other: int)
    requires DeliveredOn(s, t, fd, come) && E.Elsewhere(t, r, other) && fd != other
    ensures DeliveredOn(s, r, fd, come)
  {
    hide Asleep;
  }

  lemma HitLast<N>(s: State<N>, front: seq<(int, Mask)>, notify: int, fd: int, come: Mask)
    requires E.Inv(s) && E.BatchOk(s, front, notify) && forall i :: 0 <= i < |front| ==> front[i].0 != fd
    requires E.Reportable(E.DeliverAll(s, front, notify), fd, come)
    ensures E.Lists(E.DeliverAll(s, front, notify))
    ensures DeliveredOn(s, Deliver(E.DeliverAll(s, front, notify), fd, come), fd, come)
  {
    hide E.DeliverAll, E.Inv, E.Reportable, SameOn, DeliveredOn;
    var t := E.DeliverAll(s, front, notify);
    BatchMiss(s, front, notify, fd);
    E.InvLists(s);
    E.InvLists(t);
    HitOne(t, fd, come);
    HitAfter(s, t, Deliver(t, fd, come), fd, come);
  }

  lemma HitOne<N>(t: State<N>, fd: int, come: Mask)
    requires E.Inv(t) && E.Reportable(t, fd, come)
    ensures E.Lists(t) && DeliveredOn(t, Deliver(t, fd, come), fd, come)
  {
    hide Deliver, Asleep, WakeOne;
    E.Delivered(t, fd, come);
    E.DeliveredElsewhere(t, fd, come);
    assert E.ListAt(t, fd);
  }

  lemma HitAfter<N>(s: State<N>, t: State<N>, r: State<N>, fd: int, come: Mask)
    requires E.Lists(s) && SameOn(s, t, fd) && DeliveredOn(t, r, fd, come)
    ensures DeliveredOn(s, r, fd, come)
  {
    hide Asleep;
    assert E.ListAt(s, fd);
    AsleepSame(s.recs, t.recs, Entries(s, fd), come);
  }

  lemma {:induction false} AsleepSame<N>(recs: map<N, Rec>, recs': map<N, Rec>, q: seq<N>, come: Mask)
    requires forall n :: n in q ==> n in recs && n in recs' && recs[n].events == recs'[n].events
    ensures Asleep(recs, q, come) == Asleep(recs', q, come)
  {
    if q == [] {
    } else {
      AsleepSame(recs, recs', q[..|q| - 1], come);
    }
  }

  /** What a full list of events does on one descriptor: whoever has something ready is woken
      with it, and the others stay, in their order. */
  lemma EpollWakes<N>(s: State<N>, batch: seq<(int, Mask)>, ready: int -> Mask, notify: int, fd: int)
    requires E.Inv(s) && FullBatch(s, batch, ready, notify) && fd != notify
    ensures E.ListAt(s, fd)
    ensures var r := E.DeliverAll(s, batch, notify);
      && Entries(r, fd) == NotDue(s.recs, Entries(s, fd), ready) && r.recs.Keys == s.recs.Keys
      && (forall n :: n in s.recs ==> r.recs[n].fd == s.recs[n].fd)
      && (forall n :: n in s.recs && s.recs[n].fd == fd ==> r.recs[n] == AfterReady(s.recs[n], n in Entries(s, fd), ready))
  {
    assert E.ListAt(s, fd);
    hide E.DeliverAll, Short, NotDue, Asleep, Wakes, S.Due, E.Inv;
    if i :| 0 <= i < |batch| && batch[i].0 == fd {
      BatchHit(s, batch, notify, i);
      forall n | n in Entries(s, fd)
        ensures Wakes(s.recs[n].events, batch[i].1) <==> S.Due(s.recs[n], ready)
        ensures WakeOne(s.recs, n, batch[i].1)[n] == AfterReady(s.recs[n], true, ready)
      {
        ReportedDue(s, fd, batch[i].1, ready, n);
      }
      AsleepNotDue(s.recs, Entries(s, fd), batch[i].1, ready);
    } else {
      BatchMiss(s, batch, notify, fd);
      forall n | n in Entries(s, fd)
        ensures !S.Due(s.recs[n], ready)
      {
        UnreportedNotDue(s, fd, ready, n);
      }
      NothingDue(s.recs, Entries(s, fd), ready);
    }
  }

  /** The record of a NetFD after what is ready was delivered. */
  ghost function AfterReady(r: Rec, parked: bool, ready: int -> Mask): Rec {
    if parked && S.Due(r, ready) then
      r.(revents := r.events * ready(r.fd), queued := r.queued + 1, timer := false, armed := false)
    else r
  }

  lemma ParkedCovered<N>(s: State<N>, fd: int, n: N)
    requires E.Inv(s) && n in Entries(s, fd)
    ensures fd in s.kernel && n in s.recs && s.recs[n].fd == fd && s.recs[n].events <= Short(s.kernel[fd])
  {
    assert E.Covered(s, fd);
    E.ParkedRequests(s, fd);
    UnionMember(s.recs, Entries(s, fd), n);
  }

  lemma ReportedDue<N>(s: State<N>, fd: int, come: Mask, ready: int -> Mask, n: N)
    requires E.Inv(s) && n in Entries(s, fd) && fd in s.kernel && n in s.recs
    requires come == Short(s.kernel[fd]) * ready(fd) && ready(fd) * EXCEPTION == {}
    ensures Wakes(s.recs[n].events, come) <==> S.Due(s.recs[n], ready)
    ensures WakeOne(s.recs, n, come)[n] == AfterReady(s.recs[n], true, ready)
  {
    hide Short;
    ParkedCovered(s, fd, n);
    assert s.recs[n].events * come == s.recs[n].events * ready(fd);
    assert come * EXCEPTION <= ready(fd) * EXCEPTION;
    assert come * EXCEPTION == {};
    assert s.recs[n].events * ready(fd) + {} == s.recs[n].events * ready(fd);
  }

  lemma UnreportedNotDue<N>(s: State<N>, fd: int, ready: int -> Mask, n: N)
    requires E.Inv(s) && n in Entries(s, fd)
    requires fd in s.kernel ==> Short(s.kernel[fd]) * ready(fd) == {}
    ensures n in s.recs && !S.Due(s.recs[n], ready)
  {
    hide Short;
    ParkedCovered(s, fd, n);
    assert s.recs[n].events * ready(fd) <= Short(s.kernel[fd]) * ready(fd);
  }

  /** The entries that select's scan leaves. */
  lemma SelectLeaves<N>(t: SelectState<N>, ready: int -> Mask, notify: int)
    requires S.SelectInv(t, notify)
    ensures Scan(t, ready).entries == NotDue(t.recs, t.entries, ready)
  {
    hide Hit, S.Due, Reported, ScanKept;
    var got := Reported(t.sets, t.maxfd, ready);
    forall n | n in t.entries ensures Hit(t.recs[n], got) <==> S.Due(t.recs[n], ready) {
      S.TidyScan(t, ready, n, notify);
    }
    KeptNotDue(t.recs, t.entries, got, ready);
  }

  lemma ParkedAlike<N>(s: State<N>, t: SelectState<N>, n: N, notify: int)
    requires E.Inv(s) && S.SelectInv(t, notify) && Agree(s, t) && n in s.recs
    ensures n in t.recs && s.recs[n].fd == t.recs[n].fd
    ensures n in t.entries <==> n in Entries(s, s.recs[n].fd)
    ensures n in t.entries ==> s.recs[n].events == t.recs[n].events && t.recs[n].fd != notify
    ensures n in t.entries ==> s.recs[n].queued == 0 && s.recs[n].owner && t.recs[n].queued == 0 && t.recs[n].owner
  {
    OnFdAre(t.recs, t.entries, s.recs[n].fd);
    assert Alike(s.recs[n], t.recs[n], n in t.entries);
    assert S.Stands(t.recs[n], n in t.entries, notify, t.maxfd);
  }

  /** The same readiness wakes the same NetFDs with the same events, and leaves the same ones
      parked. */
  lemma WakesAgree<N>(s: State<N>, t: SelectState<N>, batch: seq<(int, Mask)>, ready: int -> Mask, notify: int)
    requires E.Inv(s) && S.SelectInv(t, notify) && Agree(s, t) && FullBatch(s, batch, ready, notify)
    ensures S.Listed(Scan(t, ready)) && Agree(E.DeliverAll(s, batch, notify), Scan(t, ready))
  {
    var s', t' := E.DeliverAll(s, batch, notify), Scan(t, ready);
    S.ScanKeeps(t, ready, notify);
    hide E.DeliverAll, Scan, OnFd, NotDue, AfterReady, Alike;
    forall fd ensures Entries(s', fd) == OnFd(t'.recs, t'.entries, fd) {
      ListsAgree(s, t, batch, ready, notify, fd);
    }
    S.Scanned(t, ready, notify);
    EpollKeys(s, batch, notify);
    forall n | n in s'.recs ensures Alike(s'.recs[n], t'.recs[n], n in t'.entries) {
      RecordsAgree(s, t, batch, ready, notify, n);
    }
  }

  lemma EpollKeys<N>(s: State<N>, batch: seq<(int, Mask)>, notify: int)
    requires E.Inv(s) && E.BatchOk(s, batch, notify)
    ensures E.DeliverAll(s, batch, notify).recs.Keys == s.recs.Keys
    decreases |batch|
  {
    hide E.Inv, Deliver, E.Reportable, E.BatchOk;
    E.DeliverNext(s, batch, notify, if batch == [] then 0 else |batch| - 1);
    if batch != [] {
      var front, last := batch[..|batch| - 1], batch[|batch| - 1];
      assert batch[..|batch| - 1 + 1] == batch;
      EpollKeys(s, front, notify);
      if last.0 != notify {
        E.ReportableRegistered(E.DeliverAll(s, front, notify), last.0, last.1);
        E.DeliveredElsewhere(E.DeliverAll(s, front, notify), last.0, last.1);
      }
    } else {
      assert batch[..0] == batch;
    }
  }

  lemma ListsAgree<N>(s: State<N>, t: SelectState<N>, batch: seq<(int, Mask)>, ready: int -> Mask, notify: int, fd: int)
    requires E.Inv(s) && S.SelectInv(t, notify) && Agree(s, t) && FullBatch(s, batch, ready, notify)
    ensures S.Listed(Scan(t, ready))
    ensures var s', t' := E.DeliverAll(s, batch, notify), Scan(t, ready);
      Entries(s', fd) == OnFd(t'.recs, t'.entries, fd)
  {
    var s', t' := E.DeliverAll(s, batch, notify), Scan(t, ready);
    S.ScanKeeps(t, ready, notify);
    S.Scanned(t, ready, notify);
    hide E.DeliverAll, Scan, OnFd, NotDue, Alike;
    OnFdAre(t.recs, t.entries, fd);
    OnFdAre(t'.recs, t'.entries, fd);
    if fd == notify {
      BatchMiss(s, batch, notify, fd);
      NoneOnNotify(t, notify);
      NoneOnNotify(t', notify);
    } else {
      EpollWakes(s, batch, ready, notify, fd);
      SelectLeaves(t, ready, notify);
      forall n | n in Entries(s, fd) ensures s.recs[n].fd == t.recs[n].fd && s.recs[n].events == t.recs[n].events {
        ParkedAlike(s, t, n, notify);
      }
      NotDueSame(s.recs, t.recs, Entries(s, fd), ready);
      OnFdNotDue(t.recs, t.entries, ready, fd);
      forall n | n in t'.entries ensures t'.recs[n].fd == t.recs[n].fd {
      }
      OnFdSame(t.recs, t'.recs, t'.entries, fd);
    }
  }

  lemma {:induction false} OnFdNone<N>(recs: map<N, Rec>, q: seq<N>, fd: int)
    requires forall n :: n in q ==> n in recs && recs[n].fd != fd
    ensures OnFd(recs, q, fd) == []
  {
    if q == [] {
    } else {
      OnFdNone(recs, q[..|q| - 1], fd);
    }
  }

  lemma NoneOnNotify<N>(t: SelectState<N>, notify: int)
    requires S.SelectInv(t, notify)
    ensures OnFd(t.recs, t.entries, notify) == []
  {
    forall n | n in t.entries ensures t.recs[n].fd != notify {
      assert S.Stands(t.recs[n], true, notify, t.maxfd);
    }
    OnFdNone(t.recs, t.entries, notify);
  }

  lemma RecordsAgree<N>(s: State<N>, t: SelectState<N>, batch: seq<(int, Mask)>, ready: int -> Mask, notify: int, n: N)
    requires E.Inv(s) && S.SelectInv(t, notify) && Agree(s, t) && FullBatch(s, batch, ready, notify) && n in s.recs
    ensures var s', t' := E.DeliverAll(s, batch, notify), Scan(t, ready);
      n in s'.recs && n in t'.recs && Alike(s'.recs[n], t'.recs[n], n in t'.entries)
  {
    var s', t' := E.DeliverAll(s, batch, notify), Scan(t, ready);
    S.Scanned(t, ready, notify);
    ParkedAlike(s, t, n, notify);
    assert Alike(s.recs[n], t.recs[n], n in t.entries);
    assert S.Stands(t.recs[n], n in t.entries, notify, t.maxfd);
    EpollKeys(s, batch, notify);
    if n in t.entries {
      EpollWakes(s, batch, ready, notify, s.recs[n].fd);
      S.TidyScan(t, ready, n, notify);
    } else if s.recs[n].fd != notify {
      EpollWakes(s, batch, ready, notify, s.recs[n].fd);
    }
    hide E.DeliverAll, Scan, E.Inv, S.SelectInv, SameLists, FullBatch, NotDue;
  }

  // ---------------------------------------------------------------- the other steps

  lemma {:induction false} OnFdInsert<N>(recs: map<N, Rec>, q: seq<N>, n: N, fd: int)
    requires n in recs && forall m :: m in q ==> m in recs
    ensures forall m :: m in Insert(recs, q, n) ==> m in recs
    ensures OnFd(recs, Insert(recs, q, n), fd) == OnFd(recs, q, fd) + if recs[n].fd == fd then [n] else []
  {
    S.InsertAre(recs, q, n);
    if q != [] && recs[q[|q| - 1]].fd > recs[n].fd {
      var front, last := q[..|q| - 1], q[|q| - 1];
      OnFdInsert(recs, front, n, fd);
      OnFdSnoc(recs, Insert(recs, front, n), last, fd);
      OnFdSnoc(recs, front, last, fd);
      assert q == front + [last];
      hide OnFd;
    } else {
      OnFdSnoc(recs, q, n, fd);
    }
  }

  /** A call that both back ends take the same way: the descriptor is small enough for an fd_set,
      it is shared or nobody waits on it, the kernel does not refuse it, and select finds nothing
      stale in the NetFD. */
  ghost predicate Callable<N>(s: State<N>, t: SelectState<N>, n: N, request: Mask) {
    && n in s.recs && n in t.recs && !t.recs[n].owner && E.Single(request)
    && S.NothingStale(t.recs[n], request)
    && s.recs[n].fd < FD_SETSIZE && (s.recs[n].shared || Entries(s, s.recs[n].fd) == [])
  }

  lemma CallsAgree<N>(s: State<N>, t: SelectState<N>, n: N, request: Mask, limit: int, notify: int)
    requires E.Inv(s) && E.Exact(s) && S.SelectInv(t, notify) && Agree(s, t) && Callable(s, t, n, request)
    ensures !s.recs[n].owner && S.Listed(SelectSet.Enter(t, n, request))
    ensures Agree(WaitSet.Enter(s, n, request, false, true, limit), SelectSet.Enter(t, n, request))
  {
    var s', t' := WaitSet.Enter(s, n, request, false, true, limit), SelectSet.Enter(t, n, request);
    S.EnterKeeps(t, n, request, notify);
    assert Alike(s.recs[n], t.recs[n], n in t.entries);
    assert E.ExactAt(s, s.recs[n].fd);
    if E.Parks(s, n, request, true) {
      BothPark(s, t, n, request, limit, notify);
    } else {
      E.RefuseKeeps(s, n, request, false, true, limit);
      E.Unused(s, n);
      ParkedAlike(s, t, n, notify);
      hide WaitSet.Enter;
    }
  }

  lemma SelectParks<N>(t: SelectState<N>, n: N, request: Mask, notify: int)
    requires S.SelectInv(t, notify) && n in t.recs && !t.recs[n].owner && S.NothingStale(t.recs[n], request)
    requires S.Accepts(t, n, request)
    ensures var t' := SelectSet.Enter(t, n, request);
      && n !in t.entries && t'.recs == t.recs[n := t.recs[n].(events := request, owner := true)]
      && t'.entries == Insert(t'.recs, t.entries, n)
  {
    hide SelectSet.Enter, Insert, S.SetsExact, S.Accepts;
    S.Entered(t, n, request, notify);
    assert t.recs[n].events + request == request;
  }

  lemma BothPark<N>(s: State<N>, t: SelectState<N>, n: N, request: Mask, limit: int, notify: int)
    requires E.Inv(s) && S.SelectInv(t, notify) && Agree(s, t) && Callable(s, t, n, request) && !s.recs[n].owner
    requires E.Parks(s, n, request, true)
    requires S.Listed(SelectSet.Enter(t, n, request))
    ensures Agree(WaitSet.Enter(s, n, request, false, true, limit), SelectSet.Enter(t, n, request))
  {
    var s', t', fd := WaitSet.Enter(s, n, request, false, true, limit), SelectSet.Enter(t, n, request), s.recs[n].fd;
    hide WaitSet.Enter, SelectSet.Enter, OnFd, Insert, E.Parks, E.Inv, S.SelectInv;
    E.Called(s, n, request, false, true, limit);
    E.ParksAcceptable(s, n, request, true);
    assert Alike(s.recs[n], t.recs[n], n in t.entries);
    SelectParks(t, n, request, notify);
    hide Alike, S.NothingStale, E.Acceptable, S.Accepts, Callable;
    EntryJoins(s, t, s', t', n, fd);
  }

  /** A NetFD is parked by both. */
  lemma EntryJoins<N>(s: State<N>, t: SelectState<N>, s': State<N>, t': SelectState<N>, n: N, at: int)
    requires S.Listed(t) && S.Listed(t') && Agree(s, t) && n in s.recs && n in t.recs && n !in t.entries
    requires n in s'.recs && n in t'.recs && t'.recs[n].fd == at
    requires s'.recs == s.recs[n := s'.recs[n]] && t'.recs == t.recs[n := t'.recs[n]]
    requires Alike(s'.recs[n], t'.recs[n], true)
    requires Entries(s', at) == Entries(s, at) + [n] && forall f :: f != at ==> Entries(s', f) == Entries(s, f)
    requires t'.entries == Insert(t'.recs, t.entries, n)
    ensures Agree(s', t')
  {
    hide OnFd, Insert, Alike;
    S.InsertAre(t'.recs, t.entries, n);
    forall fd ensures Entries(s', fd) == OnFd(t'.recs, t'.entries, fd) {
      OnFdInsert(t'.recs, t.entries, n, fd);
      OnFdSame(t.recs, t'.recs, t.entries, fd);
    }
    forall m | m in s'.recs ensures Alike(s'.recs[m], t'.recs[m], m in t'.entries) {
      assert m != n ==> Alike(s.recs[m], t.recs[m], m in t.entries);
    }
  }

  /** Only the records of NetFDs that are not parked change. */
  lemma OthersAgree<N>(s: State<N>, t: SelectState<N>, s': State<N>, t': SelectState<N>, n: N)
    requires S.Listed(t) && Agree(s, t) && n in s'.recs && n in t'.recs && n !in t.entries
    requires s' == s.(recs := s.recs[n := s'.recs[n]]) && t' == t.(recs := t.recs[n := t'.recs[n]])
    requires Alike(s'.recs[n], t'.recs[n], false)
    ensures S.Listed(t') && Agree(s', t')
  {
    hide OnFd, Alike;
    forall fd ensures Entries(s', fd) == OnFd(t'.recs, t'.entries, fd) {
      OnFdSame(t.recs, t'.recs, t.entries, fd);
    }
  }

  /** With requests of one bit and no errors, a list of events keeps the kernel's masks exact. */
  lemma {:induction false} BatchExact<N>(s: State<N>, batch: seq<(int, Mask)>, notify: int, limit: int)
    requires E.Inv(s) && E.Exact(s) && E.SingleRequests(s) && E.BatchOk(s, batch, notify)
    requires forall i :: 0 <= i < |batch| && batch[i].0 != notify ==> batch[i].1 * EXCEPTION == {}
    ensures var r := E.DeliverAll(s, batch, notify);
      E.Inv(r) && E.Exact(r) && E.SingleRequests(r)
    decreases |batch|
  {
    hide E.Inv, E.Exact, Deliver, E.Reportable, E.SingleRequests, E.BatchOk;
    E.DeliverNext(s, batch, notify, if batch == [] then 0 else |batch| - 1);
    if batch != [] {
      var front, last := batch[..|batch| - 1], batch[|batch| - 1];
      assert batch[..|batch| - 1 + 1] == batch;
      BatchExact(s, front, notify, limit);
      if last.0 != notify {
        OneExact(E.DeliverAll(s, front, notify), last.0, last.1, limit);
      }
    } else {
      assert batch[..0] == batch;
    }
  }

  lemma OneExact<N>(s: State<N>, fd: int, come: Mask, limit: int)
    requires E.Inv(s) && E.Exact(s) && E.SingleRequests(s) && E.Reportable(s, fd, come) && come * EXCEPTION == {}
    ensures E.Lists(s)
    ensures var r := Deliver(s, fd, come);
      E.Inv(r) && E.Exact(r) && E.SingleRequests(r)
  {
    E.InvLists(s);
    hide Deliver, E.Inv, E.Exact, E.SingleRequests, E.Clean;
    E.SinglesListed(s, fd);
    E.SingleIsClean(s, fd, come);
    E.StepExact(s, E.Ready(fd, come), Deliver(s, fd, come), limit);
    E.StepSingle(s, E.Ready(fd, come), Deliver(s, fd, come), limit);
  }

  // ---------------------------------------------------------------- runs of both

  /** One step of both back ends.  No timeouts, errors or hang-ups.  A copy may bring in any
      requests and results, not the same ones in both. */
  datatype Joint<N> =
    | Assign(n: N, osfd: PollFd, selectOsfd: PollFd, shared: bool)
    | Call(n: N, request: Mask)
    | Ready(batch: seq<(int, Mask)>, ready: int -> Mask)
    | Return(n: N)

  ghost predicate Step<N>(s: State<N>, t: SelectState<N>, j: Joint<N>, s': State<N>, t': SelectState<N>, limit: int, notify: int)
    requires E.Inv(s) && S.Listed(t)
  {
    match j
    case Assign(n, osfd, selectOsfd, shared) =>
      && (n in t.recs ==> !t.recs[n].owner) && osfd.fd == selectOsfd.fd != notify
      && s' == WaitSet.Assign(s, n, osfd, shared) && t' == S.Reassign(t, n, selectOsfd, shared)
    case Call(n, request) =>
      && Callable(s, t, n, request)
      && s' == WaitSet.Enter(s, n, request, false, true, limit) && t' == SelectSet.Enter(t, n, request)
    case Ready(batch, ready) =>
      && FullBatch(s, batch, ready, notify)
      && s' == E.DeliverAll(s, batch, notify) && t' == Wait(t, ready)
    case Return(n) =>
      && n in s.recs && s.recs[n].queued > 0 && n in t.recs && t.recs[n].queued > 0
      && s' == WaitSet.Leave(s, n) && t' == SelectSet.Leave(t, n)
  }

  ghost predicate JointInv<N>(s: State<N>, t: SelectState<N>, notify: int) {
    E.Inv(s) && E.Exact(s) && S.SelectInv(t, notify) && Agree(s, t)
  }

  lemma SinglesToo<N>(s: State<N>, t: SelectState<N>, notify: int)
    requires JointInv(s, t, notify)
    ensures E.SingleRequests(s)
  {
    forall n | n in s.recs && Parked(s, n) ensures E.Single(s.recs[n].events) {
      ParkedAlike(s, t, n, notify);
      assert S.Tidy(t.recs[n]);
    }
  }

  lemma StepAgrees<N>(s: State<N>, t: SelectState<N>, j: Joint<N>, s': State<N>, t': SelectState<N>, limit: int, notify: int)
    requires JointInv(s, t, notify) && Step(s, t, j, s', t', limit, notify)
    ensures JointInv(s', t', notify)
  {
    hide E.Inv, E.Exact, S.SetsExact, Agree, FullBatch, E.DeliverAll, Wait, Scan, Callable, WaitSet.Enter, SelectSet.Enter;
    match j {
      case Assign(n, osfd, selectOsfd, shared) => AssignAgrees(s, t, n, osfd, selectOsfd, shared, notify);
      case Call(n, request) =>
        CallsAgree(s, t, n, request, limit, notify);
        CallableBoth(s, t, n, request);
        S.EnterKeeps(t, n, request, notify);
        E.StepExact(s, E.Call(n, request, false, true), s', limit);
      case Ready(batch, ready) =>
        SinglesToo(s, t, notify);
        NoErrors(s, batch, ready, notify);
        BatchExact(s, batch, notify, limit);
        S.WaitIsScan(t, ready, notify);
        S.ScanKeeps(t, ready, notify);
        WakesAgree(s, t, batch, ready, notify);
      case Return(n) => ReturnAgrees(s, t, n, notify);
    }
  }

  lemma CallableBoth<N>(s: State<N>, t: SelectState<N>, n: N, request: Mask)
    requires Callable(s, t, n, request)
    ensures n in s.recs && n in t.recs && !t.recs[n].owner && E.Single(request) && S.NothingStale(t.recs[n], request)
  {
  }

  lemma NoErrors<N>(s: State<N>, batch: seq<(int, Mask)>, ready: int -> Mask, notify: int)
    requires FullBatch(s, batch, ready, notify)
    ensures E.BatchOk(s, batch, notify)
    ensures forall i :: 0 <= i < |batch| && batch[i].0 != notify ==> batch[i].1 * EXCEPTION == {}
  {
    hide Short;
    forall i | 0 <= i < |batch| && batch[i].0 != notify ensures batch[i].1 * EXCEPTION == {} {
      assert batch[i].1 * EXCEPTION <= ready(batch[i].0) * EXCEPTION;
    }
  }

  lemma AssignAgrees<N>(s: State<N>, t: SelectState<N>, n: N, osfd: PollFd, selectOsfd: PollFd, shared: bool, notify: int)
    requires JointInv(s, t, notify) && (n in t.recs ==> !t.recs[n].owner) && osfd.fd == selectOsfd.fd != notify
    ensures JointInv(WaitSet.Assign(s, n, osfd, shared), S.Reassign(t, n, selectOsfd, shared), notify)
  {
    if n in s.recs {
      assert Alike(s.recs[n], t.recs[n], n in t.entries);
    }
    assert n in t.recs ==> S.Stands(t.recs[n], n in t.entries, notify, t.maxfd);
    hide S.SetsExact, E.Exact, OnFd, SameLists;
    E.AssignKeeps(s, n, osfd, shared);
    S.OtherMove(t, S.Assigned(n, selectOsfd, shared), S.Reassign(t, n, selectOsfd, shared), notify);
    OthersAgree(s, t, WaitSet.Assign(s, n, osfd, shared), S.Reassign(t, n, selectOsfd, shared), n);
  }

  lemma ReturnAgrees<N>(s: State<N>, t: SelectState<N>, n: N, notify: int)
    requires JointInv(s, t, notify)
    requires n in s.recs && s.recs[n].queued > 0 && n in t.recs && t.recs[n].queued > 0
    ensures JointInv(WaitSet.Leave(s, n), SelectSet.Leave(t, n), notify)
  {
    assert Alike(s.recs[n], t.recs[n], n in t.entries);
    assert S.Stands(t.recs[n], n in t.entries, notify, t.maxfd);
    hide S.SetsExact, E.Exact, OnFd, SameLists;
    E.ReturnKeeps(s, n);
    S.OtherMove(t, S.Returned(n), SelectSet.Leave(t, n), notify);
    OthersAgree(s, t, WaitSet.Leave(s, n), SelectSet.Leave(t, n), n);
  }

  /** Inv and Listed are mentioned to make the steps well defined; RunAgrees shows that they
      always hold. */
  ghost predicate IsRun<N>(ss: seq<State<N>>, ts: seq<SelectState<N>>, js: seq<Joint<N>>, limit: int, notify: int) {
    && |ss| == |ts| == |js| + 1 && notify >= 0
    && ss[0].recs == map[] && ss[0].fdMap == map[] && ss[0].kernel == map[] && ss[0].cnt == 0
    && ts[0] == SelectState(map[], [], FdSets({notify}, {}, {}), notify)
    && forall i :: 0 <= i < |js| ==>
         E.Inv(ss[i]) && S.Listed(ts[i]) && Step(ss[i], ts[i], js[i], ss[i + 1], ts[i + 1], limit, notify)
  }

  lemma {:induction false} RunAgrees<N>(ss: seq<State<N>>, ts: seq<SelectState<N>>, js: seq<Joint<N>>, limit: int, notify: int, k: nat)
    requires IsRun(ss, ts, js, limit, notify) && k <= |js|
    ensures JointInv(ss[k], ts[k], notify)
  {
    hide Step;
    if k == 0 {
      S.InitKeeps(ts[0], notify);
    } else {
      hide JointInv;
      RunAgrees(ss, ts, js, limit, notify, k - 1);
      StepAgrees(ss[k - 1], ts[k - 1], js[k - 1], ss[k], ts[k], limit, notify);
    }
  }

  /** Both back ends wake n in this step, with the same events, or neither does. */
  ghost predicate BothWake<N>(s: State<N>, t: SelectState<N>, s': State<N>, t': SelectState<N>, n: N) {
    && n in s'.recs && n in t'.recs
    && (Parked(s, n) <==> n in t.entries) && (Parked(s', n) <==> n in t'.entries)
    && (Parked(s, n) && !Parked(s', n) ==>
          s'.recs[n].queued == t'.recs[n].queued == 1 && s'.recs[n].revents == t'.recs[n].revents)
  }

  /** In every such run, at every step, both wake the same NetFDs, and each with the same
      events; and on every descriptor the same NetFDs stay parked. */
  lemma SameWakeUps<N>(ss: seq<State<N>>, ts: seq<SelectState<N>>, js: seq<Joint<N>>, limit: int, notify: int, k: nat, n: N)
    requires IsRun(ss, ts, js, limit, notify) && k < |js| && n in ss[k].recs
    ensures BothWake(ss[k], ts[k], ss[k + 1], ts[k + 1], n)
    ensures S.Listed(ts[k + 1]) && SameLists(ss[k + 1], ts[k + 1])
  {
    hide Step, BothWake, JointInv;
    RunAgrees(ss, ts, js, limit, notify, k);
    RunAgrees(ss, ts, js, limit, notify, k + 1);
    WakesTogether(ss[k], ts[k], js[k], ss[k + 1], ts[k + 1], limit, notify, n);
  }

  lemma WakesTogether<N>(s: State<N>, t: SelectState<N>, j: Joint<N>, s': State<N>, t': SelectState<N>, limit: int, notify: int, n: N)
    requires JointInv(s, t, notify) && Step(s, t, j, s', t', limit, notify) && JointInv(s', t', notify) && n in s.recs
    ensures BothWake(s, t, s', t', n) && S.Listed(t') && SameLists(s', t')
  {
    RecordStays(s, t, j, s', t', limit, notify, n);
    hide Step, E.Inv, S.SetsExact, E.Exact, OnFd;
    ParkedAlike(s, t, n, notify);
    ParkedAlike(s', t', n, notify);
    assert Alike(s'.recs[n], t'.recs[n], n in t'.entries);
    assert S.Stands(t'.recs[n], n in t'.entries, notify, t'.maxfd);
  }

  /** Records are never removed, and a NetFD that leaves its list is still owned. */
  ghost predicate Stays<N>(s: State<N>, t: SelectState<N>, s': State<N>, t': SelectState<N>, n: N) {
    n in s'.recs && (n in t.entries ==> n in t.recs && n in t'.recs && t'.recs[n].owner)
  }

  lemma CallStays<N>(s: State<N>, t: SelectState<N>, m: N, request: Mask, limit: int, notify: int, n: N)
    requires JointInv(s, t, notify) && Callable(s, t, m, request) && n in s.recs
    ensures E.Lists(s) && S.Listed(t) && m in s.recs && m in t.recs
    ensures Stays(s, t, WaitSet.Enter(s, m, request, false, true, limit), SelectSet.Enter(t, m, request), n)
  {
    ParkedAlike(s, t, n, notify);
    hide WaitSet.Enter, SelectSet.Enter, E.Inv, S.SetsExact, E.Exact, Agree;
    E.InvLists(s);
    EnterKeepsRecords(s, m, request, limit);
    if n in t.entries {
      SelectKeepsRecords(t, m, request, n);
    }
  }

  lemma EnterKeepsRecords<N>(s: State<N>, m: N, request: Mask, limit: int)
    requires E.Lists(s) && m in s.recs
    ensures WaitSet.Enter(s, m, request, false, true, limit).recs.Keys == s.recs.Keys
  {
    hide Union, Short, Grown;
  }

  lemma SelectKeepsRecords<N>(t: SelectState<N>, m: N, request: Mask, n: N)
    requires S.Listed(t) && m in t.recs && n in t.recs && n != m
    ensures var t' := SelectSet.Enter(t, m, request);
      n in t'.recs && t'.recs[n] == t.recs[n]
    ensures m in SelectSet.Enter(t, m, request).recs
  {
    hide Insert;
  }

  lemma ReadyStays<N>(s: State<N>, t: SelectState<N>, batch: seq<(int, Mask)>, ready: int -> Mask, notify: int, n: N)
    requires JointInv(s, t, notify) && FullBatch(s, batch, ready, notify) && n in s.recs
    ensures S.Listed(t) && Stays(s, t, E.DeliverAll(s, batch, notify), Scan(t, ready), n)
  {
    ParkedAlike(s, t, n, notify);
    hide E.DeliverAll, Scan, E.Inv, S.SetsExact, E.Exact, SameLists, S.Due;
    EpollKeys(s, batch, notify);
    S.Scanned(t, ready, notify);
  }

  lemma RecordStays<N>(s: State<N>, t: SelectState<N>, j: Joint<N>, s': State<N>, t': SelectState<N>, limit: int, notify: int, n: N)
    requires JointInv(s, t, notify) && Step(s, t, j, s', t', limit, notify) && n in s.recs
    ensures Stays(s, t, s', t', n)
  {
    ParkedAlike(s, t, n, notify);
    hide E.DeliverAll, Scan, WaitSet.Enter, SelectSet.Enter, Callable, FullBatch, Agree, E.Inv, E.Exact, S.SelectInv;
    match j {
      case Call(m, request) => CallStays(s, t, m, request, limit, notify, n);
      case Ready(batch, ready) => ReadyStays(s, t, batch, ready, notify, n);
      case _ =>
    }
  }
}
