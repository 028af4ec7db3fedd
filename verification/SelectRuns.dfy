/** Every run of the select wait set without timeouts.  What is always kept is Sound.  The three
    fd_sets are exact (SelectInv) as long as requests have one bit and no Poll finds anything
    stale in its NetFD's pollfd. */
module SelectRuns {
  import opened Basics
  import opened WaitSet
  import opened EpollRuns
  import opened SelectSet

  /** No timeouts: Poll has none, or it never expires.  Copying may bring in any pollfd. */
  datatype Move<N> =
    | Assigned(n: N, osfd: PollFd, shared: bool)
    | Called(n: N, request: Mask)
    | Selected(ready: int -> Mask)
    | Returned(n: N)

  ghost predicate Can<N>(t: SelectState<N>, m: Move<N>, notify: int) {
    match m
    case Assigned(n, osfd, _) => (n in t.recs ==> !t.recs[n].owner) && osfd.fd != notify
    case Called(n, _) => n in t.recs && !t.recs[n].owner
    case Selected(_) => true
    case Returned(n) => n in t.recs && t.recs[n].queued > 0
  }

  /** A NetFD that no Poll uses is made or assigned to. */
  function Reassign<N(==)>(t: SelectState<N>, n: N, osfd: PollFd, shared: bool): SelectState<N> {
    var r := if n in t.recs then t.recs[n] else Rec(-1, false, {}, {}, false, false, false, false, 0);
    t.(recs := t.recs[n := r.(fd := osfd.fd, shared := shared, events := osfd.events, revents := osfd.revents)])
  }

  ghost predicate Moves<N>(t: SelectState<N>, m: Move<N>, t': SelectState<N>, notify: int)
    requires Listed(t)
  {
    && Can(t, m, notify)
    && t' == match m
             case Assigned(n, osfd, shared) => Reassign(t, n, osfd, shared)
             case Called(n, request) => SelectSet.Enter(t, n, request)
             case Selected(ready) => Wait(t, ready)
             case Returned(n) => SelectSet.Leave(t, n)
  }

  // ---------------------------------------------------------------- the invariants

  ghost predicate Listed<N>(t: SelectState<N>) {
    Distinct(t.entries) && forall n :: n in t.entries ==> n in t.recs
  }

  /** A NetFD is parked, or it was woken and its task waits in the run queue, or it is unused. */
  ghost predicate Stands(r: Rec, parked: bool, notify: int, maxfd: int) {
    && !r.timer && !r.armed && r.fd != notify
    && if parked then r.owner && r.queued == 0 && 0 <= r.fd <= maxfd
       else r.queued == if r.owner then 1 else 0
  }

  ghost predicate Sound<N>(t: SelectState<N>, notify: int) {
    && Listed(t) && 0 <= notify <= t.maxfd
    && forall n :: n in t.recs ==> Stands(t.recs[n], n in t.entries, notify, t.maxfd)
  }

  /** One event is asked for, and no result is left on the NetFD. */
  ghost predicate Tidy(r: Rec) {
    r.events != {} && r.events <= REQUESTABLE && Single(r.events) && r.revents == {}
  }

  /** Some parked NetFD asks for this event of this descriptor, and there is a set for it. */
  ghost predicate Asks<N>(recs: map<N, Rec>, q: seq<N>, fd: int, e: Event)
    requires forall n :: n in q ==> n in recs
  {
    e in REQUESTABLE && exists n :: n in q && recs[n].fd == fd && e in recs[n].events
  }

  /** A descriptor is in a set if and only if a parked NetFD asks for it, or it is that of the
      interrupter in the read set. */
  ghost predicate SetsExact<N>(t: SelectState<N>, notify: int)
    requires Listed(t)
  {
    forall fd, e :: e in t.sets.At(fd) <==> Asks(t.recs, t.entries, fd, e) || (fd == notify && e == In)
  }

  /** Whatever a parked NetFD asks for is in its set. */
  ghost predicate Watched<N>(t: SelectState<N>)
    requires Listed(t)
  {
    forall n, e :: n in t.entries && e in t.recs[n].events && e in REQUESTABLE ==> e in t.sets.At(t.recs[n].fd)
  }

  ghost predicate SelectInv<N>(t: SelectState<N>, notify: int) {
    && Sound(t, notify) && SetsExact(t, notify)
    && forall n :: n in t.entries ==> Tidy(t.recs[n])
  }

  // ---------------------------------------------------------------- the scan

  lemma AtReported(sets: FdSets, maxfd: int, ready: int -> Mask, fd: int)
    ensures Reported(sets, maxfd, ready).At(fd) == if fd <= maxfd then sets.At(fd) * ready(fd) else {}
  {
    var got := Reported(sets, maxfd, ready);
    forall e ensures e in got.At(fd) <==> e in sets.At(fd) && fd <= maxfd && e in ready(fd) {
    }
  }

  lemma {:induction false} ScanRecsAt<N>(recs: map<N, Rec>, q: seq<N>, got: FdSets, n: N)
    requires (forall m :: m in q ==> m in recs) && n in recs
    ensures ScanRecs(recs, q, got)[n] == if n in q then Visited(recs[n], got) else recs[n]
  {
    if q == [] {
    } else {
      ScanRecsAt(recs, q[..|q| - 1], got, n);
      assert q == q[..|q| - 1] + [q[|q| - 1]];
    }
  }

  lemma {:induction false} ScanKeptAre<N>(recs: map<N, Rec>, q: seq<N>, got: FdSets)
    requires forall n :: n in q ==> n in recs
    ensures forall n :: n in ScanKept(recs, q, got) ==> n in q && !Hit(recs[n], got)
    ensures forall n :: n in q && !Hit(recs[n], got) ==> n in ScanKept(recs, q, got)
  {
    hide Hit;
    if q == [] {
    } else {
      var front, last := q[..|q| - 1], q[|q| - 1];
      ScanKeptAre(recs, front, got);
      assert q == front + [last];
    }
  }

  lemma {:induction false} ScanKeptDistinct<N>(recs: map<N, Rec>, q: seq<N>, got: FdSets)
    requires Distinct(q) && forall n :: n in q ==> n in recs
    ensures Distinct(ScanKept(recs, q, got))
  {
    hide Hit;
    if q == [] {
    } else {
      var front, last := q[..|q| - 1], q[|q| - 1];
      ScanKeptDistinct(recs, front, got);
      ScanKeptAre(recs, front, got);
      assert last !in front;
    }
  }

  /** Some NetFD is woken for this event of this descriptor. */
  ghost predicate HitFor<N>(recs: map<N, Rec>, q: seq<N>, got: FdSets, fd: int, e: Event)
    requires forall n :: n in q ==> n in recs
  {
    exists n :: n in q && recs[n].fd == fd && Hit(recs[n], got) && e in Revents(recs[n], got)
  }

  lemma AtCleared(r: Rec, got: FdSets, sets: FdSets, fd: int, e: Event)
    ensures e in Cleared(r, got, sets).At(fd) <==>
      e in sets.At(fd) && !(r.fd == fd && Hit(r, got) && e in Revents(r, got))
  {
    hide Hit, Revents;
  }

  lemma {:induction false} ScanSetsAt<N>(recs: map<N, Rec>, q: seq<N>, got: FdSets, sets: FdSets, fd: int, e: Event)
    requires forall n :: n in q ==> n in recs
    ensures e in ScanSets(recs, q, got, sets).At(fd) <==> e in sets.At(fd) && !HitFor(recs, q, got, fd, e)
  {
    hide Hit, Revents, Cleared, FdSets.At;
    if q == [] {
    } else {
      var front, last := q[..|q| - 1], q[|q| - 1];
      assert q == front + [last];
      ScanSetsAt(recs, front, got, sets, fd, e);
      AtCleared(recs[last], got, ScanSets(recs, front, got, sets), fd, e);
    }
  }

  lemma ExactWatched<N>(t: SelectState<N>, notify: int)
    requires Listed(t) && SetsExact(t, notify)
    ensures Watched(t)
  {
    hide FdSets.At;
    forall n, e | n in t.entries && e in t.recs[n].events && e in REQUESTABLE
      ensures e in t.sets.At(t.recs[n].fd)
    {
      assert Asks(t.recs, t.entries, t.recs[n].fd, e);
    }
  }

  /** What a scan has for one entry, in terms of what is ready: what was already left on it, and
      what is ready of what it asks for. */
  function Found(r: Rec, ready: int -> Mask): Mask {
    r.revents + (r.events * (REQUESTABLE * ready(r.fd)))
  }

  predicate Rouses(r: Rec, ready: int -> Mask) {
    Found(r, ready) * r.events != {}
  }

  /** Something that the NetFD asks for is ready. */
  predicate Due(r: Rec, ready: int -> Mask) {
    r.events * ready(r.fd) != {}
  }

  /** The sets have what one parked NetFD asks for. */
  ghost predicate WatchedFor<N>(t: SelectState<N>, n: N)
    requires n in t.recs
  {
    t.recs[n].events * REQUESTABLE <= t.sets.At(t.recs[n].fd)
  }

  lemma AllWatched<N>(t: SelectState<N>, n: N)
    requires Listed(t) && Watched(t) && n in t.entries
    ensures WatchedFor(t, n)
  {
    hide FdSets.At;
  }

  lemma AtBound(sets: FdSets, fd: int)
    ensures sets.At(fd) <= REQUESTABLE
  {
  }

  /** As long as the sets have what is asked for, the scan finds what is ready. */
  lemma ScanFinds<N>(t: SelectState<N>, ready: int -> Mask, n: N, notify: int)
    requires Sound(t, notify) && n in t.entries && WatchedFor(t, n)
    ensures var r, got := t.recs[n], Reported(t.sets, t.maxfd, ready);
      Revents(r, got) == Found(r, ready) && (Hit(r, got) <==> Rouses(r, ready))
  {
    var r, got := t.recs[n], Reported(t.sets, t.maxfd, ready);
    assert Stands(r, true, notify, t.maxfd);
    AtReported(t.sets, t.maxfd, ready, r.fd);
    AtBound(t.sets, r.fd);
    SameFound(r.events, t.sets.At(r.fd), ready(r.fd));
    hide FdSets.At, Reported, Stands, Listed;
  }

  lemma SameFound(events: Mask, at: Mask, come: Mask)
    requires events * REQUESTABLE <= at <= REQUESTABLE
    ensures events * (at * come) == events * (REQUESTABLE * come)
  {
  }

  /** With one event asked for and nothing left over, that is whether and what. */
  lemma TidyFinds(r: Rec, ready: int -> Mask)
    requires Tidy(r)
    ensures Rouses(r, ready) <==> Due(r, ready)
    ensures Found(r, ready) == r.events * ready(r.fd)
    ensures Due(r, ready) ==> Found(r, ready) == r.events
  {
    assert r.events * (REQUESTABLE * ready(r.fd)) == r.events * ready(r.fd);
    if Due(r, ready) {
      var e :| e in r.events * ready(r.fd);
      assert r.events == {e};
    }
  }

  lemma TidyScan<N>(t: SelectState<N>, ready: int -> Mask, n: N, notify: int)
    requires SelectInv(t, notify) && n in t.entries
    ensures var r, got := t.recs[n], Reported(t.sets, t.maxfd, ready);
      && Tidy(r) && Revents(r, got) == r.events * ready(r.fd)
      && (Hit(r, got) <==> Due(r, ready))
      && (Due(r, ready) ==> Revents(r, got) == r.events)
  {
    hide Revents, Hit, Reported, Tidy, Due, Found, Rouses, SetsExact, Watched;
    ExactWatched(t, notify);
    AllWatched(t, n);
    ScanFinds(t, ready, n, notify);
    TidyFinds(t.recs[n], ready);
  }

  /** What a scan leaves, whatever the sets hold. */
  lemma ScanLeaves<N>(t: SelectState<N>, ready: int -> Mask)
    requires Listed(t)
    ensures Listed(Scan(t, ready))
    ensures var t', got := Scan(t, ready), Reported(t.sets, t.maxfd, ready);
      && t'.recs.Keys == t.recs.Keys && t'.maxfd == t.maxfd
      && (forall n :: n in t'.entries ==> n in t.entries && !Hit(t.recs[n], got))
      && (forall n :: n in t.entries && !Hit(t.recs[n], got) ==> n in t'.entries)
      && (forall n :: n in t.recs ==> t'.recs[n] == if n in t.entries then Visited(t.recs[n], got) else t.recs[n])
  {
    var got := Reported(t.sets, t.maxfd, ready);
    hide FdSets.At, Reported, ScanRecs, ScanKept, ScanSets, Hit, Visited;
    ScanKeptAre(t.recs, t.entries, got);
    ScanKeptDistinct(t.recs, t.entries, got);
    forall n | n in t.recs
      ensures ScanRecs(t.recs, t.entries, got)[n] == if n in t.entries then Visited(t.recs[n], got) else t.recs[n]
    {
      ScanRecsAt(t.recs, t.entries, got, n);
    }
  }

  /** A set is cleared of a descriptor exactly if some NetFD was woken for it. */
  lemma ScanClears<N>(t: SelectState<N>, ready: int -> Mask, fd: int, e: Event)
    requires Listed(t)
    ensures e in Scan(t, ready).sets.At(fd) <==>
      e in t.sets.At(fd) && !HitFor(t.recs, t.entries, Reported(t.sets, t.maxfd, ready), fd, e)
  {
    ScanSetsAt(t.recs, t.entries, Reported(t.sets, t.maxfd, ready), t.sets, fd, e);
  }

  lemma VisitStands(r: Rec, got: FdSets, notify: int, maxfd: int)
    requires Stands(r, true, notify, maxfd)
    ensures Stands(Visited(r, got), !Hit(r, got), notify, maxfd)
  {
    hide Hit, Revents;
  }

  lemma ScanSound<N>(t: SelectState<N>, ready: int -> Mask, notify: int)
    requires Sound(t, notify)
    ensures Sound(Scan(t, ready), notify)
  {
    var t', got := Scan(t, ready), Reported(t.sets, t.maxfd, ready);
    ScanLeaves(t, ready);
    hide Scan, Reported, Hit, Visited, Stands;
    forall n | n in t'.recs ensures Stands(t'.recs[n], n in t'.entries, notify, t'.maxfd) {
      assert Stands(t.recs[n], n in t.entries, notify, t.maxfd);
      if n in t.entries {
        VisitStands(t.recs[n], got, notify, t.maxfd);
      }
    }
  }

  // ---------------------------------------------------------------- when a scan keeps the sets

  /** Whoever is woken holds no stale result that a sleeper on the descriptor asks for. */
  ghost predicate Considerate<N>(t: SelectState<N>, ready: int -> Mask)
    requires Listed(t)
  {
    forall n, m :: n in t.entries && m in t.entries && Rouses(t.recs[n], ready) && !Rouses(t.recs[m], ready) ==>
      t.recs[n].fd == t.recs[m].fd ==> t.recs[n].revents * t.recs[m].events * REQUESTABLE == {}
  }

  /** Somebody is woken for this event of this descriptor. */
  ghost predicate RousedFor<N>(t: SelectState<N>, ready: int -> Mask, fd: int, e: Event)
    requires Listed(t)
  {
    exists n :: n in t.entries && t.recs[n].fd == fd && Rouses(t.recs[n], ready) && e in Found(t.recs[n], ready)
  }

  /** Somebody sleeps on, asking for this event of this descriptor. */
  ghost predicate SleepsFor<N>(t: SelectState<N>, ready: int -> Mask, fd: int, e: Event)
    requires Listed(t)
  {
    exists n :: n in t.entries && t.recs[n].fd == fd && !Rouses(t.recs[n], ready) && e in t.recs[n].events
  }

  /** Whatever a woken NetFD asked for is reported to somebody, or somebody else still asks
      for it. */
  ghost predicate Thorough<N>(t: SelectState<N>, ready: int -> Mask)
    requires Listed(t)
  {
    forall n, e :: n in t.entries && Rouses(t.recs[n], ready) && e in t.recs[n].events && e in REQUESTABLE ==>
      RousedFor(t, ready, t.recs[n].fd, e) || SleepsFor(t, ready, t.recs[n].fd, e)
  }

  lemma HitsAre<N>(t: SelectState<N>, ready: int -> Mask, notify: int)
    requires Sound(t, notify) && Watched(t)
    ensures forall n :: n in t.entries ==>
      (Hit(t.recs[n], Reported(t.sets, t.maxfd, ready)) <==> Rouses(t.recs[n], ready))
    ensures forall fd, e :: HitFor(t.recs, t.entries, Reported(t.sets, t.maxfd, ready), fd, e) <==> RousedFor(t, ready, fd, e)
  {
    var got := Reported(t.sets, t.maxfd, ready);
    hide Reported, Hit, Revents, Found, Rouses, Watched;
    forall n | n in t.entries
      ensures Hit(t.recs[n], got) <==> Rouses(t.recs[n], ready)
      ensures Revents(t.recs[n], got) == Found(t.recs[n], ready)
    {
      AllWatched(t, n);
      ScanFinds(t, ready, n, notify);
    }
  }

  /** The sets after a scan, in terms of what was ready. */
  lemma ScannedSets<N>(t: SelectState<N>, ready: int -> Mask, notify: int, fd: int, e: Event)
    requires Sound(t, notify) && Watched(t)
    ensures e in Scan(t, ready).sets.At(fd) <==> e in t.sets.At(fd) && !RousedFor(t, ready, fd, e)
  {
    ScanClears(t, ready, fd, e);
    HitsAre(t, ready, notify);
  }

  /** Who is parked after a scan, and for what. */
  lemma Sleepers<N>(t: SelectState<N>, ready: int -> Mask, notify: int)
    requires Sound(t, notify) && Watched(t)
    ensures Listed(Scan(t, ready))
    ensures var t' := Scan(t, ready);
      && (forall n :: n in t'.entries ==> n in t.entries && !Rouses(t.recs[n], ready))
      && (forall n :: n in t.entries && !Rouses(t.recs[n], ready) ==> n in t'.entries)
      && (forall n :: n in t'.entries ==> t'.recs[n].fd == t.recs[n].fd && t'.recs[n].events == t.recs[n].events)
  {
    HitsAre(t, ready, notify);
    ScanLeaves(t, ready);
    hide Scan, Reported, Hit, Revents, Rouses;
  }

  /** What a sleeper asks for is not ready. */
  lemma SleeperMisses(r: Rec, ready: int -> Mask, e: Event)
    requires !Rouses(r, ready) && e in r.events && e in REQUESTABLE
    ensures e !in ready(r.fd)
  {
    assert e in ready(r.fd) ==> e in Found(r, ready) * r.events;
  }

  lemma NoneShared(a: Mask, b: Mask, e: Event)
    requires a * b * REQUESTABLE == {} && e in b && e in REQUESTABLE
    ensures e !in a
  {
    assert e in a ==> e in a * b * REQUESTABLE;
  }

  /** So if somebody is woken for what a sleeper asks for, that is a stale result. */
  lemma SleeperSpared<N>(t: SelectState<N>, ready: int -> Mask, m: N, e: Event)
    requires Listed(t) && Considerate(t, ready) && m in t.entries && !Rouses(t.recs[m], ready)
    requires e in t.recs[m].events && e in REQUESTABLE
    ensures !RousedFor(t, ready, t.recs[m].fd, e)
  {
    SleeperMisses(t.recs[m], ready, e);
    forall n | n in t.entries && t.recs[n].fd == t.recs[m].fd && Rouses(t.recs[n], ready)
      ensures e !in Found(t.recs[n], ready)
    {
      NoneShared(t.recs[n].revents, t.recs[m].events, e);
    }
  }

  lemma StaleRouses<N>(t: SelectState<N>, ready: int -> Mask) returns (m: N, e: Event)
    requires Listed(t) && !Considerate(t, ready)
    ensures m in t.entries && !Rouses(t.recs[m], ready) && e in t.recs[m].events && e in REQUESTABLE
    ensures RousedFor(t, ready, t.recs[m].fd, e)
  {
    var n;
    n, m :| n in t.entries && m in t.entries && t.recs[n].fd == t.recs[m].fd
      && Rouses(t.recs[n], ready) && !Rouses(t.recs[m], ready)
      && t.recs[n].revents * t.recs[m].events * REQUESTABLE != {};
    e :| e in t.recs[n].revents * t.recs[m].events * REQUESTABLE;
    assert e in Found(t.recs[n], ready);
  }

  /** A scan leaves everything watched that is asked for, if and only if nobody is woken with a
      stale result that a sleeper asks for. */
  lemma ScanWatchedIff<N>(t: SelectState<N>, ready: int -> Mask, notify: int)
    requires Sound(t, notify) && Watched(t)
    ensures Listed(Scan(t, ready)) && (Watched(Scan(t, ready)) <==> Considerate(t, ready))
  {
    var t' := Scan(t, ready);
    Sleepers(t, ready, notify);
    hide Scan, FdSets.At, Rouses, Found, Considerate, RousedFor;
    if !Considerate(t, ready) {
      var m, e := StaleRouses(t, ready);
      ScannedSets(t, ready, notify, t.recs[m].fd, e);
      assert m in t'.entries && e in t'.recs[m].events;
    } else {
      forall n, e | n in t'.entries && e in t'.recs[n].events && e in REQUESTABLE
        ensures e in t'.sets.At(t'.recs[n].fd)
      {
        ScannedSets(t, ready, notify, t.recs[n].fd, e);
        SleeperSpared(t, ready, n, e);
      }
    }
  }

  /** It leaves the sets exact if and only if, besides, whatever a woken NetFD asked for is
      reported to somebody or still asked for. */
  lemma ScanExactIff<N>(t: SelectState<N>, ready: int -> Mask, notify: int)
    requires Sound(t, notify) && SetsExact(t, notify)
    ensures Listed(Scan(t, ready))
    ensures SetsExact(Scan(t, ready), notify) <==> Considerate(t, ready) && Thorough(t, ready)
  {
    ExactWatched(t, notify);
    ScanWatchedIff(t, ready, notify);
    if SetsExact(Scan(t, ready), notify) {
      ExactWatched(Scan(t, ready), notify);
      ExactIsThorough(t, ready, notify);
    }
    if Considerate(t, ready) && Thorough(t, ready) {
      forall fd, e
        ensures e in Scan(t, ready).sets.At(fd) <==> Asks(Scan(t, ready).recs, Scan(t, ready).entries, fd, e) || (fd == notify && e == In)
      {
        hide Scan, FdSets.At, Watched, Considerate, Thorough;
        ThoroughIsExact(t, ready, notify, fd, e);
      }
    }
  }

  lemma ExactIsThorough<N>(t: SelectState<N>, ready: int -> Mask, notify: int)
    requires Sound(t, notify) && SetsExact(t, notify) && Watched(t)
    requires Listed(Scan(t, ready)) && SetsExact(Scan(t, ready), notify)
    ensures Thorough(t, ready)
  {
    var t' := Scan(t, ready);
    Sleepers(t, ready, notify);
    hide Scan, FdSets.At, Rouses, Found, RousedFor, Watched;
    forall n, e | n in t.entries && Rouses(t.recs[n], ready) && e in t.recs[n].events && e in REQUESTABLE
      ensures RousedFor(t, ready, t.recs[n].fd, e) || SleepsFor(t, ready, t.recs[n].fd, e)
    {
      var fd := t.recs[n].fd;
      assert Stands(t.recs[n], true, notify, t.maxfd);
      assert Asks(t.recs, t.entries, fd, e);
      ScannedSets(t, ready, notify, fd, e);
      if Asks(t'.recs, t'.entries, fd, e) {
        var m :| m in t'.entries && t'.recs[m].fd == fd && e in t'.recs[m].events;
      }
    }
  }

  lemma ThoroughIsExact<N>(t: SelectState<N>, ready: int -> Mask, notify: int, fd: int, e: Event)
    requires Sound(t, notify) && SetsExact(t, notify) && Watched(t)
    requires Listed(Scan(t, ready)) && Watched(Scan(t, ready)) && Thorough(t, ready)
    ensures var t' := Scan(t, ready);
      e in t'.sets.At(fd) <==> Asks(t'.recs, t'.entries, fd, e) || (fd == notify && e == In)
  {
    var t' := Scan(t, ready);
    Sleepers(t, ready, notify);
    ScannedSets(t, ready, notify, fd, e);
    NotifyApart(t, ready, notify, e);
    hide Scan, FdSets.At, Rouses, Found, Stands;
    if e in t'.sets.At(fd) && Asks(t.recs, t.entries, fd, e) {
      var n :| n in t.entries && t.recs[n].fd == fd && e in t.recs[n].events;
      if Rouses(t.recs[n], ready) {
        var m :| m in t.entries && t.recs[m].fd == fd && !Rouses(t.recs[m], ready) && e in t.recs[m].events;
        assert m in t'.entries;
      } else {
        assert n in t'.entries;
      }
    }
  }

  lemma NotifyApart<N>(t: SelectState<N>, ready: int -> Mask, notify: int, e: Event)
    requires Sound(t, notify)
    ensures !RousedFor(t, ready, notify, e)
  {
    hide Rouses, Found;
    forall n | n in t.entries ensures t.recs[n].fd != notify {
      assert Stands(t.recs[n], true, notify, t.maxfd);
    }
  }

  /** What a scan leaves of tidy NetFDs, in terms of what was ready. */
  lemma Scanned<N>(t: SelectState<N>, ready: int -> Mask, notify: int)
    requires SelectInv(t, notify)
    ensures var t' := Scan(t, ready);
      && t'.recs.Keys == t.recs.Keys && t'.maxfd == t.maxfd && Distinct(t'.entries)
      && (forall n :: n in t'.entries ==> n in t.entries && !Due(t.recs[n], ready))
      && (forall n :: n in t.entries && !Due(t.recs[n], ready) ==> n in t'.entries)
      && (forall n :: n in t.recs && (n !in t.entries || !Due(t.recs[n], ready)) ==> t'.recs[n] == t.recs[n])
      && (forall n :: n in t.entries && Due(t.recs[n], ready) ==>
            t'.recs[n] == t.recs[n].(revents := t.recs[n].events, events := {}, queued := 1))
  {
    var got := Reported(t.sets, t.maxfd, ready);
    ScanLeaves(t, ready);
    hide Scan, FdSets.At, Reported, SetsExact, Revents, Hit, Due;
    forall n | n in t.entries
      ensures Tidy(t.recs[n]) && Stands(t.recs[n], true, notify, t.maxfd)
      ensures Revents(t.recs[n], got) == t.recs[n].events * ready(t.recs[n].fd)
      ensures Hit(t.recs[n], got) <==> Due(t.recs[n], ready)
      ensures Due(t.recs[n], ready) ==> Revents(t.recs[n], got) == t.recs[n].events
      ensures Visited(t.recs[n], got) == if Due(t.recs[n], ready) then t.recs[n].(revents := t.recs[n].events, events := {}, queued := 1) else t.recs[n]
    {
      TidyScan(t, ready, n, notify);
      TidyVisit(t.recs[n], got, ready);
    }
  }

  lemma TidyVisit(r: Rec, got: FdSets, ready: int -> Mask)
    requires Tidy(r) && !r.timer && !r.armed && r.queued == 0
    requires Revents(r, got) == r.events * ready(r.fd)
    requires Hit(r, got) <==> Due(r, ready)
    requires Due(r, ready) ==> Revents(r, got) == r.events
    ensures Visited(r, got) == if Due(r, ready) then r.(revents := r.events, events := {}, queued := 1) else r
  {
    hide Hit, Revents;
    assert r.events - r.events == {};
  }

  lemma ScanKeeps<N>(t: SelectState<N>, ready: int -> Mask, notify: int)
    requires SelectInv(t, notify)
    ensures SelectInv(Scan(t, ready), notify)
  {
    ScanSound(t, ready, notify);
    Scanned(t, ready, notify);
    ScanExactIff(t, ready, notify);
    TidyScans(t, ready);
    hide Scan, SetsExact, Due, Tidy, Considerate, Thorough;
    var t' := Scan(t, ready);
    forall n | n in t'.entries ensures Tidy(t'.recs[n]) {
      assert Tidy(t.recs[n]) && t'.recs[n] == t.recs[n];
    }
  }

  /** A scan that finds nothing does nothing. */
  lemma {:induction false} ScanIdle<N>(recs: map<N, Rec>, q: seq<N>, got: FdSets, sets: FdSets)
    requires forall n :: n in q ==> n in recs && !Hit(recs[n], got) && Visited(recs[n], got) == recs[n]
    ensures ScanRecs(recs, q, got) == recs && ScanSets(recs, q, got, sets) == sets
  {
    hide Hit, Visited;
    if q == [] {
    } else {
      ScanIdle(recs, q[..|q| - 1], got, sets);
      assert recs[q[|q| - 1] := recs[q[|q| - 1]]] == recs;
    }
  }

  lemma {:induction false} AllKept<N>(recs: map<N, Rec>, q: seq<N>, got: FdSets)
    requires forall n :: n in q ==> n in recs && !Hit(recs[n], got)
    ensures ScanKept(recs, q, got) == q
  {
    hide Hit;
    if q == [] {
    } else {
      AllKept(recs, q[..|q| - 1], got);
      assert q == q[..|q| - 1] + [q[|q| - 1]];
    }
  }

  lemma NothingAt(fd: int)
    ensures FdSets({}, {}, {}).At(fd) == {}
  {
  }

  /** With tidy NetFDs it makes no difference that nothing is visited without a report. */
  lemma WaitIsScan<N>(t: SelectState<N>, ready: int -> Mask, notify: int)
    requires SelectInv(t, notify)
    ensures Wait(t, ready) == Scan(t, ready)
  {
    if !Reports(t, ready) {
      var got := Reported(t.sets, t.maxfd, ready);
      hide Hit, Visited, SetsExact, FdSets.At, Revents, Reported;
      forall n | n in t.entries ensures !Hit(t.recs[n], got) && Visited(t.recs[n], got) == t.recs[n] {
        NothingAt(t.recs[n].fd);
        assert Tidy(t.recs[n]);
        UnhitStays(t.recs[n], got);
      }
      ScanIdle(t.recs, t.entries, got, t.sets);
      AllKept(t.recs, t.entries, got);
    }
  }

  lemma UnhitStays(r: Rec, got: FdSets)
    requires r.revents == {} && got.At(r.fd) == {}
    ensures !Hit(r, got) && Visited(r, got) == r
  {
    hide FdSets.At;
    assert r.events * {} == {};
    assert Revents(r, got) == r.revents;
  }

  lemma WaitSound<N>(t: SelectState<N>, ready: int -> Mask, notify: int)
    requires Sound(t, notify)
    ensures Sound(Wait(t, ready), notify) && (SelectInv(t, notify) ==> SelectInv(Wait(t, ready), notify))
  {
    hide Scan, SetsExact, Reports, Stands;
    ScanSound(t, ready, notify);
    if SelectInv(t, notify) {
      ScanKeeps(t, ready, notify);
    }
  }

  lemma TidyScans<N>(t: SelectState<N>, ready: int -> Mask)
    requires Listed(t) && forall n :: n in t.entries ==> Tidy(t.recs[n])
    ensures Considerate(t, ready) && Thorough(t, ready)
  {
    hide Found, Rouses;
    forall n, e | n in t.entries && Rouses(t.recs[n], ready) && e in t.recs[n].events
      ensures RousedFor(t, ready, t.recs[n].fd, e)
    {
      TidyFinds(t.recs[n], ready);
    }
  }

  // ---------------------------------------------------------------- Poll

  lemma {:induction false} InsertAre<N>(recs: map<N, Rec>, q: seq<N>, n: N)
    requires n in recs && forall m :: m in q ==> m in recs
    ensures forall m :: m in Insert(recs, q, n) ==> m in q || m == n
    ensures forall m :: m in q || m == n ==> m in Insert(recs, q, n)
    ensures Distinct(q) && n !in q ==> Distinct(Insert(recs, q, n))
  {
    if q == [] || recs[q[|q| - 1]].fd <= recs[n].fd {
    } else {
      var front, last := q[..|q| - 1], q[|q| - 1];
      InsertAre(recs, front, n);
      assert q == front + [last];
      if Distinct(q) && n !in q {
        assert last !in front && Distinct(front);
      }
    }
  }

  /** Whether Poll parks its task. */
  predicate Accepts<N>(t: SelectState<N>, n: N, request: Mask)
    requires n in t.recs
  {
    0 <= t.recs[n].fd < FD_SETSIZE && request != {} && request <= REQUESTABLE
  }

  /** The pollfd has nothing but what this Poll asks for. */
  predicate NothingStale(r: Rec, request: Mask) {
    r.events <= request && r.revents == {}
  }

  lemma Entered<N>(t: SelectState<N>, n: N, request: Mask, notify: int)
    requires Sound(t, notify) && n in t.recs && !t.recs[n].owner && Accepts(t, n, request)
    ensures var t', fd, events := SelectSet.Enter(t, n, request), t.recs[n].fd, t.recs[n].events + request;
      && n !in t.entries && t'.recs == t.recs[n := t.recs[n].(events := events, owner := true)]
      && t'.entries == Insert(t'.recs, t.entries, n)
      && t'.maxfd == (if t.maxfd < fd then fd else t.maxfd)
      && forall f, e :: e in t'.sets.At(f) <==> e in t.sets.At(f) || (f == fd && e in events && e in REQUESTABLE)
  {
    hide Insert;
    assert Stands(t.recs[n], n in t.entries, notify, t.maxfd);
    var t1 := SelectSet.Add(t, n, request).1;
    InsertSame(t1.recs, t1.recs[n := t1.recs[n].(owner := true)], t.entries, n);
  }

  lemma EnterSound<N>(t: SelectState<N>, n: N, request: Mask, notify: int)
    requires Sound(t, notify) && n in t.recs && !t.recs[n].owner
    ensures Sound(SelectSet.Enter(t, n, request), notify)
  {
    var t' := SelectSet.Enter(t, n, request);
    if Accepts(t, n, request) {
      Entered(t, n, request, notify);
      InsertAre(t'.recs, t.entries, n);
      hide SelectSet.Enter, Insert, FdSets.At;
      forall m | m in t'.recs ensures Stands(t'.recs[m], m in t'.entries, notify, t'.maxfd) {
        assert Stands(t.recs[m], m in t.entries, notify, t.maxfd);
      }
    }
  }

  /** What Poll adds to the sets is what its NetFD now asks for. */
  lemma EnterWatched<N>(t: SelectState<N>, n: N, request: Mask, notify: int)
    requires Sound(t, notify) && n in t.recs && !t.recs[n].owner
    ensures Listed(SelectSet.Enter(t, n, request))
    ensures Watched(t) ==> Watched(SelectSet.Enter(t, n, request))
    ensures SetsExact(t, notify) ==> SetsExact(SelectSet.Enter(t, n, request), notify)
  {
    var t' := SelectSet.Enter(t, n, request);
    EnterSound(t, n, request, notify);
    if Accepts(t, n, request) {
      Entered(t, n, request, notify);
      InsertAre(t'.recs, t.entries, n);
      hide SelectSet.Enter, Insert, FdSets.At, Stands, Accepts;
      if SetsExact(t, notify) {
        forall fd, e
          ensures e in t'.sets.At(fd) <==> Asks(t'.recs, t'.entries, fd, e) || (fd == notify && e == In)
        {
          AsksMore(t.recs, t.entries, t'.recs, t'.entries, n, fd, e);
        }
      }
    }
  }

  lemma AsksMore<N>(recs: map<N, Rec>, q: seq<N>, recs': map<N, Rec>, q': seq<N>, n: N, fd: int, e: Event)
    requires (forall m :: m in q ==> m in recs) && n !in q && n in recs'
    requires forall m :: m in q' ==> m in q || m == n
    requires forall m :: m in q || m == n ==> m in q'
    requires forall m :: m in q ==> m in recs' && recs'[m] == recs[m]
    ensures forall m :: m in q' ==> m in recs'
    ensures Asks(recs', q', fd, e) <==>
      Asks(recs, q, fd, e) || (e in REQUESTABLE && recs'[n].fd == fd && e in recs'[n].events)
  {
  }

  lemma EnterKeeps<N>(t: SelectState<N>, n: N, request: Mask, notify: int)
    requires SelectInv(t, notify) && n in t.recs && !t.recs[n].owner
    requires Accepts(t, n, request) ==> Single(request) && NothingStale(t.recs[n], request)
    ensures SelectInv(SelectSet.Enter(t, n, request), notify)
  {
    var t' := SelectSet.Enter(t, n, request);
    EnterSound(t, n, request, notify);
    EnterWatched(t, n, request, notify);
    if Accepts(t, n, request) {
      Entered(t, n, request, notify);
      InsertAre(t'.recs, t.entries, n);
      hide SelectSet.Enter, Insert, FdSets.At, SetsExact;
      assert t.recs[n].events + request == request;
      forall m | m in t'.entries ensures Tidy(t'.recs[m]) {
        assert m != n ==> Tidy(t.recs[m]);
      }
    }
  }

  /** Only the descriptors matter for the place of a new entry. */
  lemma {:induction false} InsertSame<N>(recs: map<N, Rec>, recs': map<N, Rec>, q: seq<N>, n: N)
    requires n in recs && forall m :: m in q ==> m in recs
    requires recs'.Keys == recs.Keys && forall m :: m in recs ==> recs'[m].fd == recs[m].fd
    ensures Insert(recs, q, n) == Insert(recs', q, n)
  {
    if q == [] {
    } else {
      InsertSame(recs, recs', q[..|q| - 1], n);
    }
  }

  /** The record of a NetFD that is not parked changes. */
  lemma OtherRecord<N>(t: SelectState<N>, t': SelectState<N>, n: N, notify: int)
    requires Sound(t, notify) && n !in t.entries && n in t'.recs && t' == t.(recs := t.recs[n := t'.recs[n]])
    requires Stands(t'.recs[n], false, notify, t.maxfd)
    ensures Sound(t', notify) && (SelectInv(t, notify) ==> SelectInv(t', notify))
    ensures Watched(t') <==> Watched(t)
    ensures SetsExact(t', notify) <==> SetsExact(t, notify)
  {
    hide FdSets.At;
    forall m | m in t'.recs ensures Stands(t'.recs[m], m in t'.entries, notify, t'.maxfd) {
      if m != n {
        assert Stands(t.recs[m], m in t.entries, notify, t.maxfd);
      }
    }
    hide Stands;
    assert Watched(t') <==> Watched(t);
    forall fd, e ensures Asks(t'.recs, t'.entries, fd, e) <==> Asks(t.recs, t.entries, fd, e) {
    }
    hide Asks;
  }

  /** Assigning and returning change the record of one NetFD that is not parked. */
  lemma OtherMove<N>(t: SelectState<N>, m: Move<N>, t': SelectState<N>, notify: int)
    requires Sound(t, notify) && Moves(t, m, t', notify) && (m.Assigned? || m.Returned?)
    ensures Sound(t', notify) && (SelectInv(t, notify) ==> SelectInv(t', notify))
    ensures Watched(t') <==> Watched(t)
    ensures SetsExact(t', notify) <==> SetsExact(t, notify)
  {
    hide SetsExact, Watched;
    if m.n in t.recs {
      assert Stands(t.recs[m.n], m.n in t.entries, notify, t.maxfd);
    }
    OtherRecord(t, t', m.n, notify);
  }

  lemma MoveSound<N>(t: SelectState<N>, m: Move<N>, t': SelectState<N>, notify: int)
    requires Sound(t, notify) && Moves(t, m, t', notify)
    ensures Sound(t', notify)
  {
    hide Wait, SelectSet.Enter, Stands, Watched, SetsExact;
    match m {
      case Called(n, request) => EnterSound(t, n, request, notify);
      case Selected(ready) => WaitSound(t, ready, notify);
      case _ => OtherMove(t, m, t', notify);
    }
  }

  /** A Poll that parks asks for one event, and finds nothing stale. */
  ghost predicate Polite<N>(t: SelectState<N>, m: Move<N>) {
    m.Called? && m.n in t.recs && Accepts(t, m.n, m.request) ==>
      Single(m.request) && NothingStale(t.recs[m.n], m.request)
  }

  lemma MoveKeeps<N>(t: SelectState<N>, m: Move<N>, t': SelectState<N>, notify: int)
    requires SelectInv(t, notify) && Moves(t, m, t', notify) && Polite(t, m)
    ensures SelectInv(t', notify)
  {
    hide Wait, SelectSet.Enter, Stands, Watched, SetsExact, Tidy;
    match m {
      case Called(n, request) => EnterKeeps(t, n, request, notify);
      case Selected(ready) => WaitSound(t, ready, notify);
      case _ => OtherMove(t, m, t', notify);
    }
  }

  // ---------------------------------------------------------------- runs

  /** Listed is mentioned to make the moves well defined; RunSound shows that it always holds. */
  ghost predicate IsRun<N>(ts: seq<SelectState<N>>, ms: seq<Move<N>>, notify: int) {
    && |ts| == |ms| + 1 && notify >= 0
    && ts[0] == SelectState(map[], [], FdSets({notify}, {}, {}), notify)
    && forall i :: 0 <= i < |ms| ==> Listed(ts[i]) && Moves(ts[i], ms[i], ts[i + 1], notify)
  }

  lemma InitKeeps<N>(t: SelectState<N>, notify: int)
    requires t == SelectState(map[], [], FdSets({notify}, {}, {}), notify) && notify >= 0
    ensures SelectInv(t, notify)
  {
    forall fd, e
      ensures e in t.sets.At(fd) <==> Asks(t.recs, t.entries, fd, e) || (fd == notify && e == In)
    {
    }
  }

  lemma {:induction false} RunSound<N>(ts: seq<SelectState<N>>, ms: seq<Move<N>>, notify: int, k: nat)
    requires IsRun(ts, ms, notify) && k <= |ms|
    ensures Sound(ts[k], notify)
  {
    if k == 0 {
      InitKeeps(ts[0], notify);
    } else {
      RunSound(ts, ms, notify, k - 1);
      MoveSound(ts[k - 1], ms[k - 1], ts[k], notify);
    }
  }

  /** In every run in which Polls are polite, the sets are exact throughout. */
  lemma {:induction false} RunKeeps<N>(ts: seq<SelectState<N>>, ms: seq<Move<N>>, notify: int, k: nat)
    requires IsRun(ts, ms, notify) && k <= |ms|
    requires forall i :: 0 <= i < k ==> Polite(ts[i], ms[i])
    ensures SelectInv(ts[k], notify)
  {
    if k == 0 {
      InitKeeps(ts[0], notify);
    } else {
      RunKeeps(ts, ms, notify, k - 1);
      MoveKeeps(ts[k - 1], ms[k - 1], ts[k], notify);
    }
  }
}
