/** Every run of the epoll wait set. */
module EpollRuns {
  import opened Basics
  import opened WaitSet

  /** What can happen.  Call is Poll up to the switch; Ready is one event of the list that
      epoll_wait returned; Expire is a timer that fires; Return is Poll after the switch. */
  datatype Action<N> =
    | Assign(n: N, osfd: PollFd, shared: bool)
    | Call(n: N, request: Mask, timed: bool, kernelOk: bool)
    | Ready(fd: int, come: Mask)
    | Expire(n: N)
    | Return(n: N)

  /** epoll_wait reports registered descriptors only, and of each one events that are in its
      interest mask, or errors and hang-ups, which may always be reported. */
  ghost predicate Reportable<N>(s: State<N>, fd: int, come: Mask) {
    fd in s.kernel && come != {} && come <= s.kernel[fd] - {EdgeTriggered} + {Err, Hup, RdHup, Nval}
  }

  /** A NetFD is in use from Poll's call to its return; only an armed timer fires; a task runs
      on only after it was put into the run queue. */
  ghost predicate Enabled<N>(s: State<N>, a: Action<N>) {
    match a
    case Assign(n, _, _) => n in s.recs ==> !s.recs[n].owner
    case Call(n, _, _, _) => n in s.recs && !s.recs[n].owner
    case Ready(fd, come) => Reportable(s, fd, come)
    case Expire(n) => n in s.recs && s.recs[n].armed
    case Return(n) => n in s.recs && s.recs[n].queued > 0
  }

  ghost predicate Step<N>(s: State<N>, a: Action<N>, s': State<N>, limit: int)
    requires Lists(s)
  {
    && Enabled(s, a)
    && s' == match a
             case Assign(n, osfd, shared) => WaitSet.Assign(s, n, osfd, shared)
             case Call(n, request, timed, kernelOk) => Enter(s, n, request, timed, kernelOk, limit)
             case Ready(fd, come) => Deliver(s, fd, come)
             case Expire(n) => Timeout(s, n)
             case Return(n) => Leave(s, n)
  }

  // ---------------------------------------------------------------- the invariant

  /** The multimap lists NetFDs under their own descriptor, each at most once. */
  ghost predicate Lists<N>(s: State<N>) {
    forall fd :: Distinct(Entries(s, fd)) && forall n :: n in Entries(s, fd) ==> n in s.recs && s.recs[n].fd == fd
  }

  /** One NetFD.  While parked it has one pending request, and a live timer if Poll has a
      timeout.  After that, until Poll returns, its task is queued exactly once and no timer can
      fire.  Otherwise it is not in use. */
  ghost predicate Fine(r: Rec, parked: bool) {
    if parked then
      && r.owner && r.queued == 0 && r.timer == r.armed == r.timed
      && r.events != {} && r.events <= REQUESTABLE
    else
      && !r.armed && r.queued == (if r.owner then 1 else 0)
      && (r.timer ==> r.owner && r.timed)
  }

  ghost predicate Records<N>(s: State<N>) {
    forall n :: n in s.recs ==> Fine(s.recs[n], Parked(s, n))
  }

  /** A descriptor with parked NetFDs is registered for all that they ask for. */
  ghost predicate Covered<N>(s: State<N>, fd: int)
    requires Lists(s)
  {
    && (Entries(s, fd) != [] ==> fd in s.kernel && Union(s.recs, Entries(s, fd)) <= s.kernel[fd])
    && (fd in s.kernel ==> s.kernel[fd] != {} && s.kernel[fd] <= REQUESTABLE + {EdgeTriggered})
  }

  ghost predicate Inv<N>(s: State<N>) {
    && Lists(s) && Records(s)
    && (forall fd :: Covered(s, fd))
    && s.cnt == |s.kernel|
  }

  /** The kernel watches a descriptor exactly if a NetFD is parked on it, for exactly the events
      that these ask for. */
  ghost predicate ExactAt<N>(s: State<N>, fd: int)
    requires Lists(s)
  {
    && (fd in s.kernel <==> Entries(s, fd) != [])
    && (fd in s.kernel ==> Short(s.kernel[fd]) == Union(s.recs, Entries(s, fd)))
  }

  ghost predicate Exact<N>(s: State<N>)
    requires Lists(s)
  {
    forall fd :: ExactAt(s, fd)
  }

  // ---------------------------------------------------------------- every action keeps it

  ghost predicate ListAt<N>(s: State<N>, fd: int) {
    Distinct(Entries(s, fd)) && forall n :: n in Entries(s, fd) ==> n in s.recs && s.recs[n].fd == fd
  }

  /** An action that concerns one descriptor leaves everything about the others alone. */
  ghost predicate Elsewhere<N>(s: State<N>, s': State<N>, fd: int) {
    && s'.recs.Keys == s.recs.Keys
    && (forall n :: n in s.recs ==> s'.recs[n].fd == s.recs[n].fd && (s.recs[n].fd != fd ==> s'.recs[n] == s.recs[n]))
    && (forall f :: f != fd ==> Entries(s', f) == Entries(s, f))
    && (forall f :: f != fd ==> (f in s'.kernel <==> f in s.kernel))
    && (forall f :: f != fd && f in s.kernel ==> s'.kernel[f] == s.kernel[f])
  }

  lemma CoveredElsewhere<N>(s: State<N>, s': State<N>, fd: int, f: int)
    requires Lists(s) && Lists(s') && Elsewhere(s, s', fd) && f != fd
    ensures Covered(s, f) ==> Covered(s', f)
    ensures ExactAt(s, f) ==> ExactAt(s', f)
  {
    UnionSame(s.recs, s'.recs, Entries(s, f));
  }

  lemma LocalKeeps<N>(s: State<N>, s': State<N>, fd: int)
    requires Inv(s) && Elsewhere(s, s', fd) && s'.cnt == |s'.kernel|
    requires ListAt(s', fd)
    requires forall n :: n in s.recs && s.recs[n].fd == fd ==> Fine(s'.recs[n], n in Entries(s', fd))
    requires Lists(s') ==> Covered(s', fd)
    ensures Inv(s')
  {
    hide Covered, Fine;
    assert Lists(s');
    assert Records(s');
    forall f ensures Covered(s', f) {
      if f != fd {
        CoveredElsewhere(s, s', fd, f);
      }
    }
  }

  lemma Rewatched<N>(s: State<N>, fd: int, rest: Mask)
    requires fd in s.kernel && s.cnt == |s.kernel|
    ensures var s' := Rewatch(s, fd, rest);
      && s'.cnt == |s'.kernel| && s'.recs == s.recs && s'.fdMap == s.fdMap
      && (fd in s'.kernel <==> rest != {}) && (rest != {} ==> s'.kernel[fd] == rest)
      && forall f :: f != fd ==> (f in s'.kernel <==> f in s.kernel) && (f in s.kernel ==> s'.kernel[f] == s.kernel[f])
  {
    var s' := Rewatch(s, fd, rest);
    if rest == {} {
      assert s'.kernel.Keys == s.kernel.Keys - {fd};
      assert |s'.kernel| == |s'.kernel.Keys| && |s.kernel| == |s.kernel.Keys|;
    } else {
      assert s'.kernel.Keys == s.kernel.Keys;
      assert |s'.kernel| == |s'.kernel.Keys| && |s.kernel| == |s.kernel.Keys|;
    }
  }

  /** What a delivery leaves. */
  lemma Delivered<N>(s: State<N>, fd: int, come: Mask)
    requires Lists(s) && fd in s.kernel && s.cnt == |s.kernel|
    ensures var s', q := Deliver(s, fd, come), Entries(s, fd);
      var rest := Union(s.recs, q) - come;
      && s'.recs == WakeAll(s.recs, q, come)
      && Entries(s', fd) == Asleep(s.recs, q, come) && (forall f :: f != fd ==> Entries(s', f) == Entries(s, f))
      && s'.cnt == |s'.kernel|
      && (fd in s'.kernel <==> rest != {}) && (rest != {} ==> s'.kernel[fd] == rest)
      && forall f :: f != fd ==> (f in s'.kernel <==> f in s.kernel) && (f in s.kernel ==> s'.kernel[f] == s.kernel[f])
  {
    hide Rewatch, Union, WakeAll;
    var q := Entries(s, fd);
    Rewatched(s.(recs := WakeAll(s.recs, q, come),
                 fdMap := if fd in s.fdMap then s.fdMap[fd := Asleep(s.recs, q, come)] else s.fdMap),
              fd, Union(s.recs, q) - come);
  }

  lemma DeliveredElsewhere<N>(s: State<N>, fd: int, come: Mask)
    requires Inv(s) && fd in s.kernel
    ensures Elsewhere(s, Deliver(s, fd, come), fd)
    ensures forall n :: n in s.recs ==>
      Deliver(s, fd, come).recs[n] == if n in Entries(s, fd) then WakeOne(s.recs, n, come)[n] else s.recs[n]
  {
    hide Deliver, Union, WakeAll, Asleep, Covered, Fine;
    var s' := Deliver(s, fd, come);
    Delivered(s, fd, come);
    forall n | n in s.recs
      ensures n in s'.recs && s'.recs[n] == if n in Entries(s, fd) then WakeOne(s.recs, n, come)[n] else s.recs[n]
    {
      WakeAllAt(s.recs, Entries(s, fd), come, n);
    }
  }

  /** The sleepers' requests after a delivery, and the mask left in the kernel. */
  lemma DeliveredMask<N>(s: State<N>, fd: int, come: Mask)
    requires Inv(s) && Reportable(s, fd, come)
    ensures var s', rest := Deliver(s, fd, come), Union(s.recs, Entries(s, fd)) - come;
      && ListAt(s', fd)
      && Union(s'.recs, Entries(s', fd)) == Union(s.recs, Entries(s', fd)) <= rest <= REQUESTABLE
      && (Entries(s', fd) != [] ==> rest != {})
  {
    hide Deliver, Union, WakeAll, Asleep, Covered;
    var q, s' := Entries(s, fd), Deliver(s, fd, come);
    Delivered(s, fd, come);
    AsleepAre(s.recs, q, come);
    RestCovers(s.recs, q, come);
    ParkedRequests(s, fd);
    UnionBound(s.recs, q, REQUESTABLE);
    UnionSame(s.recs, s'.recs, Entries(s', fd));
    if Entries(s', fd) != [] {
      UnionMember(s.recs, Entries(s', fd), Entries(s', fd)[0]);
    }
  }

  lemma ReadyKeeps<N>(s: State<N>, fd: int, come: Mask)
    requires Inv(s) && Reportable(s, fd, come)
    ensures Inv(Deliver(s, fd, come))
  {
    hide Deliver, Union, WakeAll, Asleep;
    var s' := Deliver(s, fd, come);
    Delivered(s, fd, come);
    DeliveredElsewhere(s, fd, come);
    DeliveredMask(s, fd, come);
    AsleepAre(s.recs, Entries(s, fd), come);
    forall n | n in s.recs && s.recs[n].fd == fd
      ensures Fine(s'.recs[n], n in Entries(s', fd))
    {
      assert Fine(s.recs[n], Parked(s, n));
    }
    hide Records;
    LocalKeeps(s, s', fd);
  }

  /** What a timeout leaves; the descriptor is registered because n is parked on it. */
  lemma Expired<N>(s: State<N>, n: N)
    requires Inv(s) && n in s.recs && s.recs[n].armed
    ensures var fd := s.recs[n].fd;
      n in Entries(s, fd) && fd in s.kernel && Elsewhere(s, Timeout(s, n), fd)
    ensures var s', fd := Timeout(s, n), s.recs[n].fd;
      var rest := OthersWant(s.recs, Entries(s, fd), n);
      && s'.cnt == |s'.kernel| && (fd in s'.kernel <==> rest != {}) && (rest != {} ==> s'.kernel[fd] == rest)
      && Entries(s', fd) == Others(Entries(s, fd), n)
      && s'.recs == s.recs[n := s.recs[n].(armed := false, queued := s.recs[n].queued + 1)]
  {
    hide Rewatch, OthersWant, Others;
    var fd := s.recs[n].fd;
    OthersAre(Entries(s, fd), n);
    assert Fine(s.recs[n], Parked(s, n)) && Covered(s, fd);
    Rewatched(s.(fdMap := if fd in s.fdMap then s.fdMap[fd := Others(s.fdMap[fd], n)] else s.fdMap),
              fd, OthersWant(s.recs, Entries(s, fd), n));
  }

  lemma ExpiredMask<N>(s: State<N>, n: N)
    requires Inv(s) && n in s.recs && s.recs[n].armed
    ensures var s', fd := Timeout(s, n), s.recs[n].fd;
      var rest := OthersWant(s.recs, Entries(s, fd), n);
      && ListAt(s', fd)
      && Union(s'.recs, Entries(s', fd)) == rest <= REQUESTABLE
      && (Entries(s', fd) != [] <==> rest != {})
  {
    hide Timeout, Union, Others, Records, Covered;
    var s', fd := Timeout(s, n), s.recs[n].fd;
    var q := Entries(s, fd);
    Expired(s, n);
    OthersAre(q, n);
    ParkedRequests(s, fd);
    var others := Others(q, n);
    UnionBound(s.recs, others, REQUESTABLE);
    UnionSame(s.recs, s'.recs, others);
    if others != [] {
      UnionMember(s.recs, others, others[0]);
    } else {
      UnionEmpty(s.recs, others);
    }
  }

  lemma ParkedRequests<N>(s: State<N>, fd: int)
    requires Inv(s)
    ensures forall m :: m in Entries(s, fd) ==>
      m in s.recs && s.recs[m].fd == fd && {} != s.recs[m].events <= REQUESTABLE
  {
    forall m | m in Entries(s, fd) ensures {} != s.recs[m].events <= REQUESTABLE {
      assert Parked(s, m) && Fine(s.recs[m], true);
    }
  }

  lemma ExpireKeeps<N>(s: State<N>, n: N)
    requires Inv(s) && n in s.recs && s.recs[n].armed
    ensures Inv(Timeout(s, n)) && ExactAt(Timeout(s, n), s.recs[n].fd)
  {
    hide Timeout, Union, OthersWant, Others;
    var s', fd := Timeout(s, n), s.recs[n].fd;
    Expired(s, n);
    ExpiredMask(s, n);
    OthersAre(Entries(s, fd), n);
    forall m | m in s.recs && s.recs[m].fd == fd
      ensures Fine(s'.recs[m], m in Entries(s', fd))
    {
      assert Fine(s.recs[m], Parked(s, m));
    }
    ShortOfRequests(OthersWant(s.recs, Entries(s, fd), n));
    hide Records;
    LocalKeeps(s, s', fd);
  }

  lemma ShortOfRequests(m: Mask)
    ensures m <= REQUESTABLE ==> Short(m) == m && Short(m + {EdgeTriggered}) == m
  {
  }

  lemma ReturnKeeps<N>(s: State<N>, n: N)
    requires Inv(s) && n in s.recs && s.recs[n].queued > 0
    ensures Inv(Leave(s, n)) && (Exact(s) ==> Exact(Leave(s, n)))
  {
    SameRequests(s, Leave(s, n), n);
  }

  lemma AssignKeeps<N>(s: State<N>, n: N, osfd: PollFd, shared: bool)
    requires Inv(s) && (n in s.recs ==> !s.recs[n].owner)
    ensures Inv(WaitSet.Assign(s, n, osfd, shared)) && (Exact(s) ==> Exact(WaitSet.Assign(s, n, osfd, shared)))
  {
    SameRequests(s, WaitSet.Assign(s, n, osfd, shared), n);
  }

  /** Only the record of a NetFD that is not parked changes. */
  lemma SameRequests<N>(s: State<N>, s': State<N>, n: N)
    requires Inv(s) && !Parked(s, n) && n in s'.recs && s' == s.(recs := s.recs[n := s'.recs[n]])
    requires forall fd :: n !in Entries(s, fd)
    requires Fine(s'.recs[n], false)
    ensures Inv(s') && (Exact(s) ==> Exact(s'))
  {
    hide Union, Fine;
    forall fd ensures ListAt(s', fd) && Entries(s', fd) == Entries(s, fd) {
      assert ListAt(s, fd);
    }
    forall fd ensures Covered(s', fd) && (ExactAt(s, fd) ==> ExactAt(s', fd)) {
      assert Covered(s, fd);
      UnionSame(s.recs, s'.recs, Entries(s, fd));
    }
    forall m | m in s'.recs ensures Fine(s'.recs[m], Parked(s', m)) {
      if m != n {
        assert Fine(s.recs[m], Parked(s, m));
      }
    }
  }

  // ---------------------------------------------------------------- Poll

  predicate Acceptable<N>(s: State<N>, n: N, request: Mask)
    requires n in s.recs
  {
    s.recs[n].fd >= 0 && request != {} && request <= REQUESTABLE
  }

  /** Whether Poll parks its task, as a condition on the state in which it is called. */
  ghost predicate Parks<N>(s: State<N>, n: N, request: Mask, kernelOk: bool)
    requires n in s.recs
  {
    var fd := s.recs[n].fd;
    && Acceptable(s, n, request)
    && ((s.recs[n].shared && Entries(s, fd) != []) || (fd !in s.kernel && kernelOk))
  }

  /** The record of a NetFD that has just been parked. */
  function Asking(r: Rec, request: Mask, timed: bool): Rec {
    r.(events := request, owner := true, timed := timed, timer := timed, armed := timed)
  }

  /** PollsetAdd, when it succeeds: whether by EPOLL_CTL_ADD or EPOLL_CTL_MOD, the descriptor
      is watched for the new request and those of the NetFDs parked on it. */
  lemma Accepted<N>(s: State<N>, n: N, request: Mask, kernelOk: bool, limit: int)
    requires Inv(s) && n in s.recs && !s.recs[n].owner && Parks(s, n, request, kernelOk)
    ensures var (ok, s1) := Add(s, n, request, kernelOk, limit);
      && ok && s1.recs == s.recs[n := s.recs[n].(events := request)] && s1.fdMap == s.fdMap
      && s1.kernel == s.kernel[s.recs[n].fd := Union(s.recs, Entries(s, s.recs[n].fd)) + request + {EdgeTriggered}]
      && s1.cnt == |s1.kernel|
  {
    assert Fine(s.recs[n], Parked(s, n));
    hide Union, Short, Records, Grown, Fine;
    var fd, q := s.recs[n].fd, Entries(s, s.recs[n].fd);
    assert Covered(s, fd);
    ShortOfRequests(request);
    ParkedBound(s, fd);
    var s1 := s.(recs := s.recs[n := s.recs[n].(events := request)]);
    UnionSame(s.recs, s1.recs, q);
    UnionEmpty(s.recs, q);
    Registered(s.kernel, fd, Union(s.recs, q) + (request + {EdgeTriggered}));
    assert Union(s.recs, q) + (request + {EdgeTriggered}) == Union(s.recs, q) + request + {EdgeTriggered};
    assert {} + request + {EdgeTriggered} == request + {EdgeTriggered};
  }

  lemma ParkedBound<N>(s: State<N>, fd: int)
    requires Inv(s)
    ensures Union(s.recs, Entries(s, fd)) <= REQUESTABLE
  {
    hide Union, Covered;
    ParkedRequests(s, fd);
    UnionBound(s.recs, Entries(s, fd), REQUESTABLE);
  }

  lemma Registered(kernel: map<int, Mask>, fd: int, mask: Mask)
    ensures |kernel[fd := mask]| == |kernel| + if fd in kernel then 0 else 1
  {
    assert kernel[fd := mask].Keys == kernel.Keys + {fd};
    assert |kernel| == |kernel.Keys| && |kernel[fd := mask]| == |kernel[fd := mask].Keys|;
  }

  lemma Placed<N>(s: State<N>, n: N, timed: bool)
    requires n in s.recs
    ensures var s', fd := Park(s, n, timed), s.recs[n].fd;
      && s' == s.(recs := s'.recs, fdMap := s'.fdMap)
      && s'.recs == s.recs[n := s.recs[n].(owner := true, timed := timed,
           timer := s.recs[n].timer || timed, armed := s.recs[n].armed || timed)]
      && Entries(s', fd) == Entries(s, fd) + [n] && forall f :: f != fd ==> Entries(s', f) == Entries(s, f)
  {
  }

  lemma Unused<N>(s: State<N>, n: N)
    requires Inv(s) && n in s.recs && !s.recs[n].owner
    ensures ListAt(s, s.recs[n].fd) && Fine(s.recs[n], false) && forall fd :: n !in Entries(s, fd)
  {
    assert Fine(s.recs[n], Parked(s, n));
  }

  lemma EnterIs<N>(s: State<N>, n: N, request: Mask, timed: bool, kernelOk: bool, limit: int)
    requires Lists(s) && n in s.recs
    ensures var (ok, s1) := Add(s, n, request, kernelOk, limit);
      Enter(s, n, request, timed, kernelOk, limit) == if ok && n in s1.recs then Park(s1, n, timed) else s1
  {
    hide Union, Short, Grown;
  }

  /** What a Poll that parks its task leaves: the NetFD is last in the list of its descriptor. */
  lemma Called<N>(s: State<N>, n: N, request: Mask, timed: bool, kernelOk: bool, limit: int)
    requires Inv(s) && n in s.recs && !s.recs[n].owner && Parks(s, n, request, kernelOk)
    ensures var s', fd := Enter(s, n, request, timed, kernelOk, limit), s.recs[n].fd;
      && s'.recs == s.recs[n := Asking(s.recs[n], request, timed)]
      && Entries(s', fd) == Entries(s, fd) + [n] && Elsewhere(s, s', fd)
      && fd in s'.kernel && s'.kernel[fd] == Union(s.recs, Entries(s, fd)) + request + {EdgeTriggered}
      && s'.cnt == |s'.kernel|
  {
    hide Union, Lists, Records, Enter, Add, Parks, Park, Covered;
    Unused(s, n);
    Accepted(s, n, request, kernelOk, limit);
    var s1 := Add(s, n, request, kernelOk, limit).1;
    EnterIs(s, n, request, timed, kernelOk, limit);
    Placed(s1, n, timed);
    assert forall f :: Entries(s1, f) == Entries(s, f);
    hide Entries;
  }

  lemma UnionEmpty<N>(recs: map<N, Rec>, q: seq<N>)
    requires forall n :: n in q ==> n in recs
    ensures q == [] ==> Union(recs, q) == {}
  {
  }

  lemma UnionSnoc<N>(recs: map<N, Rec>, q: seq<N>, n: N)
    requires n in recs && forall m :: m in q ==> m in recs
    ensures (forall m :: m in q + [n] ==> m in recs)
    ensures Union(recs, q + [n]) == Union(recs, q) + recs[n].events
  {
    assert (q + [n])[..|q|] == q;
  }

  lemma ParkKeeps<N>(s: State<N>, n: N, request: Mask, timed: bool, kernelOk: bool, limit: int)
    requires Inv(s) && n in s.recs && !s.recs[n].owner && Parks(s, n, request, kernelOk)
    ensures Inv(Enter(s, n, request, timed, kernelOk, limit))
    ensures ExactAt(Enter(s, n, request, timed, kernelOk, limit), s.recs[n].fd)
  {
    hide Enter, Union, Parks, Short;
    var s', fd, q := Enter(s, n, request, timed, kernelOk, limit), s.recs[n].fd, Entries(s, s.recs[n].fd);
    Called(s, n, request, timed, kernelOk, limit);
    assert Fine(s.recs[n], Parked(s, n));
    assert Acceptable(s, n, request) by { ParksAcceptable(s, n, request, kernelOk); }
    ParkedBound(s, fd);
    UnionSame(s.recs, s'.recs, q);
    UnionSnoc(s'.recs, q, n);
    ShortOfRequests(Union(s.recs, q) + request);
    assert Distinct(q + [n]);
    forall m | m in s.recs && s.recs[m].fd == fd
      ensures Fine(s'.recs[m], m in Entries(s', fd))
    {
      assert Fine(s.recs[m], Parked(s, m));
    }
    hide Records;
    LocalKeeps(s, s', fd);
  }

  lemma ParksAcceptable<N>(s: State<N>, n: N, request: Mask, kernelOk: bool)
    requires n in s.recs && Parks(s, n, request, kernelOk)
    ensures Acceptable(s, n, request)
  {
  }

  lemma RefuseKeeps<N>(s: State<N>, n: N, request: Mask, timed: bool, kernelOk: bool, limit: int)
    requires Inv(s) && n in s.recs && !s.recs[n].owner && !Parks(s, n, request, kernelOk)
    ensures var s' := Enter(s, n, request, timed, kernelOk, limit);
      && Inv(s') && (Exact(s) ==> Exact(s'))
      && s' == s.(recs := s.recs[n := s.recs[n].(events := s'.recs[n].events)])
  {
    hide Union, Short;
    var s' := Enter(s, n, request, timed, kernelOk, limit);
    assert Fine(s.recs[n], Parked(s, n));
    SameRequests(s, s', n);
  }

  // ---------------------------------------------------------------- runs

  lemma StepKeeps<N>(s: State<N>, a: Action<N>, s': State<N>, limit: int)
    requires Inv(s) && Step(s, a, s', limit)
    ensures Inv(s')
  {
    hide Inv, Parks;
    match a {
      case Assign(n, osfd, shared) => AssignKeeps(s, n, osfd, shared);
      case Call(n, request, timed, kernelOk) =>
        if Parks(s, n, request, kernelOk) {
          ParkKeeps(s, n, request, timed, kernelOk, limit);
        } else {
          RefuseKeeps(s, n, request, timed, kernelOk, limit);
        }
      case Ready(fd, come) => ReadyKeeps(s, fd, come);
      case Expire(n) => ExpireKeeps(s, n);
      case Return(n) => ReturnKeeps(s, n);
    }
  }

  /** A call of Poll keeps the invariant, and PollsetAdd succeeds exactly when Parks says so. */
  lemma CallKeeps<N>(s: State<N>, n: N, request: Mask, timed: bool, kernelOk: bool, limit: int)
    requires Inv(s) && n in s.recs && !s.recs[n].owner
    ensures Inv(Enter(s, n, request, timed, kernelOk, limit))
    ensures Enter(s, n, request, timed, kernelOk, limit).kernel.Keys <= s.kernel.Keys + {s.recs[n].fd}
    ensures Add(s, n, request, kernelOk, limit).0 <==> Parks(s, n, request, kernelOk)
  {
    StepKeeps(s, Call(n, request, timed, kernelOk), Enter(s, n, request, timed, kernelOk, limit), limit);
    hide Union, Short, Grown;
    assert Covered(s, s.recs[n].fd);
  }

  /** Lists is mentioned to make the steps well defined; RunKeeps shows that it always holds. */
  ghost predicate IsRun<N>(ss: seq<State<N>>, es: seq<Action<N>>, limit: int) {
    && |ss| == |es| + 1
    && ss[0].recs == map[] && ss[0].fdMap == map[] && ss[0].kernel == map[] && ss[0].cnt == 0
    && forall i :: 0 <= i < |es| ==> Lists(ss[i]) && Step(ss[i], es[i], ss[i + 1], limit)
  }

  /** In every run, whatever is requested, reported, refused or timed out: the kernel watches at
      least what the parked NetFDs ask for, and the counter is the number of registered
      descriptors. */
  lemma {:induction false} RunKeeps<N>(ss: seq<State<N>>, es: seq<Action<N>>, limit: int, k: nat)
    requires IsRun(ss, es, limit) && k <= |es|
    ensures Inv(ss[k])
  {
    if k == 0 {
    } else {
      RunKeeps(ss, es, limit, k - 1);
      StepKeeps(ss[k - 1], es[k - 1], ss[k], limit);
    }
  }

  /** The list that epoll_wait fills grows only when there are more descriptors than it holds, to
      twice their number, within the limit; and the counter changes by one. */
  lemma RoomStep<N>(s: State<N>, a: Action<N>, s': State<N>, limit: int)
    requires Inv(s) && Step(s, a, s', limit)
    ensures s'.cnt <= s.cnt + 1
    ensures s'.room == s.room || (s.room < s'.cnt == s.cnt + 1 && s'.room == 2 * s'.cnt <= limit)
    ensures s'.cnt > s.cnt && s'.cnt > s.room && 2 * s'.cnt <= limit ==> s'.room == 2 * s'.cnt
  {
    hide Inv, Add, Union, Short, Records, Covered, WakeAll, Asleep, Others, OthersWant;
    InvLists(s);
    match a {
      case Call(n, request, _, kernelOk) =>
        assert ListAt(s, s.recs[n].fd);
        AddRoom(s, n, request, kernelOk, limit);
      case Expire(n) => assert ListAt(s, s.recs[n].fd);
      case Ready(fd, _) => assert ListAt(s, fd);
      case _ =>
    }
  }

  lemma AddRoom<N>(s: State<N>, n: N, request: Mask, kernelOk: bool, limit: int)
    requires n in s.recs && forall m :: m in Entries(s, s.recs[n].fd) ==> m in s.recs
    ensures var s' := Add(s, n, request, kernelOk, limit).1;
      && s'.cnt <= s.cnt + 1
      && (s'.room == s.room || (s.room < s'.cnt == s.cnt + 1 && s'.room == 2 * s'.cnt <= limit))
      && (s'.cnt > s.cnt && s'.cnt > s.room && 2 * s'.cnt <= limit ==> s'.room == 2 * s'.cnt)
  {
    hide Union, Short;
  }

  /** There is room for every registered descriptor, up to half of the limit. */
  ghost predicate Roomy<N>(s: State<N>, limit: int) {
    forall c: int :: c <= s.cnt && 2 * c <= limit ==> c <= s.room
  }

  lemma RoomyStep<N>(s: State<N>, a: Action<N>, s': State<N>, limit: int)
    requires Inv(s) && Step(s, a, s', limit) && Roomy(s, limit)
    ensures Roomy(s', limit) && s.room <= s'.room
  {
    hide Step, Inv;
    RoomStep(s, a, s', limit);
  }

  /** In every run the list has room for an event of each registered descriptor, as long as twice
      their number is within the limit. */
  lemma {:induction false} RoomSuffices<N>(ss: seq<State<N>>, es: seq<Action<N>>, limit: int, k: nat)
    requires IsRun(ss, es, limit) && k <= |es|
    ensures Inv(ss[k]) && Roomy(ss[k], limit)
    ensures 2 * |ss[k].kernel| <= limit ==> |ss[k].kernel| <= ss[k].room
  {
    RunKeeps(ss, es, limit, k);
    if k == 0 {
    } else {
      RoomSuffices(ss, es, limit, k - 1);
      hide Step, Lists, Records, Covered;
      RoomyStep(ss[k - 1], es[k - 1], ss[k], limit);
    }
  }

  /** Asserts of the code that cannot fail: epoll_ctl finds the descriptor registered whenever it
      is to be changed or removed, and PollsetTimeoutDel finds its NetFD. */
  lemma AssertsHold<N>(s: State<N>, a: Action<N>)
    requires Inv(s) && Enabled(s, a)
    ensures a.Expire? ==> a.n in Entries(s, s.recs[a.n].fd) && s.recs[a.n].fd in s.kernel
    ensures a.Call? && Entries(s, s.recs[a.n].fd) != [] ==> s.recs[a.n].fd in s.kernel
    ensures a.Ready? && Exact(s) ==> Entries(s, a.fd) != []
  {
    match a {
      case Expire(n) => Expired(s, n);
      case Call(n, _, _, _) => assert Covered(s, s.recs[n].fd);
      case Ready(fd, _) => if Exact(s) { assert ExactAt(s, fd); }
      case _ =>
    }
  }

  /** A second NetFD is to be parked on a shared descriptor. */
  predicate Joins<N>(s: State<N>, n: N, request: Mask)
    requires n in s.recs
  {
    Acceptable(s, n, request) && s.recs[n].shared && Entries(s, s.recs[n].fd) != []
  }

  /** One that always fails where it is reached, in a build with asserts.  PollsetModify is reached
      if Poll succeeds on a descriptor that is registered already, which is so if and only if it is
      shared and a NetFD is parked on it; the mask, which differs from the old one, is an int with
      bit 31 set. */
  lemma ModifyAssertFails<N>(s: State<N>, n: N, request: Mask, kernelOk: bool, limit: int)
    requires Inv(s) && n in s.recs && !s.recs[n].owner
    ensures Add(s, n, request, kernelOk, limit).0 && s.recs[n].fd in s.kernel <==> Joins(s, n, request)
    ensures Joins(s, n, request) ==>
      var old', events := Union(s.recs, Entries(s, s.recs[n].fd)), request + {EdgeTriggered};
      && old' != events && !PositiveInt(old' + events)
      && Add(s, n, request, kernelOk, limit).1.kernel == s.kernel[s.recs[n].fd := old' + events]
  {
    hide Union, Short, Records, Grown;
    assert Covered(s, s.recs[n].fd);
    ParkedBound(s, s.recs[n].fd);
    if Joins(s, n, request) {
      Accepted(s, n, request, kernelOk, limit);
      Together(Union(s.recs, Entries(s, s.recs[n].fd)), request);
    }
    hide Covered;
    assert EdgeTriggered in request + {EdgeTriggered} && EdgeTriggered.Bit() == 31;
  }

  lemma Together(a: Mask, b: Mask)
    ensures a + b + {EdgeTriggered} == a + (b + {EdgeTriggered})
  {
  }

  // ---------------------------------------------------------------- a list of events

  /** What epoll_wait may return: each registered descriptor at most once, `notify` standing for
      the interrupter. */
  ghost predicate BatchOk<N>(s: State<N>, batch: seq<(int, Mask)>, notify: int) {
    && (forall i, j :: 0 <= i < j < |batch| ==> batch[i].0 != batch[j].0)
    && forall i :: 0 <= i < |batch| && batch[i].0 != notify ==> Reportable(s, batch[i].0, batch[i].1)
  }

  /** The events of a list, one after the other. */
  ghost function DeliverAll<N>(s: State<N>, batch: seq<(int, Mask)>, notify: int): (r: State<N>)
    requires Inv(s) && BatchOk(s, batch, notify)
    ensures Inv(r)
    ensures forall fd :: (forall i :: 0 <= i < |batch| ==> batch[i].0 != fd) ==>
      Entries(r, fd) == Entries(s, fd) && (fd in r.kernel <==> fd in s.kernel)
        && (fd in s.kernel ==> r.kernel[fd] == s.kernel[fd])
    decreases |batch|
  {
    if batch == [] then s
    else
      var front, last := batch[..|batch| - 1], batch[|batch| - 1];
      var t := DeliverAll(s, front, notify);
      if last.0 == notify then t
      else
        assert Reportable(t, last.0, last.1);
        ReadyKeeps(t, last.0, last.1);
        DeliveredElsewhere(t, last.0, last.1);
        Deliver(t, last.0, last.1)
  }

  lemma ReportableRegistered<N>(s: State<N>, fd: int, come: Mask)
    requires Reportable(s, fd, come)
    ensures fd in s.kernel
  {
  }

  /** The next event of a list can be delivered when those before it have been. */
  lemma DeliverNext<N>(s: State<N>, batch: seq<(int, Mask)>, notify: int, i: nat)
    requires Inv(s) && BatchOk(s, batch, notify) && i <= |batch|
    ensures BatchOk(s, batch[..i], notify)
    ensures i == 0 ==> DeliverAll(s, batch[..i], notify) == s
    ensures i == |batch| ==> batch[..i] == batch
    ensures i < |batch| ==>
      && BatchOk(s, batch[..i + 1], notify)
      && (batch[i].0 == notify ==> DeliverAll(s, batch[..i + 1], notify) == DeliverAll(s, batch[..i], notify))
    ensures i < |batch| && batch[i].0 != notify ==>
      && Lists(DeliverAll(s, batch[..i], notify)) && Reportable(DeliverAll(s, batch[..i], notify), batch[i].0, batch[i].1)
      && DeliverAll(s, batch[..i + 1], notify) == Deliver(DeliverAll(s, batch[..i], notify), batch[i].0, batch[i].1)
  {
    hide Deliver;
    if i < |batch| {
      assert batch[..i + 1][..i] == batch[..i];
      assert Inv(DeliverAll(s, batch[..i], notify));
    }
  }

  // ---------------------------------------------------------------- exactness

  /** Every bit that a woken NetFD asked for was reported, or a sleeper asks for it as well. */
  ghost predicate Clean<N>(s: State<N>, fd: int, come: Mask)
    requires Lists(s)
  {
    forall n :: n in Entries(s, fd) && Wakes(s.recs[n].events, come) ==>
      s.recs[n].events <= come + SleepersWant(s, fd, come)
  }

  ghost function SleepersWant<N>(s: State<N>, fd: int, come: Mask): Mask
    requires Lists(s)
  {
    AsleepAre(s.recs, Entries(s, fd), come);
    Union(s.recs, Asleep(s.recs, Entries(s, fd), come))
  }

  /** A delivery leaves the descriptor watched for exactly what is still asked for if and only if
      it is clean; otherwise too much is watched. */
  lemma ReadyExactIff<N>(s: State<N>, fd: int, come: Mask)
    requires Inv(s) && Reportable(s, fd, come)
    ensures Lists(Deliver(s, fd, come)) && (ExactAt(Deliver(s, fd, come), fd) <==> Clean(s, fd, come))
  {
    hide Union, WakeAll, Asleep, Deliver, Covered, Records;
    var s', q := Deliver(s, fd, come), Entries(s, fd);
    var rest := Union(s.recs, q) - come;
    ReadyKeeps(s, fd, come);
    Delivered(s, fd, come);
    DeliveredMask(s, fd, come);
    RestCovers(s.recs, q, come);
    ShortOfRequests(rest);
    UnionEmpty(s.recs, Entries(s', fd));
    SomethingWanted(s', fd);
  }

  lemma SomethingWanted<N>(s: State<N>, fd: int)
    requires Inv(s)
    ensures Union(s.recs, Entries(s, fd)) != {} <==> Entries(s, fd) != []
  {
    hide Union;
    ParkedRequests(s, fd);
    UnionEmpty(s.recs, Entries(s, fd));
    if Entries(s, fd) != [] {
      UnionMember(s.recs, Entries(s, fd), Entries(s, fd)[0]);
    }
  }

  /** At most one bit. */
  ghost predicate Single(m: Mask) {
    forall a, b :: a in m && b in m ==> a == b
  }

  /** An error or hang-up is reported together with every event the kernel was asked for. */
  ghost predicate FullyReported<N>(s: State<N>, fd: int, come: Mask) {
    fd in s.kernel && (come * EXCEPTION != {} ==> Short(s.kernel[fd]) <= come)
  }

  lemma SingleIsClean<N>(s: State<N>, fd: int, come: Mask)
    requires Inv(s) && Reportable(s, fd, come) && FullyReported(s, fd, come)
    requires forall n :: n in Entries(s, fd) ==> Single(s.recs[n].events)
    ensures Clean(s, fd, come)
  {
    hide Union, Asleep;
    assert Covered(s, fd);
    ParkedBound(s, fd);
    forall n | n in Entries(s, fd) && Wakes(s.recs[n].events, come)
      ensures s.recs[n].events <= come
    {
      UnionMember(s.recs, Entries(s, fd), n);
    }
  }

  lemma ExactElsewhere<N>(s: State<N>, s': State<N>, fd: int)
    requires Inv(s) && Inv(s') && Exact(s) && Elsewhere(s, s', fd) && ExactAt(s', fd)
    ensures Exact(s')
  {
    hide ExactAt, Elsewhere;
    forall f ensures ExactAt(s', f) {
      if f != fd {
        assert ExactAt(s, f);
        CoveredElsewhere(s, s', fd, f);
      }
    }
  }

  lemma StepExact<N>(s: State<N>, a: Action<N>, s': State<N>, limit: int)
    requires Inv(s) && Exact(s) && Step(s, a, s', limit) && (a.Ready? ==> Clean(s, a.fd, a.come))
    ensures Inv(s') && Exact(s')
  {
    hide Inv, Parks, Exact, ExactAt, Clean, Elsewhere;
    StepKeeps(s, a, s', limit);
    match a {
      case Assign(n, osfd, shared) => AssignKeeps(s, n, osfd, shared);
      case Call(n, request, timed, kernelOk) =>
        if Parks(s, n, request, kernelOk) {
          ParkKeeps(s, n, request, timed, kernelOk, limit);
          Called(s, n, request, timed, kernelOk, limit);
          ExactElsewhere(s, s', s.recs[n].fd);
        } else {
          RefuseKeeps(s, n, request, timed, kernelOk, limit);
        }
      case Ready(fd, come) =>
        ReadyExactIff(s, fd, come);
        DeliveredElsewhere(s, fd, come);
        ExactElsewhere(s, s', fd);
      case Expire(n) =>
        ExpireKeeps(s, n);
        Expired(s, n);
        ExactElsewhere(s, s', s.recs[n].fd);
      case Return(n) => ReturnKeeps(s, n);
    }
  }

  ghost predicate CleanUpTo<N>(ss: seq<State<N>>, es: seq<Action<N>>, limit: int, k: nat)
    requires IsRun(ss, es, limit) && k <= |es|
  {
    forall i :: 0 <= i < k && es[i].Ready? ==> Clean(ss[i], es[i].fd, es[i].come)
  }

  lemma {:induction false} RunExact<N>(ss: seq<State<N>>, es: seq<Action<N>>, limit: int, k: nat)
    requires IsRun(ss, es, limit) && k <= |es| && CleanUpTo(ss, es, limit, k)
    ensures Inv(ss[k]) && Exact(ss[k])
  {
    RunKeeps(ss, es, limit, k);
    if k == 0 {
    } else {
      RunExact(ss, es, limit, k - 1);
      StepExact(ss[k - 1], es[k - 1], ss[k], limit);
    }
  }

  /** The kernel's interest set is exact in every state of a run if and only if every delivery
      in it is clean. */
  lemma RunExactIff<N>(ss: seq<State<N>>, es: seq<Action<N>>, limit: int)
    requires IsRun(ss, es, limit)
    ensures (forall k :: 0 <= k <= |es| ==> Lists(ss[k]) && Exact(ss[k])) <==> CleanUpTo(ss, es, limit, |es|)
  {
    hide Step, Exact, Clean, Inv;
    if CleanUpTo(ss, es, limit, |es|) {
      forall k | 0 <= k <= |es| ensures Lists(ss[k]) && Exact(ss[k]) {
        RunExact(ss, es, limit, k);
        InvLists(ss[k]);
      }
    }
    if forall k :: 0 <= k <= |es| ==> Lists(ss[k]) && Exact(ss[k]) {
      forall i | 0 <= i < |es| && es[i].Ready? ensures Clean(ss[i], es[i].fd, es[i].come) {
        RunKeeps(ss, es, limit, i);
        ReadyStep(ss[i], es[i], ss[i + 1], limit);
        ReadyExactIff(ss[i], es[i].fd, es[i].come);
        assert Lists(ss[i + 1]) && Exact(ss[i + 1]);
        ExactHere(ss[i + 1], es[i].fd);
      }
    }
  }

  lemma InvLists<N>(s: State<N>)
    requires Inv(s)
    ensures Lists(s) && s.cnt == |s.kernel|
  {
  }

  lemma ExactHere<N>(s: State<N>, fd: int)
    requires Lists(s) && Exact(s)
    ensures ExactAt(s, fd)
  {
  }

  lemma ReadyStep<N>(s: State<N>, a: Action<N>, s': State<N>, limit: int)
    requires Lists(s) && Step(s, a, s', limit) && a.Ready?
    ensures Reportable(s, a.fd, a.come) && s' == Deliver(s, a.fd, a.come)
  {
  }

  /** Requests of one bit, as all callers in net_fd.cpp make them, and full reports. */
  ghost predicate Disciplined<N>(ss: seq<State<N>>, es: seq<Action<N>>, limit: int)
    requires IsRun(ss, es, limit)
  {
    forall i :: 0 <= i < |es| ==>
      && (es[i].Call? ==> Single(es[i].request))
      && (es[i].Ready? ==> FullyReported(ss[i], es[i].fd, es[i].come))
  }

  ghost predicate SingleRequests<N>(s: State<N>) {
    forall n :: n in s.recs && Parked(s, n) ==> Single(s.recs[n].events)
  }

  lemma StepSingle<N>(s: State<N>, a: Action<N>, s': State<N>, limit: int)
    requires Inv(s) && Step(s, a, s', limit) && SingleRequests(s) && (a.Call? ==> Single(a.request))
    ensures SingleRequests(s')
  {
    StepKeeps(s, a, s', limit);
    forall n | Parked(s', n) ensures Single(s'.recs[n].events) {
      StepParked(s, a, s', limit, n);
    }
  }

  /** One NetFD in a delivery. */
  lemma ReadyOn<N>(s: State<N>, fd: int, come: Mask, n: N)
    requires Inv(s) && Reportable(s, fd, come) && n in s.recs
    ensures var s' := Deliver(s, fd, come);
      var hit := Parked(s, n) && s.recs[n].fd == fd && Wakes(s.recs[n].events, come);
      && n in s'.recs
      && (hit ==> !Parked(s', n) && s'.recs[n] == WakeOne(s.recs, n, come)[n])
      && (!hit ==> (Parked(s', n) <==> Parked(s, n)) && s'.recs[n] == s.recs[n])
  {
    hide Union, Asleep, WakeAll, Deliver, Covered, Fine, Wakes;
    Delivered(s, fd, come);
    DeliveredElsewhere(s, fd, come);
    AsleepAre(s.recs, Entries(s, fd), come);
    assert ListAt(s, fd);
  }

  /** One NetFD when a timer fires. */
  lemma ExpireOn<N>(s: State<N>, m: N, n: N)
    requires Inv(s) && m in s.recs && s.recs[m].armed && n in s.recs
    ensures var s' := Timeout(s, m);
      && n in s'.recs
      && (n == m ==> Parked(s, n) && !Parked(s', n))
      && (n == m ==> s'.recs[n] == s.recs[n].(armed := false, queued := s.recs[n].queued + 1))
      && (n != m ==> (Parked(s', n) <==> Parked(s, n)) && s'.recs[n] == s.recs[n])
  {
    hide Union, Others, Timeout, Covered, Fine, OthersWant;
    Expired(s, m);
    OthersAre(Entries(s, s.recs[m].fd), m);
  }

  /** Another NetFD in a call of Poll. */
  lemma CallOn<N>(s: State<N>, m: N, request: Mask, timed: bool, kernelOk: bool, limit: int, n: N)
    requires Inv(s) && m in s.recs && !s.recs[m].owner && n in s.recs && n != m
    ensures var s' := Enter(s, m, request, timed, kernelOk, limit);
      n in s'.recs && (Parked(s', n) <==> Parked(s, n)) && s'.recs[n] == s.recs[n]
  {
    hide Union, Parks, Enter, Covered, Fine, Short;
    if Parks(s, m, request, kernelOk) {
      Called(s, m, request, timed, kernelOk, limit);
    } else {
      RefuseKeeps(s, m, request, timed, kernelOk, limit);
    }
  }

  /** A NetFD that is parked after a step was parked before with the same request, or the step
      was the Poll that parked it. */
  lemma StepParked<N>(s: State<N>, a: Action<N>, s': State<N>, limit: int, n: N)
    requires Inv(s) && Step(s, a, s', limit) && Parked(s', n)
    ensures || (Parked(s, n) && s'.recs[n] == s.recs[n])
            || (a.Call? && a.n == n && Parks(s, n, a.request, a.kernelOk) && s'.recs[n].events == a.request)
  {
    hide Parks, Union, Enter, Deliver, Timeout, Covered;
    assert n in s.recs ==> Fine(s.recs[n], Parked(s, n));
    match a {
      case Call(m, request, timed, kernelOk) =>
        if n in s.recs && n != m {
          CallOn(s, m, request, timed, kernelOk, limit, n);
        } else if Parks(s, m, request, kernelOk) {
          Called(s, m, request, timed, kernelOk, limit);
        } else {
          RefuseKeeps(s, m, request, timed, kernelOk, limit);
        }
      case Ready(fd, come) =>
        DeliveredElsewhere(s, fd, come);
        ReadyOn(s, fd, come, n);
      case Expire(m) =>
        Expired(s, m);
        ExpireOn(s, m, n);
      case Assign(m, osfd, _) =>
        assert ListAt(s, osfd.fd);
        if m in s.recs {
          Unused(s, m);
        }
      case Return(m) =>
    }
  }

  /** Under that discipline the kernel's mask is, at every moment, the union of the parked
      requests of its descriptor, a descriptor is registered exactly while a NetFD is parked on
      it, and the counter is the number of such descriptors. */
  lemma {:induction false} DisciplinedExact<N>(ss: seq<State<N>>, es: seq<Action<N>>, limit: int, k: nat)
    requires IsRun(ss, es, limit) && Disciplined(ss, es, limit) && k <= |es|
    ensures Inv(ss[k]) && Exact(ss[k]) && SingleRequests(ss[k])
  {
    hide Step, Clean, Reportable;
    RunKeeps(ss, es, limit, k);
    if k == 0 {
    } else {
      DisciplinedExact(ss, es, limit, k - 1);
      var s, a := ss[k - 1], es[k - 1];
      if a.Ready? {
        ReadyStep(s, a, ss[k], limit);
        SinglesListed(s, a.fd);
        SingleIsClean(s, a.fd, a.come);
      }
      StepExact(s, a, ss[k], limit);
      StepSingle(s, a, ss[k], limit);
    }
  }

  lemma SinglesListed<N>(s: State<N>, fd: int)
    requires Inv(s) && SingleRequests(s)
    ensures forall n :: n in Entries(s, fd) ==> Single(s.recs[n].events)
  {
    forall n | n in Entries(s, fd) ensures Single(s.recs[n].events) {
      assert Parked(s, n);
    }
  }

  // ---------------------------------------------------------------- without the discipline

  /** After a delivery that is not clean and wakes everybody, the descriptor stays registered,
      and a Poll on it is refused, because EPOLL_CTL_ADD fails.  How long that lasts is the
      subject of the module EpollMasks. */
  lemma LeftoverRefuses<N>(s: State<N>, fd: int, come: Mask, n: N, request: Mask, kernelOk: bool)
    requires Inv(s) && Reportable(s, fd, come) && !Clean(s, fd, come)
    requires Entries(Deliver(s, fd, come), fd) == []
    requires n in s.recs && s.recs[n].fd == fd
    ensures var s' := Deliver(s, fd, come);
      fd in s'.kernel && n in s'.recs && !Parks(s', n, request, kernelOk)
  {
    hide Deliver, Clean;
    ReadyExactIff(s, fd, come);
    DeliveredElsewhere(s, fd, come);
    UnionEmpty(Deliver(s, fd, come).recs, Entries(Deliver(s, fd, come), fd));
  }

  /** A wait set on which nothing has happened yet. */
  function Nothing(): State<nat> { State(map[], map[], map[], 0, 1) }

  /** A request for two events of which one is reported. */
  lemma TwoBitsLeak()
    ensures var s1 := WaitSet.Assign(Nothing(), 0, Plain(5), true);
      var s2 := Enter(s1, 0, {In, Out}, false, true, 10);
      var s3 := Deliver(s2, 5, {In});
      && Parks(s1, 0, {In, Out}, true) && Reportable(s2, 5, {In})
      && Entries(s3, 5) == [] && s3.kernel == map[5 := {Out}] && s3.cnt == 1
  {
    assert In in {In, Out} * {In} && Out in {In, Out} - {In};
    assert {In, Out} - {In} == {Out};
    LeakWith({In, Out}, {In});
  }

  /** A request for one event, and a hang-up reported without it. */
  lemma HangUpLeaks()
    ensures var s1 := WaitSet.Assign(Nothing(), 0, Plain(5), true);
      var s2 := Enter(s1, 0, {In}, false, true, 10);
      var s3 := Deliver(s2, 5, {Hup});
      && Parks(s1, 0, {In}, true) && Reportable(s2, 5, {Hup})
      && Entries(s3, 5) == [] && s3.kernel == map[5 := {In}] && s3.cnt == 1
  {
    assert Hup in {Hup} * EXCEPTION && In in {In} - {Hup};
    assert {In} - {Hup} == {In};
    LeakWith({In}, {Hup});
  }

  lemma LeakWith(request: Mask, come: Mask)
    requires {} != request <= REQUESTABLE && Wakes(request, come) && request - come != {}
    requires come <= request + {Err, Hup}
    ensures var s1 := WaitSet.Assign(Nothing(), 0, Plain(5), true);
      var s2 := Enter(s1, 0, request, false, true, 10);
      var s3 := Deliver(s2, 5, come);
      && Parks(s1, 0, request, true) && Reportable(s2, 5, come)
      && Entries(s3, 5) == [] && s3.kernel == map[5 := request - come] && s3.cnt == 1
  {
    var s1 := WaitSet.Assign(Nothing(), 0, Plain(5), true);
    var s2 := Enter(s1, 0, request, false, true, 10);
    ShortOfRequests(request);
    assert Entries(s2, 5) == [0] && s2.recs[0].events == request;
    assert s2.kernel[5] == request + {EdgeTriggered};
    var q: seq<nat> := [0];
    assert q[..0] == [];
    assert Union(s2.recs, [0]) == request;
    assert Asleep(s2.recs, [0], come) == [];
  }
}
