/** The epoll wait set as values: what Poll, event delivery and timeouts do to the parked
    NetFDs, to the interest set in the kernel, and to the counter of registered descriptors. */
module WaitSet {
  import opened Basics

  // ---------------------------------------------------------------- event masks

  /** The bits of an event mask.  Other(b) is any further bit. */
  datatype Event = In | Pri | Out | Err | Hup | Nval | RdHup | EdgeTriggered | Other(bit: nat) {
    function Bit(): nat {
      match this
      case In => 0
      case Pri => 1
      case Out => 2
      case Err => 3
      case Hup => 4
      case Nval => 5
      case RdHup => 13
      case EdgeTriggered => 31
      case Other(b) => b
    }
  }

  type Mask = set<Event>

  const REQUESTABLE: Mask := {In, Out, Pri}
  const EXCEPTION: Mask := {Err, Hup, RdHup, Nval}

  /** pollfd.events has 16 bits. */
  function Short(m: Mask): Mask { set e | e in m && e.Bit() < 16 }

  /** As a signed 32-bit int, a mask is positive unless it is empty or has bit 31. */
  predicate PositiveInt(m: Mask) {
    m != {} && forall e :: e in m ==> e.Bit() != 31
  }

  // ---------------------------------------------------------------- state

  /** A NetFD and the Poll call that uses it: owner is set from parking until Poll returns;
      timed: Poll has a timeout; timer: net_fd.timer is not null; armed: that timer can still
      fire; queued: how often the task waits in the run queue. */
  datatype Rec = Rec(
    fd: int, shared: bool, events: Mask, revents: Mask,
    owner: bool, timed: bool, timer: bool, armed: bool, queued: nat)

  /** fdMap: the parked NetFDs of each descriptor, in the order of insertion.  kernel: the
      interest mask of each registered descriptor, without that of the interrupter. */
  datatype State<!N(==)> = State(
    recs: map<N, Rec>, fdMap: map<int, seq<N>>, kernel: map<int, Mask>, cnt: int, room: nat)

  function Entries<N>(s: State<N>, fd: int): seq<N> {
    if fd in s.fdMap then s.fdMap[fd] else []
  }

  predicate Parked<N(==)>(s: State<N>, n: N) {
    n in s.recs && n in Entries(s, s.recs[n].fd)
  }

  /** All events that some of these NetFDs ask for. */
  function Union<N>(recs: map<N, Rec>, q: seq<N>): Mask
    requires forall n :: n in q ==> n in recs
  {
    if q == [] then {} else Union(recs, q[..|q| - 1]) + recs[q[|q| - 1]].events
  }

  // ---------------------------------------------------------------- Poll, up to the switch

  function Interest<N>(s: State<N>, fd: int, mask: Mask): State<N> {
    s.(kernel := s.kernel[fd := mask])
  }

  function Forget<N>(s: State<N>, fd: int): State<N> {
    s.(kernel := s.kernel - {fd}, cnt := s.cnt - 1)
  }

  /** A descriptor keeps being watched for the rest of the events, if any. */
  function Rewatch<N>(s: State<N>, fd: int, rest: Mask): State<N> {
    if rest == {} then Forget(s, fd) else Interest(s, fd, rest)
  }

  /** The list that epoll_wait fills is doubled when it may be too short. */
  function Grown(cnt: int, room: nat, limit: int): nat {
    if cnt > room && cnt * 2 <= limit then cnt * 2 else room
  }

  /** EPOLL_CTL_ADD fails if the descriptor is registered, or for reasons of the kernel's own. */
  function AddHelp<N>(s: State<N>, n: N, events: Mask, kernelOk: bool, limit: int): (r: (bool, State<N>))
    requires n in s.recs
  {
    var fd := s.recs[n].fd;
    var s1 := s.(recs := s.recs[n := s.recs[n].(events := Short(events))]);
    if fd in s.kernel || !kernelOk then (false, s1)
    else (true, Interest(s1, fd, events).(cnt := s.cnt + 1, room := Grown(s.cnt + 1, s.room, limit)))
  }

  /** The descriptor is watched for the events of the NetFDs parked on it and the new ones. */
  function ModifyHelp<N(==)>(s: State<N>, n: N, events: Mask): State<N>
    requires n in s.recs && forall m :: m in Entries(s, s.recs[n].fd) ==> m in s.recs
  {
    var s1 := s.(recs := s.recs[n := s.recs[n].(events := Short(events))]);
    var oldEvents := Union(s1.recs, Entries(s, s.recs[n].fd));
    if oldEvents != events then Interest(s1, s.recs[n].fd, oldEvents + events) else s1
  }

  function Add<N(==)>(s: State<N>, n: N, request: Mask, kernelOk: bool, limit: int): (r: (bool, State<N>))
    requires n in s.recs && forall m :: m in Entries(s, s.recs[n].fd) ==> m in s.recs
  {
    var fd, q := s.recs[n].fd, Entries(s, s.recs[n].fd);
    if fd < 0 || request == {} || !(request <= REQUESTABLE) then (false, s)
    else
      var events := request + {EdgeTriggered};
      if !s.recs[n].shared || q == [] then AddHelp(s, n, events, kernelOk, limit)
      else (true, ModifyHelp(s, n, events))
  }

  function Park<N(==)>(s: State<N>, n: N, timed: bool): State<N>
    requires n in s.recs
  {
    var r := s.recs[n];
    s.(recs := s.recs[n := r.(owner := true, timed := timed, timer := r.timer || timed, armed := r.armed || timed)],
       fdMap := s.fdMap[r.fd := Entries(s, r.fd) + [n]])
  }

  function Enter<N(==)>(s: State<N>, n: N, request: Mask, timed: bool, kernelOk: bool, limit: int): State<N>
    requires n in s.recs && forall m :: m in Entries(s, s.recs[n].fd) ==> m in s.recs
  {
    var (ok, s1) := Add(s, n, request, kernelOk, limit);
    if ok then Park(s1, n, timed) else s1
  }

  // ---------------------------------------------------------------- delivery

  predicate Wakes(events: Mask, come: Mask) {
    events * come != {} || come * EXCEPTION != {}
  }

  /** RemoveNetFD2TaskRunnable and StopTimer on one entry. */
  function WakeOne<N(==)>(recs: map<N, Rec>, n: N, come: Mask): map<N, Rec>
    requires n in recs
  {
    var r := recs[n];
    if Wakes(r.events, come) then
      recs[n := r.(revents := (r.events * come) + (come * EXCEPTION), queued := r.queued + 1,
                   timer := false, armed := false)]
    else recs
  }

  function WakeAll<N(==)>(recs: map<N, Rec>, q: seq<N>, come: Mask): (r: map<N, Rec>)
    requires forall n :: n in q ==> n in recs
    ensures r.Keys == recs.Keys
    ensures forall n :: n in recs ==> r[n].fd == recs[n].fd && r[n].events == recs[n].events
  {
    if q == [] then recs else WakeOne(WakeAll(recs, q[..|q| - 1], come), q[|q| - 1], come)
  }

  /** The entries that sleep on. */
  function Asleep<N>(recs: map<N, Rec>, q: seq<N>, come: Mask): seq<N>
    requires forall n :: n in q ==> n in recs
  {
    if q == [] then []
    else
      var n := q[|q| - 1];
      Asleep(recs, q[..|q| - 1], come) + if Wakes(recs[n].events, come) then [] else [n]
  }

  /** One event reported by epoll_wait. */
  function Deliver<N(==)>(s: State<N>, fd: int, come: Mask): State<N>
    requires forall n :: n in Entries(s, fd) ==> n in s.recs
  {
    var q := Entries(s, fd);
    var s1 := s.(recs := WakeAll(s.recs, q, come),
                 fdMap := if fd in s.fdMap then s.fdMap[fd := Asleep(s.recs, q, come)] else s.fdMap);
    Rewatch(s1, fd, Union(s.recs, q) - come)
  }

  // ---------------------------------------------------------------- timeout

  function Others<N(==)>(q: seq<N>, n: N): seq<N> {
    if q == [] then []
    else Others(q[..|q| - 1], n) + if q[|q| - 1] == n then [] else [q[|q| - 1]]
  }

  lemma {:induction false} OthersAre<N>(q: seq<N>, n: N)
    ensures forall m :: m in Others(q, n) ==> m in q && m != n
    ensures forall m :: m in q && m != n ==> m in Others(q, n)
    ensures Distinct(q) ==> Distinct(Others(q, n))
  {
    if q == [] {
    } else {
      var front, last := q[..|q| - 1], q[|q| - 1];
      OthersAre(front, n);
      assert q == front + [last];
      if Distinct(q) {
        assert last !in front && Distinct(front);
      }
    }
  }

  /** What the other NetFDs of a list ask for. */
  function OthersWant<N(==)>(recs: map<N, Rec>, q: seq<N>, n: N): Mask
    requires forall m :: m in q ==> m in recs
  {
    OthersAre(q, n);
    Union(recs, Others(q, n))
  }

  /** PollsetTimeoutDel. */
  function TimeoutDel<N(==)>(s: State<N>, n: N): State<N>
    requires n in s.recs && forall m :: m in Entries(s, s.recs[n].fd) ==> m in s.recs
  {
    var fd := s.recs[n].fd;
    var s1 := s.(fdMap := if fd in s.fdMap then s.fdMap[fd := Others(s.fdMap[fd], n)] else s.fdMap);
    Rewatch(s1, fd, OthersWant(s.recs, Entries(s, fd), n))
  }

  /** The timer of n fires: PollsetTimeoutDel, then the task is made runnable. */
  function Timeout<N(==)>(s: State<N>, n: N): State<N>
    requires n in s.recs && forall m :: m in Entries(s, s.recs[n].fd) ==> m in s.recs
  {
    TimeoutDel(s, n).(recs := s.recs[n := s.recs[n].(armed := false, queued := s.recs[n].queued + 1)])
  }

  // ---------------------------------------------------------------- Poll, after the switch

  datatype Outcome = Done | TimedOut | BadFd | Failed

  function OutcomeOf(r: Rec): Outcome {
    if r.timed && r.timer then TimedOut
    else if Nval in r.revents then BadFd
    else if r.revents * EXCEPTION != {} then Failed
    else Done
  }

  function Leave<N(==)>(s: State<N>, n: N): State<N>
    requires n in s.recs && s.recs[n].queued > 0
  {
    var r := s.recs[n];
    s.(recs := s.recs[n := r.(owner := false, queued := r.queued - 1, timer := r.timer && !r.timed)])
  }

  /** The pollfd of a NetFD, which copying takes over whole, pending requests included. */
  datatype PollFd = PollFd(fd: int, events: Mask, revents: Mask)

  function Plain(fd: int): PollFd { PollFd(fd, {}, {}) }

  /** A NetFD that no Poll uses is made or assigned to. */
  function Assign<N(==)>(s: State<N>, n: N, osfd: PollFd, shared: bool): State<N> {
    var r := if n in s.recs then s.recs[n] else Rec(-1, false, {}, {}, false, false, false, false, 0);
    s.(recs := s.recs[n := r.(fd := osfd.fd, shared := shared, events := osfd.events, revents := osfd.revents)])
  }

  // ---------------------------------------------------------------- facts

  /** The union of some NetFDs' requests, by membership. */
  lemma {:induction false} UnionHas<N>(recs: map<N, Rec>, q: seq<N>, e: Event)
    requires forall n :: n in q ==> n in recs
    ensures e in Union(recs, q) <==> exists n :: n in q && e in recs[n].events
  {
    if q == [] {
    } else {
      UnionHas(recs, q[..|q| - 1], e);
      assert q == q[..|q| - 1] + [q[|q| - 1]];
    }
  }

  lemma UnionMember<N>(recs: map<N, Rec>, q: seq<N>, n: N)
    requires n in q && forall m :: m in q ==> m in recs
    ensures recs[n].events <= Union(recs, q)
  {
    forall e | e in recs[n].events ensures e in Union(recs, q) {
      UnionHas(recs, q, e);
    }
  }

  lemma {:induction false} UnionSame<N>(recs: map<N, Rec>, recs': map<N, Rec>, q: seq<N>)
    requires forall n :: n in q ==> n in recs && n in recs' && recs[n].events == recs'[n].events
    ensures Union(recs, q) == Union(recs', q)
  {
    if q == [] {
    } else {
      UnionSame(recs, recs', q[..|q| - 1]);
    }
  }

  lemma UnionBound<N>(recs: map<N, Rec>, q: seq<N>, bound: Mask)
    requires forall n :: n in q ==> n in recs && recs[n].events <= bound
    ensures Union(recs, q) <= bound
  {
    forall e | e in Union(recs, q) ensures e in bound {
      UnionHas(recs, q, e);
    }
  }

  lemma {:induction false} AsleepAre<N>(recs: map<N, Rec>, q: seq<N>, come: Mask)
    requires forall n :: n in q ==> n in recs
    ensures forall n :: n in Asleep(recs, q, come) ==> n in q && !Wakes(recs[n].events, come)
    ensures forall n :: n in q && !Wakes(recs[n].events, come) ==> n in Asleep(recs, q, come)
    ensures Distinct(q) ==> Distinct(Asleep(recs, q, come))
  {
    if q == [] {
    } else {
      var front, last := q[..|q| - 1], q[|q| - 1];
      AsleepAre(recs, front, come);
      assert q == front + [last];
      if Distinct(q) {
        assert last !in front && Distinct(front);
      }
    }
  }

  /** Waking a list of distinct NetFDs wakes each of them as WakeOne does, and no other. */
  lemma {:induction false} WakeAllAt<N>(recs: map<N, Rec>, q: seq<N>, come: Mask, n: N)
    requires Distinct(q) && (forall m :: m in q ==> m in recs) && n in recs
    ensures WakeAll(recs, q, come)[n] == if n in q then WakeOne(recs, n, come)[n] else recs[n]
  {
    if q == [] {
    } else {
      var front, last := q[..|q| - 1], q[|q| - 1];
      assert q == front + [last] && Distinct(front) && last !in front;
      WakeAllAt(recs, front, come, n);
      WakeAllAt(recs, front, come, last);
    }
  }

  lemma Apart(a: Mask, b: Mask, e: Event)
    requires a * b == {} && e in a
    ensures e !in b
  {
    assert e in b ==> e in a * b;
  }

  /** Nothing that a sleeper still asks for is dropped from the interest mask; and exactly that
      is left if and only if every other bit a woken NetFD asked for was reported. */
  lemma RestCovers<N>(recs: map<N, Rec>, q: seq<N>, come: Mask)
    requires forall n :: n in q ==> n in recs
    ensures forall n :: n in Asleep(recs, q, come) ==> n in q
    ensures Union(recs, Asleep(recs, q, come)) <= Union(recs, q) - come
    ensures Union(recs, Asleep(recs, q, come)) == Union(recs, q) - come <==>
      forall n :: n in q && Wakes(recs[n].events, come) ==>
        recs[n].events <= come + Union(recs, Asleep(recs, q, come))
  {
    var rest := Asleep(recs, q, come);
    AsleepAre(recs, q, come);
    forall e | e in Union(recs, rest) ensures e in Union(recs, q) - come {
      UnionHas(recs, rest, e);
      UnionHas(recs, q, e);
      var n :| n in rest && e in recs[n].events;
      Apart(recs[n].events, come, e);
    }
    if Union(recs, rest) == Union(recs, q) - come {
      forall n | n in q && Wakes(recs[n].events, come) ensures recs[n].events <= come + Union(recs, rest) {
        UnionMember(recs, q, n);
      }
    }
    if forall n :: n in q && Wakes(recs[n].events, come) ==> recs[n].events <= come + Union(recs, rest) {
      forall e | e in Union(recs, q) - come ensures e in Union(recs, rest) {
        UnionHas(recs, q, e);
        UnionHas(recs, rest, e);
      }
    }
  }

  /** Which bits of a delivery concern a NetFD: those it asked for, and the four exceptions. */
  lemma Bits(events: Mask, come: Mask)
    ensures Wakes(events, come) <==> come * (events + {Err, Hup, RdHup, Nval}) != {}
    ensures (events * come) + (come * EXCEPTION) == come * (events + {Err, Hup, RdHup, Nval})
    ensures come * EXCEPTION == come * {Err, Hup, RdHup, Nval}
  {
    assert (events * come) + (come * EXCEPTION) == come * (events + {Err, Hup, RdHup, Nval});
  }

  /** One event and the entries of its descriptor: the bits that concern an entry decide whether it
      is woken, and are its result. */
  ghost predicate Notified<N>(recs: map<N, Rec>, q: seq<N>, come: Mask, recs': map<N, Rec>, q': seq<N>) {
    && (forall n :: n in q ==> n in recs && n in recs')
    && (forall n :: n in q && come * (recs[n].events + {Err, Hup, RdHup, Nval}) == {} ==> n in q' && recs'[n] == recs[n])
    && (forall n :: n in q && come * (recs[n].events + {Err, Hup, RdHup, Nval}) != {} ==>
          && n !in q' && recs'[n].queued == recs[n].queued + 1
          && recs'[n].revents == come * (recs[n].events + {Err, Hup, RdHup, Nval}))
  }

  /** How Poll ends, bit by bit. */
  lemma OutcomeBits(r: Rec)
    ensures OutcomeOf(r) == TimedOut <==> r.timed && r.timer
    ensures OutcomeOf(r) == Done <==> OutcomeOf(r) != TimedOut && r.revents * {Err, Hup, RdHup, Nval} == {}
    ensures OutcomeOf(r) == BadFd <==> OutcomeOf(r) != TimedOut && Nval in r.revents
  {
    assert Nval in r.revents <==> Nval in r.revents * {Err, Hup, RdHup, Nval};
  }

  lemma OneNotified<N>(recs: map<N, Rec>, q: seq<N>, come: Mask, n: N)
    requires Distinct(q) && (forall m :: m in q ==> m in recs) && n in q
    ensures var concerns := come * (recs[n].events + {Err, Hup, RdHup, Nval});
      && (concerns == {} <==> !Wakes(recs[n].events, come))
      && (concerns == {} ==> WakeAll(recs, q, come)[n] == recs[n])
      && (concerns != {} ==>
            WakeAll(recs, q, come)[n].revents == concerns && WakeAll(recs, q, come)[n].queued == recs[n].queued + 1)
  {
    hide Wakes;
    Bits(recs[n].events, come);
    WakeAllAt(recs, q, come, n);
    hide WakeAll;
  }

  lemma AllNotified<N>(recs: map<N, Rec>, q: seq<N>, come: Mask)
    requires Distinct(q) && forall n :: n in q ==> n in recs
    ensures Notified(recs, q, come, WakeAll(recs, q, come), Asleep(recs, q, come))
  {
    hide Wakes, WakeAll, Asleep, Distinct, WakeOne;
    AsleepAre(recs, q, come);
    forall n | n in q
      ensures come * (recs[n].events + {Err, Hup, RdHup, Nval}) == {} <==> !Wakes(recs[n].events, come)
      ensures come * (recs[n].events + {Err, Hup, RdHup, Nval}) == {} ==> WakeAll(recs, q, come)[n] == recs[n]
      ensures come * (recs[n].events + {Err, Hup, RdHup, Nval}) != {} ==>
        && WakeAll(recs, q, come)[n].revents == come * (recs[n].events + {Err, Hup, RdHup, Nval})
        && WakeAll(recs, q, come)[n].queued == recs[n].queued + 1
    {
      OneNotified(recs, q, come, n);
    }
  }
}
