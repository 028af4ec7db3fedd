/** Every Poll that parks its task is woken exactly once, and Poll's result tells by what. */
module EpollWakes {
  import opened WaitSet
  import opened EpollRuns

  /** The task is in the run queue, once, and nothing is left that could wake it again. */
  ghost predicate Runnable<N>(s: State<N>, n: N) {
    && n in s.recs && s.recs[n].owner && !Parked(s, n)
    && s.recs[n].queued == 1 && !s.recs[n].armed
  }

  /** The step wakes n with an event of its descriptor that concerns it. */
  ghost predicate WokenByEvent<N>(s: State<N>, a: Action<N>, n: N) {
    n in s.recs && a.Ready? && a.fd == s.recs[n].fd && Wakes(s.recs[n].events, a.come)
  }

  /** The record of a NetFD just woken. */
  ghost predicate WokenAs<N>(s: State<N>, a: Action<N>, s': State<N>, n: N)
    requires n in s.recs && n in s'.recs
  {
    var r, r' := s.recs[n], s'.recs[n];
    && r'.timed == r.timed
    && (a == Expire(n) ==> r'.timer && r.timed)
    && (WokenByEvent(s, a, n) ==> !r'.timer && r'.revents == (r.events * a.come) + (a.come * EXCEPTION))
  }

  /** One NetFD in a step: it is woken, by its timer or by an event but not both, or it is
      itself in a call or return of Poll or assigned anew, or it stays as it is. */
  lemma StepOn<N>(s: State<N>, a: Action<N>, s': State<N>, limit: int, n: N)
    requires Inv(s) && Step(s, a, s', limit) && n in s.recs
    requires s.recs[n].owner && a != Return(n)
    ensures n in s'.recs
    ensures a == Expire(n) ==> Parked(s, n) && !Parked(s', n)
    ensures a == Expire(n) ==>
      s'.recs[n] == s.recs[n].(armed := false, queued := s.recs[n].queued + 1)
    ensures Parked(s, n) && WokenByEvent(s, a, n) ==> !Parked(s', n) && s'.recs[n] == WakeOne(s.recs, n, a.come)[n]
    ensures a != Expire(n) && !(Parked(s, n) && WokenByEvent(s, a, n)) ==>
      (Parked(s', n) <==> Parked(s, n)) && s'.recs[n] == s.recs[n]
  {
    hide Parks, Union, Enter, Deliver, Timeout, Covered, Fine, Records, Wakes;
    match a {
      case Call(m, request, timed, kernelOk) => CallOn(s, m, request, timed, kernelOk, limit, n);
      case Ready(fd, come) => ReadyOn(s, fd, come, n);
      case Expire(m) => ExpireOn(s, m, n);
      case Assign(m, _, _) =>
      case Return(m) =>
    }
  }

  /** A parked NetFD stays as it is, or is woken, by its timer or by an event but not both. */
  lemma ParkedStep<N>(s: State<N>, a: Action<N>, s': State<N>, limit: int, n: N)
    requires Inv(s) && Step(s, a, s', limit) && Parked(s, n)
    ensures n in s'.recs
    ensures a != Expire(n) && !WokenByEvent(s, a, n) ==> Parked(s', n) && s'.recs[n] == s.recs[n]
    ensures a == Expire(n) || WokenByEvent(s, a, n) ==> Runnable(s', n) && WokenAs(s, a, s', n)
  {
    assert Fine(s.recs[n], true);
    hide Parks, Union, Enter, Deliver, Timeout, Covered;
    StepOn(s, a, s', limit, n);
  }

  /** Once runnable, a NetFD is touched by nothing until its Poll returns. */
  lemma RunnableStep<N>(s: State<N>, a: Action<N>, s': State<N>, limit: int, n: N)
    requires Inv(s) && Step(s, a, s', limit) && Runnable(s, n) && a != Return(n)
    ensures Runnable(s', n) && s'.recs[n] == s.recs[n]
  {
    hide Parks, Union, Enter, Deliver, Timeout, Covered;
    StepOn(s, a, s', limit, n);
  }

  ghost predicate NoReturn<N>(es: seq<Action<N>>, n: N, i: nat, k: nat)
    requires i <= k <= |es|
  {
    forall m :: i <= m < k ==> es[m] != Return(n)
  }

  /** The step at which a parked NetFD is woken. */
  lemma {:induction false} FindWake<N>(ss: seq<State<N>>, es: seq<Action<N>>, limit: int, n: N, i: nat, k: nat) returns (j: nat)
    requires IsRun(ss, es, limit) && i <= k < |es| && es[k] == Return(n) && Parked(ss[i], n)
    ensures i <= j < k && (es[j] == Expire(n) || WokenByEvent(ss[j], es[j], n))
    ensures forall m :: i <= m <= j ==> Parked(ss[m], n) && ss[m].recs[n] == ss[i].recs[n]
    ensures Runnable(ss[j + 1], n) && WokenAs(ss[j], es[j], ss[j + 1], n)
    decreases k - i
  {
    hide Step, Inv, Parked, WokenByEvent, WokenAs, Runnable;
    RunKeeps(ss, es, limit, i);
    NotYet(ss[i], es[i], ss[i + 1], limit, n);
    ParkedStep(ss[i], es[i], ss[i + 1], limit, n);
    if es[i] == Expire(n) || WokenByEvent(ss[i], es[i], n) {
      j := i;
    } else {
      j := FindWake(ss, es, limit, n, i + 1, k);
    }
  }

  lemma NotYet<N>(s: State<N>, a: Action<N>, s': State<N>, limit: int, n: N)
    requires Inv(s) && Step(s, a, s', limit) && Parked(s, n)
    ensures a != Return(n)
  {
    assert Fine(s.recs[n], true);
  }

  lemma {:induction false} StaysRunnable<N>(ss: seq<State<N>>, es: seq<Action<N>>, limit: int, n: N, i: nat, k: nat)
    requires IsRun(ss, es, limit) && i <= k <= |es| && Runnable(ss[i], n) && NoReturn(es, n, i, k)
    ensures Runnable(ss[k], n) && ss[k].recs[n] == ss[i].recs[n]
    decreases k - i
  {
    hide Step, Inv, Runnable;
    if i == k {
    } else {
      RunKeeps(ss, es, limit, i);
      RunnableStep(ss[i], es[i], ss[i + 1], limit, n);
      StaysRunnable(ss, es, limit, n, i + 1, k);
    }
  }

  /** The step that wakes a Poll, with the records before and after it. */
  lemma WakeOf<N>(ss: seq<State<N>>, es: seq<Action<N>>, limit: int, n: N, i: nat, k: nat) returns (j: nat)
    requires IsRun(ss, es, limit) && i < k < |es|
    requires es[i].Call? && es[i].n == n && n in ss[i].recs && Parks(ss[i], n, es[i].request, es[i].kernelOk)
    requires es[k] == Return(n) && NoReturn(es, n, i, k)
    ensures i < j < k && (es[j] == Expire(n) || WokenByEvent(ss[j], es[j], n))
    ensures n in ss[i + 1].recs && ss[i + 1].recs[n].events == es[i].request && ss[i + 1].recs[n].queued == 0
    ensures ss[i + 1].recs[n].armed == es[i].timed && ss[i + 1].recs[n].fd == ss[i].recs[n].fd
    ensures forall m :: i < m <= j ==> Parked(ss[m], n) && ss[m].recs[n] == ss[i + 1].recs[n]
    ensures forall m :: j < m <= k ==> Runnable(ss[m], n) && ss[m].recs[n] == ss[j + 1].recs[n]
    ensures n in ss[j].recs && n in ss[j + 1].recs && WokenAs(ss[j], es[j], ss[j + 1], n)
  {
    RunKeeps(ss, es, limit, i);
    CallParks(ss[i], es[i], ss[i + 1], limit);
    hide Step, Inv, WokenAs, Parks, Runnable, WokenByEvent;
    j := FindWake(ss, es, limit, n, i + 1, k);
    forall m | j < m <= k ensures Runnable(ss[m], n) && ss[m].recs[n] == ss[j + 1].recs[n] {
      StaysRunnable(ss, es, limit, n, j + 1, m);
    }
  }

  /** A Poll parks at step i and returns at step k.  There is one step j in between that wakes
      its task: until then it sleeps, with a timer if and only if it was given a timeout, and is
      passed over by every event that brings nothing that it asked for and no exception; from then
      on it is in the run queue exactly once.  Poll reports a timeout if and only if that step was
      its timer firing; otherwise it was woken by an event, of which it finds what it asked for and
      the exceptions, and it succeeds if and only if there were no exceptions. */
  lemma WokenOnce<N>(ss: seq<State<N>>, es: seq<Action<N>>, limit: int, n: N, i: nat, k: nat) returns (j: nat)
    requires IsRun(ss, es, limit) && i < k < |es|
    requires es[i].Call? && es[i].n == n && n in ss[i].recs && Parks(ss[i], n, es[i].request, es[i].kernelOk)
    requires es[k] == Return(n) && NoReturn(es, n, i, k)
    ensures i < j < k && (es[j] == Expire(n) || WokenByEvent(ss[j], es[j], n))
    ensures forall m :: i < m <= j ==>
      Parked(ss[m], n) && ss[m].recs[n].queued == 0 && ss[m].recs[n].armed == es[i].timed
    ensures forall m :: j < m <= k ==> Runnable(ss[m], n)
    ensures Runnable(ss[k], n)
    ensures es[j] == Expire(n) <==> OutcomeOf(ss[k].recs[n]) == TimedOut
    ensures es[j] != Expire(n) ==> es[j].Ready? && es[j].fd == ss[i].recs[n].fd
    ensures es[j] != Expire(n) ==>
      var come, outcome := es[j].come, OutcomeOf(ss[k].recs[n]);
      && ss[k].recs[n].revents == come * (es[i].request + {Err, Hup, RdHup, Nval}) != {}
      && (outcome == Done <==> come * {Err, Hup, RdHup, Nval} == {})
      && (outcome == BadFd <==> Nval in come)
    ensures forall m :: i < m < j && es[m].Ready? && es[m].fd == ss[i].recs[n].fd ==>
      es[m].come * (es[i].request + {Err, Hup, RdHup, Nval}) == {}
  {
    hide Step, Inv, WokenAs, Runnable, OutcomeOf, Wakes, IsRun;
    ParkedBits(ss, es, limit, i, n);
    j := WakeOf(ss, es, limit, n, i, k);
    Bits(es[i].request, if es[j].Ready? then es[j].come else {});
    forall m | i < m < j && es[m].Ready? && es[m].fd == ss[i].recs[n].fd
      ensures es[m].come * (es[i].request + {Err, Hup, RdHup, Nval}) == {}
    {
      SleptThrough(ss, es, limit, n, m);
      assert ss[m].recs[n] == ss[i + 1].recs[n];
      Bits(es[i].request, es[m].come);
    }
    OutcomeAfter(ss[j], es[j], ss[j + 1], n);
  }

  lemma ParkedBits<N>(ss: seq<State<N>>, es: seq<Action<N>>, limit: int, i: nat, n: N)
    requires IsRun(ss, es, limit) && i < |es| && n in ss[i].recs && es[i].Call? && Parks(ss[i], n, es[i].request, es[i].kernelOk)
    ensures es[i].request <= REQUESTABLE && |ss| == |es| + 1
  {
    ParksAcceptable(ss[i], n, es[i].request, es[i].kernelOk);
  }

  lemma SleptThrough<N>(ss: seq<State<N>>, es: seq<Action<N>>, limit: int, n: N, m: nat)
    requires IsRun(ss, es, limit) && m < |es| && Parked(ss[m], n) && Parked(ss[m + 1], n)
    ensures !WokenByEvent(ss[m], es[m], n)
  {
    RunKeeps(ss, es, limit, m);
    hide Step, Inv, WokenByEvent, WokenAs;
    ParkedStep(ss[m], es[m], ss[m + 1], limit, n);
  }

  /** In every run, at every event: of the NetFDs parked on the descriptor, those are woken that
      asked for one of the reported bits, and all of them if an error, a hang-up or a bad descriptor
      is reported; each finds exactly what it asked for and the exceptions in its result, and all
      others sleep on as they were. */
  lemma DeliveryWakes<N>(ss: seq<State<N>>, es: seq<Action<N>>, limit: int, j: nat, n: N)
    requires IsRun(ss, es, limit) && j < |es| && es[j].Ready? && n in Entries(ss[j], es[j].fd)
    ensures n in ss[j].recs && n in ss[j + 1].recs
    ensures var r, r', concerns := ss[j].recs[n], ss[j + 1].recs[n], es[j].come * (ss[j].recs[n].events + {Err, Hup, RdHup, Nval});
      if concerns != {} then !Parked(ss[j + 1], n) && r'.queued == 1 && r'.revents == concerns
      else n in Entries(ss[j + 1], es[j].fd) && r' == r
  {
    RunKeeps(ss, es, limit, j);
    ListedParked(ss[j], es[j].fd, n);
    Bits(ss[j].recs[n].events, es[j].come);
    hide Step, Inv, Wakes;
    ParkedStep(ss[j], es[j], ss[j + 1], limit, n);
  }

  lemma ListedParked<N>(s: State<N>, fd: int, n: N)
    requires Inv(s) && n in Entries(s, fd)
    ensures Parked(s, n) && s.recs[n].fd == fd
  {
    assert ListAt(s, fd);
  }

  lemma CallParks<N>(s: State<N>, a: Action<N>, s': State<N>, limit: int)
    requires Inv(s) && Step(s, a, s', limit) && a.Call? && a.n in s.recs && Parks(s, a.n, a.request, a.kernelOk)
    ensures Parked(s', a.n) && s'.recs[a.n].events == a.request && s'.recs[a.n].queued == 0
    ensures s'.recs[a.n].armed == a.timed && s'.recs[a.n].fd == s.recs[a.n].fd
  {
    hide Enter, Parks, Union;
    Called(s, a.n, a.request, a.timed, a.kernelOk, limit);
    assert Fine(s.recs[a.n], Parked(s, a.n));
  }

  lemma OutcomeAfter<N>(s: State<N>, a: Action<N>, s': State<N>, n: N)
    requires n in s.recs && n in s'.recs && WokenAs(s, a, s', n)
    requires a == Expire(n) || WokenByEvent(s, a, n)
    ensures a == Expire(n) <==> OutcomeOf(s'.recs[n]) == TimedOut
    ensures a != Expire(n) ==> s'.recs[n].revents == (s.recs[n].events * a.come) + (a.come * EXCEPTION)
    ensures a != Expire(n) && s.recs[n].events <= REQUESTABLE ==>
      && (OutcomeOf(s'.recs[n]) == Done <==> a.come * EXCEPTION == {})
      && (OutcomeOf(s'.recs[n]) == BadFd <==> Nval in a.come)
  {
    if a != Expire(n) && s.recs[n].events <= REQUESTABLE {
      assert s'.recs[n].revents * EXCEPTION == a.come * EXCEPTION;
      assert Nval in s'.recs[n].revents <==> Nval in s'.recs[n].revents * EXCEPTION;
      assert Nval in a.come <==> Nval in a.come * EXCEPTION;
    }
  }
}
