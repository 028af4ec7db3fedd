/** What stays registered in the kernel over a run: descriptors on which nobody waits any more,
    and the edge-trigger bit. */
module EpollMasks {
  import opened Basics
  import opened WaitSet
  import opened EpollRuns

  /** A registered descriptor without an entry: the assert in WaitLoop that an entry exists fails
      for the next event on it, and only for an event on such a descriptor. */
  ghost predicate Abandoned<N>(s: State<N>, fd: int) {
    fd in s.kernel && Entries(s, fd) == []
  }

  /** A delivery that wakes everybody on its descriptor although not all that was requested was
      reported. */
  ghost predicate Drains<N>(s: State<N>, fd: int, come: Mask)
    requires Lists(s)
  {
    Asleep(s.recs, Entries(s, fd), come) == [] && Union(s.recs, Entries(s, fd)) - come != {}
  }

  ghost predicate ReadyOn<N>(a: Action<N>, fd: int) {
    a.Ready? && a.fd == fd
  }

  lemma ReadyAbandons<N>(s: State<N>, fd: int, come: Mask)
    requires Inv(s) && Reportable(s, fd, come)
    ensures Abandoned(Deliver(s, fd, come), fd) <==> Drains(s, fd, come)
    ensures forall f :: f != fd ==> (Abandoned(Deliver(s, fd, come), f) <==> Abandoned(s, f))
  {
    hide Deliver, Union, Asleep, Covered;
    Delivered(s, fd, come);
  }

  lemma ExpireAbandons<N>(s: State<N>, n: N, fd: int)
    requires Inv(s) && n in s.recs && s.recs[n].armed
    ensures Abandoned(Timeout(s, n), fd) <==> Abandoned(s, fd)
  {
    hide Timeout, Union, OthersWant, Covered;
    Expired(s, n);
    ExpireKeeps(s, n);
    assert ExactAt(Timeout(s, n), s.recs[n].fd);
  }

  lemma CallAbandons<N>(s: State<N>, n: N, request: Mask, timed: bool, kernelOk: bool, limit: int, fd: int)
    requires Inv(s) && n in s.recs && !s.recs[n].owner
    ensures Abandoned(Enter(s, n, request, timed, kernelOk, limit), fd) <==> Abandoned(s, fd)
  {
    hide Enter, Union, Acceptable, Covered;
    if Parks(s, n, request, kernelOk) {
      Called(s, n, request, timed, kernelOk, limit);
    } else {
      RefuseKeeps(s, n, request, timed, kernelOk, limit);
    }
  }

  /** Only a delivery on a descriptor abandons it or takes that back. */
  lemma StepAbandons<N>(s: State<N>, a: Action<N>, s': State<N>, limit: int, fd: int)
    requires Inv(s) && Step(s, a, s', limit)
    ensures ReadyOn(a, fd) ==> (Abandoned(s', fd) <==> Drains(s, fd, a.come))
    ensures !ReadyOn(a, fd) ==> (Abandoned(s', fd) <==> Abandoned(s, fd))
  {
    hide Enter, Deliver, Timeout, Drains, Inv;
    match a {
      case Call(n, request, timed, kernelOk) => CallAbandons(s, n, request, timed, kernelOk, limit, fd);
      case Ready(f, come) => ReadyAbandons(s, f, come);
      case Expire(n) => ExpireAbandons(s, n, fd);
      case _ =>
    }
  }

  /** At step i a delivery drains the descriptor, and none on it comes after, up to step k. */
  ghost predicate DrainedAt<N>(ss: seq<State<N>>, es: seq<Action<N>>, limit: int, fd: int, i: nat, k: nat)
    requires IsRun(ss, es, limit) && k <= |es|
  {
    && i < k && ReadyOn(es[i], fd) && Drains(ss[i], fd, es[i].come)
    && forall m :: i < m < k ==> !ReadyOn(es[m], fd)
  }

  lemma DrainedBefore<N>(ss: seq<State<N>>, es: seq<Action<N>>, limit: int, fd: int, i: nat, k: nat)
    requires IsRun(ss, es, limit) && 0 < k <= |es| && DrainedAt(ss, es, limit, fd, i, k) && !ReadyOn(es[k - 1], fd)
    ensures DrainedAt(ss, es, limit, fd, i, k - 1)
  {
  }

  /** A descriptor is abandoned if and only if the last delivery on it drained it. */
  lemma {:induction false} AbandonedIff<N>(ss: seq<State<N>>, es: seq<Action<N>>, limit: int, fd: int, k: nat)
    requires IsRun(ss, es, limit) && k <= |es|
    ensures Abandoned(ss[k], fd) <==> exists i :: DrainedAt(ss, es, limit, fd, i, k)
  {
    hide Step, Drains;
    if k == 0 {
    } else {
      AbandonedIff(ss, es, limit, fd, k - 1);
      RunKeeps(ss, es, limit, k - 1);
      StepAbandons(ss[k - 1], es[k - 1], ss[k], limit, fd);
      if ReadyOn(es[k - 1], fd) {
        assert Drains(ss[k - 1], fd, es[k - 1].come) ==> DrainedAt(ss, es, limit, fd, k - 1, k);
      } else if Abandoned(ss[k], fd) {
        var i :| DrainedAt(ss, es, limit, fd, i, k - 1);
        assert DrainedAt(ss, es, limit, fd, i, k);
      } else if i :| DrainedAt(ss, es, limit, fd, i, k) {
        DrainedBefore(ss, es, limit, fd, i, k);
        assert false;
      }
    }
  }

  /** The assert in WaitLoop that an entry exists fails at a delivery if and only if the last one
      before on the same descriptor drained it. */
  lemma EntryAssertFailsIff<N>(ss: seq<State<N>>, es: seq<Action<N>>, limit: int, k: nat)
    requires IsRun(ss, es, limit) && k < |es| && es[k].Ready?
    ensures Entries(ss[k], es[k].fd) == [] <==> exists i :: DrainedAt(ss, es, limit, es[k].fd, i, k)
  {
    hide Drains, Deliver;
    RunKeeps(ss, es, limit, k);
    ReadyStep(ss[k], es[k], ss[k + 1], limit);
    AbandonedIff(ss, es, limit, es[k].fd, k);
  }

  /** Every registered descriptor has an entry in every state of a run, so that no event can make
      that assert fail, if and only if no delivery in it drains its descriptor. */
  lemma NeverAbandonedIff<N>(ss: seq<State<N>>, es: seq<Action<N>>, limit: int)
    requires IsRun(ss, es, limit)
    ensures (forall k, fd :: 0 <= k <= |es| ==> !Abandoned(ss[k], fd))
      <==> forall i :: 0 <= i < |es| && es[i].Ready? ==> !Drains(ss[i], es[i].fd, es[i].come)
  {
    hide Step, Drains, Abandoned;
    if i :| 0 <= i < |es| && es[i].Ready? && Drains(ss[i], es[i].fd, es[i].come) {
      assert DrainedAt(ss, es, limit, es[i].fd, i, i + 1);
      AbandonedIff(ss, es, limit, es[i].fd, i + 1);
    }
    if k, fd :| 0 <= k <= |es| && Abandoned(ss[k], fd) {
      AbandonedIff(ss, es, limit, fd, k);
      var i :| DrainedAt(ss, es, limit, fd, i, k);
    }
  }

  /** From a delivery that drains a descriptor on, up to the next event on it: the descriptor
      stays registered with nobody waiting, and every Poll on it is refused, because
      EPOLL_CTL_ADD fails. */
  lemma RefusedUntilReported<N>(ss: seq<State<N>>, es: seq<Action<N>>, limit: int, fd: int, i: nat, k: nat)
    requires IsRun(ss, es, limit) && k <= |es| && DrainedAt(ss, es, limit, fd, i, k)
    ensures Abandoned(ss[k], fd)
    ensures forall n, request, kernelOk :: n in ss[k].recs && ss[k].recs[n].fd == fd ==> !Parks(ss[k], n, request, kernelOk)
    ensures k < |es| && es[k].Call? && es[k].n in ss[k].recs && ss[k].recs[es[k].n].fd == fd ==>
      !Parks(ss[k], es[k].n, es[k].request, es[k].kernelOk) && Abandoned(ss[k + 1], fd)
  {
    hide Step, Drains;
    AbandonedIff(ss, es, limit, fd, k);
    if k < |es| && es[k].Call? {
      assert DrainedAt(ss, es, limit, fd, i, k + 1);
      AbandonedIff(ss, es, limit, fd, k + 1);
    }
  }

  /** That next event makes the kernel forget the descriptor: it is exact again, and a Poll on
      it is accepted. */
  lemma AcceptedOnceReported<N>(ss: seq<State<N>>, es: seq<Action<N>>, limit: int, fd: int, i: nat, k: nat, n: N, request: Mask)
    requires IsRun(ss, es, limit) && k < |es| && DrainedAt(ss, es, limit, fd, i, k) && ReadyOn(es[k], fd)
    ensures Lists(ss[k + 1]) && ExactAt(ss[k + 1], fd) && fd !in ss[k + 1].kernel
    ensures n in ss[k + 1].recs && ss[k + 1].recs[n].fd == fd && Acceptable(ss[k + 1], n, request) ==>
      Parks(ss[k + 1], n, request, true)
  {
    hide Drains, Deliver, Union;
    RunKeeps(ss, es, limit, k);
    RunKeeps(ss, es, limit, k + 1);
    AbandonedIff(ss, es, limit, fd, k);
    ReadyStep(ss[k], es[k], ss[k + 1], limit);
    Delivered(ss[k], fd, es[k].come);
    UnionEmpty(ss[k].recs, Entries(ss[k], fd));
  }

  // ---------------------------------------------------------------- the edge-trigger bit

  /** A step registers the descriptor, or gives it another mask. */
  ghost predicate Changed<N>(s: State<N>, s': State<N>, fd: int) {
    fd in s'.kernel && (fd !in s.kernel || s.kernel[fd] != s'.kernel[fd])
  }

  /** Step m leaves the mask of a registered descriptor as it is. */
  ghost predicate Kept<N>(ss: seq<State<N>>, fd: int, m: nat)
    requires m + 1 < |ss|
  {
    fd in ss[m + 1].kernel && !Changed(ss[m], ss[m + 1], fd)
  }

  /** A Poll on this descriptor that parks its task. */
  ghost predicate ParksOn<N>(s: State<N>, a: Action<N>, fd: int) {
    a.Call? && a.n in s.recs && s.recs[a.n].fd == fd && Parks(s, a.n, a.request, a.kernelOk)
  }

  lemma EdgeStep<N>(s: State<N>, a: Action<N>, s': State<N>, limit: int, fd: int)
    requires Inv(s) && Step(s, a, s', limit) && Changed(s, s', fd)
    ensures EdgeTriggered in s'.kernel[fd] <==> ParksOn(s, a, fd)
  {
    hide Enter, Deliver, Timeout, Union, OthersWant, Covered, Parks;
    match a {
      case Call(n, request, timed, kernelOk) =>
        if Parks(s, n, request, kernelOk) {
          Called(s, n, request, timed, kernelOk, limit);
        } else {
          RefuseKeeps(s, n, request, timed, kernelOk, limit);
        }
      case Ready(f, come) =>
        Delivered(s, f, come);
        DeliveredMask(s, f, come);
      case Expire(n) =>
        Expired(s, n);
        ExpiredMask(s, n);
      case _ =>
    }
  }

  /** A registered descriptor is watched edge-triggered if and only if the last step that changed
      its mask, step j, was a Poll that parked its task: events and timeouts drop the bit. */
  lemma {:induction false} EdgeTriggeredIff<N>(ss: seq<State<N>>, es: seq<Action<N>>, limit: int, fd: int, k: nat) returns (j: nat)
    requires IsRun(ss, es, limit) && k <= |es| && fd in ss[k].kernel
    ensures j < k && Changed(ss[j], ss[j + 1], fd)
    ensures forall m :: j < m < k ==> Kept(ss, fd, m)
    ensures EdgeTriggered in ss[k].kernel[fd] <==> ParksOn(ss[j], es[j], fd)
  {
    hide Step, ParksOn;
    RunKeeps(ss, es, limit, k - 1);
    if Changed(ss[k - 1], ss[k], fd) {
      EdgeStep(ss[k - 1], es[k - 1], ss[k], limit, fd);
      j := k - 1;
    } else {
      j := EdgeTriggeredIff(ss, es, limit, fd, k - 1);
      assert Kept(ss, fd, k - 1);
    }
  }

  // ---------------------------------------------------------------- concrete runs

  /** The end of TwoBitsLeak: the leftover event can be reported, no entry is found for it, and
      the report makes Polls possible again. */
  lemma EntryAssertFails()
    ensures var s1 := WaitSet.Assign(Nothing(), 0, Plain(5), true);
      var s2 := Enter(s1, 0, {In, Out}, false, true, 10);
      var s3 := Deliver(s2, 5, {In});
      && Reportable(s3, 5, {Out}) && Entries(s3, 5) == []
      && Deliver(s3, 5, {Out}).kernel == map[]
  {
    TwoBitsLeak();
    var s1 := WaitSet.Assign(Nothing(), 0, Plain(5), true);
    var s2 := Enter(s1, 0, {In, Out}, false, true, 10);
    var s3 := Deliver(s2, 5, {In});
    hide Enter, Union, WakeAll, Asleep;
    UnionEmpty(s3.recs, Entries(s3, 5));
  }

  /** One more step of a run. */
  lemma RunOn<N>(ss: seq<State<N>>, es: seq<Action<N>>, limit: int, a: Action<N>, s: State<N>)
    requires IsRun(ss, es, limit) && Inv(ss[|es|]) && Step(ss[|es|], a, s, limit)
    ensures IsRun(ss + [s], es + [a], limit) && Inv(s)
  {
    hide Step, Inv, Lists;
    StepKeeps(ss[|es|], a, s, limit);
    InvLists(ss[|es|]);
  }

  /** NetFDs 0 and 1 are given the shared descriptor 5. */
  lemma PairAssigned() returns (ss: seq<State<nat>>, es: seq<Action<nat>>)
    ensures IsRun(ss, es, 10) && |es| == 2 && |ss| == 3 && Inv(ss[2])
    ensures ss[2].recs.Keys == {0, 1} && ss[2].kernel == map[] && ss[2].fdMap == map[]
    ensures forall n :: n in ss[2].recs ==> ss[2].recs[n].fd == 5 && ss[2].recs[n].shared && !ss[2].recs[n].owner
  {
    var a0, a1 := Action.Assign(0, Plain(5), true), Action.Assign(1, Plain(5), true);
    var s1 := WaitSet.Assign(Nothing(), 0, Plain(5), true);
    var s2 := WaitSet.Assign(s1, 1, Plain(5), true);
    RunOn([Nothing()], [], 10, a0, s1);
    assert [Nothing()] + [s1] == [Nothing(), s1] && [] + [a0] == [a0];
    RunOn([Nothing(), s1], [a0], 10, a1, s2);
    ss, es := [Nothing(), s1] + [s2], [a0] + [a1];
  }

  /** One of them parks. */
  lemma PairParks(ss: seq<State<nat>>, es: seq<Action<nat>>, n: nat, request: Mask)
    returns (ss': seq<State<nat>>, es': seq<Action<nat>>)
    requires IsRun(ss, es, 10) && Inv(ss[|es|]) && n in ss[|es|].recs
    requires ss[|es|].recs[n].fd == 5 && ss[|es|].recs[n].shared && !ss[|es|].recs[n].owner
    requires {} != request <= REQUESTABLE && forall fd :: fd in ss[|es|].kernel ==> fd == 5
    requires Entries(ss[|es|], 5) == [] ==> 5 !in ss[|es|].kernel
    ensures IsRun(ss', es', 10) && |es'| == |es| + 1 == |ss| == |ss'| - 1 && Inv(ss'[|es'|]) && ss'[..|es'|] == ss
    ensures es' == es + [Call(n, request, false, true)]
    ensures var s, s' := ss[|es|], ss'[|es'|];
      && s'.recs == s.recs[n := Asking(s.recs[n], request, false)] && Entries(s', 5) == Entries(s, 5) + [n]
      && s'.kernel == map[5 := Union(s.recs, Entries(s, 5)) + request + {EdgeTriggered}]
  {
    hide Inv, Enter, Union;
    var s := ss[|es|];
    InvLists(s);
    var s', a := Enter(s, n, request, false, true, 10), Call(n, request, false, true);
    Called(s, n, request, false, true, 10);
    RunOn(ss, es, 10, a, s');
    assert forall fd :: fd in s'.kernel <==> fd == 5;
    ss', es' := ss + [s'], es + [a];
  }

  /** Both park, the second as ModifyAssertFails has it. */
  lemma PairWaits(r0: Mask, r1: Mask) returns (ss: seq<State<nat>>, es: seq<Action<nat>>)
    requires {} != r0 <= REQUESTABLE && {} != r1 <= REQUESTABLE
    ensures IsRun(ss, es, 10) && |es| == 4 && |ss| == 5 && Inv(ss[4])
    ensures es[3] == Call(1, r1, false, true) && 1 in ss[3].recs && Joins(ss[3], 1, r1)
    ensures ss[4].kernel == map[5 := r0 + r1 + {EdgeTriggered}] && Entries(ss[4], 5) == [0, 1]
    ensures ss[4].recs.Keys == {0, 1} && ss[4].recs[0].events == r0 && ss[4].recs[1].events == r1
  {
    hide IsRun, Inv, Union;
    ss, es := PairAssigned();
    assert Entries(ss[2], 5) == [];
    UnionEmpty(ss[2].recs, []);
    ss, es := PairParks(ss, es, 0, r0);
    PairUnion(ss[3].recs, 0);
    assert [] + [0] == [0];
    ss, es := PairParks(ss, es, 1, r1);
    assert [0] + [1] == [0, 1];
  }

  /** Both park, and then something is reported that concerns only the first. */
  lemma PairRun(r0: Mask, r1: Mask, come: Mask) returns (ss: seq<State<nat>>, es: seq<Action<nat>>)
    requires {} != r0 <= REQUESTABLE && {} != r1 <= REQUESTABLE
    requires come <= r0 && come != {} && r1 * come == {} && come * EXCEPTION == {}
    ensures IsRun(ss, es, 10) && |es| == 5 && |ss| == 6 && es[4] == Ready(5, come)
    ensures ss[4].kernel == map[5 := r0 + r1 + {EdgeTriggered}]
    ensures es[3] == Call(1, r1, false, true) && 1 in ss[3].recs && Joins(ss[3], 1, r1)
    ensures Inv(ss[5]) && ss[5].kernel == map[5 := r0 + r1 - come] && Entries(ss[5], 5) == [1]
    ensures ss[5].recs.Keys == {0, 1} && ss[5].recs[1].events == r1
  {
    hide IsRun, Inv, Joins;
    ss, es := PairWaits(r0, r1);
    var before, calls := ss, es;
    ss, es := PairReady(ss, es, come);
    assert ss[4] == before[4] && ss[3] == before[3] && es[3] == calls[3];
  }

  lemma PairReady(ss: seq<State<nat>>, es: seq<Action<nat>>, come: Mask)
    returns (ss': seq<State<nat>>, es': seq<Action<nat>>)
    requires IsRun(ss, es, 10) && |es| == 4 && |ss| == 5 && Inv(ss[4])
    requires var s := ss[4];
      && Entries(s, 5) == [0, 1] && s.recs.Keys == {0, 1}
      && s.kernel == map[5 := s.recs[0].events + s.recs[1].events + {EdgeTriggered}]
      && come != {} && come <= s.recs[0].events <= REQUESTABLE && come * EXCEPTION == {}
      && s.recs[1].events * come == {} && s.recs[1].events != {}
    ensures IsRun(ss', es', 10) && |es'| == 5 && |ss'| == 6 && es'[4] == Ready(5, come) && ss'[4] == ss[4]
    ensures es'[..4] == es && ss'[..5] == ss
    ensures Inv(ss'[5]) && ss'[5].kernel == map[5 := ss[4].recs[0].events + ss[4].recs[1].events - come]
    ensures Entries(ss'[5], 5) == [1] && ss'[5].recs.Keys == {0, 1} && ss'[5].recs[1].events == ss[4].recs[1].events
  {
    hide Inv, Deliver, Reportable, IsRun;
    InvLists(ss[4]);
    Reports(ss[4], 5, come);
    PairDelivered(ss[4], come);
    RunOn(ss, es, 10, Ready(5, come), Deliver(ss[4], 5, come));
    ss', es' := ss + [Deliver(ss[4], 5, come)], es + [Ready(5, come)];
  }

  lemma PairDelivered(s: State<nat>, come: Mask)
    requires Inv(s) && Entries(s, 5) == [0, 1] && s.recs.Keys == {0, 1}
    requires forall fd :: fd in s.kernel <==> fd == 5
    requires Reportable(s, 5, come) && come <= s.recs[0].events && come * EXCEPTION == {}
    requires s.recs[1].events * come == {} && s.recs[1].events != {}
    ensures Lists(s)
    ensures var s' := Deliver(s, 5, come);
      && s'.kernel == map[5 := s.recs[0].events + s.recs[1].events - come]
      && Entries(s', 5) == [1] && s'.recs.Keys == {0, 1} && s'.recs[1].events == s.recs[1].events
  {
    InvLists(s);
    PairAsleep(s.recs, come);
    hide Inv, Deliver, Union, WakeAll, Asleep, Distinct;
    var s' := Deliver(s, 5, come);
    ReportableRegistered(s, 5, come);
    Delivered(s, 5, come);
    DeliveredMask(s, 5, come);
    assert forall fd :: fd in s'.kernel <==> fd == 5;
  }

  lemma Reports(s: State<nat>, fd: int, come: Mask)
    requires fd in s.kernel && come != {} && come <= s.kernel[fd] && come <= REQUESTABLE
    ensures Reportable(s, fd, come)
  {
  }

  lemma PairUnion(recs: map<nat, Rec>, n: nat)
    requires n in recs
    ensures Union(recs, [n]) == recs[n].events
  {
    UnionSnoc(recs, [], n);
    assert [] + [n] == [n];
  }

  /** Of NetFDs 0 and 1, only 0 is concerned. */
  lemma PairAsleep(recs: map<nat, Rec>, come: Mask)
    requires recs.Keys == {0, 1} && come != {} && come <= recs[0].events && recs[1].events * come == {}
    requires come * EXCEPTION == {}
    ensures Asleep(recs, [0, 1], come) == [1] && Union(recs, [0, 1]) == recs[0].events + recs[1].events
  {
    PairUnion(recs, 0);
    UnionSnoc(recs, [0], 1);
    assert [0] + [1] == [0, 1] && [0, 1][..1] == [0];
    assert recs[0].events * come == come;
    var q: seq<nat> := [0];
    assert q[..0] == [];
    assert Asleep(recs, q, come) == [];
  }

  lemma InThenOut()
    ensures {In} <= REQUESTABLE && {Out} <= REQUESTABLE && {Out} * {In} == {} && {In} * EXCEPTION == {}
    ensures {In} + {Out} - {In} == {Out} && {In} + {Out} + {EdgeTriggered} == {In, Out, EdgeTriggered}
  {
  }

  /** Two NetFDs wait on a shared descriptor, for different events; one event arrives.  The other
      NetFD is now waited for without the edge-trigger bit that its Poll had set. */
  lemma EdgeBitLost() returns (ss: seq<State<nat>>, es: seq<Action<nat>>)
    ensures IsRun(ss, es, 10) && |es| == 5
    ensures es[3] == Call(1, {Out}, false, true) && 1 in ss[3].recs && Joins(ss[3], 1, {Out})
    ensures ss[4].kernel == map[5 := {In, Out, EdgeTriggered}]
    ensures es[4] == Ready(5, {In}) && ss[5].kernel == map[5 := {Out}] && Entries(ss[5], 5) == [1]
  {
    hide IsRun, Inv, Union, Short;
    InThenOut();
    ss, es := PairRun({In}, {Out}, {In});
  }

  lemma TwoAndOne() returns (ss: seq<State<nat>>, es: seq<Action<nat>>)
    ensures IsRun(ss, es, 10) && |es| == 5 && |ss| == 6 && es[4] == Ready(5, {In}) && Inv(ss[5])
    ensures 5 in ss[5].kernel && Out in ss[5].kernel[5] && Entries(ss[5], 5) == [1]
    ensures ss[5].recs.Keys == {0, 1} && ss[5].recs[1].events == {Pri}
  {
    hide IsRun, Inv;
    ss, es := PairRun({In, Out}, {Pri}, {In});
    assert Out in {In, Out} + {Pri} - {In};
  }

  lemma NotDrained(ss: seq<State<nat>>, es: seq<Action<nat>>)
    requires IsRun(ss, es, 10) && |es| == 5 && es[4] == Ready(5, {In}) && Entries(ss[5], 5) != []
    ensures Lists(ss[4]) && !Drains(ss[4], 5, {In})
  {
    hide Step, Drains;
    RunKeeps(ss, es, 10, 4);
    StepAbandons(ss[4], es[4], ss[5], 10, 5);
  }

  lemma NotExact(s: State<nat>, fd: int, e: Event)
    requires Lists(s) && fd in s.kernel && e in s.kernel[fd] && e.Bit() < 16 && e !in Union(s.recs, Entries(s, fd))
    ensures !ExactAt(s, fd)
  {
  }

  /** More than what is asked for can stay watched although the next event finds an entry. */
  lemma FoundThoughInexact() returns (ss: seq<State<nat>>, es: seq<Action<nat>>)
    ensures IsRun(ss, es, 10) && |es| == 5 && es[4] == Ready(5, {In})
    ensures Lists(ss[5]) && !ExactAt(ss[5], 5) && Entries(ss[5], 5) == [1] && !Abandoned(ss[5], 5)
    ensures Lists(ss[4]) && !Drains(ss[4], 5, {In})
  {
    ss, es := TwoAndOne();
    InvLists(ss[5]);
    PairUnion(ss[5].recs, 1);
    hide IsRun, Inv, ExactAt;
    NotExact(ss[5], 5, Out);
    NotDrained(ss, es);
  }
}
