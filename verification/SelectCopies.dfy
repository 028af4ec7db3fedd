/** What copying a NetFD in use does to the select back end, in all runs without timeouts: exactly
    when parked NetFDs ask for what their Polls asked for, when everything they ask for is watched,
    and when the sets hold nothing else. */
module SelectCopies {
  import opened WaitSet
  import E = EpollRuns
  import opened SelectSet
  import opened SelectRuns

  // ---------------------------------------------------------------- requests

  /** What n's latest Poll asked for. */
  ghost function Request<N>(ms: seq<Move<N>>, n: N, k: nat): Mask
    requires k <= |ms|
  {
    if k == 0 then {}
    else if ms[k - 1].Called? && ms[k - 1].n == n then ms[k - 1].request
    else Request(ms, n, k - 1)
  }

  /** Every parked NetFD asks for exactly what its Poll asked for, and has no result yet. */
  ghost predicate RequestsKept<N>(t: SelectState<N>, ms: seq<Move<N>>, k: nat) {
    && k <= |ms| && Listed(t)
    && forall n :: n in t.entries ==> t.recs[n].events == Request(ms, n, k) && t.recs[n].revents == {}
  }

  /** A Poll that parks finds nothing in its NetFD's pollfd but what it asks for itself. */
  ghost predicate FindsNothing<N>(t: SelectState<N>, m: Move<N>) {
    m.Called? && m.n in t.recs && Accepts(t, m.n, m.request) ==> NothingStale(t.recs[m.n], m.request)
  }

  lemma EnterAsks<N>(t: SelectState<N>, n: N, request: Mask, notify: int)
    requires Sound(t, notify) && n in t.recs && !t.recs[n].owner && Accepts(t, n, request)
    ensures var t' := SelectSet.Enter(t, n, request);
      && n in t'.entries && n in t'.recs
      && (t'.recs[n].events == request && t'.recs[n].revents == {} <==> NothingStale(t.recs[n], request))
      && (forall m :: m in t'.entries ==> m in t.entries || m == n)
      && (forall m :: m in t.entries ==> m != n && m in t'.entries && m in t'.recs && t'.recs[m] == t.recs[m])
  {
    var t' := SelectSet.Enter(t, n, request);
    Entered(t, n, request, notify);
    InsertAre(t'.recs, t.entries, n);
    hide SelectSet.Enter, Insert, FdSets.At, Accepts;
    assert t.recs[n].events + request == request <==> t.recs[n].events <= request;
  }

  /** A sleeper without results stays one. */
  lemma SleeperStays(r: Rec, got: FdSets)
    requires !Hit(r, got) && r.revents == {}
    ensures Visited(r, got) == r
  {
    assert Revents(r, got) * r.events == Revents(r, got);
  }

  lemma StepRequests<N>(t: SelectState<N>, ms: seq<Move<N>>, k: nat, t': SelectState<N>, notify: int)
    requires k < |ms| && Sound(t, notify) && Moves(t, ms[k], t', notify) && RequestsKept(t, ms, k)
    ensures RequestsKept(t', ms, k + 1) <==> FindsNothing(t, ms[k])
  {
    MoveSound(t, ms[k], t', notify);
    hide Scan, SelectSet.Enter, Accepts, NothingStale, Hit, Visited, Reports;
    match ms[k] {
      case Called(n, request) =>
        if Accepts(t, n, request) {
          EnterAsks(t, n, request, notify);
        } else {
          Refused(t, n, request, notify);
        }
      case Selected(ready) =>
        if Reports(t, ready) {
          ScanLeaves(t, ready);
          forall n | n in t'.entries ensures t'.recs[n] == t.recs[n] {
            SleeperStays(t.recs[n], Reported(t.sets, t.maxfd, ready));
          }
        }
      case Assigned(n, _, _) =>
        assert n in t.recs ==> Stands(t.recs[n], n in t.entries, notify, t.maxfd);
      case Returned(n) =>
        assert Stands(t.recs[n], n in t.entries, notify, t.maxfd);
    }
  }

  lemma Refused<N>(t: SelectState<N>, n: N, request: Mask, notify: int)
    requires Sound(t, notify) && n in t.recs && !t.recs[n].owner && !Accepts(t, n, request)
    ensures SelectSet.Enter(t, n, request) == t && n !in t.entries
  {
    assert Stands(t.recs[n], n in t.entries, notify, t.maxfd);
  }

  lemma {:induction false} RunRequests<N>(ts: seq<SelectState<N>>, ms: seq<Move<N>>, notify: int, k: nat)
    requires IsRun(ts, ms, notify) && k <= |ms|
    requires forall i :: 0 <= i < k ==> FindsNothing(ts[i], ms[i])
    ensures RequestsKept(ts[k], ms, k)
  {
    if k == 0 {
    } else {
      RunRequests(ts, ms, notify, k - 1);
      RunSound(ts, ms, notify, k - 1);
      StepRequests(ts[k - 1], ms, k - 1, ts[k], notify);
    }
  }

  /** Throughout a run parked NetFDs ask for what their Polls asked for, with no stale result, if
      and only if every Poll that parks finds nothing else in its NetFD. */
  lemma RequestsKeptIff<N>(ts: seq<SelectState<N>>, ms: seq<Move<N>>, notify: int)
    requires IsRun(ts, ms, notify)
    ensures (forall k :: 0 <= k <= |ms| ==> RequestsKept(ts[k], ms, k))
       <==> (forall k :: 0 <= k < |ms| ==> FindsNothing(ts[k], ms[k]))
  {
    hide RequestsKept, FindsNothing;
    if forall k :: 0 <= k < |ms| ==> FindsNothing(ts[k], ms[k]) {
      forall k | 0 <= k <= |ms| ensures RequestsKept(ts[k], ms, k) {
        RunRequests(ts, ms, notify, k);
      }
    }
    if forall k :: 0 <= k <= |ms| ==> RequestsKept(ts[k], ms, k) {
      forall k | 0 <= k < |ms| ensures FindsNothing(ts[k], ms[k]) {
        RunSound(ts, ms, notify, k);
        StepRequests(ts[k], ms, k, ts[k + 1], notify);
      }
    }
  }

  // ---------------------------------------------------------------- what is watched

  /** If the move is a scan, it is considerate. */
  ghost predicate Spares<N>(t: SelectState<N>, m: Move<N>)
    requires Listed(t)
  {
    m.Selected? && Reports(t, m.ready) ==> Considerate(t, m.ready)
  }

  /** If the move is a scan, it is thorough. */
  ghost predicate Covers<N>(t: SelectState<N>, m: Move<N>)
    requires Listed(t)
  {
    m.Selected? && Reports(t, m.ready) ==> Thorough(t, m.ready)
  }

  lemma StepWatched<N>(t: SelectState<N>, m: Move<N>, t': SelectState<N>, notify: int)
    requires Sound(t, notify) && Moves(t, m, t', notify) && Watched(t)
    ensures Listed(t') && (Watched(t') <==> Spares(t, m))
  {
    hide Scan, SelectSet.Enter, Watched, Considerate, Stands, Reports;
    match m {
      case Called(n, request) => EnterWatched(t, n, request, notify);
      case Selected(ready) => ScanWatchedIff(t, ready, notify);
      case _ => OtherMove(t, m, t', notify);
    }
  }

  lemma StepSets<N>(t: SelectState<N>, m: Move<N>, t': SelectState<N>, notify: int)
    requires Sound(t, notify) && Moves(t, m, t', notify) && SetsExact(t, notify)
    ensures Listed(t') && (SetsExact(t', notify) <==> Spares(t, m) && Covers(t, m))
  {
    hide Scan, SelectSet.Enter, SetsExact, Considerate, Thorough, Stands, Reports;
    match m {
      case Called(n, request) => EnterWatched(t, n, request, notify);
      case Selected(ready) => ScanExactIff(t, ready, notify);
      case _ => OtherMove(t, m, t', notify);
    }
  }

  lemma {:induction false} RunWatched<N>(ts: seq<SelectState<N>>, ms: seq<Move<N>>, notify: int, k: nat)
    requires IsRun(ts, ms, notify) && k <= |ms|
    requires forall i :: 0 <= i < k ==> Spares(ts[i], ms[i])
    ensures Listed(ts[k]) && Watched(ts[k])
  {
    if k == 0 {
    } else {
      RunWatched(ts, ms, notify, k - 1);
      RunSound(ts, ms, notify, k - 1);
      hide Watched, Spares;
      StepWatched(ts[k - 1], ms[k - 1], ts[k], notify);
    }
  }

  /** Whatever parked NetFDs ask for is watched throughout a run if and only if no scan wakes
      somebody with a stale result that a sleeper on the same descriptor asks for. */
  lemma WatchedIff<N>(ts: seq<SelectState<N>>, ms: seq<Move<N>>, notify: int)
    requires IsRun(ts, ms, notify)
    ensures forall k :: 0 <= k <= |ms| ==> Listed(ts[k])
    ensures (forall k :: 0 <= k <= |ms| ==> Watched(ts[k])) <==> (forall k :: 0 <= k < |ms| ==> Spares(ts[k], ms[k]))
  {
    hide Watched, Spares;
    forall k | 0 <= k <= |ms| ensures Listed(ts[k]) {
      RunSound(ts, ms, notify, k);
    }
    if forall k :: 0 <= k < |ms| ==> Spares(ts[k], ms[k]) {
      forall k | 0 <= k <= |ms| ensures Watched(ts[k]) {
        RunWatched(ts, ms, notify, k);
      }
    }
    if forall k :: 0 <= k <= |ms| ==> Watched(ts[k]) {
      forall k | 0 <= k < |ms| ensures Spares(ts[k], ms[k]) {
        RunSound(ts, ms, notify, k);
        assert Watched(ts[k]) && Watched(ts[k + 1]);
        StepWatched(ts[k], ms[k], ts[k + 1], notify);
      }
    }
  }

  lemma {:induction false} RunSets<N>(ts: seq<SelectState<N>>, ms: seq<Move<N>>, notify: int, k: nat)
    requires IsRun(ts, ms, notify) && k <= |ms|
    requires forall i :: 0 <= i < k ==> Spares(ts[i], ms[i]) && Covers(ts[i], ms[i])
    ensures Listed(ts[k]) && SetsExact(ts[k], notify)
  {
    if k == 0 {
      InitKeeps(ts[0], notify);
    } else {
      RunSets(ts, ms, notify, k - 1);
      RunSound(ts, ms, notify, k - 1);
      hide SetsExact, Spares, Covers;
      StepSets(ts[k - 1], ms[k - 1], ts[k], notify);
    }
  }

  /** The sets are exact throughout a run if and only if, besides, every scan reports whatever a
      woken NetFD asked for, or leaves somebody who still asks for it. */
  lemma SetsExactIff<N>(ts: seq<SelectState<N>>, ms: seq<Move<N>>, notify: int)
    requires IsRun(ts, ms, notify)
    ensures forall k :: 0 <= k <= |ms| ==> Listed(ts[k])
    ensures (forall k :: 0 <= k <= |ms| ==> SetsExact(ts[k], notify))
       <==> (forall k :: 0 <= k < |ms| ==> Spares(ts[k], ms[k]) && Covers(ts[k], ms[k]))
  {
    hide SetsExact, Spares, Covers;
    forall k | 0 <= k <= |ms| ensures Listed(ts[k]) {
      RunSound(ts, ms, notify, k);
    }
    if forall k :: 0 <= k < |ms| ==> Spares(ts[k], ms[k]) && Covers(ts[k], ms[k]) {
      forall k | 0 <= k <= |ms| ensures SetsExact(ts[k], notify) {
        RunSets(ts, ms, notify, k);
      }
    }
    if forall k :: 0 <= k <= |ms| ==> SetsExact(ts[k], notify) {
      forall k | 0 <= k < |ms| ensures Spares(ts[k], ms[k]) && Covers(ts[k], ms[k]) {
        RunSound(ts, ms, notify, k);
        assert SetsExact(ts[k], notify) && SetsExact(ts[k + 1], notify);
        StepSets(ts[k], ms[k], ts[k + 1], notify);
      }
    }
  }

  /** If every Poll that parks finds nothing stale, whatever parked NetFDs ask for stays watched,
      requests of several bits included. */
  lemma FoundNothingWatched<N>(ts: seq<SelectState<N>>, ms: seq<Move<N>>, notify: int, k: nat)
    requires IsRun(ts, ms, notify) && k <= |ms|
    requires forall i :: 0 <= i < k ==> FindsNothing(ts[i], ms[i])
    ensures Listed(ts[k]) && Watched(ts[k])
  {
    hide Watched, FindsNothing;
    forall i | 0 <= i < k ensures Listed(ts[i]) && Spares(ts[i], ms[i]) {
      RunRequests(ts, ms, notify, i);
      NoResults(ts[i], ms, i);
    }
    hide Spares, IsRun;
    RunWatched(ts, ms, notify, k);
  }

  lemma NoResults<N>(t: SelectState<N>, ms: seq<Move<N>>, k: nat)
    requires k < |ms| && RequestsKept(t, ms, k)
    ensures Spares(t, ms[k])
  {
    hide Rouses;
  }

  // ---------------------------------------------------------------- without such copies

  /** No NetFD that is not parked has a request, and none that is unused has a result. */
  ghost predicate Unburdened<N>(t: SelectState<N>) {
    forall n :: n in t.recs && n !in t.entries ==>
      t.recs[n].events == {} && (!t.recs[n].owner ==> t.recs[n].revents == {})
  }

  /** Only idle pollfds are copied, and requests have one bit. */
  ghost predicate Plainly<N>(m: Move<N>) {
    (m.Assigned? ==> m.osfd == Plain(m.osfd.fd)) && (m.Called? ==> E.Single(m.request))
  }

  lemma StepPlain<N>(t: SelectState<N>, m: Move<N>, t': SelectState<N>, notify: int)
    requires SelectInv(t, notify) && Unburdened(t) && Moves(t, m, t', notify) && Plainly(m)
    ensures Polite(t, m) && Unburdened(t')
  {
    hide Scan, Wait, SelectSet.Enter, SetsExact, Tidy, Due, E.Single;
    if !m.Selected? && m.n in t.recs {
      assert Stands(t.recs[m.n], m.n in t.entries, notify, t.maxfd);
    }
    match m {
      case Called(n, request) =>
        if Accepts(t, n, request) {
          EnterAsks(t, n, request, notify);
          Entered(t, n, request, notify);
        } else {
          Refused(t, n, request, notify);
        }
      case Selected(ready) =>
        Scanned(t, ready, notify);
        WaitIsScan(t, ready, notify);
        forall n | n in t.entries ensures Stands(t.recs[n], true, notify, t.maxfd) {
        }
      case _ =>
    }
  }

  /** If no request or result is ever copied, and every Poll asks for one event, then no Poll finds
      anything stale, and the sets are exact throughout. */
  lemma {:induction false} UncopiedKeeps<N>(ts: seq<SelectState<N>>, ms: seq<Move<N>>, notify: int, k: nat)
    requires IsRun(ts, ms, notify) && k <= |ms|
    requires forall i :: 0 <= i < |ms| ==> Plainly(ms[i])
    ensures SelectInv(ts[k], notify) && Unburdened(ts[k])
    ensures k < |ms| ==> Polite(ts[k], ms[k])
  {
    hide SelectInv, Unburdened, Polite, Moves, Plainly;
    if k == 0 {
      InitKeeps(ts[0], notify);
      NothingYet(ts[0]);
    } else {
      UncopiedKeeps(ts, ms, notify, k - 1);
      MoveKeeps(ts[k - 1], ms[k - 1], ts[k], notify);
      StepPlain(ts[k - 1], ms[k - 1], ts[k], notify);
    }
    if k < |ms| {
      StepPlain(ts[k], ms[k], ts[k + 1], notify);
    }
  }

  lemma NothingYet<N>(t: SelectState<N>)
    requires t.recs == map[]
    ensures Unburdened(t)
  {
  }

  // ---------------------------------------------------------------- what a wake-up needs

  /** The NetFD is woken whenever something that it asks for is ready. */
  ghost predicate Wakeable<N>(t: SelectState<N>, n: N)
    requires Listed(t) && n in t.recs
  {
    forall ready: int -> Mask :: t.recs[n].events * (REQUESTABLE * ready(t.recs[n].fd)) != {} ==> n !in Wait(t, ready).entries
  }

  /** Only a NetFD whose requests are all in the sets is. */
  lemma WakeableIff<N>(t: SelectState<N>, n: N, notify: int)
    requires Sound(t, notify) && n in t.entries && t.recs[n].revents * t.recs[n].events == {}
    ensures Wakeable(t, n) <==> WatchedFor(t, n)
  {
    hide Scan, FdSets.At, Reports;
    if WatchedFor(t, n) {
      forall ready: int -> Mask | t.recs[n].events * (REQUESTABLE * ready(t.recs[n].fd)) != {}
        ensures n !in Wait(t, ready).entries
      {
        ScanFinds(t, ready, n, notify);
        ScanLeaves(t, ready);
        Rousing(t.recs[n], ready);
        SomethingReported(t, n, ready, notify);
        hide Hit, Rouses, Reported, Reports;
      }
    }
    if e :| e in t.recs[n].events * REQUESTABLE && e !in t.sets.At(t.recs[n].fd) {
      Unseen(t, n, e);
      assert e in t.recs[n].events * (REQUESTABLE * Only(e)(t.recs[n].fd));
    }
  }

  lemma SomethingReported<N>(t: SelectState<N>, n: N, ready: int -> Mask, notify: int)
    requires Sound(t, notify) && n in t.entries && WatchedFor(t, n)
    requires t.recs[n].events * (REQUESTABLE * ready(t.recs[n].fd)) != {}
    ensures Reports(t, ready)
  {
    var fd := t.recs[n].fd;
    assert Stands(t.recs[n], true, notify, t.maxfd);
    AtReported(t.sets, t.maxfd, ready, fd);
    NothingAt(fd);
    hide FdSets.At, Reported;
    var e :| e in t.recs[n].events * (REQUESTABLE * ready(fd));
    assert e in t.recs[n].events * REQUESTABLE;
    assert e in t.sets.At(fd) * ready(fd);
  }

  lemma Rousing(r: Rec, ready: int -> Mask)
    requires r.events * (REQUESTABLE * ready(r.fd)) != {}
    ensures Rouses(r, ready)
  {
    var e :| e in r.events * (REQUESTABLE * ready(r.fd));
    assert e in Found(r, ready) * r.events;
  }

  /** Just this event is ready, on every descriptor. */
  function Only(e: Event): int -> Mask { (fd: int) => {e} }

  lemma Unseen<N>(t: SelectState<N>, n: N, e: Event)
    requires Listed(t) && n in t.entries && t.recs[n].revents * t.recs[n].events == {}
    requires e !in t.sets.At(t.recs[n].fd)
    ensures n in Wait(t, Only(e)).entries
  {
    var r, got := t.recs[n], Reported(t.sets, t.maxfd, Only(e));
    ScanLeaves(t, Only(e));
    AtReported(t.sets, t.maxfd, Only(e), r.fd);
    hide FdSets.At, Scan, Reported, Reports;
    assert got.At(r.fd) == {};
    assert Revents(r, got) == r.revents;
  }

  // ---------------------------------------------------------------- two runs

  /** A NetFD on the shared descriptor 5. */
  function On5(events: Mask, revents: Mask, owner: bool, queued: nat): Rec {
    Rec(5, true, events, revents, owner, false, false, false, queued)
  }

  /** The interrupter has descriptor 3. */
  function Sets(read: set<int>, write: set<int>): FdSets { FdSets({3} + read, write, {}) }

  lemma EnterEmpty(t: SelectState<nat>, n: nat, request: Mask)
    requires t.entries == [] && n in t.recs && t.recs[n].fd == 5 && request != {} && request <= REQUESTABLE && t.maxfd <= 5
    ensures var events := t.recs[n].events + request;
      SelectSet.Enter(t, n, request) ==
        SelectState(t.recs[n := t.recs[n].(events := events, owner := true)], [n], t.sets.With(5, events), 5)
  {
    assert Insert(t.recs[n := t.recs[n].(events := t.recs[n].events + request)], [], n) == [n];
  }

  lemma EnterSecond(t: SelectState<nat>, m: nat, n: nat, request: Mask)
    requires t.entries == [m] && m in t.recs && n in t.recs && t.recs[m].fd == t.recs[n].fd == 5
    requires request != {} && request <= REQUESTABLE && t.maxfd == 5
    ensures var events := t.recs[n].events + request;
      SelectSet.Enter(t, n, request) ==
        SelectState(t.recs[n := t.recs[n].(events := events, owner := true)], [m, n], t.sets.With(5, events), 5)
  {
    assert Insert(t.recs[n := t.recs[n].(events := t.recs[n].events + request)], [m], n) == [m, n];
  }

  lemma ScanOne(t: SelectState<nat>, n: nat, ready: int -> Mask)
    requires t.entries == [n] && n in t.recs
    ensures var got := Reported(t.sets, t.maxfd, ready);
      Scan(t, ready) == SelectState(t.recs[n := Visited(t.recs[n], got)], if Hit(t.recs[n], got) then [] else [n],
                                    Cleared(t.recs[n], got, t.sets), t.maxfd)
  {
    var got := Reported(t.sets, t.maxfd, ready);
    hide Visited, Hit, Cleared, Reported;
    var none: seq<nat> := [];
    assert t.entries[..|t.entries| - 1] == none && none + [n] == [n] && none + none == none;
    assert ScanRecs(t.recs, t.entries, got) == t.recs[n := Visited(t.recs[n], got)];
    assert ScanKept(t.recs, t.entries, got) == if Hit(t.recs[n], got) then [] else [n];
    assert ScanSets(t.recs, t.entries, got, t.sets) == Cleared(t.recs[n], got, t.sets);
  }

  lemma ScanTwo(t: SelectState<nat>, m: nat, n: nat, ready: int -> Mask)
    requires t.entries == [m, n] && m != n && m in t.recs && n in t.recs
    ensures var got := Reported(t.sets, t.maxfd, ready);
      Scan(t, ready) == SelectState(
        t.recs[m := Visited(t.recs[m], got)][n := Visited(t.recs[n], got)],
        (if Hit(t.recs[m], got) then [] else [m]) + (if Hit(t.recs[n], got) then [] else [n]),
        Cleared(t.recs[n], got, Cleared(t.recs[m], got, t.sets)), t.maxfd)
  {
    hide Visited, Hit, Cleared, Reported;
    assert t.entries[..|t.entries| - 1] == [m];
    ScanOne(t.(entries := [m]), m, ready);
  }

  /** What a scan has for a NetFD on descriptor 5 when just one event is ready. */
  lemma SeenOn5(r: Rec, sets: FdSets, e: Event)
    requires r.fd == 5
    ensures var got, at := Reported(sets, 5, Only(e)), if e in sets.At(5) then {e} else {};
      && Revents(r, got) == r.revents + (r.events * at)
      && (Hit(r, got) <==> (r.revents + (r.events * at)) * r.events != {})
  {
    var got := Reported(sets, 5, Only(e));
    AtReported(sets, 5, Only(e), 5);
    hide FdSets.At, Reported;
    assert got.At(5) == if e in sets.At(5) then {e} else {};
  }

  lemma Extended(ts: seq<SelectState<nat>>, ms: seq<Move<nat>>, m: Move<nat>, t: SelectState<nat>)
    returns (ts': seq<SelectState<nat>>, ms': seq<Move<nat>>)
    requires IsRun(ts, ms, 3) && |ts| == |ms| + 1 && Listed(ts[|ms|]) && Moves(ts[|ms|], m, t, 3)
    ensures ts' == ts + [t] && ms' == ms + [m] && IsRun(ts', ms', 3)
  {
    ts', ms' := ts + [t], ms + [m];
  }

  function PollFdOf(r: Rec): PollFd { PollFd(r.fd, r.events, r.revents) }

  /** NetFD 0 waits for one event of descriptor 5. */
  function Waiting(e: Event): SelectState<nat> {
    SelectState(map[0 := On5({e}, {}, true, 0)], [0], FdSets({3}, {}, {}).With(5, {e}), 5)
  }

  lemma FirstWaits(e: Event) returns (ts: seq<SelectState<nat>>, ms: seq<Move<nat>>)
    requires e in {In, Out}
    ensures IsRun(ts, ms, 3) && ms == [Move.Assigned(0, Plain(5), true), Move.Called(0, {e})]
    ensures ts[2] == Waiting(e)
  {
    var none: map<nat, Rec> := map[];
    var t0: SelectState<nat> := SelectState(none, [], FdSets({3}, {}, {}), 3);
    var t1 := Reassign(t0, 0, Plain(5), true);
    assert t1.recs == map[0 := On5({}, {}, false, 0)];
    EnterEmpty(t1, 0, {e});
    assert {} + {e} == {e};
    ts, ms := [t0, t1, Waiting(e)], [Move.Assigned(0, Plain(5), true), Move.Called(0, {e})];
  }

  lemma BothAsk(t: SelectState<nat>)
    requires t.recs == map[0 := On5({In}, {}, true, 0), 1 := On5({In, Out}, {}, true, 0)]
    requires t.entries == [0, 1] && t.sets == FdSets({3, 5}, {5}, {}) && t.maxfd == 5
    ensures var t' := Scan(t, Only(In));
      t'.entries == [] && 1 in t'.recs && t'.recs[1].revents == {In}
  {
    hide Reported, Cleared, Scan, Hit, Revents;
    var got := Reported(t.sets, 5, Only(In));
    ScanTwo(t, 0, 1, Only(In));
    SeenOn5(t.recs[0], t.sets, In);
    SeenOn5(t.recs[1], t.sets, In);
    assert In in t.sets.At(5);
    assert {In} * {In} == {In} && {In, Out} * {In} == {In};
    assert In in (t.recs[0].revents + (t.recs[0].events * {In})) * t.recs[0].events;
    assert In in (t.recs[1].revents + (t.recs[1].events * {In})) * t.recs[1].events;
  }

  /** NetFD 1 is a copy of NetFD 0 while that waits for input.  Its Poll for output asks for both,
      and is woken by input that it did not ask for. */
  lemma CopyOfParkedAsksForBoth() returns (ts: seq<SelectState<nat>>, ms: seq<Move<nat>>)
    ensures IsRun(ts, ms, 3) && |ms| == 5
    ensures ms[1] == Move.Called(0, {In}) && 0 in ts[2].recs
    ensures ms[2] == Move.Assigned(1, PollFdOf(ts[2].recs[0]), true) && ms[3] == Move.Called(1, {Out})
    ensures ts[4].entries == [0, 1] && 1 in ts[4].recs && ts[4].recs[1].events == {In, Out}
    ensures ms[4] == Move.Selected(Only(In))
    ensures ts[5].entries == [] && 1 in ts[5].recs && ts[5].recs[1].revents == {In}
  {
    hide IsRun, Scan, SelectSet.Enter;
    ts, ms := FirstWaits(In);
    var m2, m3, m4 := Move.Assigned(1, PollFdOf(ts[2].recs[0]), true), Move.Called(1, {Out}), Move.Selected(Only(In));
    var t3 := Reassign(ts[2], 1, m2.osfd, true);
    EnterSecond(t3, 0, 1, {Out});
    var t4 := SelectSet.Enter(t3, 1, {Out});
    assert {In} + {Out} == {In, Out};
    assert t4.recs == map[0 := On5({In}, {}, true, 0), 1 := On5({In, Out}, {}, true, 0)];
    BothAsk(t4);
    ts, ms := Extended(ts, ms, m2, t3);
    ts, ms := Extended(ts, ms, m3, t4);
    ts, ms := Extended(ts, ms, m4, Scan(t4, m4.ready));
  }

  /** Input wakes NetFD 1, which holds a stale result: the write set is cleared as well. */
  lemma StaleClears(t: SelectState<nat>)
    requires t.recs == map[0 := On5({Out}, {}, true, 0), 1 := On5({In}, {Out}, true, 0)]
    requires t.entries == [1, 0] && t.sets == FdSets({3, 5}, {5}, {}) && t.maxfd == 5
    ensures Scan(t, Only(In)) == SelectState(
      map[0 := On5({Out}, {}, true, 0), 1 := On5({}, {In, Out}, true, 1)], [0], FdSets({3}, {}, {}), 5)
  {
    hide Reported, Scan, Hit, Revents;
    var none: Mask := {};
    ScanTwo(t, 1, 0, Only(In));
    SeenOn5(t.recs[0], t.sets, In);
    SeenOn5(t.recs[1], t.sets, In);
    assert In in t.sets.At(5);
    assert {In} * {In} == {In} && {Out} * {In} == {} && {Out} + {In} == {In, Out} && {In} - {In, Out} == {};
    assert none + none == none && none * {Out} == none;
    assert In in (t.recs[1].revents + (t.recs[1].events * {In})) * t.recs[1].events;
    assert [] + [0] == [0];
  }

  /** Then output does not wake NetFD 0, which waits for it. */
  lemma NotSeen(t: SelectState<nat>)
    requires 0 in t.recs && t.recs[0] == On5({Out}, {}, true, 0)
    requires t.entries == [0] && t.sets == FdSets({3}, {}, {}) && t.maxfd == 5
    ensures Scan(t, Only(Out)) == t
  {
    hide Reported, Scan, Hit, Revents;
    var none: Mask := {};
    ScanOne(t, 0, Only(Out));
    SeenOn5(t.recs[0], t.sets, Out);
    assert Out !in t.sets.At(5);
    assert {Out} * none == none && none + none == none && none * {Out} == none;
    assert t.recs[0 := t.recs[0]] == t.recs;
  }

  /** Output wakes NetFD 0 in the ordinary way. */
  lemma FirstWoken()
    ensures Scan(Waiting(Out), Only(Out)) == SelectState(map[0 := On5({}, {Out}, true, 1)], [], FdSets({3}, {}, {}), 5)
  {
    hide Reported, Scan, Hit, Revents;
    var t, none: Mask := Waiting(Out), {};
    ScanOne(t, 0, Only(Out));
    SeenOn5(t.recs[0], t.sets, Out);
    assert Out in t.sets.At(5);
    assert {Out} * {Out} == {Out} && none + {Out} == {Out} && {Out} - {Out} == none;
    assert Out in (t.recs[0].revents + (t.recs[0].events * {Out})) * t.recs[0].events;
    assert t.sets.Without(5, {Out}) == FdSets({3}, {}, {});
  }

  /** NetFD 1 is made a copy of NetFD 0 and waits for input, and NetFD 0 returns and waits for
      output again. */
  lemma CopyWithResult(t: SelectState<nat>) returns (t4: SelectState<nat>, t5: SelectState<nat>, t6: SelectState<nat>)
    requires t == SelectState(map[0 := On5({}, {Out}, true, 1)], [], FdSets({3}, {}, {}), 5)
    ensures t4 == Reassign(t, 1, PollFdOf(t.recs[0]), true) && t5 == SelectSet.Enter(t4, 1, {In}) && Listed(t5)
    ensures 0 in t5.recs && t5.recs[0].queued > 0 && t6 == SelectSet.Leave(t5, 0) && Listed(t6)
    ensures 1 in t4.recs && !t4.recs[1].owner && 0 in t6.recs && !t6.recs[0].owner && Listed(t4)
    ensures SelectSet.Enter(t6, 0, {Out}) == SelectState(
      map[0 := On5({Out}, {}, true, 0), 1 := On5({In}, {Out}, true, 0)], [1, 0], FdSets({3, 5}, {5}, {}), 5)
  {
    hide SelectSet.Enter;
    var none: Mask := {};
    t4 := Reassign(t, 1, PollFdOf(t.recs[0]), true);
    EnterEmpty(t4, 1, {In});
    t5 := SelectSet.Enter(t4, 1, {In});
    assert none + {In} == {In} && none + {Out} == {Out};
    t6 := SelectSet.Leave(t5, 0);
    EnterSecond(t6, 1, 0, {Out});
    var t7 := SelectSet.Enter(t6, 0, {Out});
    assert t7.recs == map[0 := On5({Out}, {}, true, 0), 1 := On5({In}, {Out}, true, 0)];
    assert t7.sets == FdSets({3, 5}, {5}, {});
  }

  /** NetFD 0 waits for output, is woken, and before its Poll returns NetFD 1 becomes a copy of it,
      result included, and waits for input; NetFD 0 waits for output again. */
  lemma BothWait() returns (ts: seq<SelectState<nat>>, ms: seq<Move<nat>>)
    ensures IsRun(ts, ms, 3) && |ts| == 8 && 0 in ts[3].recs
    ensures ms == [Move.Assigned(0, Plain(5), true), Move.Called(0, {Out}), Move.Selected(Only(Out)),
                   Move.Assigned(1, PollFdOf(ts[3].recs[0]), true), Move.Called(1, {In}),
                   Move.Returned(0), Move.Called(0, {Out})]
    ensures ts[7] == SelectState(
      map[0 := On5({Out}, {}, true, 0), 1 := On5({In}, {Out}, true, 0)], [1, 0], FdSets({3, 5}, {5}, {}), 5)
  {
    hide IsRun, Scan, SelectSet.Enter, SelectSet.Leave, Reassign;
    ts, ms := FirstWaits(Out);
    FirstWoken();
    var t3 := Scan(ts[2], Only(Out));
    var t4, t5, t6 := CopyWithResult(t3);
    ts, ms := Extended(ts, ms, Move.Selected(Only(Out)), t3);
    ts, ms := Extended(ts, ms, Move.Assigned(1, PollFdOf(t3.recs[0]), true), t4);
    ts, ms := Extended(ts, ms, Move.Called(1, {In}), t5);
    ts, ms := Extended(ts, ms, Move.Returned(0), t6);
    ts, ms := Extended(ts, ms, Move.Called(0, {Out}), SelectSet.Enter(t6, 0, {Out}));
  }

  /** A lost wake-up: when input then wakes NetFD 1, the stale result clears the write set, and
      NetFD 0 sleeps on although output is ready. */
  lemma LostWakeUp() returns (ts: seq<SelectState<nat>>, ms: seq<Move<nat>>)
    ensures IsRun(ts, ms, 3) && |ts| == 10 && 0 in ts[3].recs
    ensures ms == [Move.Assigned(0, Plain(5), true), Move.Called(0, {Out}), Move.Selected(Only(Out)),
                   Move.Assigned(1, PollFdOf(ts[3].recs[0]), true), Move.Called(1, {In}),
                   Move.Returned(0), Move.Called(0, {Out})] + [Move.Selected(Only(In)), Move.Selected(Only(Out))]
    ensures ts[9].entries == [0] && 0 in ts[9].recs && ts[9].recs[0].events == {Out}
    ensures Listed(ts[8]) && !Watched(ts[8])
  {
    hide IsRun, Scan, Visited, FdSets.At, Reports;
    ts, ms := BothWait();
    var t8 := Scan(ts[7], Only(In));
    StaleClears(ts[7]);
    InputReported(ts[7]);
    NotSeen(t8);
    Unwatched(t8);
    ts, ms := Extended(ts, ms, Move.Selected(Only(In)), t8);
    ts, ms := Extended(ts, ms, Move.Selected(Only(Out)), t8);
  }

  lemma InputReported(t: SelectState<nat>)
    requires 5 in t.sets.read && t.maxfd == 5
    ensures Reports(t, Only(In))
  {
    assert 5 in Reported(t.sets, t.maxfd, Only(In)).read;
  }

  lemma Unwatched(t: SelectState<nat>)
    requires Listed(t) && t.entries == [0] && t.recs[0] == On5({Out}, {}, true, 0) && t.sets == FdSets({3}, {}, {})
    ensures !Watched(t)
  {
    assert 0 in t.entries && Out in t.recs[0].events && Out !in t.sets.At(5);
  }
}
