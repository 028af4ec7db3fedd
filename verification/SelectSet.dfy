/** The select wait set as values. */
module SelectSet {
  import opened WaitSet

  const FD_SETSIZE: int := 1024

  /** The three fd_sets. */
  datatype FdSets = FdSets(read: set<int>, write: set<int>, exception: set<int>) {
    /** The set in which one kind of event is watched. */
    function Of(e: Event): set<int> {
      match e
      case In => read
      case Out => write
      case Pri => exception
      case _ => {}
    }

    /** FD_SET in the sets of the given events. */
    function With(fd: int, events: Mask): FdSets {
      FdSets(if In in events then read + {fd} else read,
             if Out in events then write + {fd} else write,
             if Pri in events then exception + {fd} else exception)
    }

    /** FD_CLR in the sets of the given events. */
    function Without(fd: int, events: Mask): FdSets {
      FdSets(if In in events then read - {fd} else read,
             if Out in events then write - {fd} else write,
             if Pri in events then exception - {fd} else exception)
    }

    /** The events for which a descriptor is in its set. */
    function At(fd: int): Mask { set e | e in REQUESTABLE && fd in Of(e) }
  }

  /** entries: the multimap in the order of its iteration. */
  datatype SelectState<!N(==)> = SelectState(recs: map<N, Rec>, entries: seq<N>, sets: FdSets, maxfd: int)

  // ---------------------------------------------------------------- Poll

  /** PollsetAdd.  The request is added to what is left of earlier ones. */
  function Add<N(==)>(t: SelectState<N>, n: N, request: Mask): (r: (bool, SelectState<N>))
    requires n in t.recs
  {
    var fd := t.recs[n].fd;
    if fd < 0 || request == {} || !(request <= REQUESTABLE) || fd >= FD_SETSIZE then (false, t)
    else
      var events := t.recs[n].events + request;
      (true, SelectState(t.recs[n := t.recs[n].(events := events)], t.entries, t.sets.With(fd, events),
                   if t.maxfd < fd then fd else t.maxfd))
  }

  /** multimap::emplace: behind the entries with the same descriptor. */
  function Insert<N>(recs: map<N, Rec>, q: seq<N>, n: N): seq<N>
    requires n in recs && forall m :: m in q ==> m in recs
  {
    if q == [] || recs[q[|q| - 1]].fd <= recs[n].fd then q + [n]
    else Insert(recs, q[..|q| - 1], n) + [q[|q| - 1]]
  }

  function Enter<N(==)>(t: SelectState<N>, n: N, request: Mask): SelectState<N>
    requires n in t.recs && forall m :: m in t.entries ==> m in t.recs
  {
    var (ok, t1) := Add(t, n, request);
    if ok then
      t1.(recs := t1.recs[n := t1.recs[n].(owner := true)], entries := Insert(t1.recs, t1.entries, n))
    else t1
  }

  function Leave<N(==)>(t: SelectState<N>, n: N): SelectState<N>
    requires n in t.recs && t.recs[n].queued > 0
  {
    t.(recs := t.recs[n := t.recs[n].(owner := false, revents := {}, queued := t.recs[n].queued - 1)])
  }

  // ---------------------------------------------------------------- the scan

  /** What select leaves in its three sets, of those given to it. */
  ghost function Reported(sets: FdSets, maxfd: int, ready: int -> Mask): FdSets {
    FdSets(set fd | fd in sets.read && fd <= maxfd && In in ready(fd),
           set fd | fd in sets.write && fd <= maxfd && Out in ready(fd),
           set fd | fd in sets.exception && fd <= maxfd && Pri in ready(fd))
  }

  /** The bits of revents that the scan has for one entry. */
  function Revents(r: Rec, got: FdSets): Mask {
    r.revents + (r.events * got.At(r.fd))
  }

  predicate Hit(r: Rec, got: FdSets) {
    Revents(r, got) != {} && Revents(r, got) * r.events != {}
  }

  function Visited(r: Rec, got: FdSets): Rec {
    var revents := Revents(r, got);
    if Hit(r, got) then
      r.(revents := revents, events := r.events - revents, queued := r.queued + 1, timer := false, armed := false)
    else r.(revents := revents)
  }

  function Cleared(r: Rec, got: FdSets, sets: FdSets): FdSets {
    if Hit(r, got) then sets.Without(r.fd, Revents(r, got)) else sets
  }

  function ScanRecs<N(==)>(recs: map<N, Rec>, q: seq<N>, got: FdSets): (r: map<N, Rec>)
    requires forall n :: n in q ==> n in recs
    ensures r.Keys == recs.Keys
  {
    if q == [] then recs
    else
      var n := q[|q| - 1];
      ScanRecs(recs, q[..|q| - 1], got)[n := Visited(recs[n], got)]
  }

  function ScanKept<N>(recs: map<N, Rec>, q: seq<N>, got: FdSets): seq<N>
    requires forall n :: n in q ==> n in recs
  {
    if q == [] then []
    else ScanKept(recs, q[..|q| - 1], got) + if Hit(recs[q[|q| - 1]], got) then [] else [q[|q| - 1]]
  }

  function ScanSets<N>(recs: map<N, Rec>, q: seq<N>, got: FdSets, sets: FdSets): FdSets
    requires forall n :: n in q ==> n in recs
  {
    if q == [] then sets
    else Cleared(recs[q[|q| - 1]], got, ScanSets(recs, q[..|q| - 1], got, sets))
  }

  /** The scan after a return of select. */
  ghost function Scan<N>(t: SelectState<N>, ready: int -> Mask): SelectState<N>
    requires forall n :: n in t.entries ==> n in t.recs
  {
    var got := Reported(t.sets, t.maxfd, ready);
    SelectState(ScanRecs(t.recs, t.entries, got), ScanKept(t.recs, t.entries, got),
          ScanSets(t.recs, t.entries, got, t.sets), t.maxfd)
  }

  /** select returns a positive number. */
  ghost predicate Reports<N>(t: SelectState<N>, ready: int -> Mask) {
    Reported(t.sets, t.maxfd, ready) != FdSets({}, {}, {})
  }

  /** One round of WaitLoop: without a report nothing is visited. */
  ghost function Wait<N>(t: SelectState<N>, ready: int -> Mask): SelectState<N>
    requires forall n :: n in t.entries ==> n in t.recs
  {
    if Reports(t, ready) then Scan(t, ready) else t
  }
}
