/** The scatter/gather loops of net_fd.cpp: st_readv_resid, st_write, st_writev,
    st_writev_resid and st_write_resid.

    Memory is a sequence (or array) of bytes, an iovec names a run of addresses, and the
    meaning of a list of iovecs is the sequence of addresses it names, in order.  What a
    transfer does is then stated on addresses: after n bytes, the residual iovecs name
    exactly the addresses from the n-th on.

    The kernel is an oracle: a finite script of answers, chosen freely.  A call made after
    the script has run out fails hard, so every terminating execution of the source is
    the execution for some script. */
module ScatterGather {
  import opened Basics
  import opened IoScript

  type Byte = bv8

  datatype Iovec = Iovec(base: nat, len: nat)

  /** The space for residual iovecs on the stack of st_writev (_LOCAL_MAXIOV). */
  const LOCAL_MAXIOV := 16

  /** The addresses named by a list of iovecs, in transfer order. */
  function Addrs(v: seq<Iovec>): seq<nat> {
    if v == [] then [] else seq(v[0].len, i requires 0 <= i => v[0].base + i) + Addrs(v[1..])
  }

  ghost predicate InBounds(v: seq<Iovec>, size: nat) {
    forall k :: 0 <= k < |v| ==> v[k].base + v[k].len <= size
  }

  lemma {:induction false} AddrsInBounds(v: seq<Iovec>, size: nat)
    requires InBounds(v, size)
    ensures forall k :: 0 <= k < |Addrs(v)| ==> Addrs(v)[k] < size
  {
    if v == [] {
    } else {
      assert forall k :: 0 <= k < |v[1..]| ==> v[1..][k] == v[k + 1];
      AddrsInBounds(v[1..], size);
    }
  }

  lemma {:induction false} AddrsConcat(v: seq<Iovec>, w: seq<Iovec>)
    ensures Addrs(v + w) == Addrs(v) + Addrs(w)
  {
    if v == [] {
      assert v + w == w;
    } else {
      assert (v + w)[1..] == v[1..] + w;
      AddrsConcat(v[1..], w);
      assert (v + w)[0] == v[0];
    }
  }

  /** The bytes of memory found at a list of addresses. */
  function Fetch(mem: seq<Byte>, a: seq<nat>): (r: seq<Byte>)
    requires forall k :: 0 <= k < |a| ==> a[k] < |mem|
  {
    seq(|a|, i requires 0 <= i < |a| => mem[a[i]])
  }

  /** The concatenation of the buffers, as the reader of net_fd.cpp would say it. */
  function Gather(mem: seq<Byte>, v: seq<Iovec>): (r: seq<Byte>)
    requires InBounds(v, |mem|)
  {
    AddrsInBounds(v, |mem|);
    Fetch(mem, Addrs(v))
  }

  /** Gather is the concatenation of the buffers, one memory slice after another. */
  lemma GatherIsConcatenation(mem: seq<Byte>, v: seq<Iovec>)
    requires v != [] && InBounds(v, |mem|)
    ensures InBounds(v[1..], |mem|)
    ensures Gather(mem, v) == mem[v[0].base..v[0].base + v[0].len] + Gather(mem, v[1..])
  {
    assert forall k :: 0 <= k < |v[1..]| ==> v[1..][k] == v[k + 1];
    AddrsInBounds(v, |mem|);
    AddrsInBounds(v[1..], |mem|);
  }

  // ---------------------------------------------------------------- the kernel oracle

  /** What a system call returned: a byte count, or -1 with EINTR, EAGAIN or another errno. */
  datatype Outcome = Count(n: nat) | Eintr | Eagain | Failed

  /** What a call gets when it can move up to `room` bytes. */
  function Answer(replies: seq<Reply>, room: nat): Outcome {
    if replies == [] then Failed
    else
      match replies[0]
      case Interrupted => Eintr
      case NotReady => Eagain
      case Refused => Failed
      case Moves(most) => Count(Min(most, room))
  }

  function Dropped<T>(q: seq<T>): seq<T> { if q == [] then [] else q[1..] }

  /** Memory that the kernel writes into. */
  class Memory {
    var bytes: seq<Byte>
  }

  class Socket {
    var replies: seq<Reply>
    var waits: seq<bool>      // answers of Poll: true when the socket became ready
    var sent: seq<Byte>       // everything the kernel accepted, in order
    var incoming: seq<Byte>   // everything the kernel has still to deliver

    method NextReply() returns (r: Reply)
      modifies this`replies
      ensures old(replies) == [] ==> r == Refused && replies == []
      ensures old(replies) != [] ==> r == old(replies)[0] && replies == old(replies)[1..]
    {
      if replies == [] {
        r := Refused;
      } else {
        r, replies := replies[0], replies[1..];
      }
    }

    /** Parking on the socket until it is ready, fails or times out. */
    method Poll() returns (ready: bool)
      modifies this`waits
      ensures ready == (old(waits) != [] && old(waits)[0]) && waits == Dropped(old(waits))
    {
      ready := waits != [] && waits[0];
      if waits != [] {
        waits := waits[1..];
      }
    }

    /** write and writev: the kernel takes any number of bytes, from the front. */
    method Write(mem: seq<Byte>, v: seq<Iovec>) returns (o: Outcome)
      requires InBounds(v, |mem|)
      modifies this`replies, this`sent
      ensures o == Answer(old(replies), |Addrs(v)|) && replies == Dropped(old(replies))
      ensures !o.Count? ==> sent == old(sent)
      ensures o.Count? ==> o.n <= |Addrs(v)| && sent == old(sent) + Gather(mem, v)[..o.n]
      ensures o.Count? ==> |sent| == |old(sent)| + o.n
    {
      var r := NextReply();
      match r
      case Interrupted => o := Eintr;
      case NotReady => o := Eagain;
      case Refused => o := Failed;
      case Moves(most) =>
        var data := Gather(mem, v);
        o := Count(Min(most, |data|));
        sent := sent + data[..o.n];
    }

    /** read and readv: the kernel delivers any prefix of what is pending, filling the
        buffers in order.  A count of zero is the end of the stream. */
    method Read(mem: Memory, v: seq<Iovec>) returns (o: Outcome)
      requires InBounds(v, |mem.bytes|)
      modifies this`replies, this`incoming, mem
      ensures o == Answer(old(replies), Min(|Addrs(v)|, |old(incoming)|)) && replies == Dropped(old(replies))
      ensures !o.Count? ==> incoming == old(incoming) && mem.bytes == old(mem.bytes)
      ensures o.Count? ==> Delivered(mem.bytes, old(mem.bytes), Addrs(v), old(incoming), o.n)
      ensures o.Count? ==> incoming == old(incoming)[o.n..]
    {
      AddrsInBounds(v, |mem.bytes|);
      var r := NextReply();
      match r
      case Interrupted => o := Eintr;
      case NotReady => o := Eagain;
      case Refused => o := Failed;
      case Moves(most) =>
        var a := Addrs(v);
        var n := Min(most, Min(|a|, |incoming|));
        for i := 0 to n
          modifies mem
          invariant Delivered(mem.bytes, old(mem.bytes), a, incoming, i)
        {
          mem.bytes := mem.bytes[a[i] := incoming[i]];
        }
        incoming := incoming[n..];
        o := Count(n);
    }
  }

  /** Memory `after` is `before` with the first n stream bytes stored at the first n
      addresses, and nothing else changed. */
  ghost predicate Delivered(after: seq<Byte>, before: seq<Byte>, a: seq<nat>, stream: seq<Byte>, n: nat) {
    && n <= |a| && n <= |stream|
    && |after| == |before|
    && (forall k :: 0 <= k < |a| ==> a[k] < |before|)
    && (forall x :: 0 <= x < |before| && x !in a[..n] ==> after[x] == before[x])
    && (Distinct(a) ==> forall k :: 0 <= k < n ==> after[a[k]] == stream[k])
  }

  // ---------------------------------------------------------------- the advance loop

  /** Iovecs `after` are what is left of `before` once its first n bytes have been moved. */
  ghost predicate Residual(before: seq<Iovec>, after: seq<Iovec>, n: nat) {
    n <= |Addrs(before)| && Addrs(after) == Addrs(before)[n..]
  }

  lemma ResidualTrans(u: seq<Iovec>, v: seq<Iovec>, w: seq<Iovec>, m: nat, n: nat)
    requires Residual(u, v, m) && Residual(v, w, n)
    ensures Residual(u, w, m + n)
  {
    assert Addrs(u)[m..][n..] == Addrs(u)[m + n..];
  }

  /** Where n bytes end: how many entries they use up, and how far they reach into the
      next one.  The scan stops as soon as the count is exhausted. */
  datatype Stop = Stop(index: nat, into: nat)

  function Scan(v: seq<Iovec>, n: nat): Stop {
    if v == [] || n < v[0].len then Stop(0, n)
    else if n == v[0].len then Stop(1, 0)
    else var s := Scan(v[1..], n - v[0].len); Stop(s.index + 1, s.into)
  }

  /** The entries left after stopping there. */
  function Rest(v: seq<Iovec>, s: Stop): seq<Iovec> {
    if s.index < |v| && s.into <= v[s.index].len
    then [Iovec(v[s.index].base + s.into, v[s.index].len - s.into)] + v[s.index + 1..]
    else []
  }

  lemma RestAt(a: seq<Iovec>, start: nat, end: nat, p: nat, n: nat)
    requires start <= p <= end <= |a| && (p < end ==> n <= a[p].len)
    ensures Rest(a[start..end], Stop(p - start, n))
         == if p < end then [Iovec(a[p].base + n, a[p].len - n)] + a[p + 1..end] else []
  {
  }

  lemma RestOfTail(v: seq<Iovec>, s: Stop)
    requires v != []
    ensures Rest(v, Stop(s.index + 1, s.into)) == Rest(v[1..], s)
  {
  }

  /** Skipping the first entry drops exactly its addresses. */
  lemma SkipFirst(v: seq<Iovec>)
    requires v != []
    ensures |Addrs(v)| == v[0].len + |Addrs(v[1..])|
    ensures |v| == 1 ==> |Addrs(v[1..])| == 0
    ensures Residual(v, v[1..], v[0].len)
  {
  }

  /** Shortening the first entry from the front drops exactly the addresses skipped. */
  lemma ShortenFirst(v: seq<Iovec>, n: nat)
    requires v != [] && n <= v[0].len
    ensures Residual(v, Rest(v, Stop(0, n)), n)
  {
    assert Rest(v, Stop(0, n))[1..] == v[1..];
  }

  /** The scan never leaves a list that names enough bytes, and what it leaves names
      exactly the addresses from the n-th on. */
  lemma {:induction false} ScanStopsInside(v: seq<Iovec>, n: nat)
    requires v != [] && n <= |Addrs(v)|
    ensures Scan(v, n).index <= |v| && (Scan(v, n).index == |v| ==> Scan(v, n).into == 0)
    ensures Scan(v, n).index < |v| ==> Scan(v, n).into <= v[Scan(v, n).index].len
    ensures Scan(v, n).index == 0 ==> Scan(v, n).into == n < v[0].len
    ensures Residual(v, Rest(v, Scan(v, n)), n)
  {
    hide Addrs, Residual;
    SkipFirst(v);
    if n < v[0].len {
      ShortenFirst(v, n);
    } else if n == v[0].len {
      assert Rest(v, Scan(v, n)) == v[1..];
    } else {
      ScanStopsInside(v[1..], n - v[0].len);
      RestOfTail(v, Scan(v[1..], n - v[0].len));
      ResidualTrans(v, v[1..], Rest(v, Scan(v, n)), v[0].len, n - v[0].len);
    }
  }

  /** Both resid functions step over the iovecs a transfer has filled: entries that are
      used up get length zero and `*iov` and `*iov_size` move on.  The scan stops inside
      the array even when entries have length zero. */
  method StepOver(a: array<Iovec>, start: nat, size: nat, count: nat) returns (start': nat, size': nat, n: nat)
    requires 0 < size && start + size <= a.Length
    requires count <= |Addrs(a[start..start + size])|
    modifies a
    ensures start' + size' == start + size && start <= start'
    ensures Scan(old(a[start..start + size]), count) == Stop(start' - start, n)
    ensures forall k :: 0 <= k < a.Length ==>
      a[k] == if start <= k < start' then Iovec(old(a[k].base + a[k].len), 0) else old(a[k])
  {
    hide Addrs, Residual, Rest;
    ghost var a0, end := a[..], start + size;
    assert a[start..end] == a0[start..end];
    ScanStopsInside(a0[start..end], count);
    start', size', n := start, size, count;
    while n >= a[start'].len
      invariant start <= start' < end && start' + size' == end
      invariant Scan(a0[start..end], count).index == Scan(a0[start'..end], n).index + start' - start
      invariant Scan(a0[start..end], count).into == Scan(a0[start'..end], n).into
      invariant forall k :: 0 <= k < a.Length ==>
        a[k] == if start <= k < start' then Iovec(a0[k].base + a0[k].len, 0) else a0[k]
      decreases size'
    {
      assert a0[start'..end][1..] == a0[start' + 1..end];
      n := n - a[start'].len;
      a[start'] := Iovec(a[start'].base + a[start'].len, 0);
      start' := start' + 1;
      size' := size' - 1;
      if n == 0 {
        break;
      }
    }
  }

  /** The entry where the transfer stopped is then shortened from the front. */
  method Advance(a: array<Iovec>, start: nat, size: nat, count: nat) returns (start': nat, size': nat)
    requires 0 < size && start + size <= a.Length
    requires count <= |Addrs(a[start..start + size])|
    modifies a
    ensures start' + size' == start + size && start <= start'
    ensures Residual(old(a[start..start + size]), a[start'..start' + size'], count)
    ensures a[start'..start' + size'] == Rest(old(a[start..start + size]), Scan(old(a[start..start + size]), count))
    ensures forall k :: 0 <= k < a.Length && k != start' ==>
      a[k] == if start <= k < start' then Iovec(old(a[k].base + a[k].len), 0) else old(a[k])
    ensures start' < start + size ==> a[start'].base + a[start'].len == old(a[start'].base + a[start'].len)
    ensures start' == start ==> a[start].len > 0
  {
    hide Addrs, Residual, Rest, Scan;
    ghost var a0, end := a[..], start + size;
    assert a[start..end] == a0[start..end];
    ScanStopsInside(a0[start..end], count);
    var n;
    start', size', n := StepOver(a, start, size, count);
    if size' != 0 {
      a[start'] := Iovec(a[start'].base + n, a[start'].len - n);
    }
    AdvancedIs(a0, a[..], start, end, start', n);
    assert a[..][start'..end] == a[start'..start' + size'];
  }

  /** What is left of the array once the entry at p has been shortened by n. */
  lemma AdvancedIs(a0: seq<Iovec>, a1: seq<Iovec>, start: nat, end: nat, p: nat, n: nat)
    requires start <= p <= end <= |a0| == |a1|
    requires forall k :: p < k < end ==> a1[k] == a0[k]
    requires p < end ==> n <= a0[p].len && a1[p] == Iovec(a0[p].base + n, a0[p].len - n)
    ensures a1[p..end] == Rest(a0[start..end], Stop(p - start, n))
  {
    hide Rest;
    RestAt(a0, start, end, p, n);
    SameSlice(a0, a1, p, end);
  }

  lemma SameSlice<T>(a0: seq<T>, a1: seq<T>, p: nat, end: nat)
    requires p <= end <= |a0| == |a1| && forall k :: p < k < end ==> a1[k] == a0[k]
    ensures a1[p..end] == if p < end then [a1[p]] + a0[p + 1..end] else []
  {
  }

  // ---------------------------------------------------------------- what is to be moved

  /** The entries behind the last byte. */
  function Empties(v: seq<Iovec>): (n: nat)
    ensures n <= |v|
  {
    if v == [] then 0 else if |Addrs(v)| == 0 then |v| else Empties(v[1..])
  }

  /** Moving some bytes leaves the entries behind the last one; moving none of none takes one. */
  lemma {:induction false} EmptiesLeft(v: seq<Iovec>, n: nat)
    requires v != [] && n <= |Addrs(v)|
    ensures Empties(Rest(v, Scan(v, n))) == if |Addrs(v)| == 0 then |v| - 1 else Empties(v)
  {
    hide Addrs, Residual;
    SkipFirst(v);
    if n < v[0].len {
      var r := Rest(v, Scan(v, n));
      ShortenFirst(v, n);
      LeftOver(v, r, n);
      assert r[1..] == v[1..];
    } else if n == v[0].len {
      assert Rest(v, Scan(v, n)) == v[1..];
      LeftOver(v, v[1..], n);
    } else {
      EmptiesLeft(v[1..], n - v[0].len);
      RestOfTail(v, Scan(v[1..], n - v[0].len));
    }
  }

  lemma LeftOver(v: seq<Iovec>, w: seq<Iovec>, n: nat)
    requires Residual(v, w, n)
    ensures |Addrs(w)| == |Addrs(v)| - n
  {
  }

  lemma NothingLeft(v: seq<Iovec>)
    ensures v == [] <==> |Addrs(v)| == 0 && Empties(v) == 0
  {
  }

  ghost function SendJob(v: seq<Iovec>): Job {
    Job(false, |Addrs(v)|, Empties(v), |Addrs(v)|)
  }

  /** A write and the advance after it are one answer to the job. */
  lemma SendNext(v: seq<Iovec>, w: seq<Iovec>, replies: seq<Reply>)
    requires v != [] && replies != []
    requires var o := Answer(replies, |Addrs(v)|);
      if o.Count? then w == Rest(v, Scan(v, o.n)) else w == v
    ensures SendJob(w) == SendJob(v).Next(replies[0])
    ensures w == [] <==> SendJob(w).bytes == 0 && SendJob(w).empties == 0
  {
    hide Addrs, Rest, Scan;
    var o := Answer(replies, |Addrs(v)|);
    NothingLeft(w);
    if o.Count? {
      EmptiesLeft(v, o.n);
      ScanStopsInside(v, o.n);
      LeftOver(v, w, o.n);
      AllEmpty(v);
    }
  }

  lemma AllEmpty(v: seq<Iovec>)
    ensures |Addrs(v)| == 0 ==> Empties(v) == |v|
  {
  }

  // ---------------------------------------------------------------- st_writev_resid, st_write

  /** The kernel's stream went from `before` to `after` by taking a prefix of the bytes
      that iovecs v name, and w is what v has left. */
  ghost predicate Taken(mem: seq<Byte>, v: seq<Iovec>, w: seq<Iovec>, before: seq<Byte>, after: seq<Byte>)
    requires InBounds(v, |mem|)
  {
    && |before| <= |after|
    && Residual(v, w, |after| - |before|)
    && after == before + Gather(mem, v)[..|after| - |before|]
  }

  lemma TakenRefl(mem: seq<Byte>, v: seq<Iovec>, sent: seq<Byte>)
    requires InBounds(v, |mem|)
    ensures Taken(mem, v, v, sent, sent)
  {
  }

  lemma TakenTrans(mem: seq<Byte>, u: seq<Iovec>, v: seq<Iovec>, w: seq<Iovec>,
                   s0: seq<Byte>, s1: seq<Byte>, s2: seq<Byte>)
    requires InBounds(u, |mem|) && InBounds(v, |mem|)
    requires Taken(mem, u, v, s0, s1) && Taken(mem, v, w, s1, s2)
    ensures Taken(mem, u, w, s0, s2)
  {
    ResidualTrans(u, v, w, |s1| - |s0|, |s2| - |s1|);
    GatherRest(mem, u, v, |s1| - |s0|);
    hide Addrs, Gather, InBounds;
    FrontSplit(Gather(mem, u), |s1| - |s0|, |s2| - |s0|);
  }

  /** The bytes that are left. */
  lemma GatherRest(mem: seq<Byte>, u: seq<Iovec>, v: seq<Iovec>, n: nat)
    requires InBounds(u, |mem|) && InBounds(v, |mem|) && Residual(u, v, n)
    ensures |Gather(mem, u)| == |Addrs(u)| && |Gather(mem, v)| == |Addrs(u)| - n
    ensures Gather(mem, v) == Gather(mem, u)[n..]
  {
    AddrsInBounds(u, |mem|);
    AddrsInBounds(v, |mem|);
  }

  lemma FrontSplit<T>(g: seq<T>, i: nat, j: nat)
    requires i <= j <= |g|
    ensures g[..j] == g[..i] + g[i..][..j - i]
  {
  }

  /** Conservation: what was taken, followed by what is left, is what there was. */
  lemma TakenConserves(mem: seq<Byte>, v: seq<Iovec>, w: seq<Iovec>, before: seq<Byte>, after: seq<Byte>)
    requires InBounds(v, |mem|) && InBounds(w, |mem|) && Taken(mem, v, w, before, after)
    ensures after + Gather(mem, w) == before + Gather(mem, v)
    ensures |after| - |before| + |Addrs(w)| == |Addrs(v)|
  {
    AddrsInBounds(v, |mem|);
    AddrsInBounds(w, |mem|);
    assert Gather(mem, v) == Gather(mem, v)[..|after| - |before|] + Gather(mem, w);
  }

  /** The iovec array went from a0 to a1 while `*iov` moved from start to cur: the entries
      passed have length zero, those outside start..cur are untouched, and the entry at
      cur has at most been shortened to a part that is not empty. */
  ghost predicate Moved(a0: seq<Iovec>, a1: seq<Iovec>, start: nat, cur: nat, end: nat) {
    && start <= cur <= end <= |a0| == |a1|
    && (forall k :: start <= k < cur ==> a1[k].len == 0)
    && (forall k :: 0 <= k < |a0| && (k < start || cur < k) ==> a1[k] == a0[k])
    && (cur == start < end ==> a1[start].len > 0 || a1[start] == a0[start])
  }

  lemma MovedTrans(a0: seq<Iovec>, a1: seq<Iovec>, a2: seq<Iovec>, start: nat, mid: nat, cur: nat, end: nat)
    requires Moved(a0, a1, start, mid, end) && Moved(a1, a2, mid, cur, end)
    ensures Moved(a0, a2, start, cur, end)
  {
  }

  /** One write of the loop, followed by the advance over what it sent. */
  method SendSome(mem: seq<Byte>, s: Socket, a: array<Iovec>, start: nat, size: nat)
    returns (o: Outcome, start': nat, size': nat)
    requires 0 < size && start + size <= a.Length && InBounds(a[start..start + size], |mem|)
    modifies s`replies, s`sent, a
    ensures o == Answer(old(s.replies), |Addrs(old(a[start..start + size]))|) && s.replies == Dropped(old(s.replies))
    ensures start' + size' == start + size && start <= start'
    ensures |s.sent| - |old(s.sent)| == if o.Count? then o.n else 0
    ensures old(s.replies) != [] ==>
      SendJob(a[start'..start' + size']) == SendJob(old(a[start..start + size])).Next(old(s.replies)[0])
    ensures size' == 0 <==> |Addrs(a[start'..start' + size'])| == 0 && Empties(a[start'..start' + size']) == 0
    ensures Sending(mem, old(a[..]), a[..], start, start', start + size, old(s.sent), s.sent)
    ensures size' == 0 ==> o.Count?
  {
    hide Addrs, Residual, Empties, Rest, Scan, SendJob, Job.Next, Answer, Gather, Sending, InBounds;
    start', size' := start, size;
    ghost var a0, v := a[..], a[start..start + size];
    assert a0[start..start + size] == v;
    SendingStarts(mem, a0, start, start + size, s.sent);
    o := s.Write(mem, a[start..start + size]);
    if o.Count? {
      start', size' := Advance(a, start, size, o.n);
      AdvanceSends(mem, a0, a[..], start, start', start + size, old(s.sent), s.sent, o.n);
      assert a[..][start'..start + size] == a[start'..start' + size'];
    }
    NothingLeft(a[start'..start' + size']);
    if old(s.replies) != [] {
      SendNext(v, a[start'..start' + size'], old(s.replies));
    }
  }

  /** A write of n bytes, and the advance over them. */
  lemma AdvanceSends(mem: seq<Byte>, a0: seq<Iovec>, a1: seq<Iovec>, start: nat, cur: nat, end: nat,
                     s0: seq<Byte>, s1: seq<Byte>, n: nat)
    requires start <= cur <= end <= |a0| == |a1| && InBounds(a0[start..end], |mem|)
    requires Residual(a0[start..end], a1[cur..end], n)
    requires forall k :: 0 <= k < |a0| && k != cur ==>
      a1[k] == if start <= k < cur then Iovec(a0[k].base + a0[k].len, 0) else a0[k]
    requires cur < end ==> a1[cur].base + a1[cur].len == a0[cur].base + a0[cur].len
    requires cur == start < end ==> a1[start].len > 0
    requires s1 == s0 + Gather(mem, a0[start..end])[..n] && |s1| == |s0| + n
    ensures Sending(mem, a0, a1, start, cur, end, s0, s1)
  {
    hide Addrs, Residual, Gather;
    assert forall k :: start <= k < end ==> a0[start..end][k - start] == a0[k];
  }

  /** Sends what the residual iovecs name.  The result, and how much is sent, are what the kernel's
      answers make of it; in every case the bytes accepted, followed by the bytes the residual
      iovecs still name, are the original bytes. */
  method StWritevResid(mem: seq<Byte>, s: Socket, a: array<Iovec>, start: nat, size: nat, timeout: int)
    returns (rv: int, start': nat, size': nat)
    requires start + size <= a.Length && InBounds(a[start..start + size], |mem|)
    modifies s, a
    ensures start' + size' == start + size && start <= start'
    ensures InBounds(a[start'..start' + size'], |mem|)
    ensures Taken(mem, old(a[start..start + size]), a[start'..start' + size'], old(s.sent), s.sent)
    ensures s.sent + Gather(mem, a[start'..start' + size']) == old(s.sent) + Gather(mem, old(a[start..start + size]))
    ensures size == 0 ==> rv == 0 && s.sent == old(s.sent)
    ensures size > 0 ==>
      var job, sc := SendJob(old(a[start..start + size])), Script(old(s.replies), old(s.waits), timeout);
      rv == Verdict(job, sc) && |s.sent| == |old(s.sent)| + Final(job, sc)
    ensures rv == 0 || rv == -1
    ensures size' == 0 ==> rv == 0
    ensures rv == 0 && timeout != 0 ==> size' == 0
    ensures Moved(old(a[..]), a[..], start, start', start + size)
  {
    hide Addrs, Residual, InBounds, Gather, Taken, Moved, Sending, SendJob, Verdict, Final, Follows, Completes, Job.Next, Empties;
    ghost var a0, sent0 := a[..], s.sent;
    ghost var job0, sc0 := SendJob(a[start..start + size]), Script(s.replies, s.waits, timeout);
    SendingStarts(mem, a0, start, start + size, sent0);
    FollowsStart(job0, sc0);
    rv, start', size' := 0, start, size;
    while size' > 0
      invariant rv == 0 && start' + size' == start + size && start <= start'
      invariant size > 0 ==> size' > 0
      invariant Follows(job0, sc0, SendJob(a[start'..start' + size']), Script(s.replies, s.waits, timeout), |s.sent| - |sent0|)
      invariant Sending(mem, a0, a[..], start, start', start + size, sent0, s.sent)
      decreases |s.replies|
    {
      ghost var a1, mid, sent1 := a[..], start', s.sent;
      ghost var v, sc := a[start'..start' + size'], Script(s.replies, s.waits, timeout);
      Iterate(job0, sc0, SendJob(v), sc, |s.sent| - |sent0|);
      SendingSlices(mem, a0, a[..], start, start', start + size, sent0, s.sent);
      assert a[..][start'..start + size] == a[start'..start' + size'];
      var o;
      o, start', size' := SendSome(mem, s, a, start', size');
      SentIs(v, sc, o, a[start'..start' + size'], |s.sent| - |sent1|);
      SendingGoesOn(mem, a0, a1, a[..], start, mid, start', start + size, sent0, sent1, s.sent);
      if o == Eintr {
        continue;
      }
      if o == Failed {
        rv := -1;
        break;
      }
      if size' == 0 || (o == Eagain && timeout == 0) {
        break;
      }
      var ready := s.Poll();
      if !ready {
        rv := -1;
        break;
      }
    }
    SendingSlices(mem, a0, a[..], start, start', start + size, sent0, s.sent);
    assert a[..][start'..start + size] == a[start'..start' + size'];
    assert a0[start..start + size] == old(a[start..start + size]);
    TakenConserves(mem, a0[start..start + size], a[start'..start' + size'], sent0, s.sent);
  }

  lemma FollowsStart(job: Job, sc: Script)
    ensures Follows(job, sc, job, sc, 0)
  {
  }

  /** What SendSome has done, in terms of the job. */
  lemma SentIs(v: seq<Iovec>, sc: Script, o: Outcome, w: seq<Iovec>, sent: int)
    requires o == Answer(sc.replies, |Addrs(v)|)
    requires sc.replies != [] ==> SendJob(w) == SendJob(v).Next(sc.replies[0])
    requires sent == if o.Count? then o.n else 0
    ensures o == Failed <==> sc.replies == [] || sc.replies[0].Refused?
    ensures o != Failed ==> sent == SendJob(v).bytes - SendJob(w).bytes
    ensures o == Eintr <==> sc.replies != [] && sc.replies[0].Interrupted?
    ensures o == Eagain <==> sc.replies != [] && sc.replies[0].NotReady?
    ensures sc.replies != [] ==>
      (Completes(SendJob(v), sc, 0) <==> o.Count? && |Addrs(w)| == 0 && Empties(w) == 0)
    ensures sc.replies != [] ==>
      Tail(sc).replies == Dropped(sc.replies) && Tail(sc).waits == if o.Count? || o.Eagain? then Dropped(sc.waits) else sc.waits
  {
    hide Addrs, Empties;
    if sc.replies != [] {
      CompletesFirst(SendJob(v), sc);
    }
  }

  /** The state of the loop of st_writev_resid: the array has gone from a0 to a1, `*iov` from
      start to cur, and the kernel's stream from s0 to s1. */
  ghost predicate Sending(mem: seq<Byte>, a0: seq<Iovec>, a1: seq<Iovec>, start: nat, cur: nat, end: nat,
                          s0: seq<Byte>, s1: seq<Byte>) {
    && start <= cur <= end <= |a0| == |a1|
    && InBounds(a0[start..end], |mem|) && InBounds(a1[cur..end], |mem|)
    && Taken(mem, a0[start..end], a1[cur..end], s0, s1)
    && Moved(a0, a1, start, cur, end)
  }

  lemma SendingStarts(mem: seq<Byte>, a: seq<Iovec>, start: nat, end: nat, sent: seq<Byte>)
    requires start <= end <= |a| && InBounds(a[start..end], |mem|)
    ensures Sending(mem, a, a, start, start, end, sent, sent)
  {
    TakenRefl(mem, a[start..end], sent);
  }

  lemma SendingSlices(mem: seq<Byte>, a0: seq<Iovec>, a1: seq<Iovec>, start: nat, cur: nat, end: nat,
                      s0: seq<Byte>, s1: seq<Byte>)
    requires Sending(mem, a0, a1, start, cur, end, s0, s1)
    ensures start <= cur <= end <= |a0| == |a1|
    ensures InBounds(a0[start..end], |mem|) && InBounds(a1[cur..end], |mem|)
    ensures Taken(mem, a0[start..end], a1[cur..end], s0, s1) && Moved(a0, a1, start, cur, end)
  {
  }

  lemma SendingGoesOn(mem: seq<Byte>, a0: seq<Iovec>, a1: seq<Iovec>, a2: seq<Iovec>, start: nat, mid: nat, cur: nat, end: nat,
                      s0: seq<Byte>, s1: seq<Byte>, s2: seq<Byte>)
    requires Sending(mem, a0, a1, start, mid, end, s0, s1) && Sending(mem, a1, a2, mid, cur, end, s1, s2)
    ensures Sending(mem, a0, a2, start, cur, end, s0, s2)
  {
    hide Addrs, Residual, InBounds, Gather, Taken, Moved;
    MovedTrans(a0, a1, a2, start, mid, cur, end);
    TakenTrans(mem, a0[start..end], a1[mid..end], a2[cur..end], s0, s1, s2);
  }

  /** The conversion of a byte count to the 32-bit int that st_write returns. */
  function ToInt32(x: int): (r: int)
    ensures -0x8000_0000 <= r < 0x8000_0000
    ensures (x - r) % 0x1_0000_0000 == 0
    ensures r == x <==> -0x8000_0000 <= x < 0x8000_0000
  {
    var m := x % 0x1_0000_0000;
    if m < 0x8000_0000 then m else m - 0x1_0000_0000
  }

  /** Counts from 2^31 on are misreported, although everything was accepted: as a negative
      number, as the error value, or as nothing sent. */
  lemma LargeCountsMisreported()
    ensures ToInt32(0x8000_0000) == -0x8000_0000 && ToInt32(0xFFFF_FFFF) == -1 && ToInt32(0x1_0000_0000) == 0
  {
  }

  /** One buffer sent through a single iovec.  The count left unsent is exact on success
      and on failure. */
  method StWriteResid(mem: seq<Byte>, s: Socket, buf: nat, resid: nat, timeout: int) returns (rv: int, resid': nat)
    requires buf + resid <= |mem|
    modifies s
    ensures resid' <= resid && s.sent == old(s.sent) + mem[buf..buf + resid - resid']
    ensures rv == 0 || rv == -1
    ensures resid' == 0 && resid > 0 ==> rv == 0
    ensures rv == 0 && timeout != 0 ==> resid' == 0
    ensures var job, sc := BufferJob(resid), Script(old(s.replies), old(s.waits), timeout);
      rv == Verdict(job, sc) && resid' == resid - Final(job, sc)
  {
    hide Verdict, Final, SendJob, Gather, Taken, Empties;
    OneJob(Iovec(buf, resid));
    var a := new Iovec[1][Iovec(buf, resid)];
    assert a[0..1] == [Iovec(buf, resid)];
    var i, n;
    rv, i, n := StWritevResid(mem, s, a, 0, 1, timeout);
    resid' := a[0].len;
    hide Residual, Addrs;
    AddrsOfOne(mem, a[0]);
    SingleSlice(a[..], i, n);
    assert a[..][i..i + n] == a[i..i + n];
    TakenOne(mem, Iovec(buf, resid), a[i..i + n], old(s.sent), s.sent);
  }

  lemma SingleSlice(a: seq<Iovec>, i: nat, n: nat)
    requires |a| == 1 && i + n == 1
    ensures a[i..i + n] == if i == 0 then [a[0]] else []
  {
  }

  /** One buffer of some length; an empty one is an empty entry. */
  function BufferJob(count: nat): Job {
    Job(false, count, if count == 0 then 1 else 0, count)
  }

  lemma OneJob(v: Iovec)
    ensures SendJob([v]) == BufferJob(v.len)
  {
    assert [v][1..] == [];
    AddrsOfOne([], v);
    hide Addrs;
  }

  /** What a single iovec has left decides how much of its buffer was sent. */
  lemma TakenOne(mem: seq<Byte>, v: Iovec, w: seq<Iovec>, before: seq<Byte>, after: seq<Byte>)
    requires InBounds([v], |mem|) && Taken(mem, [v], w, before, after)
    ensures w == [] ==> |Addrs(w)| == 0
    ensures |Addrs(w)| <= v.len
    ensures v.base + v.len <= |mem|
    ensures after == before + mem[v.base..v.base + v.len - |Addrs(w)|]
  {
    assert [v][0] == v;
    AddrsOfOne(mem, v);
  }

  lemma AddrsOfOne(mem: seq<Byte>, v: Iovec)
    ensures |Addrs([v])| == v.len
    ensures InBounds([v], |mem|) ==> Gather(mem, [v]) == mem[v.base..v.base + v.len]
  {
    assert Addrs([v]) == seq(v.len, i requires 0 <= i => v.base + i);
    if InBounds([v], |mem|) {
      assert [v][0] == v;
      AddrsInBounds([v], |mem|);
    }
  }

  /** st_write returns the number of bytes the kernel accepted, squeezed into an int, or
      -1; when everything was accepted it never returns -1 for any other reason.  Which of the
      two, and how many bytes, the kernel's answers decide. */
  method StWrite(mem: seq<Byte>, s: Socket, buf: nat, count: nat, timeout: int) returns (r: int)
    requires buf + count <= |mem|
    modifies s
    ensures |old(s.sent)| <= |s.sent| <= |old(s.sent)| + count
    ensures s.sent == old(s.sent) + mem[buf..buf + |s.sent| - |old(s.sent)|]
    ensures r == -1 || r == ToInt32(|s.sent| - |old(s.sent)|)
    ensures |s.sent| == |old(s.sent)| + count && count > 0 ==> r == ToInt32(count)
    ensures r != -1 && timeout != 0 ==> |s.sent| == |old(s.sent)| + count
    ensures var job, sc := BufferJob(count), Script(old(s.replies), old(s.waits), timeout);
      && |s.sent| == |old(s.sent)| + Final(job, sc)
      && r == if Verdict(job, sc) == 0 then ToInt32(Final(job, sc)) else -1
  {
    hide Verdict, Final, BufferJob;
    var rv, resid := StWriteResid(mem, s, buf, count, timeout);
    r := if rv == 0 then ToInt32(count - resid) else -1;
  }

  // ---------------------------------------------------------------- st_writev

  /** st_writev looks for the first unsent byte from the start of the caller's array, and
      steps over empty entries too. */
  function Skip(v: seq<Iovec>, n: nat): Stop {
    if v == [] || n < v[0].len then Stop(0, n)
    else var s := Skip(v[1..], n - v[0].len); Stop(s.index + 1, s.into)
  }

  /** While a byte is unsent the scan stops inside the array, at that byte. */
  lemma {:induction false} SkipStopsInside(v: seq<Iovec>, n: nat)
    requires n < |Addrs(v)|
    ensures Skip(v, n).index < |v| && Skip(v, n).into < v[Skip(v, n).index].len
    ensures Residual(v, Rest(v, Skip(v, n)), n)
  {
    hide Addrs, Residual;
    if v == [] {
      AddrsOfNone();
    } else {
      SkipFirst(v);
      if n < v[0].len {
        ShortenFirst(v, n);
      } else {
        SkipStopsInside(v[1..], n - v[0].len);
        RestOfTail(v, Skip(v[1..], n - v[0].len));
        ResidualTrans(v, v[1..], Rest(v, Skip(v, n)), v[0].len, n - v[0].len);
      }
    }
  }

  lemma AddrsOfNone()
    ensures Addrs([]) == []
  {
  }

  /** Sending more never moves the first unsent entry back. */
  lemma {:induction false} SkipMonotone(v: seq<Iovec>, m: nat, n: nat)
    requires m <= n
    ensures Skip(v, m).index <= Skip(v, n).index
  {
    if v == [] || m < v[0].len {
    } else {
      SkipMonotone(v[1..], m - v[0].len, n - v[0].len);
    }
  }

  // ---------------------------------------------------------------- what st_writev comes to

  function BytesJob(count: nat): Job { Job(false, count, 0, count) }

  function FirstCount(replies: seq<Reply>): Option<nat> {
    if replies == [] then None else if replies[0].Moves? then Some(replies[0].most) else FirstCount(replies[1..])
  }

  /** The first write is partial and leaves more than the sixteen entries there is space for. */
  predicate NeedsMore(v: seq<Iovec>, heard: seq<Reply>) {
    var c := FirstCount(heard);
    c.Some? && c.value < |Addrs(v)| && |v| - Skip(v, c.value).index > 16
  }

  /** A single buffer is left to send, as a list of entries: all of them until something was
      written, and from then on those from the first unsent byte on. */
  predicate OneLeft(v: seq<Iovec>, heard: seq<Reply>, sent: nat) {
    if FirstCount(heard).None? then |v| == 1 else |v| - Skip(v, sent).index == 1
  }

  /** The result of st_writev and the number of bytes sent.  All is well if everything is sent, except
      that a last buffer of 2^31 bytes or more may be reported as a failure.  A socket that is not
      ready, with timeout zero, is reported by 0, but by -1 while a single buffer is left. */
  ghost predicate Told(v: seq<Iovec>, sc: Script, canAllocate: bool, rv: int, sent: int) {
    var job, total := BytesJob(|Addrs(v)|), |Addrs(v)|;
    var heard, final := Heard(job, sc), Final(job, sc);
    if !canAllocate && NeedsMore(v, heard) then rv == -1 && sent == FirstCount(heard).value
    else
      && sent == final
      && (Verdict(job, sc) == -1 ==> rv == -1)
      && (Verdict(job, sc) == 0 && final == total ==>
            rv == total || (rv == -1 && v != [] && v[|v| - 1].len >= 0x8000_0000))
      && (Verdict(job, sc) == 0 && final < total ==> rv == if OneLeft(v, heard, final) then -1 else 0)
  }

  /** With nleft bytes left and the rest of the script, st_writev goes on; `first`: nothing was
      written yet. */
  ghost predicate Gathering(v: seq<Iovec>, sc0: Script, canAllocate: bool, nleft: nat, sc: Script, first: bool) {
    var job0, total := BytesJob(|Addrs(v)|), |Addrs(v)|;
    && nleft <= total && Follows(job0, sc0, BytesJob(nleft), sc, total - nleft)
    && (if first then
          nleft == total && FirstCount(Heard(job0, sc0)) == FirstCount(Heard(BytesJob(nleft), sc))
        else
          FirstCount(Heard(job0, sc0)).Some? && (canAllocate || !NeedsMore(v, Heard(job0, sc0))))
  }

  lemma GatheringStarts(v: seq<Iovec>, sc: Script, canAllocate: bool)
    ensures Gathering(v, sc, canAllocate, |Addrs(v)|, sc, true)
  {
  }

  /** What FirstCount sees, one answer at a time. */
  lemma FirstHeard(job: Job, sc: Script)
    ensures sc.replies == [] ==> FirstCount(Heard(job, sc)) == None
    ensures sc.replies != [] && sc.replies[0].Moves? ==> FirstCount(Heard(job, sc)) == Some(sc.replies[0].most)
    ensures sc.replies != [] && !sc.replies[0].Moves? ==>
      FirstCount(Heard(job, sc)) == if Stops(job, sc, 0) then None else FirstCount(Heard(job.Next(sc.replies[0]), Tail(sc)))
  {
    if Stops(job, sc, 0) {
      EndsHere(job, sc);
    } else {
      HeardLater(job, sc);
    }
    hide Stops, Heard, Job.Next;
  }

  /** A round that is not a count: refused, interrupted, or not ready. */
  lemma QuietRound(v: seq<Iovec>, sc0: Script, canAllocate: bool, nleft: nat, sc: Script, first: bool)
    requires Gathering(v, sc0, canAllocate, nleft, sc, first) && 0 < nleft
    requires (if first then |v| else |v| - Skip(v, |Addrs(v)| - nleft).index) != 1
    requires sc.replies == [] || !sc.replies[0].Moves?
    ensures sc.replies == [] || sc.replies[0].Refused? ==> Told(v, sc0, canAllocate, -1, |Addrs(v)| - nleft)
    ensures sc.replies != [] && sc.replies[0].Interrupted? ==> Gathering(v, sc0, canAllocate, nleft, Tail(sc), first)
    ensures sc.replies != [] && sc.replies[0].NotReady? ==>
      if sc.timeout == 0 then Told(v, sc0, canAllocate, 0, |Addrs(v)| - nleft)
      else if sc.waits != [] && sc.waits[0] then Gathering(v, sc0, canAllocate, nleft, Tail(sc), first)
      else Told(v, sc0, canAllocate, -1, |Addrs(v)| - nleft)
  {
    hide Addrs, Verdict, Final, Heard, FirstCount, Skip, Ending;
    var job0, job := BytesJob(|Addrs(v)|), BytesJob(nleft);
    Iterate(job0, sc0, job, sc, |Addrs(v)| - nleft);
    FirstHeard(job, sc);
    assert sc.replies != [] ==> sc.replies[..0] == [];
  }

  /** A round that is a count. */
  lemma CountRound(v: seq<Iovec>, sc0: Script, canAllocate: bool, nleft: nat, sc: Script, first: bool, n: nat)
    requires Gathering(v, sc0, canAllocate, nleft, sc, first) && 0 < nleft
    requires sc.replies != [] && sc.replies[0].Moves? && n == Min(sc.replies[0].most, nleft)
    ensures n == nleft ==> Told(v, sc0, canAllocate, |Addrs(v)|, |Addrs(v)|)
    ensures n < nleft ==>
      var index := Skip(v, |Addrs(v)| - nleft + n).index;
      if first && |v| - index > 16 && !canAllocate then Told(v, sc0, canAllocate, -1, |Addrs(v)| - nleft + n)
      else if sc.waits != [] && sc.waits[0] then Gathering(v, sc0, canAllocate, nleft - n, Tail(sc), false)
      else Told(v, sc0, canAllocate, -1, |Addrs(v)| - nleft + n)
  {
    hide Addrs, Verdict, Final, Heard, FirstCount, Skip, Ending;
    var job0, job := BytesJob(|Addrs(v)|), BytesJob(nleft);
    Iterate(job0, sc0, job, sc, |Addrs(v)| - nleft);
    FirstHeard(job, sc);
    CompletesFirst(job, sc);
  }

  /** The single buffer that is left goes through st_write, whose result is r. */
  lemma LastRound(v: seq<Iovec>, sc0: Script, canAllocate: bool, nleft: nat, sc: Script, first: bool, r: int)
    requires Gathering(v, sc0, canAllocate, nleft, sc, first) && 0 < nleft
    requires (if first then |v| else |v| - Skip(v, |Addrs(v)| - nleft).index) == 1
    requires r == if Verdict(BytesJob(nleft), sc) == 0 then ToInt32(Final(BytesJob(nleft), sc)) else -1
    requires nleft >= 0x8000_0000 ==> v != [] && v[|v| - 1].len >= 0x8000_0000
    ensures Told(v, sc0, canAllocate, if r != nleft then -1 else |Addrs(v)|, |Addrs(v)| - nleft + Final(BytesJob(nleft), sc))
  {
    hide Addrs, Verdict, Heard, FirstCount, Skip, Ending, Residual;
    var sent := |Addrs(v)| - nleft + Final(BytesJob(nleft), sc);
    if sent < |Addrs(v)| {
      SkipStopsInside(v, sent);
      SkipMonotone(v, |Addrs(v)| - nleft, sent);
    }
    forall n: nat | n < |Addrs(v)| ensures Skip(v, n).index < |v| {
      SkipStopsInside(v, n);
    }
  }

  /** What st_write makes of the last buffer. */
  function LastResult(nleft: nat, sc: Script): int {
    if Verdict(BytesJob(nleft), sc) == 0 then ToInt32(Final(BytesJob(nleft), sc)) else -1
  }

  /** Any round, in terms of what the system call returned. */
  lemma Round(v: seq<Iovec>, sc0: Script, canAllocate: bool, nleft: nat, sc: Script, first: bool, o: Outcome)
    requires Gathering(v, sc0, canAllocate, nleft, sc, first) && 0 < nleft && o == Answer(sc.replies, nleft)
    requires (if first then |v| else |v| - Skip(v, |Addrs(v)| - nleft).index) != 1
    ensures o == Failed ==> Told(v, sc0, canAllocate, -1, |Addrs(v)| - nleft)
    ensures o == Eintr ==> Gathering(v, sc0, canAllocate, nleft, Script(Dropped(sc.replies), sc.waits, sc.timeout), first)
    ensures o == Eagain ==>
      if sc.timeout == 0 then Told(v, sc0, canAllocate, 0, |Addrs(v)| - nleft)
      else if sc.waits != [] && sc.waits[0] then
        Gathering(v, sc0, canAllocate, nleft, Script(Dropped(sc.replies), Dropped(sc.waits), sc.timeout), first)
      else Told(v, sc0, canAllocate, -1, |Addrs(v)| - nleft)
    ensures o == Count(nleft) ==> Told(v, sc0, canAllocate, |Addrs(v)|, |Addrs(v)|)
    ensures o.Count? && o.n < nleft ==>
      if first && |v| - Skip(v, |Addrs(v)| - nleft + o.n).index > 16 && !canAllocate then
        Told(v, sc0, canAllocate, -1, |Addrs(v)| - nleft + o.n)
      else if sc.waits != [] && sc.waits[0] then
        Gathering(v, sc0, canAllocate, nleft - o.n, Script(Dropped(sc.replies), Dropped(sc.waits), sc.timeout), false)
      else Told(v, sc0, canAllocate, -1, |Addrs(v)| - nleft + o.n)
  {
    hide Addrs, Skip, Told, Gathering;
    if sc.replies == [] || !sc.replies[0].Moves? {
      QuietRound(v, sc0, canAllocate, nleft, sc, first);
    } else {
      CountRound(v, sc0, canAllocate, nleft, sc, first, Min(sc.replies[0].most, nleft));
    }
  }

  method TotalBytes(iov: array<Iovec>, size: nat) returns (nbyte: nat)
    requires size <= iov.Length
    ensures nbyte == |Addrs(iov[..size])|
  {
    hide Addrs;
    nbyte := 0;
    AddrsOfNone();
    assert iov[..0] == [];
    for index := 0 to size
      invariant nbyte == |Addrs(iov[..index])|
    {
      assert iov[..index + 1] == iov[..index] + [iov[index]];
      AddrsConcat(iov[..index], [iov[index]]);
      AddrsOfOne([], iov[index]);
      nbyte := nbyte + iov[index].len;
    }
    assert iov[..size] == iov[..size];
  }

  method FindUnsent(iov: array<Iovec>, size: nat, done: nat) returns (index: nat, n: nat)
    requires size <= iov.Length && done < |Addrs(iov[..size])|
    ensures Stop(index, n) == Skip(iov[..size], done)
    ensures index < size && n < iov[index].len
  {
    hide Addrs, Residual;
    ghost var v := iov[..size];
    SkipStopsInside(v, done);
    index, n := 0, done;
    assert v[0..] == v;
    while n >= iov[index].len
      invariant index < size
      invariant Skip(v, done) == Stop(Skip(v[index..], n).index + index, Skip(v[index..], n).into)
      decreases size - index
    {
      assert v[index..][1..] == v[index + 1..];
      n := n - iov[index].len;
      index := index + 1;
    }
  }

  /** Copies the unsent iovecs, the first one shortened. */
  method CopyUnsent(iov: array<Iovec>, size: nat, index: nat, n: nat, tmp: array<Iovec>) returns (cnt: nat)
    requires index < size <= iov.Length && n <= iov[index].len
    requires tmp != iov && size - index <= tmp.Length
    modifies tmp
    ensures 0 < cnt == size - index
    ensures tmp[..cnt] == Rest(iov[..size], Stop(index, n))
    ensures tmp[0].len == iov[index].len - n
  {
    tmp[0] := Iovec(iov[index].base + n, iov[index].len - n);
    cnt := 1;
    var i := index + 1;
    while i < size
      invariant index < i <= size && cnt == i - index
      invariant tmp[0] == Iovec(iov[index].base + n, iov[index].len - n)
      invariant forall k :: 1 <= k < cnt ==> tmp[k] == iov[index + k]
    {
      tmp[cnt] := iov[i];
      cnt, i := cnt + 1, i + 1;
    }
    assert tmp[1..cnt] == iov[..size][index + 1..];
    assert tmp[..cnt] == [tmp[0]] + tmp[1..cnt];
  }

  /** After a partial write the unsent iovecs are copied to a working array, which is chosen
      the first time round: sixteen entries on the stack, or as many as are unsent. */
  method CopyRest(iov: array<Iovec>, size: nat, done: nat, old_tmp: array<Iovec>, canAllocate: bool)
    returns (ok: bool, tmp: array<Iovec>, cnt: nat)
    requires size <= iov.Length && done < |Addrs(iov[..size])|
    requires old_tmp != iov ==> size - Skip(iov[..size], done).index <= old_tmp.Length
    modifies if old_tmp != iov then {old_tmp} else {}
    ensures iov[..] == old(iov[..])
    ensures tmp == old_tmp != iov || fresh(tmp) || (!ok && tmp == iov)
    ensures ok ==> cnt == size - Skip(iov[..size], done).index <= tmp.Length
    ensures ok ==> tmp[..cnt] == Rest(iov[..size], Skip(iov[..size], done))
    ensures ok && cnt == 1 ==> tmp[0].len <= iov[size - 1].len
    ensures ok <==> canAllocate || old_tmp != iov || size - Skip(iov[..size], done).index <= 16
  {
    hide Addrs, Rest, Skip;
    var index, into := FindUnsent(iov, size, done);
    ok, tmp, cnt := true, old_tmp, 0;
    if tmp == iov {
      if size - index <= LOCAL_MAXIOV {
        tmp := new Iovec[LOCAL_MAXIOV];
      } else if canAllocate {
        tmp := new Iovec[size - index];
      } else {
        ok := false;
        return;
      }
    }
    cnt := CopyUnsent(iov, size, index, into, tmp);
  }

  /** The bytes a list of iovecs has left are within its buffers. */
  lemma RestInBounds(v: seq<Iovec>, s: Stop, size: nat)
    requires InBounds(v, size)
    ensures InBounds(Rest(v, s), size)
  {
  }

  /** The kernel took a prefix of the bytes that v names. */
  ghost predicate SentFront(mem: seq<Byte>, v: seq<Iovec>, before: seq<Byte>, after: seq<Byte>)
    requires InBounds(v, |mem|)
  {
    && |before| <= |after| <= |before| + |Addrs(v)|
    && after == before + Gather(mem, v)[..|after| - |before|]
  }

  lemma SentAll(mem: seq<Byte>, v: seq<Iovec>, before: seq<Byte>, after: seq<Byte>)
    requires InBounds(v, |mem|) && SentFront(mem, v, before, after)
    ensures |after| <= |before| + |Addrs(v)|
    ensures |after| == |before| + |Addrs(v)| ==> after == before + Gather(mem, v)
  {
    AddrsInBounds(v, |mem|);
  }

  lemma SentMore(mem: seq<Byte>, v: seq<Iovec>, w: seq<Iovec>, s0: seq<Byte>, s1: seq<Byte>, s2: seq<Byte>)
    requires InBounds(v, |mem|) && InBounds(w, |mem|)
    requires Taken(mem, v, w, s0, s1) && SentFront(mem, w, s1, s2)
    ensures SentFront(mem, v, s0, s2)
    ensures |Addrs(w)| == |Addrs(v)| - (|s1| - |s0|)
  {
    GatherRest(mem, v, w, |s1| - |s0|);
    hide Addrs, Gather, InBounds;
    FrontSplit(Gather(mem, v), |s1| - |s0|, |s2| - |s0|);
  }

  /** After a partial write, what is copied for the next one is exactly what v has left. */
  lemma TakenByStop(mem: seq<Byte>, v: seq<Iovec>, before: seq<Byte>, after: seq<Byte>)
    requires InBounds(v, |mem|) && SentFront(mem, v, before, after) && |after| - |before| < |Addrs(v)|
    ensures Taken(mem, v, Rest(v, Skip(v, |after| - |before|)), before, after)
    ensures |Addrs(Rest(v, Skip(v, |after| - |before|)))| == |Addrs(v)| - (|after| - |before|)
    ensures InBounds(Rest(v, Skip(v, |after| - |before|)), |mem|)
  {
    SkipStopsInside(v, |after| - |before|);
    RestInBounds(v, Skip(v, |after| - |before|), |mem|);
  }

  /** The single remaining buffer goes through st_write. */
  method SendLast(mem: seq<Byte>, s: Socket, w: Iovec, timeout: int) returns (r: int)
    requires InBounds([w], |mem|)
    modifies s
    ensures SentFront(mem, [w], old(s.sent), s.sent)
    ensures r == w.len && w.len > 0 ==> |s.sent| == |old(s.sent)| + w.len
    ensures |s.sent| == |old(s.sent)| + w.len && 0 < w.len < 0x8000_0000 ==> r == w.len
    ensures w.len > 0 ==>
      var job, sc := BytesJob(w.len), Script(old(s.replies), old(s.waits), timeout);
      && |s.sent| == |old(s.sent)| + Final(job, sc)
      && r == if Verdict(job, sc) == 0 then ToInt32(Final(job, sc)) else -1
  {
    hide Verdict, Final;
    AddrsOfOne(mem, w);
    assert [w][0] == w;
    r := StWrite(mem, s, w.base, w.len, timeout);
  }

  /** The working iovecs w are within memory and are what the caller's iovecs v have left. */
  ghost predicate Unsent(mem: seq<Byte>, v: seq<Iovec>, w: seq<Iovec>, before: seq<Byte>, after: seq<Byte>) {
    && InBounds(v, |mem|) && InBounds(w, |mem|)
    && Taken(mem, v, w, before, after)
    && |Addrs(w)| == |Addrs(v)| - (|after| - |before|)
    && SentFront(mem, v, before, after)
  }

  /** The end of the loop, once a single buffer is left: the result is the full byte count or -1. */
  method SendFinal(mem: seq<Byte>, s: Socket, ghost v: seq<Iovec>, w: Iovec, ghost sent0: seq<Byte>, nbyte: nat, nleft: nat,
                   timeout: int)
    returns (rv: int)
    requires InBounds(v, |mem|) && nbyte == |Addrs(v)| && 0 < nleft == nbyte - (|s.sent| - |sent0|) <= nbyte
    requires Unsent(mem, v, [w], sent0, s.sent)
    modifies s
    ensures SentFront(mem, v, sent0, s.sent)
    ensures rv == -1 || rv == nbyte
    ensures rv == nbyte ==> |s.sent| == |sent0| + nbyte
    ensures |s.sent| == |sent0| + nbyte && w.len < 0x8000_0000 ==> rv == nbyte
    ensures var job, sc := BytesJob(nleft), Script(old(s.replies), old(s.waits), timeout);
      var r := if Verdict(job, sc) == 0 then ToInt32(Final(job, sc)) else -1;
      |s.sent| == |old(s.sent)| + Final(job, sc) && rv == if r != nleft then -1 else nbyte
  {
    hide Addrs, Residual, InBounds, Taken, SentFront, Gather, Verdict, Final, ToInt32;
    ghost var sent1 := s.sent;
    AddrsOfOne(mem, w);
    var r := SendLast(mem, s, w, timeout);
    SentMore(mem, v, [w], sent0, sent1, s.sent);
    rv := if r != nleft then -1 else nbyte;
  }

  /** One writev of the loop; a partial write is followed by copying what is left. */
  method SendRound(mem: seq<Byte>, s: Socket, iov: array<Iovec>, size: nat, ghost sent0: seq<Byte>, nbyte: nat,
                   nleft: nat, old_tmp: array<Iovec>, old_cnt: nat, canAllocate: bool)
    returns (o: Outcome, ok: bool, tmp: array<Iovec>, cnt: nat)
    requires size <= iov.Length && old_cnt <= old_tmp.Length
    requires nbyte == |Addrs(iov[..size])| && 0 < nleft == nbyte - (|s.sent| - |sent0|) <= nbyte
    requires Unsent(mem, iov[..size], old_tmp[..old_cnt], sent0, s.sent)
    requires old_tmp != iov ==> size - Skip(iov[..size], nbyte - nleft).index <= old_tmp.Length
    modifies s`replies, s`sent, if old_tmp != iov then {old_tmp} else {}
    ensures o == Answer(old(s.replies), nleft) && s.replies == Dropped(old(s.replies))
    ensures iov[..] == old(iov[..])
    ensures SentFront(mem, iov[..size], sent0, s.sent)
    ensures o.Count? ==> o.n <= nleft && |s.sent| == |old(s.sent)| + o.n && (o.n == nleft ==> ok)
    ensures o.Count? && o.n < nleft ==>
      (ok <==> canAllocate || old_tmp != iov || size - Skip(iov[..size], nbyte - nleft + o.n).index <= 16)
    ensures !o.Count? ==> s.sent == old(s.sent) && ok && tmp == old_tmp && cnt == old_cnt && tmp[..] == old(old_tmp[..])
    ensures o.Count? && o.n < nleft && ok ==>
      && tmp != iov && (tmp == old_tmp || fresh(tmp))
      && cnt == size - Skip(iov[..size], nbyte - nleft + o.n).index <= tmp.Length
      && Unsent(mem, iov[..size], tmp[..cnt], sent0, s.sent)
      && (cnt == 1 ==> size > 0 && tmp[0].len <= iov[size - 1].len)
  {
    hide Addrs, Residual, InBounds, Taken, SentFront, Gather, Rest, Skip, Answer;
    ok, tmp, cnt := true, old_tmp, old_cnt;
    ghost var v, w, sent1 := iov[..size], tmp[..cnt], s.sent;
    o := s.Write(mem, tmp[..cnt]);
    if o.Count? {
      SentByWrite(mem, w, sent1, s.sent, o.n);
      SentMore(mem, v, w, sent0, sent1, s.sent);
      if o.n < nleft {
        SkipMonotone(v, nbyte - nleft, nbyte - nleft + o.n);
        TakenByStop(mem, v, sent0, s.sent);
        ok, tmp, cnt := CopyRest(iov, size, nbyte - nleft + o.n, tmp, canAllocate);
      }
    }
  }

  /** Sends the buffers of a list of iovecs.  What the kernel accepted is a prefix of their
      concatenation, each byte once and in order, and the result is the full byte count
      only if that prefix is everything.  The caller's iovecs are not in the frame.  The
      allocation of a larger working array may fail. */
  method StWritev(mem: seq<Byte>, s: Socket, iov: array<Iovec>, size: nat, timeout: int, canAllocate: bool)
    returns (rv: int)
    requires size <= iov.Length && InBounds(iov[..size], |mem|)
    modifies s
    ensures SentFront(mem, iov[..size], old(s.sent), s.sent)
    ensures rv == -1 || (rv == 0 && timeout == 0) || rv == |Addrs(iov[..size])|
    ensures rv == |Addrs(iov[..size])| ==> s.sent == old(s.sent) + Gather(mem, iov[..size])
    ensures |s.sent| == |old(s.sent)| + |Addrs(iov[..size])| && (size > 0 ==> iov[size - 1].len < 0x8000_0000)
      ==> rv == |Addrs(iov[..size])|
    ensures |Addrs(iov[..size])| == 0 ==> rv == 0 && s.sent == old(s.sent)
    ensures |Addrs(iov[..size])| > 0 ==>
      Told(iov[..size], Script(old(s.replies), old(s.waits), timeout), canAllocate, rv, |s.sent| - |old(s.sent)|)
  {
    ghost var v, sent0, sc0 := iov[..size], s.sent, Script(s.replies, s.waits, timeout);
    hide Addrs, InBounds, SentFront, Gather, Told, Looping;
    SentNone(mem, v, s.sent);
    var nbyte := TotalBytes(iov, size);
    rv := nbyte;
    var nleft: nat, tmp, cnt: nat := nbyte, iov, size;
    LoopingStarts(mem, v, s.sent, sc0, canAllocate);
    var more := nleft > 0;
    while more
      invariant nbyte == 0 ==> !more && rv == 0 && s.sent == sent0
      invariant more ==> rv == nbyte && nleft > 0 && cnt <= tmp.Length && (tmp != iov ==> fresh(tmp))
      invariant more ==>
        Looping(mem, v, sent0, s.sent, sc0, canAllocate, nleft, tmp[..cnt], Script(s.replies, s.waits, timeout), tmp == iov)
      invariant !more ==> SentFront(mem, v, sent0, s.sent) && (nbyte > 0 ==> Told(v, sc0, canAllocate, rv, |s.sent| - |sent0|))
      decreases more, |s.replies|
    {
      more, rv, nleft, tmp, cnt := WriteOnce(mem, s, iov, size, sent0, sc0, nbyte, nleft, tmp, cnt, timeout, canAllocate);
    }
    if nbyte > 0 {
      ToldMeans(v, sc0, canAllocate, rv, |s.sent| - |sent0|);
    }
    SentAll(mem, v, sent0, s.sent);
  }

  /** One round of the loop; `more`: it goes on. */
  method WriteOnce(mem: seq<Byte>, s: Socket, iov: array<Iovec>, size: nat, ghost sent0: seq<Byte>, ghost sc0: Script,
                   nbyte: nat, nleft: nat, old_tmp: array<Iovec>, old_cnt: nat, timeout: int, canAllocate: bool)
    returns (more: bool, rv: int, nleft': nat, tmp: array<Iovec>, cnt: nat)
    requires size <= iov.Length && old_cnt <= old_tmp.Length && nbyte == |Addrs(iov[..size])| && 0 < nleft
    requires Looping(mem, iov[..size], sent0, s.sent, sc0, canAllocate, nleft, old_tmp[..old_cnt],
                     Script(s.replies, s.waits, timeout), old_tmp == iov)
    modifies s, if old_tmp != iov then {old_tmp} else {}
    ensures iov[..] == old(iov[..])
    ensures more ==> rv == nbyte && nleft' > 0 && |s.replies| < |old(s.replies)|
    ensures more ==> cnt <= tmp.Length && (tmp == old_tmp || fresh(tmp))
    ensures more ==> Looping(mem, iov[..size], sent0, s.sent, sc0, canAllocate, nleft', tmp[..cnt],
                             Script(s.replies, s.waits, timeout), tmp == iov)
    ensures !more ==> Told(iov[..size], sc0, canAllocate, rv, |s.sent| - |sent0|)
    ensures InBounds(iov[..size], |mem|) && (!more ==> SentFront(mem, iov[..size], sent0, s.sent))
  {
    hide Addrs, Residual, InBounds, Taken, SentFront, Gather, Rest, Skip, Told, Gathering, Verdict, Final, Answer, ToInt32, Unsent, Looping;
    ghost var v, sc, first, w := iov[..size], Script(s.replies, s.waits, timeout), old_tmp == iov, old_tmp[..old_cnt];
    LoopingIs(mem, v, sent0, s.sent, sc0, canAllocate, nleft, w, sc, first);
    more, rv, nleft', tmp, cnt := false, nbyte, nleft, old_tmp, old_cnt;
    if cnt == 1 {
      assert tmp[..cnt] == [tmp[0]];
      SingleLeft(mem, v, tmp[0], sent0, s.sent);
      rv := SendFinal(mem, s, v, tmp[0], sent0, nbyte, nleft, timeout);
      LastRound(v, sc0, canAllocate, nleft, sc, first, LastResult(nleft, sc));
      return;
    }
    var o, ok;
    o, ok, tmp, cnt := SendRound(mem, s, iov, size, sent0, nbyte, nleft, tmp, cnt, canAllocate);
    Round(v, sc0, canAllocate, nleft, sc, first, o);
    SentLess(o, sc, nleft);
    if o == Eintr {
      assert tmp[..cnt] == w;
      LoopingNow(mem, v, sent0, s.sent, sc0, canAllocate, nleft', tmp[..cnt], Script(s.replies, s.waits, timeout), first);
      return true, rv, nleft', tmp, cnt;
    }
    if o == Failed || !ok {
      return false, -1, nleft', tmp, cnt;
    }
    if o == Eagain && timeout == 0 {
      return false, 0, nleft', tmp, cnt;
    }
    if o.Count? {
      if o.n == nleft {
        return;
      }
      nleft' := nleft - o.n;
    } else {
      assert tmp[..cnt] == w;
    }
    var ready := s.Poll();
    if !ready {
      return false, -1, nleft', tmp, cnt;
    }
    LoopingNow(mem, v, sent0, s.sent, sc0, canAllocate, nleft', tmp[..cnt], Script(s.replies, s.waits, timeout), tmp == iov);
    more := true;
  }

  /** The loop of st_writev with nleft bytes left: the working entries are w. */
  ghost predicate Looping(mem: seq<Byte>, v: seq<Iovec>, sent0: seq<Byte>, sent: seq<Byte>, sc0: Script, canAllocate: bool,
                          nleft: nat, w: seq<Iovec>, sc: Script, first: bool) {
    && Gathering(v, sc0, canAllocate, nleft, sc, first)
    && Unsent(mem, v, w, sent0, sent) && nleft == |Addrs(v)| - (|sent| - |sent0|) <= |Addrs(v)|
    && |w| == (if first then |v| else |v| - Skip(v, |Addrs(v)| - nleft).index)
    && (|w| == 1 ==> v != [] && w[0].len <= v[|v| - 1].len)
  }

  lemma LoopingStarts(mem: seq<Byte>, v: seq<Iovec>, sent: seq<Byte>, sc: Script, canAllocate: bool)
    requires InBounds(v, |mem|)
    ensures Looping(mem, v, sent, sent, sc, canAllocate, |Addrs(v)|, v, sc, true)
  {
    GatheringStarts(v, sc, canAllocate);
    SentNone(mem, v, sent);
    TakenRefl(mem, v, sent);
    hide Gathering, Taken, SentFront, InBounds, Addrs;
  }

  lemma LoopingIs(mem: seq<Byte>, v: seq<Iovec>, sent0: seq<Byte>, sent: seq<Byte>, sc0: Script, canAllocate: bool,
                  nleft: nat, w: seq<Iovec>, sc: Script, first: bool)
    requires Looping(mem, v, sent0, sent, sc0, canAllocate, nleft, w, sc, first)
    ensures Gathering(v, sc0, canAllocate, nleft, sc, first) && InBounds(v, |mem|) && SentFront(mem, v, sent0, sent)
    ensures Unsent(mem, v, w, sent0, sent) && nleft == |Addrs(v)| - (|sent| - |sent0|) <= |Addrs(v)|
    ensures |w| == (if first then |v| else |v| - Skip(v, |Addrs(v)| - nleft).index)
    ensures |w| == 1 ==> v != [] && w[0].len <= v[|v| - 1].len
  {
  }

  lemma LoopingNow(mem: seq<Byte>, v: seq<Iovec>, sent0: seq<Byte>, sent: seq<Byte>, sc0: Script, canAllocate: bool,
                   nleft: nat, w: seq<Iovec>, sc: Script, first: bool)
    requires Gathering(v, sc0, canAllocate, nleft, sc, first)
    requires Unsent(mem, v, w, sent0, sent) && nleft == |Addrs(v)| - (|sent| - |sent0|) <= |Addrs(v)|
    requires |w| == (if first then |v| else |v| - Skip(v, |Addrs(v)| - nleft).index)
    requires |w| == 1 ==> v != [] && w[0].len <= v[|v| - 1].len
    ensures Looping(mem, v, sent0, sent, sc0, canAllocate, nleft, w, sc, first)
  {
  }

  lemma SentLess(o: Outcome, sc: Script, nleft: nat)
    requires o == Answer(sc.replies, nleft)
    ensures o != Failed ==> sc.replies != [] && |Dropped(sc.replies)| < |sc.replies|
    ensures o.Count? ==> o.n <= nleft
  {
  }

  /** What the result tells. */
  lemma ToldMeans(v: seq<Iovec>, sc: Script, canAllocate: bool, rv: int, sent: int)
    requires |Addrs(v)| > 0 && Told(v, sc, canAllocate, rv, sent)
    ensures rv == -1 || (rv == 0 && sc.timeout == 0) || rv == |Addrs(v)|
    ensures rv == |Addrs(v)| ==> sent == |Addrs(v)|
    ensures sent == |Addrs(v)| && (v == [] || v[|v| - 1].len < 0x8000_0000) ==> rv == |Addrs(v)|
  {
    WriteVerdict(BytesJob(|Addrs(v)|), sc);
    hide Addrs, Verdict, Final, Heard, FirstCount, Skip, Ending, Waited;
  }

  lemma SentNone(mem: seq<Byte>, v: seq<Iovec>, sent: seq<Byte>)
    requires InBounds(v, |mem|)
    ensures SentFront(mem, v, sent, sent)
  {
  }

  lemma SingleLeft(mem: seq<Byte>, v: seq<Iovec>, w: Iovec, before: seq<Byte>, after: seq<Byte>)
    requires Unsent(mem, v, [w], before, after)
    ensures InBounds(v, |mem|) && w.len == |Addrs(v)| - (|after| - |before|)
  {
    AddrsOfOne(mem, w);
  }

  lemma SentByWrite(mem: seq<Byte>, w: seq<Iovec>, before: seq<Byte>, after: seq<Byte>, n: nat)
    requires InBounds(w, |mem|) && n <= |Addrs(w)|
    requires after == before + Gather(mem, w)[..n]
    ensures SentFront(mem, w, before, after) && |after| == |before| + n
  {
    AddrsInBounds(w, |mem|);
  }

  // ---------------------------------------------------------------- st_readv_resid

  /** Two deliveries in a row, the second into what the first left unfilled, are one. */
  lemma DeliveredTrans(m0: seq<Byte>, m1: seq<Byte>, m2: seq<Byte>, a: seq<nat>, stream: seq<Byte>, j: nat, k: nat)
    requires j <= |a| && j <= |stream|
    requires Delivered(m1, m0, a, stream, j) && Delivered(m2, m1, a[j..], stream[j..], k)
    ensures Delivered(m2, m0, a, stream, j + k)
  {
    assert forall x :: x in a[..j + k] <==> x in a[..j] || x in a[j..][..k] by {
      assert a[..j + k] == a[..j] + a[j..][..k];
    }
    if Distinct(a) {
      forall i | 0 <= i < j + k ensures m2[a[i]] == stream[i] {
        if i < j {
          assert a[i] !in a[j..][..k];
        } else {
          assert a[j..][i - j] == a[i];
        }
      }
    }
  }

  /** Reading step: memory, stream and residual iovecs all moved by the same n bytes. */
  ghost predicate Filled(m0: seq<Byte>, m1: seq<Byte>, v: seq<Iovec>, w: seq<Iovec>, stream: seq<Byte>, rest: seq<Byte>) {
    && |rest| <= |stream|
    && Residual(v, w, |stream| - |rest|)
    && Delivered(m1, m0, Addrs(v), stream, |stream| - |rest|)
    && rest == stream[|stream| - |rest|..]
  }

  lemma FilledTrans(m0: seq<Byte>, m1: seq<Byte>, m2: seq<Byte>, u: seq<Iovec>, v: seq<Iovec>, w: seq<Iovec>,
                    s0: seq<Byte>, s1: seq<Byte>, s2: seq<Byte>)
    requires Filled(m0, m1, u, v, s0, s1) && Filled(m1, m2, v, w, s1, s2)
    ensures Filled(m0, m2, u, w, s0, s2)
  {
    ResidualTrans(u, v, w, |s0| - |s1|, |s1| - |s2|);
    DeliveredTrans(m0, m1, m2, Addrs(u), s0, |s0| - |s1|, |s1| - |s2|);
  }

  lemma FilledRefl(m: seq<Byte>, v: seq<Iovec>, stream: seq<Byte>)
    requires InBounds(v, |m|)
    ensures Filled(m, m, v, v, stream, stream)
  {
    AddrsInBounds(v, |m|);
  }

  ghost function ReadJob(v: seq<Iovec>, available: nat): Job {
    Job(true, |Addrs(v)|, Empties(v), available)
  }

  /** The state of the loop of st_readv_resid: memory has gone from m0 to m1, the array from a0 to
      a1, `*iov` from start to cur, and the stream from s0 to s1. */
  ghost predicate Reading(m0: seq<Byte>, m1: seq<Byte>, a0: seq<Iovec>, a1: seq<Iovec>, start: nat, cur: nat, end: nat,
                          s0: seq<Byte>, s1: seq<Byte>) {
    && start <= cur <= end <= |a0| == |a1| && |m1| == |m0|
    && InBounds(a0[start..end], |m0|) && InBounds(a1[cur..end], |m1|)
    && Filled(m0, m1, a0[start..end], a1[cur..end], s0, s1)
    && Moved(a0, a1, start, cur, end)
  }

  lemma ReadingStarts(m: seq<Byte>, a: seq<Iovec>, start: nat, end: nat, stream: seq<Byte>)
    requires start <= end <= |a| && InBounds(a[start..end], |m|)
    ensures Reading(m, m, a, a, start, start, end, stream, stream)
  {
    FilledRefl(m, a[start..end], stream);
  }

  lemma ReadingSlices(m0: seq<Byte>, m1: seq<Byte>, a0: seq<Iovec>, a1: seq<Iovec>, start: nat, cur: nat, end: nat,
                      s0: seq<Byte>, s1: seq<Byte>)
    requires Reading(m0, m1, a0, a1, start, cur, end, s0, s1)
    ensures start <= cur <= end <= |a0| == |a1| && |m1| == |m0|
    ensures InBounds(a0[start..end], |m0|) && InBounds(a1[cur..end], |m1|)
    ensures Filled(m0, m1, a0[start..end], a1[cur..end], s0, s1) && Moved(a0, a1, start, cur, end)
  {
  }

  lemma ReadingGoesOn(m0: seq<Byte>, m1: seq<Byte>, m2: seq<Byte>, a0: seq<Iovec>, a1: seq<Iovec>, a2: seq<Iovec>,
                      start: nat, mid: nat, cur: nat, end: nat, s0: seq<Byte>, s1: seq<Byte>, s2: seq<Byte>)
    requires Reading(m0, m1, a0, a1, start, mid, end, s0, s1) && Reading(m1, m2, a1, a2, mid, cur, end, s1, s2)
    ensures Reading(m0, m2, a0, a2, start, cur, end, s0, s2)
  {
    hide Addrs, Residual, InBounds, Delivered, Filled, Moved;
    MovedTrans(a0, a1, a2, start, mid, cur, end);
    FilledTrans(m0, m1, m2, a0[start..end], a1[mid..end], a2[cur..end], s0, s1, s2);
  }

  /** A read of n bytes, and the advance over them. */
  lemma AdvanceReads(m0: seq<Byte>, m1: seq<Byte>, a0: seq<Iovec>, a1: seq<Iovec>, start: nat, cur: nat, end: nat,
                     s0: seq<Byte>, s1: seq<Byte>, n: nat)
    requires start <= cur <= end <= |a0| == |a1| && InBounds(a0[start..end], |m0|)
    requires Residual(a0[start..end], a1[cur..end], n)
    requires forall k :: 0 <= k < |a0| && k != cur ==>
      a1[k] == if start <= k < cur then Iovec(a0[k].base + a0[k].len, 0) else a0[k]
    requires cur < end ==> a1[cur].base + a1[cur].len == a0[cur].base + a0[cur].len
    requires cur == start < end ==> a1[start].len > 0
    requires Delivered(m1, m0, Addrs(a0[start..end]), s0, n) && s1 == s0[n..]
    ensures Reading(m0, m1, a0, a1, start, cur, end, s0, s1)
  {
    hide Addrs, Residual;
    assert forall k :: start <= k < end ==> a0[start..end][k - start] == a0[k];
  }

  method ReceiveSome(mem: Memory, s: Socket, a: array<Iovec>, start: nat, size: nat)
    returns (o: Outcome, start': nat, size': nat)
    requires 0 < size && start + size <= a.Length && InBounds(a[start..start + size], |mem.bytes|)
    modifies s`replies, s`incoming, a, mem
    ensures o == Answer(old(s.replies), Min(|Addrs(old(a[start..start + size]))|, |old(s.incoming)|))
    ensures s.replies == Dropped(old(s.replies))
    ensures start' + size' == start + size && start <= start'
    ensures Reading(old(mem.bytes), mem.bytes, old(a[..]), a[..], start, start', start + size, old(s.incoming), s.incoming)
    ensures old(s.replies) != [] && o != Count(0) ==>
      ReadJob(a[start'..start' + size'], |s.incoming|) == ReadJob(old(a[start..start + size]), |old(s.incoming)|).Next(old(s.replies)[0])
    ensures o == Count(0) || !o.Count? ==> |s.incoming| == |old(s.incoming)|
    ensures size' == 0 <==> |Addrs(a[start'..start' + size'])| == 0 && Empties(a[start'..start' + size']) == 0
    ensures size' == 0 ==> o.Count? && o.n > 0
  {
    hide Addrs, Residual, Empties, Rest, Scan, ReadJob, Job.Next, Answer, Delivered, Reading, InBounds;
    start', size' := start, size;
    ghost var a0, v, m0, s0 := a[..], a[start..start + size], mem.bytes, s.incoming;
    assert a0[start..start + size] == v;
    ReadingStarts(m0, a0, start, start + size, s0);
    o := s.Read(mem, a[start..start + size]);
    SameLength(m0, mem.bytes, Addrs(v), s0, o);
    if o.Count? && o.n > 0 {
      start', size' := Advance(a, start, size, o.n);
      AdvanceReads(m0, mem.bytes, a0, a[..], start, start', start + size, s0, s.incoming, o.n);
      assert a[..][start'..start + size] == a[start'..start' + size'];
    } else {
      assert a[..] == a0 && mem.bytes == m0 && s.incoming == s0;
    }
    NothingLeft(a[start'..start' + size']);
    if old(s.replies) != [] && o != Count(0) {
      ReadNext(v, a[start'..start' + size'], old(s.replies), |s0|, |s.incoming|);
    }
  }

  lemma SameLength(m0: seq<Byte>, m1: seq<Byte>, a: seq<nat>, stream: seq<Byte>, o: Outcome)
    ensures o.Count? && Delivered(m1, m0, a, stream, o.n) ==>
      |m1| == |m0| && o.n <= |a| && o.n <= |stream| && (o.n == 0 ==> m1 == m0 && stream[o.n..] == stream)
  {
    if o.Count? && Delivered(m1, m0, a, stream, o.n) && o.n == 0 {
      assert forall x :: 0 <= x < |m0| ==> x !in a[..0];
    }
  }

  /** A read of some bytes, and the advance after it, are one answer to the job. */
  lemma ReadNext(v: seq<Iovec>, w: seq<Iovec>, replies: seq<Reply>, before: nat, after: nat)
    requires v != [] && replies != []
    requires var o := Answer(replies, Min(|Addrs(v)|, before));
      if o.Count? then o.n > 0 && w == Rest(v, Scan(v, o.n)) && after == before - o.n else w == v && after == before
    ensures ReadJob(w, after) == ReadJob(v, before).Next(replies[0])
  {
    hide Addrs, Rest, Scan;
    var o := Answer(replies, Min(|Addrs(v)|, before));
    if o.Count? {
      EmptiesLeft(v, o.n);
      ScanStopsInside(v, o.n);
      LeftOver(v, w, o.n);
    }
  }

  /** What ReceiveSome has done, in terms of the job. */
  lemma ReadIs(v: seq<Iovec>, before: nat, sc: Script, o: Outcome, w: seq<Iovec>, after: nat)
    requires o == Answer(sc.replies, Min(|Addrs(v)|, before))
    requires sc.replies != [] && o != Count(0) ==> ReadJob(w, after) == ReadJob(v, before).Next(sc.replies[0])
    requires o == Count(0) || !o.Count? ==> after == before
    ensures o == Failed <==> sc.replies == [] || sc.replies[0].Refused?
    ensures o != Failed ==> before - after == ReadJob(v, before).bytes - ReadJob(v, before).Next(sc.replies[0]).bytes
    ensures o == Eintr <==> sc.replies != [] && sc.replies[0].Interrupted?
    ensures o == Eagain <==> sc.replies != [] && sc.replies[0].NotReady?
    ensures sc.replies != [] ==>
      (Completes(ReadJob(v, before), sc, 0) <==> o.Count? && (o.n == 0 || (|Addrs(w)| == 0 && Empties(w) == 0)))
    ensures sc.replies != [] ==>
      Tail(sc).replies == Dropped(sc.replies) && Tail(sc).waits == if o.Count? || o.Eagain? then Dropped(sc.waits) else sc.waits
  {
    hide Addrs, Empties;
    if sc.replies != [] {
      CompletesFirst(ReadJob(v, before), sc);
    }
  }

  /** Fills the buffers from the stream until they are full, the stream ends, or nothing
      more can be had.  In every case memory holds a prefix of the stream at the front of
      the concatenated buffers, the rest of memory is untouched, and the residual iovecs
      name exactly the unfilled addresses. */
  method StReadvResid(mem: Memory, s: Socket, a: array<Iovec>, start: nat, size: nat, timeout: int)
    returns (rv: int, start': nat, size': nat)
    requires start + size <= a.Length && InBounds(a[start..start + size], |mem.bytes|)
    modifies s, a, mem
    ensures start' + size' == start + size && start <= start'
    ensures |mem.bytes| == |old(mem.bytes)|
    ensures Filled(old(mem.bytes), mem.bytes, old(a[start..start + size]), a[start'..start' + size'], old(s.incoming), s.incoming)
    ensures size == 0 ==> rv == 0 && s.incoming == old(s.incoming)
    ensures size > 0 ==>
      var job := ReadJob(old(a[start..start + size]), |old(s.incoming)|);
      var sc := Script(old(s.replies), old(s.waits), timeout);
      rv == Verdict(job, sc) && |old(s.incoming)| - |s.incoming| == Final(job, sc)
    ensures rv == 0 || rv == -1
    ensures size' == 0 ==> rv == 0
    ensures Moved(old(a[..]), a[..], start, start', start + size)
  {
    ghost var a0, m0, s0 := a[..], mem.bytes, s.incoming;
    ghost var job0, sc0 := ReadJob(a[start..start + size], |s.incoming|), Script(s.replies, s.waits, timeout);
    assert a0[start..start + size] == a[start..start + size];
    ReadingStarts(m0, a0, start, start + size, s0);
    FollowsStart(job0, sc0);
    hide Addrs, Residual, InBounds, Delivered, Filled, Moved, Reading, ReadJob, Verdict, Final, Follows, Empties;
    rv, start', size' := 0, start, size;
    var more := size' > 0;
    while more
      invariant start' + size' == start + size && start <= start' && (rv == 0 || rv == -1) && (size' == 0 ==> rv == 0)
      invariant Reading(m0, mem.bytes, a0, a[..], start, start', start + size, s0, s.incoming)
      invariant size == 0 ==> rv == 0 && !more && s.incoming == s0
      invariant more ==> size' > 0
      invariant more ==>
        Follows(job0, sc0, ReadJob(a[start'..start' + size'], |s.incoming|), Script(s.replies, s.waits, timeout), |s0| - |s.incoming|)
      invariant size > 0 && !more ==> rv == Verdict(job0, sc0) && |s0| - |s.incoming| == Final(job0, sc0)
      decreases more, |s.replies|
    {
      more, rv, start', size' := ReadOnce(mem, s, a, start', size', timeout, job0, sc0, m0, a0, start, s0);
    }
    ReadingSlices(m0, mem.bytes, a0, a[..], start, start', start + size, s0, s.incoming);
    assert a[..][start'..start + size] == a[start'..start' + size'];
  }

  /** One round of the loop; `more`: it goes on. */
  method ReadOnce(mem: Memory, s: Socket, a: array<Iovec>, start: nat, size: nat, timeout: int,
                  ghost job0: Job, ghost sc0: Script, ghost m0: seq<Byte>, ghost a0: seq<Iovec>, ghost from: nat, ghost s0: seq<Byte>)
    returns (more: bool, rv: int, start': nat, size': nat)
    requires 0 < size && start + size <= a.Length
    requires Reading(m0, mem.bytes, a0, a[..], from, start, start + size, s0, s.incoming)
    requires Follows(job0, sc0, ReadJob(a[start..start + size], |s.incoming|), Script(s.replies, s.waits, timeout),
                     |s0| - |s.incoming|)
    modifies s, a, mem
    ensures start' + size' == start + size && start <= start'
    ensures Reading(m0, mem.bytes, a0, a[..], from, start', start + size, s0, s.incoming)
    ensures more ==> rv == 0 && size' > 0 && |s.replies| < |old(s.replies)|
    ensures more ==> Follows(job0, sc0, ReadJob(a[start'..start' + size'], |s.incoming|), Script(s.replies, s.waits, timeout),
                             |s0| - |s.incoming|)
    ensures !more ==> rv == Verdict(job0, sc0) && |s0| - |s.incoming| == Final(job0, sc0)
    ensures rv == 0 || rv == -1
    ensures size' == 0 ==> rv == 0
  {
    hide Addrs, Residual, InBounds, Delivered, Filled, Moved, Reading, ReadJob, Verdict, Final, Follows, Completes, Job.Next, Empties;
    ghost var v, sc, s1, m1, a1 := a[start..start + size], Script(s.replies, s.waits, timeout), s.incoming, mem.bytes, a[..];
    Iterate(job0, sc0, ReadJob(v, |s1|), sc, |s0| - |s1|);
    ReadingSlices(m0, m1, a0, a1, from, start, start + size, s0, s1);
    assert a1[start..start + size] == v;
    var o;
    o, start', size' := ReceiveSome(mem, s, a, start, size);
    ReadIs(v, |s1|, sc, o, a[start'..start' + size'], |s.incoming|);
    ReadingGoesOn(m0, m1, mem.bytes, a0, a1, a[..], from, start, start', start + size, s0, s1, s.incoming);
    if o == Eintr {
      return true, 0, start', size';
    }
    if o == Failed {
      return false, -1, start', size';
    }
    if size' == 0 || o == Count(0) || (o == Eagain && timeout == 0) {
      return false, 0, start', size';
    }
    var ready := s.Poll();
    if !ready {
      return false, -1, start', size';
    }
    return true, 0, start', size';
  }
}
