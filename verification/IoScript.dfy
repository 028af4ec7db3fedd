/** What a transfer comes to, as a function of the kernel's answers and of how waiting ends. */
module IoScript {
  import opened Basics

  /** What the kernel answers to one call: EINTR, EAGAIN, another error, or up to so many bytes. */
  datatype Reply = Interrupted | NotReady | Refused | Moves(most: nat)

  /** The answers to come, and whether each wait to come ends with the socket ready.  Once they run
      out, calls are refused and waits fail. */
  datatype Script = Script(replies: seq<Reply>, waits: seq<bool>, timeout: int)

  /** What is to be moved: so many bytes, and behind them entries of length zero; the other side
      has `stream` bytes, or room for as many. */
  datatype Job = Job(reading: bool, bytes: nat, empties: nat, stream: nat) {
    function Limit(): nat { Min(bytes, stream) }

    /** A write that is past the last byte still takes an empty entry at a time. */
    function Next(r: Reply): Job {
      match r
      case Moves(most) =>
        var n := Min(most, Limit());
        Job(reading, bytes - n, if bytes == 0 && empties > 0 then empties - 1 else empties, stream - n)
      case _ => this
    }
  }

  function After(job: Job, replies: seq<Reply>): (r: Job)
    ensures r.bytes <= job.bytes && r.reading == job.reading && (job.empties == 0 ==> r.empties == 0)
    decreases |replies|
  {
    if replies == [] then job else After(job.Next(replies[0]), replies[1..])
  }

  function Total(replies: seq<Reply>): nat {
    if replies == [] then 0 else (if replies[0].Moves? then replies[0].most else 0) + Total(replies[1..])
  }

  /** The bytes moved by some answers are as many as they allow, up to what there is. */
  lemma {:induction false} AfterIs(job: Job, replies: seq<Reply>)
    ensures After(job, replies).bytes == job.bytes - Min(job.Limit(), Total(replies))
    decreases |replies|
  {
    if replies == [] {
    } else {
      AfterIs(job.Next(replies[0]), replies[1..]);
    }
  }

  /** The answers that are followed by a wait, unless the call ends there. */
  function Answers(replies: seq<Reply>): nat {
    if replies == [] then 0
    else (if replies[0].NotReady? || replies[0].Moves? then 1 else 0) + Answers(replies[1..])
  }

  /** Whether the wait after answer i ends with the socket ready. */
  predicate Waited(sc: Script, i: nat)
    requires i <= |sc.replies|
  {
    var w := Answers(sc.replies[..i]);
    w < |sc.waits| && sc.waits[w]
  }

  /** Answer i, a count, is the last that is needed: everything has been moved; or, reading, the
      count is zero, which is the end of the stream. */
  predicate Completes(job: Job, sc: Script, i: nat)
    requires i < |sc.replies|
  {
    var before, now := After(job, sc.replies[..i]), After(job, sc.replies[..i + 1]);
    sc.replies[i].Moves? && ((now.bytes == 0 && now.empties == 0) || (job.reading && now.bytes == before.bytes))
  }

  /** The call ends at answer i. */
  predicate Stops(job: Job, sc: Script, i: nat)
    requires i <= |sc.replies|
  {
    i == |sc.replies| ||
    match sc.replies[i]
    case Interrupted => false
    case Refused => true
    case NotReady => sc.timeout == 0 || !Waited(sc, i)
    case Moves(_) => Completes(job, sc, i) || !Waited(sc, i)
  }

  function StopFrom(job: Job, sc: Script, i: nat): (k: nat)
    requires i <= |sc.replies|
    ensures i <= k <= |sc.replies| && Stops(job, sc, k) && forall j :: i <= j < k ==> !Stops(job, sc, j)
    decreases |sc.replies| - i
  {
    if Stops(job, sc, i) then i else StopFrom(job, sc, i + 1)
  }

  /** The answer at which the call ends. */
  function Ending(job: Job, sc: Script): (k: nat)
    ensures k <= |sc.replies| && Stops(job, sc, k) && forall j :: 0 <= j < k ==> !Stops(job, sc, j)
  {
    StopFrom(job, sc, 0)
  }

  /** The answers that the call gets. */
  function Heard(job: Job, sc: Script): seq<Reply> {
    var k := Ending(job, sc);
    if k == |sc.replies| then sc.replies else sc.replies[..k + 1]
  }

  /** 0 for success, and for a call with timeout 0 that finds the socket not ready; -1 otherwise. */
  function Verdict(job: Job, sc: Script): int {
    var k := Ending(job, sc);
    if k < |sc.replies| && (Completes(job, sc, k) || (sc.replies[k].NotReady? && sc.timeout == 0)) then 0 else -1
  }

  /** How many bytes it moves. */
  function Final(job: Job, sc: Script): (n: nat)
    ensures n <= job.bytes
  {
    job.bytes - After(job, Heard(job, sc)).bytes
  }

  // ---------------------------------------------------------------- one answer at a time

  lemma {:induction false} AfterSnoc(job: Job, replies: seq<Reply>, r: Reply)
    ensures After(job, replies + [r]) == After(job, replies).Next(r)
    decreases |replies|
  {
    hide Job.Next;
    if replies == [] {
      assert (replies + [r])[1..] == [];
    } else {
      assert (replies + [r])[1..] == replies[1..] + [r];
      AfterSnoc(job.Next(replies[0]), replies[1..], r);
    }
  }

  lemma AfterStep(job: Job, sc: Script, i: nat)
    requires i < |sc.replies|
    ensures After(job, sc.replies[..i + 1]) == After(job, sc.replies[..i]).Next(sc.replies[i])
  {
    AfterSnoc(job, sc.replies[..i], sc.replies[i]);
    assert sc.replies[..i + 1] == sc.replies[..i] + [sc.replies[i]];
  }

  /** The script once its first answer is used up, and the wait that follows it, if any. */
  function Tail(sc: Script): Script
    requires sc.replies != []
  {
    Script(sc.replies[1..],
           if (sc.replies[0].NotReady? || sc.replies[0].Moves?) && sc.waits != [] then sc.waits[1..] else sc.waits, sc.timeout)
  }

  lemma Unroll(job: Job, replies: seq<Reply>, i: nat)
    requires i < |replies|
    ensures After(job, replies[..i + 1]) == After(job.Next(replies[0]), replies[1..][..i])
    ensures Answers(replies[..i + 1]) == (if replies[0].NotReady? || replies[0].Moves? then 1 else 0) + Answers(replies[1..][..i])
  {
    assert replies[..i + 1][1..] == replies[1..][..i] && replies[..i + 1][0] == replies[0];
  }

  lemma WaitedShift(sc: Script, i: nat)
    requires i < |sc.replies|
    ensures Waited(sc, i + 1) <==> Waited(Tail(sc), i)
  {
    Unroll(Job(false, 0, 0, 0), sc.replies, i);
    hide After, Answers;
  }

  lemma CompletesShift(job: Job, sc: Script, i: nat)
    requires i + 1 < |sc.replies|
    ensures Completes(job, sc, i + 1) <==> Completes(job.Next(sc.replies[0]), Tail(sc), i)
  {
    Unroll(job, sc.replies, i);
    Unroll(job, sc.replies, i + 1);
    hide After, Answers, Job.Next;
    assert sc.replies[i + 1] == sc.replies[1..][i];
  }

  lemma StopsShift(job: Job, sc: Script, i: nat)
    requires i < |sc.replies|
    ensures Stops(job, sc, i + 1) <==> Stops(job.Next(sc.replies[0]), Tail(sc), i)
  {
    hide Completes, Waited, Job.Next;
    WaitedShift(sc, i);
    if i + 1 < |sc.replies| {
      CompletesShift(job, sc, i);
      assert sc.replies[i + 1] == sc.replies[1..][i];
    }
  }

  lemma {:induction false} StopShift(job: Job, sc: Script, i: nat)
    requires i < |sc.replies|
    ensures StopFrom(job, sc, i + 1) == 1 + StopFrom(job.Next(sc.replies[0]), Tail(sc), i)
    decreases |sc.replies| - i
  {
    StopsShift(job, sc, i);
    hide Stops, Job.Next;
    if !Stops(job, sc, i + 1) {
      LastStops(job, sc);
      StopShift(job, sc, i + 1);
    }
  }

  lemma LastStops(job: Job, sc: Script)
    ensures Stops(job, sc, |sc.replies|)
  {
  }

  lemma StopLater(job: Job, sc: Script)
    requires sc.replies != [] && !Stops(job, sc, 0)
    ensures Ending(job, sc) == 1 + Ending(job.Next(sc.replies[0]), Tail(sc))
  {
    StopShift(job, sc, 0);
  }

  lemma HeardLater(job: Job, sc: Script)
    requires sc.replies != [] && !Stops(job, sc, 0)
    ensures After(job, Heard(job, sc)) == After(job.Next(sc.replies[0]), Heard(job.Next(sc.replies[0]), Tail(sc)))
    ensures Heard(job, sc) == [sc.replies[0]] + Heard(job.Next(sc.replies[0]), Tail(sc))
  {
    StopLater(job, sc);
    var k := Ending(job.Next(sc.replies[0]), Tail(sc));
    if k < |sc.replies| - 1 {
      Unroll(job, sc.replies, k + 1);
    }
    hide Ending, Stops, Job.Next, After;
    assert sc.replies == [sc.replies[0]] + sc.replies[1..];
  }

  /** A call that does not end at its first answer goes on as one for what is left. */
  lemma GoesOn(job: Job, sc: Script)
    requires sc.replies != [] && !Stops(job, sc, 0)
    ensures var job', sc' := job.Next(sc.replies[0]), Tail(sc);
      Verdict(job, sc) == Verdict(job', sc') && Final(job, sc) == job.bytes - job'.bytes + Final(job', sc')
  {
    StopLater(job, sc);
    HeardLater(job, sc);
    var k := Ending(job.Next(sc.replies[0]), Tail(sc));
    if k < |sc.replies| - 1 {
      CompletesShift(job, sc, k);
    }
    hide Completes, Ending, Stops, Heard, After, Job.Next;
  }

  /** One that does. */
  lemma EndsHere(job: Job, sc: Script)
    requires Stops(job, sc, 0)
    ensures Ending(job, sc) == 0
    ensures var job' := if sc.replies == [] then job else job.Next(sc.replies[0]);
      Final(job, sc) == job.bytes - job'.bytes
    ensures Heard(job, sc) == if sc.replies == [] then [] else [sc.replies[0]]
  {
    assert sc.replies[..0] == [];
    if sc.replies != [] {
      AfterStep(job, sc, 0);
    }
  }

  /** What the call comes to is what is left of it comes to, `moved` bytes having been moved. */
  ghost predicate Follows(job0: Job, sc0: Script, job: Job, sc: Script, moved: int) {
    Verdict(job0, sc0) == Verdict(job, sc) && Final(job0, sc0) == moved + Final(job, sc)
  }

  /** What one answer, and what came of the wait after it, means for the call. */
  lemma Iterate(job0: Job, sc0: Script, job: Job, sc: Script, moved: int)
    requires Follows(job0, sc0, job, sc, moved)
    ensures sc.replies == [] || sc.replies[0].Refused? ==> Verdict(job0, sc0) == -1 && Final(job0, sc0) == moved
    ensures sc.replies != [] && !sc.replies[0].Refused? ==>
      var job', sc', r := job.Next(sc.replies[0]), Tail(sc), sc.replies[0];
      var moved' := moved + job.bytes - job'.bytes;
      if r.Interrupted? then Follows(job0, sc0, job', sc', moved')
      else if Completes(job, sc, 0) || (r.NotReady? && sc.timeout == 0) then
        Verdict(job0, sc0) == 0 && Final(job0, sc0) == moved'
      else if sc.waits != [] && sc.waits[0] then Follows(job0, sc0, job', sc', moved')
      else Verdict(job0, sc0) == -1 && Final(job0, sc0) == moved'
  {
    if Stops(job, sc, 0) {
      EndsHere(job, sc);
    } else {
      GoesOn(job, sc);
    }
    assert sc.replies[..0] == [];
    hide Ending, Final, Job.Next;
  }

  lemma CompletesFirst(job: Job, sc: Script)
    requires sc.replies != []
    ensures var r := sc.replies[0]; var now := job.Next(r);
      Completes(job, sc, 0) <==>
        r.Moves? && ((now.bytes == 0 && now.empties == 0) || (job.reading && now.bytes == job.bytes))
  {
    assert sc.replies[..0] == [];
    AfterStep(job, sc, 0);
  }

  // ---------------------------------------------------------------- what this means

  /** Until the call ends, something is left to move. */
  lemma {:induction false} LeftBefore(job: Job, sc: Script, j: nat)
    requires job.empties == 0 && 0 < job.bytes && j <= Ending(job, sc)
    ensures After(job, sc.replies[..j]).bytes > 0
  {
    if j == 0 {
      assert sc.replies[..0] == [];
    } else {
      LeftBefore(job, sc, j - 1);
      AfterStep(job, sc, j - 1);
      assert !Stops(job, sc, j - 1);
      hide After, Ending;
    }
  }

  /** The call is ended by the kernel refusing, or by a wait that fails. */
  predicate Fails(sc: Script, k: nat)
    requires k <= |sc.replies|
  {
    k == |sc.replies| || sc.replies[k].Refused?
    || (!sc.replies[k].Interrupted? && !(sc.replies[k].NotReady? && sc.timeout == 0) && !Waited(sc, k))
  }

  lemma HeardAre(job: Job, sc: Script)
    ensures var k := Ending(job, sc);
      && After(job, Heard(job, sc)) ==
           (if k < |sc.replies| then After(job, sc.replies[..k]).Next(sc.replies[k]) else After(job, sc.replies[..k]))
  {
    var k := Ending(job, sc);
    if k < |sc.replies| {
      AfterStep(job, sc, k);
    } else {
      assert sc.replies[..k] == sc.replies;
    }
  }

  /** A write of some bytes fails if and only if, with one of them unsent, the kernel refuses or a
      wait fails.  It ends with bytes unsent and yet without failing if and only if it finds the
      socket not ready and the timeout is zero.  It has sent what the answers that it got allow. */
  lemma WriteVerdict(job: Job, sc: Script)
    requires !job.reading && job.empties == 0 && 0 < job.bytes <= job.stream
    ensures var k := Ending(job, sc);
      && (Verdict(job, sc) == 0 || Verdict(job, sc) == -1)
      && Final(job, sc) == Min(job.bytes, Total(Heard(job, sc)))
      && (Verdict(job, sc) == -1 <==> Final(job, sc) < job.bytes && Fails(sc, k))
      && (Verdict(job, sc) == 0 && Final(job, sc) < job.bytes <==> k < |sc.replies| && sc.replies[k].NotReady? && sc.timeout == 0)
  {
    var k := Ending(job, sc);
    LeftBefore(job, sc, k);
    AfterIs(job, Heard(job, sc));
    HeardAre(job, sc);
    if k < |sc.replies| {
      AfterStep(job, sc, k);
    }
    hide After, Total, Heard, Ending, Waited;
  }

  /** If the counts reach the total before the kernel refuses, a wait fails, or the socket is found
      not ready with timeout zero, everything is sent. */
  lemma ReachesAll(job: Job, sc: Script, n: nat)
    requires !job.reading && job.empties == 0 && 0 < job.bytes <= job.stream
    requires n < |sc.replies| && Total(sc.replies[..n + 1]) >= job.bytes
    requires forall j :: 0 <= j <= n ==> !sc.replies[j].Refused? && !(sc.replies[j].NotReady? && sc.timeout == 0)
    requires forall j :: 0 <= j < n && !sc.replies[j].Interrupted? ==> Waited(sc, j)
    ensures Verdict(job, sc) == 0 && Final(job, sc) == job.bytes
  {
    var k := Ending(job, sc);
    LeftBefore(job, sc, k);
    HeardAre(job, sc);
    if k > n {
      AfterIs(job, sc.replies[..n + 1]);
      LeftBefore(job, sc, n + 1);
      assert false;
    } else {
      AfterStep(job, sc, k);
      AfterIs(job, sc.replies[..n + 1]);
      hide After, Total, Heard, Waited;
    }
  }

  /** Reading, entries of length zero are only passed together with bytes. */
  lemma {:induction false} EmptiesStay(job: Job, sc: Script, j: nat)
    requires job.reading && j <= Ending(job, sc)
    ensures After(job, sc.replies[..j]).empties == job.empties
  {
    if j == 0 {
      assert sc.replies[..0] == [];
    } else {
      EmptiesStay(job, sc, j - 1);
      AfterStep(job, sc, j - 1);
      assert !Stops(job, sc, j - 1);
      hide After, Ending;
    }
  }

  /** A read succeeds if and only if it ends by filling the buffers, by a count of zero, which is the
      end of the stream, or, with timeout zero, by finding the socket not ready; it fails if and only
      if, before that, the kernel refuses or a wait fails.  It has read what the answers that it got
      and the stream allow. */
  lemma ReadVerdict(job: Job, sc: Script)
    requires job.reading
    ensures var k := Ending(job, sc);
      var before := Min(job.Limit(), Total(sc.replies[..k]));
      var ended := k < |sc.replies| && sc.replies[k].Moves?
        && (Final(job, sc) == before || (Final(job, sc) == job.bytes && job.empties == 0));
      && Final(job, sc) == Min(job.Limit(), Total(Heard(job, sc)))
      && (Verdict(job, sc) == 0 <==> ended || (k < |sc.replies| && sc.replies[k].NotReady? && sc.timeout == 0))
      && (Verdict(job, sc) == -1 <==> !ended && Fails(sc, k))
  {
    var k := Ending(job, sc);
    EmptiesStay(job, sc, k);
    AfterIs(job, Heard(job, sc));
    AfterIs(job, sc.replies[..k]);
    HeardAre(job, sc);
    if k < |sc.replies| {
      AfterStep(job, sc, k);
    }
    hide After, Total, Heard, Ending, Waited;
  }
}
