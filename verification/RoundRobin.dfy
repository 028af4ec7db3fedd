/** How Scheduler::AddTask and CreateMilliTimer choose a processor: the first active one at or
    after an index that they share. */
module RoundRobin {
  import opened Balance

  function Mod(a: nat, n: nat): (r: nat)
    requires n > 0
    ensures r < n && (a < n ==> r == a) && (a == n ==> r == 0)
  {
    a % n
  }

  /** The place d steps after s on a circle of n. */
  function Rot(n: nat, s: nat, d: nat): (k: nat)
    requires s < n && d < n
    ensures k < n
  {
    if s + d < n then s + d else s + d - n
  }

  /** How many steps after s the place j is. */
  function Dist(n: nat, s: nat, j: nat): (d: nat)
    requires s < n && j < n
    ensures d < n && Rot(n, s, d) == j
  {
    if s <= j then j - s else j - s + n
  }

  function Seek(active: seq<bool>, s: nat, d: nat): (k: nat)
    requires s < |active| && d < |active|
    ensures k < |active|
    decreases |active| - d
  {
    var k := Rot(|active|, s, d);
    if active[k] || d + 1 == |active| then k else Seek(active, s, d + 1)
  }

  /** The processor chosen when the shared index is `last`. */
  function Pick(active: seq<bool>, last: nat): (k: nat)
    requires active != []
    ensures k < |active|
  {
    Seek(active, Mod(last, |active|), 0)
  }

  /** The index left behind by the scan: the chosen processor, or one more if none is active. */
  function After(active: seq<bool>, k: nat): nat
    requires k < |active|
  {
    if active[k] then k else k + 1
  }

  lemma {:induction false} SeekNearest(active: seq<bool>, s: nat, d: nat)
    requires s < |active| && d < |active|
    ensures var k := Seek(active, s, d);
      && d <= Dist(|active|, s, k)
      && (forall j :: 0 <= j < |active| && active[j] && d <= Dist(|active|, s, j) ==>
            active[k] && Dist(|active|, s, k) <= Dist(|active|, s, j))
      && (!active[k] ==> k == Rot(|active|, s, |active| - 1))
    decreases |active| - d
  {
    var k := Rot(|active|, s, d);
    if active[k] || d + 1 >= |active| {
    } else {
      SeekNearest(active, s, d + 1);
    }
  }

  /** The chosen processor is active, and no active one is nearer to the index; only when none
      is active, the last one visited is taken. */
  lemma PickNearest(active: seq<bool>, last: nat)
    requires active != []
    ensures var n, s, k := |active|, Mod(last, |active|), Pick(active, last);
      && (forall j :: 0 <= j < n && active[j] ==> active[k] && Dist(n, s, k) <= Dist(n, s, j))
      && (!active[k] ==> k == Rot(n, s, n - 1))
  {
    SeekNearest(active, Mod(last, |active|), 0);
  }

  // ---------------------------------------------------------------- runs

  datatype Event = Add | Timer

  /** The shared index, and how many tasks were added to each processor. */
  datatype State = State(last: nat, added: seq<nat>)

  function Step(active: seq<bool>, e: Event, st: State): State
    requires active != [] && |st.added| == |active|
  {
    var k := Pick(active, st.last);
    match e
    case Add => State(After(active, k) + 1, st.added[k := st.added[k] + 1])
    case Timer => st.(last := After(active, k))
  }

  function Run(active: seq<bool>, es: seq<Event>, st: State): (r: State)
    requires active != [] && |st.added| == |active|
    ensures |r.added| == |active|
  {
    if es == [] then st else Run(active, es[1..], Step(active, es[0], st))
  }

  /** Relative to the processor s0 chosen first, those before the next one to be chosen are one
      task ahead of the others. */
  ghost predicate Fair(active: seq<bool>, s0: nat, round: nat, st: State)
    requires active != [] && |st.added| == |active| && s0 < |active|
  {
    var n, next := |active|, Pick(active, st.last);
    && active[s0] && active[next]
    && forall j :: 0 <= j < n && active[j] ==>
         st.added[j] == round + if Dist(n, s0, j) < Dist(n, s0, next) then 1 else 0
  }

  /** Choosing from an active processor on chooses it again; choosing from the place after it,
      the next active one, which is the first again after the last. */
  lemma PickAgain(active: seq<bool>, k: nat)
    requires k < |active| && active[k]
    ensures Pick(active, k) == k
  {
    PickNearest(active, k);
  }

  lemma PickNext(active: seq<bool>, s0: nat, k: nat)
    requires s0 < |active| && k < |active| && active[s0] && active[k]
    ensures var n, next := |active|, Pick(active, k + 1);
      && active[next]
      && ( || (next == s0 && forall j :: 0 <= j < n && active[j] ==> Dist(n, s0, j) <= Dist(n, s0, k))
           || (Dist(n, s0, k) < Dist(n, s0, next)
               && forall j :: 0 <= j < n && active[j] ==>
                    (Dist(n, s0, j) < Dist(n, s0, next) <==> Dist(n, s0, j) <= Dist(n, s0, k))))
  {
    PickNearest(active, k + 1);
    var n, next := |active|, Pick(active, k + 1);
    hide Pick;
    assert forall j :: 0 <= j < n && active[j] ==>
      Dist(n, Mod(k + 1, n), next) <= Dist(n, Mod(k + 1, n), j);
  }

  lemma StepFair(active: seq<bool>, s0: nat, round: nat, e: Event, st: State) returns (round': nat)
    requires active != [] && |st.added| == |active| && s0 < |active|
    requires Fair(active, s0, round, st)
    ensures Fair(active, s0, round', Step(active, e, st))
  {
    hide Pick, Dist;
    var n, k := |active|, Pick(active, st.last);
    match e {
      case Timer =>
        PickAgain(active, k);
        round' := round;
      case Add =>
        PickNext(active, s0, k);
        DistApart(n, s0);
        round' := if Pick(active, k + 1) == s0 then round + 1 else round;
    }
  }

  lemma DistApart(n: nat, s: nat)
    requires s < n
    ensures Dist(n, s, s) == 0
    ensures forall i, j :: 0 <= i < n && 0 <= j < n && Dist(n, s, i) == Dist(n, s, j) ==> i == j
  {
  }

  lemma {:induction false} RunFair(active: seq<bool>, s0: nat, round: nat, es: seq<Event>, st: State) returns (round': nat)
    requires active != [] && |st.added| == |active| && s0 < |active|
    requires Fair(active, s0, round, st)
    ensures Fair(active, s0, round', Run(active, es, st))
    decreases |es|
  {
    if es == [] {
      round' := round;
    } else {
      round' := StepFair(active, s0, round, es[0], st);
      round' := RunFair(active, s0, round', es[1..], Step(active, es[0], st));
    }
  }

  /** Whatever the index is at the start, and however timers come in between, the tasks are
      spread evenly over the active processors, and no other gets any. */
  lemma EvenlySpread(active: seq<bool>, last: nat, es: seq<Event>, i: nat, j: nat)
    requires i < |active| && j < |active| && active[i] && active[j]
    ensures var added := Run(active, es, State(last, seq(|active|, _ => 0))).added;
      added[i] <= added[j] + 1 && added[j] <= added[i] + 1
  {
    PickNearest(active, last);
    var round := RunFair(active, Pick(active, last), 0, es, State(last, seq(|active|, _ => 0)));
  }

  lemma {:induction false} OnlyActive(active: seq<bool>, es: seq<Event>, st: State, i: nat, j: nat)
    requires i < |active| == |st.added| && j < |active| && active[i] && !active[j]
    ensures Run(active, es, st).added[j] == st.added[j]
  {
    if es == [] {
    } else {
      PickNearest(active, st.last);
      OnlyActive(active, es[1..], Step(active, es[0], st), i, j);
    }
  }

  function Adds(es: seq<Event>): nat {
    if es == [] then 0 else (if es[0].Add? then 1 else 0) + Adds(es[1..])
  }

  lemma {:induction false} SumBump(s: seq<nat>, k: nat)
    requires k < |s|
    ensures Sum(s[k := s[k] + 1]) == Sum(s) + 1
  {
    if k == 0 {
      assert s[0 := s[0] + 1][1..] == s[1..];
    } else {
      assert s[k := s[k] + 1][1..] == s[1..][k - 1 := s[k] + 1];
      SumBump(s[1..], k - 1);
    }
  }

  /** Every task is added exactly once, even when no processor is active. */
  lemma {:induction false} EveryTaskAdded(active: seq<bool>, es: seq<Event>, st: State)
    requires active != [] && |st.added| == |active|
    ensures Sum(Run(active, es, st).added) == Sum(st.added) + Adds(es)
    decreases |es|
  {
    if es == [] {
    } else {
      SumBump(st.added, Pick(active, st.last));
      EveryTaskAdded(active, es[1..], Step(active, es[0], st));
    }
  }
}
