/** The arithmetic of Scheduler::AvgTotalTasks: how many tasks every processor has after the
    balancing, as a function of how many it had and how many of those could be moved. */
module Balance {
  import opened Basics

  function Sum(s: seq<nat>): nat { if s == [] then 0 else s[0] + Sum(s[1..]) }

  function Average(s: seq<nat>): nat requires s != [] { Sum(s) / |s| }
  function Remainder(s: seq<nat>): nat requires s != [] { Sum(s) % |s| }

  lemma Division(s: seq<nat>)
    requires s != []
    ensures Sum(s) == |s| * Average(s) + Remainder(s) && Remainder(s) < |s|
  {
  }

  /** What is taken from a processor with `size` tasks, `free` of them movable. */
  function Stolen(size: nat, free: nat, avg: nat): nat {
    if avg < size then Min(size - avg, free) else 0
  }

  function Steals(sizes: seq<nat>, free: seq<nat>, avg: nat): seq<nat>
    requires |sizes| == |free|
  {
    if sizes == [] then [] else [Stolen(sizes[0], free[0], avg)] + Steals(sizes[1..], free[1..], avg)
  }

  /** What a processor is given from a pool. */
  function Gift(size: nat, avg: nat, pool: nat): nat {
    if size < avg then Min(avg - size, pool) else 0
  }

  /** The processors below average are given from a pool, first come first served. */
  function Gifts(sizes: seq<nat>, avg: nat, pool: nat): seq<nat> {
    if sizes == [] then []
    else
      var g := Gift(sizes[0], avg, pool);
      [g] + Gifts(sizes[1..], avg, pool - g)
  }

  lemma {:induction false} Lengths(sizes: seq<nat>, free: seq<nat>, avg: nat, pool: nat)
    requires |sizes| == |free|
    ensures |Steals(sizes, free, avg)| == |Gifts(sizes, avg, pool)| == |sizes|
    ensures forall i :: 0 <= i < |sizes| ==> Steals(sizes, free, avg)[i] == Stolen(sizes[i], free[i], avg)
    ensures Sum(Gifts(sizes, avg, pool)) <= pool
  {
    if sizes == [] {
    } else {
      var g := Gift(sizes[0], avg, pool);
      Lengths(sizes[1..], free[1..], avg, pool - g);
    }
  }

  /** The sizes afterwards: what nobody below average needed goes to processor 0. */
  ghost function Balanced(sizes: seq<nat>, free: seq<nat>, avg: nat): (r: seq<int>)
    requires |sizes| == |free|
    ensures |r| == |sizes|
  {
    var pool := Sum(Steals(sizes, free, avg));
    Lengths(sizes, free, avg, pool);
    seq(|sizes|, i requires 0 <= i < |sizes| =>
      sizes[i] - Stolen(sizes[i], free[i], avg) + Gifts(sizes, avg, pool)[i]
        + if i == 0 then pool - Sum(Gifts(sizes, avg, pool)) else 0)
  }

  /** How much the sizes are above, and below, the average. */
  function Excess(sizes: seq<nat>, avg: nat): nat {
    if sizes == [] then 0 else (if avg < sizes[0] then sizes[0] - avg else 0) + Excess(sizes[1..], avg)
  }

  function Deficit(sizes: seq<nat>, avg: nat): nat {
    if sizes == [] then 0 else (if sizes[0] < avg then avg - sizes[0] else 0) + Deficit(sizes[1..], avg)
  }

  lemma {:induction false} ExcessIsDeficit(sizes: seq<nat>, avg: nat)
    ensures Excess(sizes, avg) - Deficit(sizes, avg) == Sum(sizes) - |sizes| * avg
  {
    if sizes == [] {
    } else {
      ExcessIsDeficit(sizes[1..], avg);
      assert |sizes| * avg == |sizes[1..]| * avg + avg;
    }
  }

  lemma {:induction false} StealsBelowExcess(sizes: seq<nat>, free: seq<nat>, avg: nat)
    requires |sizes| == |free|
    ensures Sum(Steals(sizes, free, avg)) <= Excess(sizes, avg)
  {
    if sizes == [] {
    } else {
      StealsBelowExcess(sizes[1..], free[1..], avg);
    }
  }

  /** The pool is handed out until the deficits are met or it is empty. */
  lemma {:induction false} GiftsMeetDeficit(sizes: seq<nat>, avg: nat, pool: nat)
    ensures Sum(Gifts(sizes, avg, pool)) == Min(pool, Deficit(sizes, avg))
    ensures |Gifts(sizes, avg, pool)| == |sizes|
    ensures forall i :: 0 <= i < |sizes| ==> Gifts(sizes, avg, pool)[i] <= Gift(sizes[i], avg, avg)
    ensures Deficit(sizes, avg) <= pool ==>
      forall i :: 0 <= i < |sizes| ==> Gifts(sizes, avg, pool)[i] == Gift(sizes[i], avg, avg)
  {
    if sizes == [] {
    } else {
      var g := Gift(sizes[0], avg, pool);
      GiftsMeetDeficit(sizes[1..], avg, pool - g);
      assert Gifts(sizes, avg, pool) == [g] + Gifts(sizes[1..], avg, pool - g);
    }
  }

  /** If the pool is too small, it goes to the processors in their order: whoever gets anything, those
      before have been filled up. */
  lemma {:induction false} GiftsInOrder(sizes: seq<nat>, avg: nat, pool: nat, i: nat, j: nat)
    requires i < j < |sizes|
    ensures |Gifts(sizes, avg, pool)| == |sizes|
    ensures Gifts(sizes, avg, pool)[j] > 0 && sizes[i] < avg ==> Gifts(sizes, avg, pool)[i] == avg - sizes[i]
  {
    hide Gifts, Sum, Deficit;
    var g := Gift(sizes[0], avg, pool);
    FirstGift(sizes, avg, pool);
    GiftsMeetDeficit(sizes, avg, pool);
    if i == 0 {
      GiftAtMost(sizes[1..], avg, pool - g, j - 1);
    } else {
      GiftsInOrder(sizes[1..], avg, pool - g, i - 1, j - 1);
    }
  }

  lemma FirstGift(sizes: seq<nat>, avg: nat, pool: nat)
    requires sizes != []
    ensures Gifts(sizes, avg, pool) == [Gift(sizes[0], avg, pool)] + Gifts(sizes[1..], avg, pool - Gift(sizes[0], avg, pool))
  {
  }

  lemma {:induction false} GiftAtMost(sizes: seq<nat>, avg: nat, pool: nat, j: nat)
    requires j < |sizes|
    ensures |Gifts(sizes, avg, pool)| == |sizes| && Gifts(sizes, avg, pool)[j] <= pool
  {
    hide Gifts, Sum, Deficit;
    FirstGift(sizes, avg, pool);
    GiftsMeetDeficit(sizes, avg, pool);
    if j == 0 {
    } else {
      GiftAtMost(sizes[1..], avg, pool - Gift(sizes[0], avg, pool), j - 1);
    }
  }

  /** The remainder of the division is the excess that no deficit absorbs. */
  lemma RemainderIsSurplus(sizes: seq<nat>)
    requires sizes != []
    ensures Excess(sizes, Average(sizes)) == Deficit(sizes, Average(sizes)) + Remainder(sizes)
  {
    hide Average, Remainder;
    Division(sizes);
    ExcessIsDeficit(sizes, Average(sizes));
  }

  /** One processor's size afterwards, by cases. */
  lemma BalancedAt(sizes: seq<nat>, free: seq<nat>, avg: nat, i: nat)
    requires |sizes| == |free| && i < |sizes|
    ensures var pool := Sum(Steals(sizes, free, avg));
      var left := if pool <= Deficit(sizes, avg) then 0 else pool - Deficit(sizes, avg);
      && |Gifts(sizes, avg, pool)| == |sizes| && Gifts(sizes, avg, pool)[i] <= Gift(sizes[i], avg, avg)
      && Balanced(sizes, free, avg)[i]
         == sizes[i] - Stolen(sizes[i], free[i], avg) + Gifts(sizes, avg, pool)[i] + if i == 0 then left else 0
  {
    GiftsMeetDeficit(sizes, avg, Sum(Steals(sizes, free, avg)));
    hide Sum, Steals, Gifts, Deficit;
  }

  /** Whatever the steals yield: a processor above average is not dropped below it, one at or
      below average (other than 0) is not lifted above it, and processor 0 is left with at
      most the remainder of the division beyond what balancing gives everyone. */
  lemma BalanceBounds(sizes: seq<nat>, free: seq<nat>, i: nat)
    requires |sizes| == |free| && i < |sizes|
    ensures var avg := Average(sizes);
      var r := Balanced(sizes, free, avg)[i];
      var extra := if i == 0 then Remainder(sizes) else 0;
      && (avg < sizes[i] ==> avg <= r <= sizes[i] + extra)
      && (sizes[i] <= avg ==> sizes[i] <= r <= avg + extra)
  {
    var avg := Average(sizes);
    StealsBelowExcess(sizes, free, avg);
    RemainderIsSurplus(sizes);
    BalancedAt(sizes, free, avg, i);
    hide Sum, Steals, Gifts, Deficit, Excess, Balanced;
  }

  /** The condition under which balancing is exact: every processor above average could give
      up its excess; processor 0 may keep as much as the remainder it would get back. */
  ghost predicate CanLevel(sizes: seq<nat>, free: seq<nat>, avg: nat, rest: nat)
    requires |sizes| == |free| > 0
  {
    && (forall i :: 0 < i < |sizes| && avg < sizes[i] ==> sizes[i] - avg <= free[i])
    && (avg < sizes[0] ==> sizes[0] - avg <= free[0] + rest)
  }

  /** Every processor has the average, processor 0 the remainder on top. */
  ghost predicate Level(sizes: seq<nat>, free: seq<nat>, avg: nat, rest: nat)
    requires |sizes| == |free| > 0
  {
    forall i :: 0 <= i < |sizes| ==> Balanced(sizes, free, avg)[i] == avg + if i == 0 then rest else 0
  }

  /** When every excess can be given up, the steals yield all of it. */
  lemma {:induction false} FullSteals(sizes: seq<nat>, free: seq<nat>, avg: nat)
    requires |sizes| == |free|
    requires forall i :: 0 <= i < |sizes| && avg < sizes[i] ==> sizes[i] - avg <= free[i]
    ensures Sum(Steals(sizes, free, avg)) == Excess(sizes, avg)
  {
    if sizes == [] {
    } else {
      assert forall i :: 0 <= i < |sizes| - 1 ==> sizes[i + 1] == sizes[1..][i] && free[i + 1] == free[1..][i];
      FullSteals(sizes[1..], free[1..], avg);
    }
  }

  lemma CanLevelSuffices(sizes: seq<nat>, free: seq<nat>, avg: nat, rest: nat)
    requires |sizes| == |free| > 0 && CanLevel(sizes, free, avg, rest)
    requires Excess(sizes, avg) == Deficit(sizes, avg) + rest
    ensures Level(sizes, free, avg, rest)
  {
    var pool := Sum(Steals(sizes, free, avg));
    assert forall i :: 0 <= i < |sizes| - 1 ==> sizes[i + 1] == sizes[1..][i] && free[i + 1] == free[1..][i];
    FullSteals(sizes[1..], free[1..], avg);
    GiftsMeetDeficit(sizes, avg, pool);
    assert pool == Stolen(sizes[0], free[0], avg) + Excess(sizes[1..], avg);
    assert Deficit(sizes, avg) <= pool;
    hide Sum, Steals, Gifts, Deficit, Excess, Balanced;
    forall i | 0 <= i < |sizes|
      ensures Balanced(sizes, free, avg)[i] == avg + if i == 0 then rest else 0
    {
      BalancedAt(sizes, free, avg, i);
    }
  }

  lemma CanLevelNeeded(sizes: seq<nat>, free: seq<nat>, avg: nat, rest: nat)
    requires |sizes| == |free| > 0 && Level(sizes, free, avg, rest)
    requires Excess(sizes, avg) == Deficit(sizes, avg) + rest
    ensures CanLevel(sizes, free, avg, rest)
  {
    var pool := Sum(Steals(sizes, free, avg));
    StealsBelowExcess(sizes[1..], free[1..], avg);
    assert pool == Stolen(sizes[0], free[0], avg) + Sum(Steals(sizes[1..], free[1..], avg));
    assert pool <= Stolen(sizes[0], free[0], avg) + Excess(sizes[1..], avg);
    BalancedAt(sizes, free, avg, 0);
    hide Sum, Steals, Gifts, Deficit, Excess, Balanced;
    forall i | 0 < i < |sizes| && avg < sizes[i]
      ensures sizes[i] - avg <= free[i]
    {
      BalancedAt(sizes, free, avg, i);
    }
  }

  /** Balancing is exact if and only if CanLevel holds beforehand. */
  lemma LevelIff(sizes: seq<nat>, free: seq<nat>)
    requires |sizes| == |free| > 0
    ensures var avg, rest := Average(sizes), Remainder(sizes);
      Level(sizes, free, avg, rest) <==> CanLevel(sizes, free, avg, rest)
  {
    var avg, rest := Average(sizes), Remainder(sizes);
    RemainderIsSurplus(sizes);
    hide Level, CanLevel, Average, Remainder, Deficit, Excess;
    if CanLevel(sizes, free, avg, rest) {
      CanLevelSuffices(sizes, free, avg, rest);
    }
    if Level(sizes, free, avg, rest) {
      CanLevelNeeded(sizes, free, avg, rest);
    }
  }

  /** Two tasks on one of two processors, both pinned: it keeps them. */
  lemma LevelFails()
    ensures Average([2, 0]) == 1 && Remainder([2, 0]) == 0 && !Level([2, 0], [0, 0], 1, 0)
  {
    assert [2, 0][1..] == [0] && [0][1..] == [];
    assert Sum([2, 0]) == 2;
    LevelIff([2, 0], [0, 0]);
  }

  /** A processor pins at most two tasks, so an average of at least two is always reached. */
  lemma TwoPinnedLevel(sizes: seq<nat>, free: seq<nat>)
    requires |sizes| == |free| > 0 && Average(sizes) >= 2
    requires forall i :: 0 <= i < |sizes| ==> sizes[i] <= free[i] + 2
    ensures Level(sizes, free, Average(sizes), Remainder(sizes))
  {
    hide Level, Average, Remainder;
    LevelIff(sizes, free);
  }
}
