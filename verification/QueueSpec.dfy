/** What the list and queue operations of ts_queue.h do to the sequence of elements. */
module QueueSpec {

  /** A batch pop of n takes at least one element of a queue that has one, even for n = 0. */
  function Clip(n: nat, length: nat): (c: nat)
    requires length > 0
    ensures 1 <= c <= length && (1 <= n <= length ==> c == n) && (n > length ==> c == length) && (n == 0 ==> c == 1)
  {
    if n == 0 then 1 else if n < length then n else length
  }

  function FrontTaken<T>(q: seq<T>, n: nat): seq<T> { if q == [] then [] else q[..Clip(n, |q|)] }
  function FrontLeft<T>(q: seq<T>, n: nat): seq<T> { if q == [] then [] else q[Clip(n, |q|)..] }

  function BackTaken<T>(q: seq<T>, n: nat): seq<T> { if q == [] then [] else q[|q| - Clip(n, |q|)..] }
  function BackLeft<T>(q: seq<T>, n: nat): seq<T> { if q == [] then [] else q[..|q| - Clip(n, |q|)] }

  /** What is taken and what is left are what there was. */
  lemma FrontSplits<T>(q: seq<T>, n: nat)
    ensures FrontTaken(q, n) + FrontLeft(q, n) == q
    ensures multiset(FrontLeft(q, n)) + multiset(FrontTaken(q, n)) == multiset(q)
  {
    assert FrontTaken(q, n) + FrontLeft(q, n) == q;
  }

  lemma BackSplits<T>(q: seq<T>, n: nat)
    ensures BackLeft(q, n) + BackTaken(q, n) == q
    ensures multiset(BackLeft(q, n)) + multiset(BackTaken(q, n)) == multiset(q)
  {
    assert BackLeft(q, n) + BackTaken(q, n) == q;
  }

  /** SList::cut, unlike the batch pops, takes nothing for n = 0. */
  function CutTaken<T>(q: seq<T>, n: nat): seq<T> { if n >= |q| then q else q[..n] }
  function CutLeft<T>(q: seq<T>, n: nat): seq<T> { if n >= |q| then [] else q[n..] }

  /** The sequence without one element that occurs in it. */
  function Without<T(==)>(q: seq<T>, x: T): seq<T> {
    if q == [] then [] else if q[0] == x then q[1..] else [q[0]] + Without(q[1..], x)
  }

  /** Removing the element at its first place. */
  lemma {:induction false} WithoutAt<T>(q: seq<T>, k: nat)
    requires k < |q| && q[k] !in q[..k]
    ensures Without(q, q[k]) == q[..k] + q[k + 1..]
  {
    if k == 0 {
    } else {
      assert q[0] in q[..k] && q[1..][..k - 1] == q[..k][1..];
      WithoutAt(q[1..], k - 1);
    }
  }

  lemma {:induction false} WithoutNone<T>(q: seq<T>, x: T)
    requires x !in q
    ensures Without(q, x) == q
  {
    if q == [] {
    } else {
      WithoutNone(q[1..], x);
    }
  }

  /** Without takes away one occurrence, if there is one. */
  lemma {:induction false} WithoutCounts<T>(q: seq<T>, x: T)
    ensures multiset(q) == multiset(Without(q, x)) + if x in q then multiset{x} else multiset{}
  {
    if q == [] {
    } else {
      assert q == [q[0]] + q[1..];
      WithoutCounts(q[1..], x);
    }
  }
}
