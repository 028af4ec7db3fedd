/** SList and TSQueue of ts_queue.h: intrusive doubly linked lists, on the heap. */
module TsQueue {
  import opened Basics
  import opened QueueSpec

  /** TSQueueHook: the links an element carries, and the queue it was pushed to. */
  class Hook {
    var prev: Hook?
    var next: Hook?
    var check: object?

    constructor ()
      ensures prev == null && next == null && check == null
    {
      prev, next, check := null, null, null;
    }

    method Link(theNext: Hook)
      requires next == null && theNext.prev == null
      modifies this`next, theNext`prev
      ensures next == theNext && theNext.prev == this
    {
      next := theNext;
      theNext.prev := this;
    }

    method Unlink(theNext: Hook)
      requires next == theNext && theNext.prev == this
      modifies this`next, theNext`prev
      ensures next == null && theNext.prev == null
    {
      next := null;
      theNext.prev := null;
    }
  }

  ghost predicate Disjoint(s: seq<Hook>, t: seq<Hook>) {
    forall i, j :: 0 <= i < |s| && 0 <= j < |t| ==> s[i] != t[j]
  }

  ghost predicate Forward(s: seq<Hook>)
    reads s`next
  {
    forall i {:trigger s[i].next} :: 0 <= i < |s| ==> s[i].next == if i + 1 < |s| then s[i + 1] else null
  }

  ghost predicate Backward(s: seq<Hook>)
    reads s`prev
  {
    forall i {:trigger s[i].prev} :: 0 <= i < |s| ==> s[i].prev == if i > 0 then s[i - 1] else null
  }

  /** Consecutive hooks point at each other, and the ends point nowhere. */
  ghost predicate Chain(s: seq<Hook>)
    reads s
  {
    Distinct(s) && Forward(s) && Backward(s)
  }

  /** The sentinel and what is left, and what is taken, once c elements leave at the front. */
  lemma FrontApart(s: seq<Hook>, c: nat)
    requires Distinct(s) && 1 <= c < |s|
    ensures Distinct([s[0]] + s[c + 1..]) && Distinct(s[1..c + 1])
  {
  }

  lemma OneApart(s: seq<Hook>, k: nat)
    requires Distinct(s)
    ensures k < |s| ==> forall j :: 0 <= j < |s| && j != k ==> s[j] != s[k]
  {
  }

  /** A list that owns a chain without a sentinel. */
  class SList {
    var head: Hook?
    var tail: Hook?
    var count: nat
    ghost var nodes: seq<Hook>

    ghost predicate Valid()
      reads this, nodes
    {
      && Chain(nodes)
      && count == |nodes|
      && head == (if nodes == [] then null else nodes[0])
      && tail == (if nodes == [] then null else nodes[|nodes| - 1])
    }

    constructor ()
      ensures Valid() && nodes == []
    {
      head, tail, count, nodes := null, null, 0, [];
    }

    constructor Of(h: Hook, t: Hook, c: nat, ghost s: seq<Hook>)
      requires Chain(s) && c == |s| > 0 && h == s[0] && t == s[|s| - 1]
      ensures Valid() && nodes == s
    {
      head, tail, count, nodes := h, t, c, s;
    }

    method Stealed()
      modifies this
      ensures Valid() && nodes == []
    {
      head, tail, count, nodes := null, null, 0, [];
    }

    /** Takes over all elements of other, at the end. */
    method Append(other: SList)
      requires Valid() && other.Valid() && other != this
      requires Disjoint(nodes, other.nodes)
      modifies this, other, nodes, other.nodes
      ensures Valid() && other.Valid()
      ensures nodes == old(nodes) + old(other.nodes) && other.nodes == []
    {
      hide Chain, Distinct;
      if other.head == null {
        return;
      }
      if head == null {
        head, tail, count, nodes := other.head, other.tail, other.count, other.nodes;
        other.Stealed();
        return;
      }
      Join(other);
      other.Stealed();
    }

    /** Links the chain of other behind the last element. */
    method Join(other: SList)
      requires Valid() && other.Valid() && other != this && nodes != [] && other.nodes != []
      requires Disjoint(nodes, other.nodes)
      modifies this, nodes, other.nodes
      ensures Valid() && nodes == old(nodes) + other.nodes
    {
      ghost var n, t := |nodes|, nodes + other.nodes;
      assert forall i :: 0 <= i < |t| ==> t[i] == if i < n then nodes[i] else other.nodes[i - n];
      assert Distinct(t);
      tail.Link(other.head);
      tail := other.tail;
      count := count + other.count;
      nodes := t;
    }

    /** Splits off the first n elements. */
    method Cut(n: nat) returns (o: SList)
      requires Valid()
      modifies this, nodes
      ensures Valid() && o.Valid() && fresh(o)
      ensures o.nodes == CutTaken(old(nodes), n) && nodes == CutLeft(old(nodes), n)
    {
      hide Chain, Distinct;
      o := new SList();
      if head == null {
        return;
      }
      if n >= count {
        o.head, o.tail, o.count, o.nodes := head, tail, count, nodes;
        Stealed();
        return;
      }
      if n == 0 {
        return;
      }
      var pos := WalkTo(n);
      o.head, o.tail, o.count := head, pos, n;
      SplitAfter(pos, n);
      o.nodes := old(nodes)[..n];
    }

    /** The counting loop of cut. */
    method WalkTo(n: nat) returns (pos: Hook)
      requires Valid() && 0 < n < count
      ensures pos == nodes[n - 1]
    {
      pos := head;
      for i := 1 to n
        invariant pos == nodes[i - 1]
      {
        pos := pos.next;
      }
    }

    /** Makes the list start after its n-th element, and closes the chain before it. */
    method SplitAfter(pos: Hook, n: nat)
      requires Valid() && 0 < n < count && pos == nodes[n - 1]
      modifies this, nodes
      ensures Valid() && nodes == old(nodes[n..]) && Chain(old(nodes[..n]))
    {
      ghost var front, back := nodes[..n], nodes[n..];
      assert forall i :: 0 <= i < |back| ==> back[i] == nodes[i + n];
      count := count - n;
      head := pos.next;
      pos.Unlink(head);
      nodes := back;
    }

    /** Unlinks one element and frees it. */
    method Erase(ptr: Hook)
      requires Valid() && ptr in nodes
      modifies this, nodes
      ensures Valid() && nodes == Without(old(nodes), ptr)
      ensures ptr.prev == null && ptr.next == null
    {
      ghost var k :| 0 <= k < |nodes| && nodes[k] == ptr;
      assert nodes[k] !in nodes[..k];
      WithoutAt(nodes, k);
      EraseAt(ptr, k);
    }

    /** The predecessor of the k-th element, or the list head, is linked past it. */
    method BypassForward(ptr: Hook, ghost k: nat)
      requires Valid() && k < |nodes| && ptr == nodes[k]
      modifies this`head, nodes`next
      ensures Forward(nodes[..k] + nodes[k + 1..])
      ensures ptr.next == if k + 1 < |nodes| then nodes[k + 1] else null
      ensures head == if |nodes| == 1 then null else (nodes[..k] + nodes[k + 1..])[0]
    {
      if ptr.prev != null { ptr.prev.next := ptr.next; } else { head := head.next; }
    }

    /** The successor of the k-th element, or the list tail, is linked past it. */
    method BypassBackward(ptr: Hook, ghost k: nat)
      requires k < |nodes| && ptr == nodes[k] && Distinct(nodes) && Backward(nodes)
      requires tail == nodes[|nodes| - 1] && ptr.next == if k + 1 < |nodes| then nodes[k + 1] else null
      modifies this`tail, nodes`prev
      ensures Backward(nodes[..k] + nodes[k + 1..])
      ensures tail == if |nodes| == 1 then null else (nodes[..k] + nodes[k + 1..])[|nodes| - 2]
    {
      if ptr.next != null { ptr.next.prev := ptr.prev; } else { tail := tail.prev; }
    }

    method EraseAt(ptr: Hook, ghost k: nat)
      requires Valid() && k < |nodes| && ptr == nodes[k]
      modifies this, nodes
      ensures Valid() && nodes == old(nodes[..k] + nodes[k + 1..])
      ensures ptr.prev == null && ptr.next == null
    {
      hide Forward, Backward, Distinct;
      ghost var t := nodes[..k] + nodes[k + 1..];
      DropDistinct(nodes, k);
      BypassForward(ptr, k);
      BypassBackward(ptr, k);
      ptr.prev, ptr.next := null, null;
      count := count - 1;
      nodes := t;
    }

    /** Frees every element, erasing while iterating: the iterator has read the successor
        before the element goes. */
    method Clear() returns (ghost freed: seq<Hook>)
      requires Valid()
      modifies this, nodes
      ensures Valid() && nodes == []
      ensures freed == old(nodes)
    {
      ghost var all := nodes;
      var ptr := head;
      freed := [];
      while ptr != null
        invariant Valid() && ptr == head
        invariant |freed| <= |all| && freed == all[..|freed|] && nodes == all[|freed|..]
        decreases |nodes|
      {
        var next := ptr.next;
        freed := freed + [ptr];
        EraseAt(ptr, 0);
        ptr := next;
      }
      Stealed();
    }
  }

  lemma DropDistinct(s: seq<Hook>, k: nat)
    requires Distinct(s) && k < |s|
    ensures Distinct(s[..k] + s[k + 1..]) && s[k] !in s[..k] + s[k + 1..]
  {
  }

  /** The thread-safe queue: a sentinel followed by the elements. */
  class TSQueue {
    const sentinel: Hook
    var tail: Hook
    var count: nat
    var check: object?
    ghost var chain: seq<Hook>

    ghost predicate Valid()
      reads this, chain
    {
      && Chain(chain)
      && |chain| == count + 1
      && chain[0] == sentinel
      && tail == chain[count]
    }

    ghost function Elements(): seq<Hook>
      reads this
    {
      if chain == [] then [] else chain[1..]
    }

    constructor ()
      ensures Valid() && Elements() == [] && fresh(sentinel) && check == this
    {
      var hook := new Hook();
      sentinel := hook;
      tail := hook;
      count := 0;
      check := this;
      chain := [hook];
    }

    method PushWithoutLock(hook: Hook) returns (size: nat)
      requires Valid() && hook != sentinel && hook.prev == null && hook.next == null
      modifies this`tail, this`count, this`chain, tail, hook
      ensures Valid() && Elements() == old(Elements()) + [hook] && size == |Elements()|
      ensures hook.check == check
    {
      tail.Link(hook);
      tail := hook;
      hook.next := null;
      hook.check := check;
      count := count + 1;
      chain := chain + [hook];
      size := count;
    }

    method Pop() returns (ptr: Hook?)
      requires Valid()
      modifies this`tail, this`count, this`chain, chain
      ensures Valid() && (ptr == null <==> old(Elements()) == [])
      ensures ptr == null ==> Elements() == old(Elements())
      ensures ptr != null ==> ptr == old(Elements())[0] && Elements() == old(Elements())[1..]
      ensures ptr != null ==> ptr.prev == null && ptr.next == null && ptr.check == null
    {
      if sentinel == tail {
        return null;
      }
      ptr := sentinel.next;
      if ptr == tail { tail := sentinel; }
      sentinel.next := ptr.next;
      if ptr.next != null { ptr.next.prev := sentinel; }
      ptr.prev, ptr.next := null, null;
      ptr.check := null;
      count := count - 1;
      chain := [sentinel] + chain[2..];
    }

    method PushListWithoutLock(elements: SList)
      requires Valid() && elements.Valid() && Disjoint(chain, elements.nodes)
      modifies this`tail, this`count, this`chain, tail, elements, elements.nodes
      ensures Valid() && Elements() == old(Elements()) + old(elements.nodes)
      ensures elements.Valid() && elements.nodes == []
    {
      if elements.head == null {
        return;
      }
      count := count + elements.count;
      tail.Link(elements.head);
      tail := elements.tail;
      chain := chain + elements.nodes;
      elements.Stealed();
    }

    /** The counting loop of pop_front. */
    method WalkNext(first: Hook, n: nat) returns (last: Hook, c: nat)
      requires Valid() && count > 0 && first == chain[1]
      ensures c == Clip(n, count) && last == chain[c]
    {
      last, c := first, 1;
      while c < n && last.next != null
        invariant 1 <= c <= count && (c == 1 || c <= n)
        invariant last == chain[c]
      {
        last := last.next;
        c := c + 1;
      }
    }

    /** The counting loop of pop_back. */
    method WalkPrev(last: Hook, n: nat) returns (first: Hook, c: nat)
      requires Valid() && count > 0 && last == chain[count]
      ensures c == Clip(n, count) && first == chain[count + 1 - c]
    {
      first, c := last, 1;
      while c < n && first.prev != sentinel
        invariant 1 <= c <= count && (c == 1 || c <= n)
        invariant first == chain[count + 1 - c]
      {
        first := first.prev;
        c := c + 1;
      }
    }

    /** Cuts the first c elements out of the chain. */
    method DetachFront(first: Hook, last: Hook, c: nat)
      requires Valid() && 1 <= c <= count && first == chain[1] && last == chain[c]
      modifies this`tail, this`count, this`chain, chain
      ensures Valid() && chain == old([chain[0]] + chain[c + 1..])
      ensures Chain(old(chain[1..c + 1]))
    {
      hide Distinct;
      ghost var taken, t := chain[1..c + 1], [chain[0]] + chain[c + 1..];
      FrontApart(chain, c);
      OneApart(chain, 0);
      OneApart(chain, 1);
      OneApart(chain, c);
      OneApart(chain, c + 1);
      assert forall i :: 0 <= i < |taken| ==> taken[i] == chain[i + 1];
      assert forall i :: 0 <= i < |t| ==> t[i] == chain[if i == 0 then 0 else i + c];
      if last == tail { tail := sentinel; }
      sentinel.next := last.next;
      if last.next != null { last.next.prev := sentinel; }
      first.prev := null;
      last.next := null;
      count := count - c;
      chain := t;
    }

    method PopFront(n: nat) returns (l: SList)
      requires Valid()
      modifies this`tail, this`count, this`chain, chain
      ensures Valid() && l.Valid() && fresh(l)
      ensures l.nodes == FrontTaken(old(Elements()), n) && Elements() == FrontLeft(old(Elements()), n)
    {
      if sentinel == tail {
        l := new SList();
        return;
      }
      var first := sentinel.next;
      var last, c := WalkNext(first, n);
      ghost var taken := chain[1..c + 1];
      assert FrontTaken(Elements(), n) == taken && FrontLeft(Elements(), n) == chain[c + 1..];
      hide FrontTaken, FrontLeft, Chain;
      DetachFront(first, last, c);
      l := new SList.Of(first, last, c, taken);
    }

    /** Cuts the last c elements off the chain. */
    method DetachBack(first: Hook, c: nat)
      requires Valid() && 1 <= c <= count && first == chain[count + 1 - c]
      modifies this`tail, this`count, this`chain, chain
      ensures Valid() && chain == old(chain[..count + 1 - c])
      ensures Chain(old(chain[count + 1 - c..]))
    {
      tail := first.prev;
      first.prev := null;
      tail.next := null;
      count := count - c;
      ghost var taken := chain[count + 1..];
      chain := chain[..count + 1];
      assert forall i :: 0 <= i < |taken| ==> taken[i] == old(chain)[i + |chain|];
    }

    method PopBackWithoutLock(n: nat) returns (l: SList)
      requires Valid()
      modifies this`tail, this`count, this`chain, chain
      ensures Valid() && l.Valid() && fresh(l)
      ensures l.nodes == BackTaken(old(Elements()), n) && Elements() == BackLeft(old(Elements()), n)
    {
      if sentinel == tail {
        l := new SList();
        return;
      }
      var last := tail;
      var first, c := WalkPrev(last, n);
      ghost var taken := chain[count + 1 - c..];
      assert BackTaken(Elements(), n) == taken && BackLeft(Elements(), n) == chain[1..count + 1 - c];
      hide BackTaken, BackLeft, Chain;
      DetachBack(first, c);
      l := new SList.Of(first, last, c, taken);
    }

    method PopAllWithoutLock() returns (l: SList)
      requires Valid()
      modifies this`tail, this`count, this`chain, chain
      ensures Valid() && l.Valid() && fresh(l)
      ensures l.nodes == old(Elements()) && Elements() == []
    {
      if sentinel == tail {
        l := new SList();
        return;
      }
      var first := sentinel.next;
      var last := tail;
      tail := sentinel;
      sentinel.next := null;
      first.prev := null;
      last.next := null;
      var c := count;
      count := 0;
      ghost var taken := chain[1..];
      chain := [sentinel];
      l := new SList.Of(first, last, c, taken);
    }

    lemma MembersAreLinked()
      requires Valid()
      ensures forall h :: h in Elements() ==> h.prev != null
    {
    }

    /** Erasing a member, a hook that is in no list, or (with the check) a hook that was
        pushed to another queue. */
    method EraseWithoutLock(hook: Hook, withCheck: bool) returns (erased: bool)
      requires Valid()
      requires hook in Elements() || (hook.prev == null && hook.next == null) || (withCheck && hook.check != check)
      modifies this`tail, this`count, this`chain, chain
      ensures Valid()
      ensures erased <==> hook in old(Elements()) && (withCheck ==> old(hook.check) == check)
      ensures Elements() == if erased then Without(old(Elements()), hook) else old(Elements())
      ensures erased ==> hook.prev == null && hook.next == null && hook.check == null
    {
      MembersAreLinked();
      if hook.prev == null && hook.next == null {
        return false;
      }
      if withCheck && hook.check != check {
        return false;
      }
      ghost var k :| 0 <= k < |Elements()| && Elements()[k] == hook;
      assert Elements()[k] !in Elements()[..k];
      WithoutAt(Elements(), k);
      UnlinkAt(hook, k + 1);
      erased := true;
    }

    /** The predecessor of the k-th hook is linked past it. */
    method BypassForward(hook: Hook, ghost k: nat)
      requires Valid() && 0 < k < |chain| && hook == chain[k]
      modifies chain`next
      ensures Forward(chain[..k] + chain[k + 1..])
      ensures hook.next == if k + 1 < |chain| then chain[k + 1] else null
    {
      assert hook.prev != null && count > 0;
      if hook.prev != null { hook.prev.next := hook.next; }
    }

    /** The successor of the k-th hook is linked past it, or the tail moves back. */
    method BypassBackward(hook: Hook, ghost k: nat)
      requires 0 < k < |chain| && hook == chain[k] && Distinct(chain) && Backward(chain)
      requires tail == chain[|chain| - 1] && hook.next == if k + 1 < |chain| then chain[k + 1] else null
      modifies this`tail, chain`prev
      ensures Backward(chain[..k] + chain[k + 1..])
      ensures tail == (chain[..k] + chain[k + 1..])[|chain| - 2]
    {
      assert hook == tail || hook.next != null;
      if hook.next != null { hook.next.prev := hook.prev; }
      else if hook == tail { tail := tail.prev; }
    }

    method UnlinkAt(hook: Hook, ghost k: nat)
      requires Valid() && 0 < k < |chain| && hook == chain[k]
      modifies this`tail, this`count, this`chain, chain
      ensures Valid() && chain == old(chain[..k] + chain[k + 1..])
      ensures hook.prev == null && hook.next == null && hook.check == null
    {
      hide Forward, Backward, Distinct;
      ghost var t := chain[..k] + chain[k + 1..];
      DropDistinct(chain, k);
      BypassForward(hook, k);
      BypassBackward(hook, k);
      hook.prev, hook.next := null, null;
      hook.check := null;
      count := count - 1;
      chain := t;
    }
  }

  /** Cutting a list and appending the remainder to the part cut off restores it. */
  method CutThenAppend(l: SList, n: nat) returns (o: SList)
    requires l.Valid()
    modifies l, l.nodes
    ensures o.Valid() && o.nodes == old(l.nodes)
    ensures l.Valid() && l.nodes == []
  {
    ghost var all := l.nodes;
    o := l.Cut(n);
    assert o.nodes + l.nodes == all;
    o.Append(l);
  }

  /** Appending b to a and cutting as many elements as a had gives both lists back. */
  method AppendThenCut(a: SList, b: SList) returns (o: SList)
    requires a.Valid() && b.Valid() && a != b && Disjoint(a.nodes, b.nodes)
    modifies a, b, a.nodes, b.nodes
    ensures o.Valid() && o.nodes == old(a.nodes)
    ensures a.Valid() && a.nodes == old(b.nodes)
  {
    var n := a.count;
    a.Append(b);
    o := a.Cut(n);
  }
}
