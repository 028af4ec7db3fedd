/** Contexts that take turns on one processor: what does not depend on the machine or on the
    layout of its frames. */
module ContextRuns {

  /** The usable part of a context's stack, [lo, hi). */
  datatype Stack = Stack(lo: int, hi: int)

  ghost predicate Apart(stacks: seq<Stack>, top: int) {
    && (forall i :: 0 <= i < |stacks| ==> 0 <= stacks[i].lo && stacks[i].hi < top)
    && (forall i, j :: 0 <= i < j < |stacks| ==> stacks[i].hi <= stacks[j].lo || stacks[j].hi <= stacks[i].lo)
  }

  /** One context runs; the others that there are are parked. */
  datatype World<C, P> = World(cpu: C, cur: nat, parked: map<nat, P>)

  /** Work is anything the running context does itself.  Make and Jump are calls of
      make_fcontext and jump_fcontext for context j. */
  datatype Event = Work | Make(j: nat) | Jump(j: nat)

  /** A step changes no other parked context than the one that it names. */
  ghost predicate OthersStay<C, P>(w: World<C, P>, e: Event, w': World<C, P>) {
    forall j :: j in w.parked && (e.Work? || e.j != j) ==> j in w'.parked && w'.parked[j] == w.parked[j]
  }

  /** From step i on, up to step k, context j is neither entered nor made again. */
  ghost predicate LeftAlone(es: seq<Event>, j: nat, i: nat, k: nat) {
    i <= k <= |es| && forall n :: i <= n < k ==> es[n].Work? || es[n].j != j
  }

  lemma {:induction false} StaysParked<C, P>(ws: seq<World<C, P>>, es: seq<Event>, j: nat, i: nat, k: nat)
    requires |ws| == |es| + 1 && forall n :: 0 <= n < |es| ==> OthersStay(ws[n], es[n], ws[n + 1])
    requires LeftAlone(es, j, i, k) && j in ws[i].parked
    ensures j in ws[k].parked && ws[k].parked[j] == ws[i].parked[j]
    decreases k - i
  {
    if i == k {
    } else {
      assert OthersStay(ws[i], es[i], ws[i + 1]);
      StaysParked(ws, es, j, i + 1, k);
    }
  }
}
