/** What the callers of the ring queue see: a call ends with an answer and only then, and a call
    on a ring that has room, or an element, ends with success after a fixed number of steps. */
module RingCalls {
  import opened Basics
  import opened RingQueue

  // ---------------------------------------------------------------- calls, from the answers alone

  /** The push under way, if any: it began with the last StartPush that found none under way, and
      ends with Full or Pushed. */
  function Pushing<T>(k: Config, events: seq<Event<T>>): Option<T>
    requires k.Valid()
  {
    if events == [] then None
    else
      var before, e := events[..|events| - 1], events[|events| - 1];
      var l := LabelOf(k, Run(k, before), e);
      if e.StartPush? && Pushing(k, before).None? then Some(e.v)
      else if l.Full? || l.Pushed? then None
      else Pushing(k, before)
  }

  datatype Pop<T> = NoPop | Looking | Holding(v: T)

  /** The pop under way, if any: it begins with StartPop, and ends with Empty, or with Freed once it
      has taken an element. */
  function Popping<T>(k: Config, events: seq<Event<T>>): Pop<T>
    requires k.Valid()
  {
    if events == [] then NoPop
    else
      var before, e := events[..|events| - 1], events[|events| - 1];
      match LabelOf(k, Run(k, before), e)
      case Empty => NoPop
      case Freed => NoPop
      case Took(v) => Holding(v)
      case _ => if e.StartPop? && Popping(k, before).NoPop? then Looking else Popping(k, before)
  }

  function ArgumentOf<T>(p: Producer<T>): Option<T> {
    if p.PIdle? then None else Some(p.v)
  }

  function StageOf<T>(k: Config, s: State<T>): Pop<T>
    requires k.Valid()
  {
    match s.c
    case CIdle => NoPop
    case CTake(_) => if s.released < |s.items| then Holding(s.items[s.released]) else Looking
    case CRelease(_, t, _) => Holding(t)
    case _ => Looking
  }

  /** A step starts or ends a push only as its label says, and an answer is about its argument. */
  lemma PushStep<T>(k: Config, s: State<T>, e: Event<T>)
    requires k.Valid() && Inv(k, s)
    ensures var s', l := Next(k, s, e), LabelOf(k, s, e);
      && (l.Pushed? ==> ArgumentOf(s.p) == Some(l.v)) && (l.Full? ==> ArgumentOf(s.p).Some?)
      && ArgumentOf(s'.p) ==
           if e.StartPush? && ArgumentOf(s.p).None? then Some(e.v)
           else if l.Full? || l.Pushed? then None
           else ArgumentOf(s.p)
  {
    hide Slots, Pos, Config.Mod;
  }

  /** The producer is idle exactly when no push is under way: no push ends without an answer or
      goes on after one. */
  lemma {:induction false} PushesAnswered<T>(k: Config, events: seq<Event<T>>)
    requires k.Valid()
    ensures Run(k, events).p.PIdle? <==> Pushing(k, events).None?
    ensures Pushing(k, events) == ArgumentOf(Run(k, events).p)
  {
    hide Next, LabelOf, Inv;
    if events == [] {
    } else {
      var before := events[..|events| - 1];
      PushesAnswered(k, before);
      RunRefines(k, before);
      PushStep(k, Run(k, before), events[|events| - 1]);
    }
  }

  /** What is pushed is the argument of the push that says so. */
  lemma PushedItsArgument<T>(k: Config, events: seq<Event<T>>, i: nat)
    requires k.Valid() && i < |events|
    ensures var l := LabelOf(k, Run(k, events[..i]), events[i]);
      (l.Pushed? ==> Pushing(k, events[..i]) == Some(l.v)) && (l.Full? ==> Pushing(k, events[..i]).Some?)
  {
    hide Next, LabelOf, Inv, Run;
    PushesAnswered(k, events[..i]);
    RunRefines(k, events[..i]);
    PushStep(k, Run(k, events[..i]), events[i]);
  }

  lemma PopStep<T>(k: Config, s: State<T>, e: Event<T>)
    requires k.Valid() && Inv(k, s)
    ensures var s', l := Next(k, s, e), LabelOf(k, s, e);
      && (l.Took? || l.Empty? ==> StageOf(k, s) == Looking) && (l.Freed? ==> StageOf(k, s).Holding?)
      && s'.returned == s.returned + (if l.Freed? then [StageOf(k, s).v] else [])
      && StageOf(k, s') ==
           match l
           case Empty => NoPop
           case Freed => NoPop
           case Took(v) => Holding(v)
           case _ => if e.StartPop? && StageOf(k, s).NoPop? then Looking else StageOf(k, s)
  {
    hide Pos, Config.Mod;
    if e.Consume? && s.c.CTake? {
      TakeKeeps(k, s);
    }
  }

  /** Likewise the consumer. */
  lemma {:induction false} PopsAnswered<T>(k: Config, events: seq<Event<T>>)
    requires k.Valid()
    ensures Run(k, events).c.CIdle? <==> Popping(k, events).NoPop?
    ensures Popping(k, events) == StageOf(k, Run(k, events))
  {
    hide Next, LabelOf, Inv;
    if events == [] {
    } else {
      var before := events[..|events| - 1];
      PopsAnswered(k, before);
      RunRefines(k, before);
      PopStep(k, Run(k, before), events[|events| - 1]);
    }
  }

  /** A pop returns exactly what it took, when it has given the slot back, and nothing else is
      returned; it answers "empty" only before it has taken anything. */
  lemma PoppedWhatItTook<T>(k: Config, events: seq<Event<T>>, i: nat)
    requires k.Valid() && i < |events|
    ensures var l, s, s' := LabelOf(k, Run(k, events[..i]), events[i]), Run(k, events[..i]), Run(k, events[..i + 1]);
      && (l.Took? || l.Empty? ==> Popping(k, events[..i]).Looking?)
      && (l.Freed? ==> Popping(k, events[..i]).Holding?)
      && s'.returned == s.returned + if l.Freed? then [Popping(k, events[..i]).v] else []
  {
    hide Next, LabelOf, Inv;
    PopsAnswered(k, events[..i]);
    RunRefines(k, events[..i]);
    PopStep(k, Run(k, events[..i]), events[i]);
    assert events[..i + 1][..i] == events[..i];
  }

  // ---------------------------------------------------------------- progress

  /** The producer's own steps among these events. */
  function Produces<T>(events: seq<Event<T>>): nat {
    if events == [] then 0
    else Produces(events[..|events| - 1]) + if events[|events| - 1].Produce? then 1 else 0
  }

  function Consumes<T>(events: seq<Event<T>>): nat {
    if events == [] then 0
    else Consumes(events[..|events| - 1]) + if events[|events| - 1].Consume? then 1 else 0
  }

  /** No further push begins, and none of the producer's compare-exchanges fails spuriously; the
      consumer does as it likes. */
  ghost predicate PushOnly<T>(events: seq<Event<T>>) {
    forall i :: 0 <= i < |events| ==> !events[i].StartPush? && events[i] != Produce(true)
  }

  ghost predicate PopOnly<T>(events: seq<Event<T>>) {
    forall i :: 0 <= i < |events| ==> !events[i].StartPop? && events[i] != Consume(true)
  }

  function StepsToPublish<T>(p: Producer<T>): nat {
    match p
    case PIdle => 0
    case PPublish(_, _, _) => 1
    case PLoadReadable(_, _) => 2
    case PStore(_, _) => 3
    case PClaim(_, _) => 4
    case PLoadWritable(_, _) => 5
    case PLoadWrite(_) => 6
  }

  /** What is published and not given back leaves room for an element. */
  ghost predicate Room<T>(k: Config, s: State<T>)
    requires k.Valid()
  {
    s.published < s.released + k.Capacity()
  }

  /** The push of v has had `steps` of its steps. */
  ghost predicate Underway<T>(s: State<T>, v: T, steps: nat) {
    if steps >= 6 then s.p.PIdle?
    else ArgumentOf(s.p) == Some(v) && StepsToPublish(s.p) == 6 - steps
  }

  lemma ConsumerApart<T>(k: Config, s: State<T>, spurious: bool)
    requires k.Valid()
    ensures var s' := ConsumerStep(k, s, spurious);
      s'.p == s.p && s'.published == s.published && s'.released >= s.released && !LabelOf(k, s, Consume(spurious)).Pushed?
  {
    hide Config.Mod;
  }

  /** The producer's next step, on a ring with room. */
  lemma ProducerAhead<T>(k: Config, s: State<T>, v: T, steps: nat)
    requires k.Valid() && Inv(k, s) && Underway(s, v, steps) && steps < 6 && Room(k, s)
    ensures var s', l := ProducerStep(k, s, false), LabelOf(k, s, Produce(false));
      && Underway(s', v, steps + 1) && (steps < 5 ==> Room(k, s'))
      && (if steps == 5 then l == Pushed(v) else !l.Pushed?)
  {
    hide Slots, Pos, Config.Mod;
    if s.p.PLoadWritable? {
      SameSlot(k, |s.items|, s.released + k.Capacity());
    }
  }

  /** Until it publishes, nobody but the push itself takes up room. */
  lemma PushGoesOn<T>(k: Config, s: State<T>, e: Event<T>, v: T, steps: nat)
    requires k.Valid() && Inv(k, s) && Underway(s, v, steps) && (steps < 6 ==> Room(k, s))
    requires !e.StartPush? && e != Produce(true)
    ensures Inv(k, Next(k, s, e))
    ensures var steps', l := steps + (if e.Produce? then 1 else 0), LabelOf(k, s, e);
      && Underway(Next(k, s, e), v, steps') && (steps' < 6 ==> Room(k, Next(k, s, e)))
      && (if e.Produce? && steps == 5 then l == Pushed(v) else !l.Pushed?)
  {
    hide Inv, ProducerStep, ConsumerStep;
    NextInv(k, s, e);
    match e {
      case Consume(spurious) => ConsumerApart(k, s, spurious);
      case Produce(_) =>
        if steps < 6 {
          ProducerAhead(k, s, v, steps);
        } else {
          IdleStays(k, s);
        }
      case _ =>
    }
  }

  lemma NextInv<T>(k: Config, s: State<T>, e: Event<T>)
    requires k.Valid() && Inv(k, s)
    ensures Inv(k, Next(k, s, e))
  {
    hide Inv;
    StepRefines(k, s, e);
  }

  lemma IdleStays<T>(k: Config, s: State<T>)
    requires k.Valid()
    ensures s.p.PIdle? ==> ProducerStep(k, s, false) == s && !LabelOf(k, s, Produce(false)).Pushed?
  {
  }

  lemma {:induction false} PushProgress<T>(k: Config, events: seq<Event<T>>, more: seq<Event<T>>, v: T)
    requires k.Valid() && Inv(k, Run(k, events)) && Underway(Run(k, events), v, 0) && Room(k, Run(k, events))
    requires PushOnly(more)
    ensures var s' := Run(k, events + more);
      && Inv(k, s') && Underway(s', v, Produces(more)) && (Produces(more) < 6 ==> Room(k, s'))
      && Pushes(Labels(k, events + more)) == Pushes(Labels(k, events)) + if Produces(more) >= 6 then [v] else []
  {
    hide Inv, Next, LabelOf, Underway, Room, Run, Labels, Pushes;
    if more == [] {
      assert events + more == events;
    } else {
      var front, e := more[..|more| - 1], more[|more| - 1];
      PushProgress(k, events, front, v);
      PushGoesOn(k, Run(k, events + front), e, v, Produces(front));
      LabelsGrow(k, events + front, e);
      assert events + more == events + front + [e];
    }
  }

  lemma LabelsGrow<T>(k: Config, events: seq<Event<T>>, e: Event<T>)
    requires k.Valid()
    ensures Run(k, events + [e]) == Next(k, Run(k, events), e)
    ensures var l := LabelOf(k, Run(k, events), e);
      && Labels(k, events + [e]) == Labels(k, events) + [l]
      && Pushes(Labels(k, events + [e])) == Pushes(Labels(k, events)) + (if l.Pushed? then [l.v] else [])
      && Takes(Labels(k, events + [e])) == Takes(Labels(k, events)) + (if l.Took? then [l.v] else [])
  {
    hide Next, LabelOf;
    assert (events + [e])[..|events|] == events;
    var l := LabelOf(k, Run(k, events), e);
    assert (Labels(k, events) + [l])[..|Labels(k, events)|] == Labels(k, events);
  }

  /** A push that finds room succeeds: with six steps of its own it has pushed its argument, whatever
      the consumer does in between, and nothing else. */
  lemma PushSucceeds<T>(k: Config, events: seq<Event<T>>, v: T, more: seq<Event<T>>)
    requires k.Valid() && Pushing(k, events).None? && PushOnly(more) && Produces(more) >= 6
    requires var f := SpecRun(k.Capacity(), Labels(k, events));
      f.Some? && |f.value.queue| + f.value.busy < k.Capacity()
    ensures Pushing(k, events + [StartPush(v)] + more).None?
    ensures Pushes(Labels(k, events + [StartPush(v)] + more)) == Pushes(Labels(k, events)) + [v]
  {
    hide Inv;
    var started := events + [StartPush(v)];
    RunRefines(k, events);
    PushesAnswered(k, events);
    LabelsGrow(k, events, StartPush(v));
    RunRefines(k, started);
    StartedRoom(k, Run(k, events), v);
    hide Next, LabelOf;
    PushProgress(k, started, more, v);
    PushesAnswered(k, started + more);
  }

  lemma StartedRoom<T>(k: Config, s: State<T>, v: T)
    requires k.Valid() && Inv(k, s) && |Abs(k, s).queue| + Abs(k, s).busy < k.Capacity() && s.p.PIdle?
    ensures var s' := Next(k, s, StartPush(v));
      Inv(k, s') && Underway(s', v, 0) && Room(k, s')
  {
    hide Slots, Pos;
    StepRefines(k, s, StartPush(v));
  }

  // ---------------------------------------------------------------- pops

  /** The first attempt to give a slot back may expect the wrong index; the second one does not. */
  function StepsToReturn<T>(s: State<T>): nat {
    match s.c
    case CIdle => 0
    case CRelease(_, _, x) => if x == s.writable then 1 else 2
    case CTake(_) => 3
    case CClaim(_) => 4
    case CLoadReadable(_) => 5
    case CLoadRead => 6
  }

  /** The pop under way is to return x, after r. */
  ghost predicate PopOf<T>(s: State<T>, x: T, r: seq<T>) {
    match s.c
    case CIdle => s.returned == r + [x]
    case CTake(_) => s.released < |s.items| && s.items[s.released] == x && s.returned == r
    case CRelease(_, t, _) => t == x && s.returned == r
    case _ => s.taken < s.published <= |s.items| && s.items[s.taken] == x && s.returned == r
  }

  lemma ProducerApart<T>(k: Config, s: State<T>, spurious: bool, x: T, r: seq<T>)
    requires k.Valid() && PopOf(s, x, r) && Inv(k, s)
    ensures var s' := ProducerStep(k, s, spurious);
      PopOf(s', x, r) && s'.c == s.c && StepsToReturn(s') == StepsToReturn(s)
  {
    hide Slots, Config.Mod, Pos;
  }

  lemma ConsumerAhead<T>(k: Config, s: State<T>, x: T, r: seq<T>)
    requires k.Valid() && PopOf(s, x, r) && Inv(k, s)
    ensures var s' := ConsumerStep(k, s, false);
      PopOf(s', x, r) && (StepsToReturn(s') < StepsToReturn(s) || s'.c.CIdle?)
  {
    hide Config.Mod, Pos;
    if s.c.CLoadReadable? {
      SameSlot(k, s.taken, s.published);
    }
    if s.c.CTake? {
      TakeKeeps(k, s);
    }
    hide Slots;
  }

  lemma PopGoesOn<T>(k: Config, s: State<T>, e: Event<T>, x: T, r: seq<T>)
    requires k.Valid() && Inv(k, s) && PopOf(s, x, r) && !e.StartPop? && e != Consume(true)
    ensures Inv(k, Next(k, s, e)) && PopOf(Next(k, s, e), x, r)
    ensures StepsToReturn(Next(k, s, e)) <= StepsToReturn(s)
    ensures e.Consume? ==> StepsToReturn(Next(k, s, e)) < StepsToReturn(s) || Next(k, s, e).c.CIdle?
  {
    hide Inv, ProducerStep, ConsumerStep;
    NextInv(k, s, e);
    match e {
      case Produce(spurious) => ProducerApart(k, s, spurious, x, r);
      case Consume(_) => ConsumerAhead(k, s, x, r);
      case _ =>
    }
  }

  lemma {:induction false} PopProgress<T>(k: Config, events: seq<Event<T>>, more: seq<Event<T>>, x: T, r: seq<T>)
    requires k.Valid() && Inv(k, Run(k, events)) && PopOf(Run(k, events), x, r) && StepsToReturn(Run(k, events)) <= 6
    requires PopOnly(more)
    ensures var s' := Run(k, events + more);
      && Inv(k, s') && PopOf(s', x, r) && (s'.c.CIdle? || StepsToReturn(s') + Consumes(more) <= 6)
  {
    hide Inv, Next, LabelOf, PopOf, StepsToReturn, Run, Labels, Pushes;
    if more == [] {
      assert events + more == events;
    } else {
      var front, e := more[..|more| - 1], more[|more| - 1];
      PopProgress(k, events, front, x, r);
      PopGoesOn(k, Run(k, events + front), e, x, r);
      LabelsGrow(k, events + front, e);
      assert events + more == events + front + [e];
      IdleIsDone(Run(k, events + front));
      IdleIsDone(Run(k, events + more));
    }
  }

  lemma IdleIsDone<T>(s: State<T>)
    ensures StepsToReturn(s) == 0 <==> s.c.CIdle?
  {
  }

  /** A pop that finds an element succeeds: with six steps of its own it has returned the oldest one,
      whatever the producer does in between. */
  lemma PopSucceeds<T>(k: Config, events: seq<Event<T>>, more: seq<Event<T>>)
    requires k.Valid() && Popping(k, events).NoPop? && PopOnly(more) && Consumes(more) >= 6
    requires var f := SpecRun(k.Capacity(), Labels(k, events));
      f.Some? && f.value.queue != []
    ensures Popping(k, events + [StartPop] + more).NoPop?
    ensures Run(k, events + [StartPop] + more).returned
         == Run(k, events).returned + [SpecRun(k.Capacity(), Labels(k, events)).value.queue[0]]
  {
    hide Inv;
    var started, s := events + [StartPop], Run(k, events);
    RunRefines(k, events);
    PopsAnswered(k, events);
    LabelsGrow(k, events, StartPop);
    RunRefines(k, started);
    var x := SpecRun(k.Capacity(), Labels(k, events)).value.queue[0];
    StartedPop(k, s, x);
    hide Next, LabelOf;
    PopProgress(k, started, more, x, s.returned);
    PopsAnswered(k, started + more);
    IdleIsDone(Run(k, started + more));
  }

  lemma StartedPop<T>(k: Config, s: State<T>, x: T)
    requires k.Valid() && Inv(k, s) && Abs(k, s).queue != [] && Abs(k, s).queue[0] == x && s.c.CIdle?
    ensures PopOf(Next(k, s, StartPop), x, s.returned) && StepsToReturn(Next(k, s, StartPop)) == 6
  {
    hide Slots, Pos;
  }

  // ---------------------------------------------------------------- every call ends

  lemma PushSooner<T>(k: Config, s: State<T>, e: Event<T>)
    requires k.Valid() && Inv(k, s) && !e.StartPush? && e != Produce(true)
    ensures var s' := Next(k, s, e);
      && StepsToPublish(s'.p) <= StepsToPublish(s.p)
      && (e.Produce? ==> s'.p.PIdle? || StepsToPublish(s'.p) < StepsToPublish(s.p))
  {
    hide Slots, Pos, Config.Mod;
    if e.Consume? {
      ConsumerApart(k, s, e.spurious);
      hide ConsumerStep;
    }
  }

  lemma {:induction false} PushShortens<T>(k: Config, events: seq<Event<T>>, more: seq<Event<T>>)
    requires k.Valid() && PushOnly(more) && StepsToPublish(Run(k, events).p) <= 6
    ensures var p' := Run(k, events + more).p; p'.PIdle? || StepsToPublish(p') + Produces(more) <= 6
  {
    hide Inv, Next, LabelOf, StepsToPublish, Run, Labels, Pushes;
    if more == [] {
      assert events + more == events;
    } else {
      var front, e := more[..|more| - 1], more[|more| - 1];
      PushShortens(k, events, front);
      RunRefines(k, events + front);
      PushSooner(k, Run(k, events + front), e);
      LabelsGrow(k, events + front, e);
      assert events + more == events + front + [e];
      IdlePublishes(Run(k, events + front).p);
      IdlePublishes(Run(k, events + more).p);
    }
  }

  lemma IdlePublishes<T>(p: Producer<T>)
    ensures StepsToPublish(p) == 0 <==> p.PIdle?
  {
  }

  /** Six steps of its own end any push, with one answer or the other. */
  lemma PushEnds<T>(k: Config, events: seq<Event<T>>, more: seq<Event<T>>)
    requires k.Valid() && PushOnly(more) && Produces(more) >= 6
    ensures Pushing(k, events + more).None?
  {
    PushShortens(k, events, more);
    PushesAnswered(k, events + more);
    IdlePublishes(Run(k, events + more).p);
  }

  lemma PopSooner<T>(k: Config, s: State<T>, e: Event<T>)
    requires k.Valid() && Inv(k, s) && !e.StartPop? && e != Consume(true)
    ensures var s' := Next(k, s, e);
      && StepsToReturn(s') <= StepsToReturn(s)
      && (e.Consume? ==> s'.c.CIdle? || StepsToReturn(s') < StepsToReturn(s))
  {
    hide Pos, Config.Mod;
    if e.Consume? && s.c.CTake? {
      TakeKeeps(k, s);
    }
    hide Slots;
  }

  lemma {:induction false} PopShortens<T>(k: Config, events: seq<Event<T>>, more: seq<Event<T>>)
    requires k.Valid() && PopOnly(more) && StepsToReturn(Run(k, events)) <= 6
    ensures var s' := Run(k, events + more); s'.c.CIdle? || StepsToReturn(s') + Consumes(more) <= 6
  {
    hide Inv, Next, LabelOf, StepsToReturn, Run, Labels, Pushes;
    if more == [] {
      assert events + more == events;
    } else {
      var front, e := more[..|more| - 1], more[|more| - 1];
      PopShortens(k, events, front);
      RunRefines(k, events + front);
      PopSooner(k, Run(k, events + front), e);
      LabelsGrow(k, events + front, e);
      assert events + more == events + front + [e];
      IdleIsDone(Run(k, events + front));
      IdleIsDone(Run(k, events + more));
    }
  }

  /** Six steps of its own end any pop. */
  lemma PopEnds<T>(k: Config, events: seq<Event<T>>, more: seq<Event<T>>)
    requires k.Valid() && PopOnly(more) && Consumes(more) >= 6
    ensures Popping(k, events + more).NoPop?
  {
    PopShortens(k, events, more);
    PopsAnswered(k, events + more);
    IdleIsDone(Run(k, events + more));
  }
}
