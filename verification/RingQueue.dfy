/** LockFreeRingQueue of lock_free_ring_queue.h, used by one producer and one consumer.

    The two threads interleave at every atomic access: each load, each compare-exchange
    (which may also fail spuriously and then loads the observed value into its expected
    argument) and each access to a slot is one step.  The queue is shown to refine a
    bounded FIFO under every interleaving, for every capacity and every index width. */
module RingQueue {
  import opened Basics

  /** slots is capacity_ (the requested capacity plus one); width is the number of values
      of SizeType, into which every index is truncated. */
  datatype Config = Config(slots: nat, width: nat) {
    ghost predicate Valid() { 1 <= slots <= width }

    function Capacity(): nat requires slots >= 1 { slots - 1 }

    /** mod(): truncate to SizeType, then reduce. */
    function Mod(x: nat): nat requires slots >= 1 && width >= 1 { x % width % slots }
  }

  datatype Producer<T> =
    | PIdle
    | PLoadWrite(v: T)
    | PLoadWritable(v: T, w: nat)
    | PClaim(v: T, w: nat)
    | PStore(v: T, w: nat)
    | PLoadReadable(v: T, expected: nat)
    | PPublish(v: T, expected: nat, readable: nat)

  datatype Consumer<T> =
    | CIdle
    | CLoadRead
    | CLoadReadable(r: nat)
    | CClaim(r: nat)
    | CTake(r: nat)
    | CRelease(r: nat, t: T, expected: nat)

  /** The four atomic indices, the slots (None: no element constructed there), the two
      threads, and history variables that no step reads: the values whose push has claimed
      a slot, how many of them are published, claimed by a pop and released by a pop, and
      what the pops have returned. */
  datatype State<T> = State(
    write: nat, writable: nat, read: nat, readable: nat,
    buffer: seq<Option<T>>,
    p: Producer<T>, c: Consumer<T>,
    items: seq<T>, published: nat, taken: nat, released: nat,
    returned: seq<T>)

  datatype Event<T> =
    | StartPush(v: T)
    | StartPop
    | Produce(spurious: bool)
    | Consume(spurious: bool)

  function Init<T>(k: Config): State<T>
    requires k.Valid()
  {
    State(0, k.Capacity() % k.width, 0, 0, seq(k.slots, _ => None), PIdle, CIdle, [], 0, 0, 0, [])
  }

  function Next<T>(k: Config, s: State<T>, e: Event<T>): State<T>
    requires k.Valid()
  {
    match e
    case StartPush(v) => if s.p.PIdle? then s.(p := PLoadWrite(v)) else s
    case StartPop => if s.c.CIdle? then s.(c := CLoadRead) else s
    case Produce(spurious) => ProducerStep(k, s, spurious)
    case Consume(spurious) => ConsumerStep(k, s, spurious)
  }

  function ProducerStep<T>(k: Config, s: State<T>, spurious: bool): State<T>
    requires k.Valid()
  {
    match s.p
    case PIdle => s
    case PLoadWrite(v) => s.(p := PLoadWritable(v, s.write))
    case PLoadWritable(v, w) => if w == s.writable then s.(p := PIdle) else s.(p := PClaim(v, w))
    case PClaim(v, w) =>
      if !spurious && s.write == w
      then s.(write := k.Mod(w + 1), p := PStore(v, w), items := s.items + [v])
      else s.(p := PLoadWrite(v))
    case PStore(v, w) =>
      if w < |s.buffer|
      then s.(buffer := s.buffer[w := Some(v)], p := PLoadReadable(v, w))
      else s.(p := PLoadReadable(v, w))
    case PLoadReadable(v, x) => s.(p := PPublish(v, x, s.readable))
    case PPublish(v, x, r) =>
      if !spurious && s.readable == x
      then s.(readable := k.Mod(r + 1), p := PIdle, published := s.published + 1)
      else s.(p := PLoadReadable(v, s.readable))
  }

  function ConsumerStep<T>(k: Config, s: State<T>, spurious: bool): State<T>
    requires k.Valid()
  {
    match s.c
    case CIdle => s
    case CLoadRead => s.(c := CLoadReadable(s.read))
    case CLoadReadable(r) => if r == s.readable then s.(c := CIdle) else s.(c := CClaim(r))
    case CClaim(r) =>
      if !spurious && s.read == r
      then s.(read := k.Mod(r + 1), c := CTake(r), taken := s.taken + 1)
      else s.(c := CLoadRead)
    case CTake(r) =>
      if r < |s.buffer| && s.buffer[r].Some?
      then s.(buffer := s.buffer[r := None], c := CRelease(r, s.buffer[r].value, k.Mod(r + k.slots - 1)))
      else s.(c := CIdle)
    case CRelease(r, t, x) =>
      if !spurious && s.writable == x
      then s.(writable := r, c := CIdle, released := s.released + 1, returned := s.returned + [t])
      else s.(c := CRelease(r, t, s.writable))
  }

  function Run<T>(k: Config, events: seq<Event<T>>): State<T>
    requires k.Valid()
  {
    if events == [] then Init(k) else Next(k, Run(k, events[..|events| - 1]), events[|events| - 1])
  }

  // ---------------------------------------------------------------- arithmetic of the ring

  /** The slot of the i-th element ever pushed. */
  function Pos(i: nat, c: nat): (r: nat)
    requires 0 < c
    ensures r < c
  {
    if i < c then i else Pos(i - c, c)
  }

  lemma {:induction false} PosStep(i: nat, c: nat)
    requires 0 < c
    ensures Pos(i + 1, c) == if Pos(i, c) + 1 == c then 0 else Pos(i, c) + 1
  {
    if i < c {
    } else {
      PosStep(i - c, c);
    }
  }

  /** Elements less than a full turn apart are in different slots. */
  lemma {:induction false} PosDistinct(i: nat, j: nat, c: nat)
    requires 0 < c && i < j < i + c
    ensures Pos(i, c) != Pos(j, c)
  {
    if i < c {
    } else {
      PosDistinct(i - c, j - c, c);
    }
  }

  lemma PosTurn(i: nat, c: nat)
    requires 0 < c
    ensures Pos(i + c, c) == Pos(i, c)
  {
  }

  lemma ModSmall(x: nat, c: nat)
    requires 0 < c && x < 2 * c
    ensures x % c == if x < c then x else x - c
  {
    if x >= c {
      assert (x - c + c) % c == (x - c) % c;
    }
  }

  /** The code's next index, truncation included, is the next slot. */
  lemma NextSlot(k: Config, i: nat)
    requires k.Valid()
    ensures k.Mod(Pos(i, k.slots) + 1) == Pos(i + 1, k.slots)
  {
    PosStep(i, k.slots);
    ModOfSmall(k, Pos(i, k.slots) + 1);
  }

  // ---------------------------------------------------------------- the invariant

  function Claimed<T>(s: State<T>): nat { if s.p.PStore? || s.p.PLoadReadable? || s.p.PPublish? then 1 else 0 }
  function Busy<T>(s: State<T>): nat { if s.c.CTake? || s.c.CRelease? then 1 else 0 }
  function Constructed<T>(s: State<T>): nat { s.published + if s.p.PLoadReadable? || s.p.PPublish? then 1 else 0 }
  function Destroyed<T>(s: State<T>): int { s.taken - if s.c.CTake? then 1 else 0 }

  /** Counters: how the history variables bound one another and give the four indices. */
  ghost predicate Indices<T>(k: Config, s: State<T>)
    requires k.Valid()
  {
    && s.taken == s.released + Busy(s)
    && |s.items| == s.published + Claimed(s)
    && s.taken <= s.published
    && |s.items| <= s.released + k.Capacity()
    && s.write == Pos(|s.items|, k.slots)
    && s.readable == Pos(s.published, k.slots)
    && s.read == Pos(s.taken, k.slots)
    && s.writable == Pos(s.released + k.Capacity(), k.slots)
    && s.returned == s.items[..s.released]
  }

  /** Slots: exactly the positions from Destroyed to Constructed hold a live element, the
      one pushed there; every other slot is empty. */
  ghost predicate Slots<T>(k: Config, s: State<T>)
    requires k.Valid() && Indices(k, s)
  {
    && |s.buffer| == k.slots
    && (forall i {:trigger s.items[i]} :: Destroyed(s) <= i < Constructed(s) ==> s.buffer[Pos(i, k.slots)] == Some(s.items[i]))
    && (forall i: nat {:trigger Pos(i, k.slots)} :: Constructed(s) <= i < Destroyed(s) + k.slots ==> s.buffer[Pos(i, k.slots)] == None)
  }

  /** Locals: what each thread has loaded is still what it needs. */
  ghost predicate Locals<T>(k: Config, s: State<T>)
    requires k.Valid() && Indices(k, s)
  {
    && (match s.p
        case PLoadWritable(_, w) => w == s.write
        case PClaim(_, w) => w == s.write && |s.items| < s.released + k.Capacity()
        case PStore(v, w) => w == Pos(s.published, k.slots) && v == s.items[s.published]
        case PLoadReadable(v, x) => x == s.readable && v == s.items[s.published]
        case PPublish(v, x, r) => x == r == s.readable && v == s.items[s.published]
        case _ => true)
    && (match s.c
        case CLoadReadable(r) => r == s.read
        case CClaim(r) => r == s.read && s.taken < s.published
        case CTake(r) => r == Pos(s.released, k.slots)
        case CRelease(r, t, x) => r == Pos(s.released, k.slots) && t == s.items[s.released]
        case _ => true)
  }

  ghost predicate Inv<T>(k: Config, s: State<T>)
    requires k.Valid()
  {
    Indices(k, s) && Slots(k, s) && Locals(k, s)
  }

  lemma InitInv<T>(k: Config)
    requires k.Valid()
    ensures Inv<T>(k, Init(k)) && Abs<T>(k, Init(k)) == Fifo([], 0)
  {
    ModSmall(k.Capacity(), k.width);
  }

  /** A push stores into a slot that is empty and that no pop is reading; afterwards that
      slot, and no other, has become live. */
  lemma StoreKeeps<T>(k: Config, s: State<T>)
    requires k.Valid() && Inv(k, s) && s.p.PStore?
    ensures s.p.w < |s.buffer| && s.buffer[s.p.w] == None
    ensures s.c.CTake? ==> s.c.r != s.p.w
    ensures Slots(k, ProducerStep(k, s, false))
  {
    var n := s.published;
    assert s.buffer[Pos(n, k.slots)] == None;
    forall i: nat | Destroyed(s) <= i < Destroyed(s) + k.slots && i != n
      ensures Pos(i, k.slots) != Pos(n, k.slots)
    {
      if i < n { PosDistinct(i, n, k.slots); } else { PosDistinct(n, i, k.slots); }
    }
    if s.c.CTake? {
      assert s.released == Destroyed(s);
    }
  }

  /** A pop finds the element it claimed, and empties that slot and no other. */
  lemma TakeKeeps<T>(k: Config, s: State<T>)
    requires k.Valid() && Inv(k, s) && s.c.CTake?
    ensures s.c.r < |s.buffer| && s.buffer[s.c.r] == Some(s.items[s.released])
    ensures Slots(k, ConsumerStep(k, s, false))
  {
    var n := s.released;
    assert Destroyed(s) == n && s.items[n] == s.items[n];
    forall i: nat | n < i < n + k.slots
      ensures Pos(i, k.slots) != Pos(n, k.slots)
    {
      PosDistinct(n, i, k.slots);
    }
    assert Pos(n + k.slots, k.slots) == Pos(n, k.slots);
  }

  // ---------------------------------------------------------------- the bounded FIFO

  /** queue holds what has been pushed and not yet popped; busy counts pops that have taken
      their element but not yet given its slot back. */
  datatype Fifo<T> = Fifo(queue: seq<T>, busy: nat)

  datatype Label<T> = Silent | Pushed(v: T) | Full | Took(v: T) | Empty | Freed

  /** What a bounded FIFO allows, step by step; None for a step that it forbids. */
  function Spec<T(==)>(capacity: nat, f: Fifo<T>, l: Label<T>): Option<Fifo<T>> {
    match l
    case Silent => Some(f)
    case Pushed(v) => if |f.queue| + f.busy < capacity then Some(f.(queue := f.queue + [v])) else None
    case Full => if |f.queue| + f.busy == capacity then Some(f) else None
    case Took(v) => if f.queue != [] && f.queue[0] == v && f.busy == 0 then Some(Fifo(f.queue[1..], 1)) else None
    case Empty => if f.queue == [] then Some(f) else None
    case Freed => if f.busy == 1 then Some(f.(busy := 0)) else None
  }

  ghost function Abs<T>(k: Config, s: State<T>): Fifo<T>
    requires k.Valid() && Indices(k, s)
  {
    Fifo(s.items[s.taken..s.published], s.taken - s.released)
  }

  /** What a step answers or makes visible: a push takes effect when it publishes, a pop
      when it claims. */
  function LabelOf<T>(k: Config, s: State<T>, e: Event<T>): Label<T>
    requires k.Valid()
  {
    match e
    case StartPush(_) => Silent
    case StartPop => Silent
    case Produce(spurious) =>
      (match s.p
       case PLoadWritable(_, w) => if w == s.writable then Full else Silent
       case PPublish(v, x, _) => if !spurious && s.readable == x then Pushed(v) else Silent
       case _ => Silent)
    case Consume(spurious) =>
      (match s.c
       case CLoadReadable(r) => if r == s.readable then Empty else Silent
       case CClaim(r) => if !spurious && s.read == r && s.taken < |s.items| then Took(s.items[s.taken]) else Silent
       case CRelease(r, _, x) => if !spurious && s.writable == x then Freed else Silent
       case _ => Silent)
  }

  lemma SameSlot(k: Config, i: nat, j: nat)
    requires k.Valid() && i <= j <= i + k.Capacity()
    ensures Pos(i, k.slots) == Pos(j, k.slots) <==> i == j
  {
    if i < j {
      PosDistinct(i, j, k.slots);
    }
  }

  /** A step that neither touches a slot nor moves the live region keeps Slots. */
  lemma SlotsFrame<T>(k: Config, s: State<T>, s': State<T>)
    requires k.Valid() && Indices(k, s) && Slots(k, s) && Indices(k, s')
    requires s'.buffer == s.buffer && s.items <= s'.items
    requires Destroyed(s') == Destroyed(s) && Constructed(s') == Constructed(s)
    ensures Slots(k, s')
  {
    assert forall i :: Destroyed(s) <= i < Constructed(s) ==> s'.items[i] == s.items[i];
  }

  /** A step keeps the invariant and is one the bounded FIFO allows. */
  ghost predicate Refines<T>(k: Config, s: State<T>, e: Event<T>)
    requires k.Valid() && Inv(k, s)
  {
    var s' := Next(k, s, e);
    Inv(k, s') && Spec(k.Capacity(), Abs(k, s), LabelOf(k, s, e)) == Some(Abs(k, s'))
  }

  lemma LoadRefines<T>(k: Config, s: State<T>, e: Event<T>)
    requires k.Valid() && Inv(k, s)
    requires e.StartPush? || e.StartPop?
      || (e.Produce? && (s.p.PIdle? || s.p.PLoadWrite? || s.p.PLoadReadable?))
      || (e.Consume? && (s.c.CIdle? || s.c.CLoadRead?))
    ensures Refines(k, s, e)
  {
    hide Slots, Pos;
    var s' := Next(k, s, e);
    SlotsFrame(k, s, s');
  }

  /** "Full" is answered only when the elements and the pop in progress use every slot. */
  lemma FullRefines<T>(k: Config, s: State<T>, spurious: bool)
    requires k.Valid() && Inv(k, s) && s.p.PLoadWritable?
    ensures Refines(k, s, Produce(spurious))
  {
    hide Slots, Pos;
    var s' := Next(k, s, Produce(spurious));
    SameSlot(k, |s.items|, s.released + k.Capacity());
    SlotsFrame(k, s, s');
  }

  /** "Empty" is answered only when nothing is pushed and not popped. */
  lemma EmptyRefines<T>(k: Config, s: State<T>, spurious: bool)
    requires k.Valid() && Inv(k, s) && s.c.CLoadReadable?
    ensures Refines(k, s, Consume(spurious))
  {
    hide Slots, Pos;
    var s' := Next(k, s, Consume(spurious));
    SameSlot(k, s.taken, s.published);
    SlotsFrame(k, s, s');
  }

  lemma PushClaimRefines<T>(k: Config, s: State<T>, spurious: bool)
    requires k.Valid() && Inv(k, s) && s.p.PClaim?
    ensures Refines(k, s, Produce(spurious))
  {
    hide Slots, Pos;
    var s' := Next(k, s, Produce(spurious));
    NextSlot(k, |s.items|);
    assert s'.items[s.taken..s.published] == s.items[s.taken..s.published];
    assert s'.items[..s.released] == s.items[..s.released];
    SlotsFrame(k, s, s');
  }

  lemma PushStoreRefines<T>(k: Config, s: State<T>, spurious: bool)
    requires k.Valid() && Inv(k, s) && s.p.PStore?
    ensures Refines(k, s, Produce(spurious))
  {
    StoreKeeps(k, s);
  }

  lemma PublishRefines<T>(k: Config, s: State<T>, spurious: bool)
    requires k.Valid() && Inv(k, s) && s.p.PPublish?
    ensures Refines(k, s, Produce(spurious))
  {
    hide Slots, Pos;
    var s' := Next(k, s, Produce(spurious));
    NextSlot(k, s.published);
    assert s.items[s.taken..s.published + 1] == s.items[s.taken..s.published] + [s.items[s.published]];
    SlotsFrame(k, s, s');
  }

  lemma PopClaimRefines<T>(k: Config, s: State<T>, spurious: bool)
    requires k.Valid() && Inv(k, s) && s.c.CClaim?
    ensures Refines(k, s, Consume(spurious))
  {
    hide Slots, Pos;
    var s' := Next(k, s, Consume(spurious));
    NextSlot(k, s.taken);
    assert s.items[s.taken..s.published][1..] == s.items[s.taken + 1..s.published];
    SlotsFrame(k, s, s');
  }

  lemma PopTakeRefines<T>(k: Config, s: State<T>, spurious: bool)
    requires k.Valid() && Inv(k, s) && s.c.CTake?
    ensures Refines(k, s, Consume(spurious))
  {
    TakeKeeps(k, s);
  }

  lemma PopReleaseRefines<T>(k: Config, s: State<T>, spurious: bool)
    requires k.Valid() && Inv(k, s) && s.c.CRelease?
    ensures Refines(k, s, Consume(spurious))
  {
    hide Slots, Pos;
    var s' := Next(k, s, Consume(spurious));
    PosTurn(s.released, k.slots);
    assert s.items[..s.released + 1] == s.items[..s.released] + [s.items[s.released]];
    SlotsFrame(k, s, s');
  }

  lemma StepRefines<T>(k: Config, s: State<T>, e: Event<T>)
    requires k.Valid() && Inv(k, s)
    ensures Refines(k, s, e)
  {
    hide Inv, Refines;
    match e
    case StartPush(_) => LoadRefines(k, s, e);
    case StartPop => LoadRefines(k, s, e);
    case Produce(spurious) =>
      match s.p {
       case PLoadWritable(_, _) => FullRefines(k, s, spurious);
       case PClaim(_, _) => PushClaimRefines(k, s, spurious);
       case PStore(_, _) => PushStoreRefines(k, s, spurious);
       case PPublish(_, _, _) => PublishRefines(k, s, spurious);
       case _ => LoadRefines(k, s, e);
      }
    case Consume(spurious) =>
      match s.c {
       case CLoadReadable(_) => EmptyRefines(k, s, spurious);
       case CClaim(_) => PopClaimRefines(k, s, spurious);
       case CTake(_) => PopTakeRefines(k, s, spurious);
       case CRelease(_, _, _) => PopReleaseRefines(k, s, spurious);
       case _ => LoadRefines(k, s, e);
      }
  }

  // ---------------------------------------------------------------- whole runs

  function Labels<T>(k: Config, events: seq<Event<T>>): seq<Label<T>>
    requires k.Valid()
  {
    if events == [] then []
    else var before := events[..|events| - 1];
      Labels(k, before) + [LabelOf(k, Run(k, before), events[|events| - 1])]
  }

  function SpecRun<T(==)>(capacity: nat, labels: seq<Label<T>>): Option<Fifo<T>> {
    if labels == [] then Some(Fifo([], 0))
    else match SpecRun(capacity, labels[..|labels| - 1])
      case None => None
      case Some(f) => Spec(capacity, f, labels[|labels| - 1])
  }

  function Pushes<T>(labels: seq<Label<T>>): seq<T> {
    if labels == [] then []
    else var l := labels[|labels| - 1];
      Pushes(labels[..|labels| - 1]) + if l.Pushed? then [l.v] else []
  }

  function Takes<T>(labels: seq<Label<T>>): seq<T> {
    if labels == [] then []
    else var l := labels[|labels| - 1];
      Takes(labels[..|labels| - 1]) + if l.Took? then [l.v] else []
  }

  /** The bounded FIFO means what its name says: the values taken, followed by those still
      queued, are the values pushed, in order; and it never holds more than its capacity. */
  lemma {:induction false} SpecIsFifo<T>(capacity: nat, labels: seq<Label<T>>)
    requires SpecRun(capacity, labels).Some?
    ensures var f := SpecRun(capacity, labels).value;
      && Pushes(labels) == Takes(labels) + f.queue
      && |f.queue| + f.busy <= capacity && f.busy <= 1
  {
    if labels == [] {
    } else {
      SpecIsFifo(capacity, labels[..|labels| - 1]);
    }
  }

  /** Under every interleaving of one producer and one consumer, with any spurious
      failures, the queue keeps its invariant and answers as a bounded FIFO. */
  lemma {:induction false} RunRefines<T>(k: Config, events: seq<Event<T>>)
    requires k.Valid()
    ensures Inv(k, Run(k, events))
    ensures SpecRun(k.Capacity(), Labels(k, events)) == Some(Abs(k, Run(k, events)))
  {
    hide Inv, Spec, LabelOf, Next;
    if events == [] {
      InitInv<T>(k);
    } else {
      var before := events[..|events| - 1];
      RunRefines(k, before);
      StepRefines(k, Run(k, before), events[|events| - 1]);
      assert Labels(k, events)[..|Labels(k, events)| - 1] == Labels(k, before);
    }
  }

  /** What the pops have returned is, in order, the front of what has been pushed, and at most
      capacity values are outstanding. */
  lemma {:induction false} PopsReturnPushesInOrder<T>(k: Config, events: seq<Event<T>>)
    requires k.Valid()
    ensures Run(k, events).returned <= Takes(Labels(k, events)) <= Pushes(Labels(k, events))
    ensures |Takes(Labels(k, events))| - |Run(k, events).returned| <= 1
    ensures |Pushes(Labels(k, events))| - |Run(k, events).returned| <= k.Capacity()
  {
    RunRefines(k, events);
    SpecIsFifo(k.Capacity(), Labels(k, events));
    PushesAreItems(k, events);
    var s := Run(k, events);
    var l := Labels(k, events);
    assert |Takes(l)| == s.taken;
    assert Takes(l) == Pushes(l)[..s.taken];
  }

  lemma {:induction false} PushesAreItems<T>(k: Config, events: seq<Event<T>>)
    requires k.Valid()
    ensures Inv(k, Run(k, events))
    ensures Pushes(Labels(k, events)) == Run(k, events).items[..Run(k, events).published]
  {
    RunRefines(k, events);
    if events == [] {
    } else {
      var before := events[..|events| - 1];
      var e := events[|events| - 1];
      var s := Run(k, before);
      PushesAreItems(k, before);
      StepRefines(k, s, e);
      assert Labels(k, events)[..|Labels(k, events)| - 1] == Labels(k, before);
      PublishedGrows(k, s, e);
    }
  }

  lemma PublishedGrows<T>(k: Config, s: State<T>, e: Event<T>)
    requires k.Valid() && Inv(k, s) && Inv(k, Next(k, s, e))
    ensures Next(k, s, e).items[..Next(k, s, e).published]
         == s.items[..s.published] + (if LabelOf(k, s, e).Pushed? then [LabelOf(k, s, e).v] else [])
  {
    hide Slots, Pos, Config.Mod, ConsumerStep;
    match e {
      case Produce(spurious) => PublishGrows(k, s, spurious);
      case Consume(spurious) => ConsumeQuiet(k, s, spurious);
      case _ =>
    }
  }

  lemma PublishGrows<T>(k: Config, s: State<T>, spurious: bool)
    requires k.Valid() && Inv(k, s) && Inv(k, ProducerStep(k, s, spurious))
    ensures var s', l := ProducerStep(k, s, spurious), LabelOf(k, s, Produce(spurious));
      s'.items[..s'.published] == s.items[..s.published] + (if l.Pushed? then [l.v] else [])
  {
    hide Slots, Pos, Config.Mod;
  }

  lemma ConsumeQuiet<T>(k: Config, s: State<T>, spurious: bool)
    requires k.Valid()
    ensures var s' := ConsumerStep(k, s, spurious);
      s'.items == s.items && s'.published == s.published && !LabelOf(k, s, Consume(spurious)).Pushed?
  {
    hide Config.Mod;
  }

  // ---------------------------------------------------------------- giving a slot back

  /** The compare-exchange that gives a slot back is retried with the value it observed, so
      two attempts that do not fail spuriously always suffice. */
  lemma ReleaseTakesTwoAttempts<T>(k: Config, s: State<T>)
    requires k.Valid() && Inv(k, s) && s.c.CRelease?
    ensures var s1 := ConsumerStep(k, s, false);
      s1.c.CIdle? || (s1.c.CRelease? && ConsumerStep(k, s1, false).c.CIdle?)
  {
  }

  /** The first attempt compares against an index computed from the slot being given back;
      Exact says that this is the index the queue holds at that moment. */
  ghost predicate Exact(k: Config, i: nat)
    requires k.Valid()
  {
    k.Mod(Pos(i, k.slots) + k.slots - 1) == Pos(i + k.slots - 1, k.slots)
  }

  /** The first attempt is exact for every slot if and only if twice the capacity is
      representable in SizeType, or the ring has as many slots as SizeType has values. */
  lemma FirstAttemptExact(k: Config)
    requires k.Valid()
    ensures (forall i: nat :: Exact(k, i)) <==> 2 * k.Capacity() < k.width || k.slots == k.width
  {
    hide Exact;
    if 2 * k.Capacity() < k.width || k.slots == k.width {
      forall i: nat ensures Exact(k, i) {
        FirstAttemptMatches(k, i);
      }
    } else {
      FirstAttemptMisses(k);
    }
  }

  lemma FirstAttemptMatches(k: Config, i: nat)
    requires k.Valid() && (2 * k.Capacity() < k.width || k.slots == k.width)
    ensures Exact(k, i)
  {
    hide Pos, Config.Mod;
    PosBack(k, i);
    ModOfSmall(k, Pos(i, k.slots) + k.slots - 1);
  }

  lemma FirstAttemptMisses(k: Config)
    requires k.Valid() && k.width <= 2 * k.Capacity() && k.slots != k.width
    ensures !Exact(k, k.slots - 1)
  {
    assert Pos(k.slots - 1, k.slots) == k.slots - 1;
    hide Pos, Config.Mod;
    PosBack(k, k.slots - 1);
    ModOfSmall(k, 2 * k.slots - 2);
  }

  lemma PosBack(k: Config, i: nat)
    requires k.Valid()
    ensures Pos(i + k.slots - 1, k.slots) == if Pos(i, k.slots) == 0 then k.slots - 1 else Pos(i, k.slots) - 1
  {
    PosStep(i + k.slots - 1, k.slots);
    PosTurn(i, k.slots);
  }

  function Wrap(x: nat, c: nat): nat { if x < c then x else x - c }

  lemma ModOfSmall(k: Config, x: nat)
    requires k.Valid() && x < 2 * k.slots
    ensures k.Mod(x) == Wrap(Wrap(x, k.width), k.slots)
  {
    ModSmall(x, k.width);
    ModSmall(Wrap(x, k.width), k.slots);
  }
}
