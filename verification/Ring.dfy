/** The lock-free ring: one producer and one consumer, every load and store a step of
    its own, interleaved in any order under sequential consistency. */
module Ring {
  import opened Wrappers
  import opened Probing

  type Item = int

  /** The producer between the steps of `push`: it has loaded `head`, then `tail`, then
      written the slot. */
  datatype Producer = PIdle | PLoadTail(h: nat, v: Item) | PWrite(h: nat, v: Item) | PStore(next: nat, v: Item)

  /** The consumer between the steps of `pop`: it has loaded `tail`, then `head`, then
      read the slot. */
  datatype Consumer = CIdle | CLoadHead(t: nat) | CRead(t: nat) | CStore(t: nat, v: Item)

  /** `pushed` and `popped` record the completed pushes and pops. */
  datatype State = State(buf: seq<Item>, head: nat, tail: nat, p: Producer, c: Consumer, pushed: seq<Item>, popped: seq<Item>)

  function Start(buf: seq<Item>): State {
    State(buf, 0, 0, PIdle, CIdle, [], [])
  }

  /** The capacity is a power of two, so masking is taking the remainder. */
  function Next(i: nat, cap: nat): (j: nat)
    requires i < cap
    ensures j < cap
  {
    if i + 1 < cap then i + 1 else 0
  }

  datatype Action = Push(v: Item) | ProducerStep | Pop | ConsumerStep

  predicate InBounds(s: State) {
    && s.head < |s.buf| && s.tail < |s.buf|
    && (match s.p
        case PLoadTail(h, _) => h < |s.buf|
        case PWrite(h, _) => h < |s.buf|
        case _ => true)
    && (match s.c
        case CRead(t) => t < |s.buf|
        case CStore(t, _) => t < |s.buf|
        case _ => true)
  }

  /** A full ring makes `push` return false, an empty one makes `pop` return null. */
  function Step(s: State, a: Action): Option<State>
    requires InBounds(s)
  {
    match a
    case Push(v) => if s.p.PIdle? then Some(s.(p := PLoadTail(s.head, v))) else None
    case ProducerStep => StepProducer(s)
    case Pop => if s.c.CIdle? then Some(s.(c := CLoadHead(s.tail))) else None
    case ConsumerStep => StepConsumer(s)
  }

  function StepProducer(s: State): Option<State>
    requires InBounds(s)
  {
    match s.p
    case PIdle => None
    case PLoadTail(h, v) => Some(s.(p := if Next(h, |s.buf|) == s.tail then PIdle else PWrite(h, v)))
    case PWrite(h, v) => Some(s.(buf := s.buf[h := v], p := PStore(Next(h, |s.buf|), v)))
    case PStore(next, v) => Some(s.(head := next, p := PIdle, pushed := s.pushed + [v]))
  }

  function StepConsumer(s: State): Option<State>
    requires InBounds(s)
  {
    match s.c
    case CIdle => None
    case CLoadHead(t) => Some(s.(c := if t == s.head then CIdle else CRead(t)))
    case CRead(t) => Some(s.(c := CStore(t, s.buf[t])))
    case CStore(t, v) => Some(s.(tail := Next(t, |s.buf|), c := CIdle, popped := s.popped + [v]))
  }

  // ---- the invariant ----

  function Pending(s: State): int {
    |s.pushed| - |s.popped|
  }

  /** What was popped is what was pushed first. */
  predicate Fifo(s: State) {
    s.popped <= s.pushed
  }

  /** The `i`th pending item stands `i` slots after `tail`. */
  predicate ItemAt(s: State, i: nat)
    requires s.tail < |s.buf| && i < |s.buf| && |s.popped| + i < |s.pushed|
  {
    s.buf[Slot(s.tail, i, |s.buf|)] == s.pushed[|s.popped| + i]
  }

  /** The pending items stand from `tail` on, in order, and `head` follows them. */
  predicate Stored(s: State) {
    && |s.buf| > 0 && s.tail < |s.buf| && 0 <= Pending(s) < |s.buf| && s.head == Slot(s.tail, Pending(s), |s.buf|)
    && forall i :: 0 <= i < Pending(s) ==> ItemAt(s, i)
  }

  predicate ProducerKnows(s: State)
    requires Stored(s)
  {
    match s.p
    case PIdle => true
    case PLoadTail(h, _) => h == s.head
    case PWrite(h, _) => h == s.head && Pending(s) < |s.buf| - 1
    case PStore(next, v) => next == Next(s.head, |s.buf|) && Pending(s) < |s.buf| - 1 && s.buf[s.head] == v
  }

  predicate ConsumerKnows(s: State)
    requires Stored(s)
  {
    match s.c
    case CIdle => true
    case CLoadHead(t) => t == s.tail
    case CRead(t) => t == s.tail && Pending(s) > 0
    case CStore(t, v) => t == s.tail && Pending(s) > 0 && v == s.pushed[|s.popped|]
  }

  predicate Inv(s: State) {
    Fifo(s) && Stored(s) && ProducerKnows(s) && ConsumerKnows(s)
  }

  /** Different places of the ring are different slots. */
  lemma SlotsDiffer(t: nat, i: nat, j: nat, cap: nat)
    requires t < cap && i < cap && j < cap && i != j
    ensures Slot(t, i, cap) != Slot(t, j, cap)
  {
  }

  lemma NextSlot(t: nat, i: nat, cap: nat)
    requires t < cap && i < cap
    ensures i + 1 < cap ==> Next(Slot(t, i, cap), cap) == Slot(t, i + 1, cap) == Slot(Next(t, cap), i, cap)
    ensures i + 1 == cap ==> Next(Slot(t, i, cap), cap) == t
  {
  }

  lemma StoreHeadKeeps(s: State)
    requires Inv(s) && s.p.PStore? && InBounds(s)
    ensures Inv(StepProducer(s).value)
  {
    var t := StepProducer(s).value;
    NextSlot(s.tail, Pending(s), |s.buf|);
    forall i | 0 <= i < Pending(t) ensures ItemAt(t, i) {
      if i < Pending(s) { assert ItemAt(s, i); }
    }
  }

  lemma WriteKeeps(s: State)
    requires Inv(s) && s.p.PWrite? && InBounds(s)
    ensures Inv(StepProducer(s).value)
  {
    var t := StepProducer(s).value;
    forall i | 0 <= i < Pending(t) ensures ItemAt(t, i) {
      SlotsDiffer(s.tail, i, Pending(s), |s.buf|);
      assert ItemAt(s, i);
    }
  }

  lemma StoreTailKeeps(s: State)
    requires Inv(s) && s.c.CStore? && InBounds(s)
    ensures Inv(StepConsumer(s).value)
  {
    var t := StepConsumer(s).value;
    NextSlot(s.tail, Pending(s) - 1, |s.buf|);
    forall i | 0 <= i < Pending(t) ensures ItemAt(t, i) {
      NextSlot(s.tail, i, |s.buf|);
      assert ItemAt(s, i + 1);
    }
  }

  lemma StepKeepsInv(s: State, a: Action)
    requires Inv(s) && InBounds(s) && Step(s, a).Some?
    ensures Inv(Step(s, a).value)
  {
    NextSlot(s.tail, Pending(s), |s.buf|);
    if a.ProducerStep? && s.p.PWrite? {
      WriteKeeps(s);
    } else if a.ProducerStep? && s.p.PStore? {
      StoreHeadKeeps(s);
    } else if a.ConsumerStep? && s.c.CStore? {
      StoreTailKeeps(s);
    } else {
      if Pending(s) > 0 { assert ItemAt(s, 0); }
      SameItems(s, Step(s, a).value);
    }
  }

  /** The other steps only move a program counter. */
  lemma SameItems(s: State, t: State)
    requires Stored(s) && t == s.(p := t.p, c := t.c)
    ensures Stored(t)
  {
    forall i | 0 <= i < Pending(t) ensures ItemAt(t, i) { assert ItemAt(s, i); }
  }

  /** States that some interleaving reaches from the empty ring. */
  ghost predicate Reached(s: State, buf: seq<Item>, n: nat)
    requires |buf| > 0
    decreases n
  {
    if n == 0 then s == Start(buf)
    else exists t, a | Reached(t, buf, n - 1) && InBounds(t) :: Step(t, a) == Some(s)
  }

  lemma {:induction false} ReachedInv(s: State, buf: seq<Item>, n: nat)
    requires |buf| > 0 && Reached(s, buf, n)
    ensures Inv(s) && |s.buf| == |buf|
    decreases n
  {
    if n > 0 {
      var t, a :| Reached(t, buf, n - 1) && InBounds(t) && Step(t, a) == Some(s);
      ReachedInv(t, buf, n - 1);
      StepKeepsInv(t, a);
    }
  }

  /** The ring is a bounded queue under every interleaving: what was popped is a prefix
      of what was pushed, at most one item less than the capacity is pending, and a slot
      being written is not being read. */
  lemma BoundedFifo(s: State, buf: seq<Item>, n: nat)
    requires |buf| > 0 && Reached(s, buf, n)
    ensures s.popped <= s.pushed && |s.pushed| - |s.popped| <= |buf| - 1
    ensures s.p.PWrite? && s.c.CRead? ==> s.p.h != s.c.t
  {
    ReachedInv(s, buf, n);
    if s.p.PWrite? && s.c.CRead? { SlotsDiffer(s.tail, 0, Pending(s), |s.buf|); }
  }

  /** A push is refused exactly when the ring is full as it loads `tail`; a pop finds
      nothing exactly when the ring is empty as it loads `head`. */
  lemma RefusedWhenFull(s: State, buf: seq<Item>, n: nat)
    requires |buf| > 0 && Reached(s, buf, n) && InBounds(s)
    ensures s.p.PLoadTail? ==> (StepProducer(s).value.p.PIdle? <==> |s.pushed| - |s.popped| == |buf| - 1)
    ensures s.c.CLoadHead? ==> (StepConsumer(s).value.c.CIdle? <==> |s.pushed| == |s.popped|)
  {
    ReachedInv(s, buf, n);
    NextSlot(s.tail, Pending(s), |s.buf|);
    if Pending(s) > 0 { SlotsDiffer(s.tail, 0, Pending(s), |s.buf|); }
    if Pending(s) + 1 < |s.buf| { SlotsDiffer(s.tail, 0, Pending(s) + 1, |s.buf|); }
  }

  // ---- whole calls ----

  function Run(s: State, steps: seq<Action>): Option<State> {
    if steps == [] then Some(s)
    else match Run(s, steps[..|steps| - 1])
      case Some(t) => if InBounds(t) then Step(t, steps[|steps| - 1]) else None
      case None => None
  }

  /** `t` is reached from `s` inside the push of `v`, or is its return. */
  predicate PushDid(s: State, v: Item, t: State) {
    match t.p
    case PIdle => t.pushed == s.pushed + [v] || t.pushed == s.pushed
    case PLoadTail(_, x) => x == v && t.pushed == s.pushed
    case PWrite(_, x) => x == v && t.pushed == s.pushed
    case PStore(_, x) => x == v && t.pushed == s.pushed
  }

  predicate PopDid(s: State, t: State) {
    match t.c
    case CIdle => t.popped == s.popped || (|s.popped| < |t.pushed| && t.popped == s.popped + [t.pushed[|s.popped|]])
    case _ => t.popped == s.popped
  }

  lemma PushStep(s: State, v: Item, u: State, a: Action)
    requires PushDid(s, v, u) && !u.p.PIdle? && InBounds(u) && Step(u, a).Some?
    ensures PushDid(s, v, Step(u, a).value)
  {
  }

  lemma PopStep(s: State, u: State, a: Action)
    requires Inv(u) && PopDid(s, u) && !u.c.CIdle? && InBounds(u) && Step(u, a).Some?
    ensures PopDid(s, Step(u, a).value)
  {
  }

  /** Whatever the other side does meanwhile, a push that returns has added its own value
      at the end, or nothing; which of the two says `RefusedWhenFull`. */
  lemma {:induction false} PushCalls(s: State, v: Item, steps: seq<Action>)
    requires steps != [] && steps[0] == Push(v) && Run(s, steps).Some?
    requires forall k :: 0 < k < |steps| && Run(s, steps[..k]).Some? ==> !Run(s, steps[..k]).value.p.PIdle?
    ensures PushDid(s, v, Run(s, steps).value)
  {
    var before, last := steps[..|steps| - 1], steps[|steps| - 1];
    if before == [] {
      assert Run(s, before) == Some(s);
    } else {
      assert forall k :: 0 < k < |before| ==> before[..k] == steps[..k];
      PushCalls(s, v, before);
      PushStep(s, v, Run(s, before).value, last);
    }
  }

  /** A pop that returns has given the first value not yet popped, or nothing. */
  lemma {:induction false} PopCalls(s: State, steps: seq<Action>)
    requires Inv(s) && steps != [] && steps[0] == Pop && Run(s, steps).Some?
    requires forall k :: 0 < k < |steps| && Run(s, steps[..k]).Some? ==> !Run(s, steps[..k]).value.c.CIdle?
    ensures Inv(Run(s, steps).value) && PopDid(s, Run(s, steps).value)
  {
    var before, last := steps[..|steps| - 1], steps[|steps| - 1];
    if before == [] {
      assert Run(s, before) == Some(s);
      StepKeepsInv(s, last);
    } else {
      assert forall k :: 0 < k < |before| ==> before[..k] == steps[..k];
      PopCalls(s, before);
      StepKeepsInv(Run(s, before).value, last);
      PopStep(s, Run(s, before).value, last);
    }
  }
}
