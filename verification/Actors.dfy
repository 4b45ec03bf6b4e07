/** A parent and a child state that exchange messages through two queues, each
    guarded by a mutex and a condition variable, as atomic steps that interleave in
    any order. Memory is sequentially consistent. */
module Actors {
  import opened Wrappers

  type Message = int

  /** `waiting`: the queue's reader is blocked on the condition variable. Who holds the
      mutex is read off the program counters: a thread holds it from the step after its
      lock to its unlock. */
  datatype Queue = Queue(messages: seq<Message>, waiting: bool)

  /** Where the parent is, by what it does next. */
  datatype ParentPc =
    | PIdle
    // post: lock, append, unlock, notify
    | PostLock(m: Message) | PostAppend(m: Message) | PostUnlock | PostNotify
    // recv: lock; wait for a message, termination or the child's end; look again
    | RecvLock | RecvTestMessages | RecvTestTerminated | RecvTestDone | RecvBlock | RecvWait
    | RecvLook | RecvUnlockTaken | RecvUnlockEmpty | RecvCheckTerminated | RecvReport
    // try-recv
    | TryLock | TryTake | TryUnlock
    // destroy: store, then lock, unlock and notify each queue, then join
    | StopLockChild | StopUnlockChild | StopNotifyChild | StopLockParent | StopUnlockParent | StopNotifyParent | Join | Gone

  datatype ChildPc =
    | CRunning
    | CPostLock(m: Message) | CPostAppend(m: Message) | CPostUnlock | CPostNotify
    | CPopLock | CPopTestMessages | CPopTestTerminated | CPopBlock | CPopWait | CPopCheckTerminated | CPopTake | CPopUnlock | CPopUnlockThrow
    | CStoreDone | CEndLock | CEndUnlock | CEndNotify | CExited

  /** How the last `recv` that found no message ended. */
  datatype Report = ChildExited | ChildFailed(error: string) | SelfTerminated

  /** `posted` and `taken` record all that the child ever appended to the parent's queue
      and all that the parent took from it; `sent` and `received`, the other way. */
  datatype State = State(
    toChild: Queue, toParent: Queue,
    childTerminated: bool,  // stored by the destructor, read by the child
    terminated: bool,       // the parent's own flag, stored by whoever runs the parent
    done: bool, childError: Option<string>,
    p: ParentPc, c: ChildPc,
    report: Option<Report>,
    posted: seq<Message>, taken: seq<Message>, sent: seq<Message>, received: seq<Message>)

  function Start(): State {
    State(Queue([], false), Queue([], false), false, false, false, None, PIdle, CRunning, None, [], [], [], [])
  }

  // ---- steps ----

  /** What a thread does next where the program decides. */
  datatype Choice = Post(m: Message) | Recv | TryRecv | Destroy | End | Fail(error: string) | Spurious | Go

  datatype Action = ByParent(choice: Choice) | ByChild(choice: Choice) | Terminate

  function Notify(q: Queue): Queue { q.(waiting := false) }

  /** Waiting releases the mutex and blocks in one step. */
  function Block(q: Queue): Queue { q.(waiting := true) }

  function Append(q: Queue, m: Message): Queue { q.(messages := q.messages + [m]) }

  function DropFirst(q: Queue): Queue
    requires |q.messages| > 0
  {
    q.(messages := q.messages[1..])
  }

  predicate ParentHoldsChildQueue(p: ParentPc) {
    p.PostAppend? || p.PostUnlock? || p.StopUnlockChild?
  }

  predicate ParentHoldsOwnQueue(p: ParentPc) {
    || p.RecvTestMessages? || p.RecvTestTerminated? || p.RecvTestDone? || p.RecvBlock? || p.RecvLook?
    || p.RecvUnlockTaken? || p.RecvUnlockEmpty? || p.TryTake? || p.TryUnlock? || p.StopUnlockParent?
  }

  predicate ChildHoldsOwnQueue(c: ChildPc) {
    || c.CPopTestMessages? || c.CPopTestTerminated? || c.CPopBlock? || c.CPopCheckTerminated? || c.CPopTake?
    || c.CPopUnlock? || c.CPopUnlockThrow?
  }

  predicate ChildHoldsParentQueue(c: ChildPc) {
    c.CPostAppend? || c.CPostUnlock? || c.CEndUnlock?
  }

  function ParentStep(s: State, choice: Choice): Option<State> {
    match s.p
    case PIdle => ParentChoice(s, choice)
    case Join => if s.c.CExited? then Some(s.(p := Gone)) else None
    case Gone => None
    case PostLock(_) => ParentPost(s)
    case PostAppend(_) => ParentPost(s)
    case PostUnlock => ParentPost(s)
    case PostNotify => ParentPost(s)
    case TryLock => ParentTry(s)
    case TryTake => ParentTry(s)
    case TryUnlock => ParentTry(s)
    case StopLockChild => ParentStop(s)
    case StopUnlockChild => ParentStop(s)
    case StopNotifyChild => ParentStop(s)
    case StopLockParent => ParentStop(s)
    case StopUnlockParent => ParentStop(s)
    case StopNotifyParent => ParentStop(s)
    case RecvLock => ParentWait(s, choice)
    case RecvTestMessages => ParentTest(s)
    case RecvTestTerminated => ParentTest(s)
    case RecvTestDone => ParentTest(s)
    case RecvBlock => ParentTest(s)
    case RecvWait => ParentWait(s, choice)
    case _ => ParentRecv(s)
  }

  function ParentChoice(s: State, choice: Choice): Option<State> {
    match choice
    case Post(m) => Some(s.(p := PostLock(m)))
    case Recv => Some(s.(p := RecvLock))
    case TryRecv => Some(s.(p := TryLock))
    case Destroy => Some(s.(childTerminated := true, p := StopLockChild))
    case _ => None
  }

  function ParentPost(s: State): Option<State> {
    match s.p
    case PostLock(m) => if !ChildHoldsOwnQueue(s.c) then Some(s.(p := PostAppend(m))) else None
    case PostAppend(m) => Some(s.(toChild := Append(s.toChild, m), sent := s.sent + [m], p := PostUnlock))
    case PostUnlock => Some(s.(p := PostNotify))
    case PostNotify => Some(s.(toChild := Notify(s.toChild), p := PIdle))
    case _ => None
  }

  function TakeFirst(s: State, next: ParentPc): State
    requires |s.toParent.messages| > 0
  {
    s.(toParent := DropFirst(s.toParent), taken := s.taken + [s.toParent.messages[0]], p := next)
  }

  /** `recv` takes the lock, at first and when it has been woken up. */
  function ParentWait(s: State, choice: Choice): Option<State> {
    match s.p
    case RecvLock => if !ChildHoldsParentQueue(s.c) then Some(s.(p := RecvTestMessages)) else None
    case RecvWait =>
      if choice.Spurious? then Some(s.(toParent := Notify(s.toParent)))
      else if !s.toParent.waiting && !ChildHoldsParentQueue(s.c) then
        Some(s.(p := RecvTestMessages))
      else None
    case _ => None
  }

  /** What it waits for is tested in this order, under the lock. */
  function ParentTest(s: State): Option<State> {
    match s.p
    case RecvTestMessages => Some(s.(p := if |s.toParent.messages| > 0 then RecvLook else RecvTestTerminated))
    case RecvTestTerminated => Some(s.(p := if s.terminated then RecvLook else RecvTestDone))
    case RecvTestDone => Some(s.(p := if s.done then RecvLook else RecvBlock))
    case RecvBlock => Some(s.(toParent := Block(s.toParent), p := RecvWait))
    case _ => None
  }

  /** After the wait the queue is looked at once more. */
  function ParentRecv(s: State): Option<State> {
    match s.p
    case RecvLook => Some(if |s.toParent.messages| > 0 then TakeFirst(s, RecvUnlockTaken) else s.(p := RecvUnlockEmpty))
    case RecvUnlockTaken => Some(s.(p := PIdle))
    case RecvUnlockEmpty => Some(s.(p := RecvCheckTerminated))
    case RecvCheckTerminated =>
      Some(if s.terminated then s.(report := Some(SelfTerminated), p := PIdle) else s.(p := RecvReport))
    case RecvReport =>
      Some(s.(report := Some(if s.childError.Some? then ChildFailed(s.childError.value) else ChildExited), p := PIdle))
    case _ => None
  }

  function ParentTry(s: State): Option<State> {
    match s.p
    case TryLock => if !ChildHoldsParentQueue(s.c) then Some(s.(p := TryTake)) else None
    case TryTake => Some(if |s.toParent.messages| > 0 then TakeFirst(s, TryUnlock) else s.(p := TryUnlock))
    case TryUnlock => Some(s.(p := PIdle))
    case _ => None
  }

  function ParentStop(s: State): Option<State> {
    match s.p
    case StopLockChild => if !ChildHoldsOwnQueue(s.c) then Some(s.(p := StopUnlockChild)) else None
    case StopUnlockChild => Some(s.(p := StopNotifyChild))
    case StopNotifyChild => Some(s.(toChild := Notify(s.toChild), p := StopLockParent))
    case StopLockParent => if !ChildHoldsParentQueue(s.c) then Some(s.(p := StopUnlockParent)) else None
    case StopUnlockParent => Some(s.(p := StopNotifyParent))
    case StopNotifyParent => Some(s.(toParent := Notify(s.toParent), p := Join))
    case _ => None
  }

  function ChildStep(s: State, choice: Choice): Option<State> {
    match s.c
    case CRunning => ChildChoice(s, choice)
    case CPostLock(_) => ChildPost(s)
    case CPostAppend(_) => ChildPost(s)
    case CPostUnlock => ChildPost(s)
    case CPostNotify => ChildPost(s)
    case CStoreDone => ChildEnd(s)
    case CEndLock => ChildEnd(s)
    case CEndUnlock => ChildEnd(s)
    case CEndNotify => ChildEnd(s)
    case CExited => None
    case CPopLock => ChildWait(s, choice)
    case CPopTestMessages => ChildTest(s)
    case CPopTestTerminated => ChildTest(s)
    case CPopBlock => ChildTest(s)
    case CPopWait => ChildWait(s, choice)
    case _ => ChildPop(s)
  }

  /** The script goes on, ends, or fails, which records the error before `done`. */
  function ChildChoice(s: State, choice: Choice): Option<State> {
    match choice
    case Post(m) => Some(s.(c := CPostLock(m)))
    case Recv => Some(s.(c := CPopLock))
    case End => Some(s.(c := CStoreDone))
    case Fail(e) => Some(s.(childError := Some(e), c := CStoreDone))
    case _ => None
  }

  function ChildPost(s: State): Option<State> {
    match s.c
    case CPostLock(m) => if !ParentHoldsOwnQueue(s.p) then Some(s.(c := CPostAppend(m))) else None
    case CPostAppend(m) => Some(s.(toParent := Append(s.toParent, m), posted := s.posted + [m], c := CPostUnlock))
    case CPostUnlock => Some(s.(c := CPostNotify))
    case CPostNotify => Some(s.(toParent := Notify(s.toParent), c := CRunning))
    case _ => None
  }

  function ChildWait(s: State, choice: Choice): Option<State> {
    match s.c
    case CPopLock => if !ParentHoldsChildQueue(s.p) then Some(s.(c := CPopTestMessages)) else None
    case CPopWait =>
      if choice.Spurious? then Some(s.(toChild := Notify(s.toChild)))
      else if !s.toChild.waiting && !ParentHoldsChildQueue(s.p) then
        Some(s.(c := CPopTestMessages))
      else None
    case _ => None
  }

  function ChildTest(s: State): Option<State> {
    match s.c
    case CPopTestMessages => Some(s.(c := if |s.toChild.messages| > 0 then CPopCheckTerminated else CPopTestTerminated))
    case CPopTestTerminated => Some(s.(c := if s.childTerminated then CPopCheckTerminated else CPopBlock))
    case CPopBlock => Some(s.(toChild := Block(s.toChild), c := CPopWait))
    case _ => None
  }

  /** Throwing unwinds through the unlock to the end of the thread. */
  function ChildPop(s: State): Option<State> {
    match s.c
    case CPopCheckTerminated => Some(s.(c := if s.childTerminated then CPopUnlockThrow else CPopTake))
    case CPopTake =>
      if |s.toChild.messages| == 0 then None
      else Some(s.(toChild := DropFirst(s.toChild), received := s.received + [s.toChild.messages[0]], c := CPopUnlock))
    case CPopUnlock => Some(s.(c := CRunning))
    case CPopUnlockThrow => Some(s.(c := CStoreDone))
    case _ => None
  }

  function ChildEnd(s: State): Option<State> {
    match s.c
    case CStoreDone => Some(s.(done := true, c := CEndLock))
    case CEndLock => if !ParentHoldsOwnQueue(s.p) then Some(s.(c := CEndUnlock)) else None
    case CEndUnlock => Some(s.(c := CEndNotify))
    case CEndNotify => Some(s.(toParent := Notify(s.toParent), c := CExited))
    case _ => None
  }

  function Step(s: State, a: Action): Option<State> {
    match a
    case ByParent(choice) => ParentStep(s, choice)
    case ByChild(choice) => ChildStep(s, choice)
    case Terminate => Some(s.(terminated := true))
  }

  /** The state after a schedule, `None` when one of its actions was not possible. */
  function Run(s: State, schedule: seq<Action>): Option<State> {
    if schedule == [] then Some(s)
    else match Run(s, schedule[..|schedule| - 1])
      case Some(t) => Step(t, schedule[|schedule| - 1])
      case None => None
  }

  // ---- the invariant ----

  predicate Ended(c: ChildPc) {
    c.CEndLock? || c.CEndUnlock? || c.CEndNotify? || c.CExited?
  }

  /** No mutex is held by both threads. */
  predicate Exclusive(s: State) {
    !(ParentHoldsChildQueue(s.p) && ChildHoldsOwnQueue(s.c)) && !(ParentHoldsOwnQueue(s.p) && ChildHoldsParentQueue(s.c))
  }

  /** Nothing is lost, duplicated or reordered on the way. */
  predicate Conserved(s: State) {
    && s.taken + s.toParent.messages == s.posted
    && s.received + s.toChild.messages == s.sent
  }

  predicate Stopping(p: ParentPc) {
    p.StopLockChild? || p.StopUnlockChild? || p.StopNotifyChild? || p.StopLockParent? || p.StopUnlockParent?
    || p.StopNotifyParent? || p.Join? || p.Gone?
  }

  /** What the parent knows at each point of `recv`. */
  predicate RecvKnows(s: State) {
    && (s.done <==> Ended(s.c))
    && (s.p.RecvTestTerminated? || s.p.RecvTestDone? || s.p.RecvBlock? || s.p.RecvUnlockEmpty? ==> |s.toParent.messages| == 0)
    && (s.p.RecvLook? ==> |s.toParent.messages| > 0 || s.terminated || s.done)
    && (s.p.RecvUnlockEmpty? || s.p.RecvCheckTerminated? ==> s.terminated || (s.done && |s.toParent.messages| == 0))
    && (s.p.RecvReport? ==> s.done && |s.toParent.messages| == 0)
    && (s.c.CPopTestTerminated? || s.c.CPopBlock? ==> |s.toChild.messages| == 0)
    && (s.c.CPopCheckTerminated? ==> |s.toChild.messages| > 0 || s.childTerminated)
    && (s.c.CPopTake? ==> |s.toChild.messages| > 0)
    && (s.childTerminated <==> Stopping(s.p))
  }

  /** A blocked reader that has something to wake up for is about to be notified. */
  predicate WakeUps(s: State) {
    && (s.toParent.waiting ==> s.p.RecvWait?) && (s.toChild.waiting ==> s.c.CPopWait?)
    && (s.toParent.waiting && |s.toParent.messages| > 0 ==> s.c.CPostUnlock? || s.c.CPostNotify?)
    && (s.p.RecvBlock? && s.done ==> s.c.CEndLock?)
    && (s.toParent.waiting && s.done ==> s.c.CEndLock? || s.c.CEndUnlock? || s.c.CEndNotify?)
    && (s.toChild.waiting && |s.toChild.messages| > 0 ==> s.p.PostUnlock? || s.p.PostNotify?)
    && (s.c.CPopBlock? && s.childTerminated ==> s.p.StopLockChild?)
    && (s.toChild.waiting && s.childTerminated ==> s.p.StopLockChild? || s.p.StopUnlockChild? || s.p.StopNotifyChild?)
  }

  /** A report that the child is gone is final and comes after its last message; a
      report that the parent was stopped comes after it was. A child that is still
      running has recorded no error. */
  predicate Reported(s: State) {
    && (s.report == Some(SelfTerminated) ==> s.terminated)
    && (s.report.Some? && !s.report.value.SelfTerminated? ==>
          && s.done && |s.toParent.messages| == 0
          && s.report.value == if s.childError.Some? then ChildFailed(s.childError.value) else ChildExited)
  }

  predicate Inv(s: State) {
    Exclusive(s) && Conserved(s) && RecvKnows(s) && WakeUps(s) && Reported(s)
  }

  lemma ParentChoiceKeeps(s: State, choice: Choice)
    requires Inv(s) && s.p.PIdle? && ParentChoice(s, choice).Some?
    ensures Inv(ParentChoice(s, choice).value)
  {
  }

  lemma ParentAppendKeeps(s: State)
    requires Inv(s) && s.p.PostAppend?
    ensures Inv(ParentPost(s).value)
  {
    assert s.received + (s.toChild.messages + [s.p.m]) == s.received + s.toChild.messages + [s.p.m];
  }

  lemma ParentPostKeeps(s: State)
    requires Inv(s) && ParentPost(s).Some?
    ensures Inv(ParentPost(s).value)
  {
    if s.p.PostAppend? { ParentAppendKeeps(s); }
  }

  lemma ParentWaitKeeps(s: State, choice: Choice)
    requires Inv(s) && ParentWait(s, choice).Some?
    ensures Inv(ParentWait(s, choice).value)
  {
  }

  lemma ParentTestKeeps(s: State)
    requires Inv(s) && ParentTest(s).Some?
    ensures Inv(ParentTest(s).value)
  {
  }

  /** Taking the first message moves it from the queue to the end of what was taken. */
  lemma TakeKeeps(s: State, next: ParentPc)
    requires Inv(s) && ((s.p.RecvLook? && next.RecvUnlockTaken?) || (s.p.TryTake? && next.TryUnlock?)) && |s.toParent.messages| > 0
    ensures Inv(TakeFirst(s, next))
  {
    var q := s.toParent.messages;
    assert s.taken + [q[0]] + q[1..] == s.taken + q;
  }

  lemma ParentRecvKeeps(s: State)
    requires Inv(s) && ParentRecv(s).Some?
    ensures Inv(ParentRecv(s).value)
  {
    if s.p.RecvLook? && |s.toParent.messages| > 0 { TakeKeeps(s, RecvUnlockTaken); }
  }

  lemma ParentTryKeeps(s: State)
    requires Inv(s) && ParentTry(s).Some?
    ensures Inv(ParentTry(s).value)
  {
    if s.p.TryTake? && |s.toParent.messages| > 0 { TakeKeeps(s, TryUnlock); }
  }

  lemma ParentStopKeeps(s: State)
    requires Inv(s) && ParentStop(s).Some?
    ensures Inv(ParentStop(s).value)
  {
    ParentStopWakes(s);
  }

  lemma ParentStopWakes(s: State)
    requires Inv(s) && ParentStop(s).Some?
    ensures WakeUps(ParentStop(s).value)
  {
  }

  lemma ChildChoiceKeeps(s: State, choice: Choice)
    requires Inv(s) && s.c.CRunning? && ChildChoice(s, choice).Some?
    ensures Inv(ChildChoice(s, choice).value)
  {
  }

  lemma ChildAppendKeeps(s: State)
    requires Inv(s) && s.c.CPostAppend?
    ensures Inv(ChildPost(s).value)
  {
    assert s.taken + (s.toParent.messages + [s.c.m]) == s.taken + s.toParent.messages + [s.c.m];
  }

  lemma ChildPostKeeps(s: State)
    requires Inv(s) && ChildPost(s).Some?
    ensures Inv(ChildPost(s).value)
  {
    if s.c.CPostAppend? { ChildAppendKeeps(s); }
  }

  lemma ChildWaitKeeps(s: State, choice: Choice)
    requires Inv(s) && ChildWait(s, choice).Some?
    ensures Inv(ChildWait(s, choice).value)
  {
  }

  lemma ChildTestKeeps(s: State)
    requires Inv(s) && ChildTest(s).Some?
    ensures Inv(ChildTest(s).value)
  {
  }

  lemma ChildPopKeeps(s: State)
    requires Inv(s) && ChildPop(s).Some?
    ensures Inv(ChildPop(s).value)
  {
    if s.c.CPopTake? {
      var q := s.toChild.messages;
      assert s.received + [q[0]] + q[1..] == s.received + q;
    }
  }

  lemma ChildEndKeeps(s: State)
    requires Inv(s) && ChildEnd(s).Some?
    ensures Inv(ChildEnd(s).value)
  {
  }

  lemma ParentKeepsInv(s: State, choice: Choice)
    requires Inv(s) && ParentStep(s, choice).Some?
    ensures Inv(ParentStep(s, choice).value)
  {
    if s.p.PIdle? { ParentChoiceKeeps(s, choice); }
    if ParentPost(s).Some? { ParentPostKeeps(s); }
    if ParentWait(s, choice).Some? { ParentWaitKeeps(s, choice); }
    if ParentTest(s).Some? { ParentTestKeeps(s); }
    if ParentRecv(s).Some? { ParentRecvKeeps(s); }
    if ParentTry(s).Some? { ParentTryKeeps(s); }
    if ParentStop(s).Some? { ParentStopKeeps(s); }
  }

  lemma ChildKeepsInv(s: State, choice: Choice)
    requires Inv(s) && ChildStep(s, choice).Some?
    ensures Inv(ChildStep(s, choice).value)
  {
    if s.c.CRunning? { ChildChoiceKeeps(s, choice); }
    if ChildPost(s).Some? { ChildPostKeeps(s); }
    if ChildWait(s, choice).Some? { ChildWaitKeeps(s, choice); }
    if ChildTest(s).Some? { ChildTestKeeps(s); }
    if ChildPop(s).Some? { ChildPopKeeps(s); }
    if ChildEnd(s).Some? { ChildEndKeeps(s); }
  }

  lemma StepKeepsInv(s: State, a: Action)
    requires Inv(s) && Step(s, a).Some?
    ensures Inv(Step(s, a).value)
  {
    match a
    case ByParent(choice) => ParentKeepsInv(s, choice);
    case ByChild(choice) => ChildKeepsInv(s, choice);
    case Terminate =>
  }

  lemma {:induction false} RunKeepsInv(schedule: seq<Action>)
    requires Run(Start(), schedule).Some?
    ensures Inv(Run(Start(), schedule).value)
  {
    if schedule != [] {
      RunKeepsInv(schedule[..|schedule| - 1]);
      StepKeepsInv(Run(Start(), schedule[..|schedule| - 1]).value, schedule[|schedule| - 1]);
    }
  }

  // ---- what the protocol promises ----

  lemma {:induction false} RunSplits(s: State, a: seq<Action>, b: seq<Action>)
    requires Run(s, a + b).Some?
    ensures Run(s, a).Some? && Run(Run(s, a).value, b) == Run(s, a + b)
  {
    if b == [] {
      assert a + b == a;
    } else {
      assert (a + b)[..|a + b| - 1] == a + b[..|b| - 1];
      RunSplits(s, a, b[..|b| - 1]);
    }
  }

  /** In every interleaving, messages arrive in order and none is lost or doubled. */
  lemma MessagesArriveInOrder(schedule: seq<Action>)
    requires Run(Start(), schedule).Some?
    ensures var s := Run(Start(), schedule).value;
            && s.taken + s.toParent.messages == s.posted
            && s.received + s.toChild.messages == s.sent
  {
    RunKeepsInv(schedule);
  }

  /** Once the child has stored `done` it posts no more. */
  lemma {:induction false} NoPostAfterDone(s: State, schedule: seq<Action>)
    requires Inv(s) && s.done && Run(s, schedule).Some?
    ensures var t := Run(s, schedule).value; Inv(t) && t.done && t.posted == s.posted && t.childError == s.childError
  {
    if schedule != [] {
      NoPostAfterDone(s, schedule[..|schedule| - 1]);
      StepKeepsInv(Run(s, schedule[..|schedule| - 1]).value, schedule[|schedule| - 1]);
      DoneStep(Run(s, schedule[..|schedule| - 1]).value, schedule[|schedule| - 1]);
    }
  }

  lemma DoneStep(s: State, a: Action)
    requires Inv(s) && s.done && Step(s, a).Some?
    ensures var t := Step(s, a).value; t.done && t.posted == s.posted && t.childError == s.childError
  {
    match a
    case ByParent(choice) => ParentLeavesChild(s, choice);
    case ByChild(choice) => assert Ended(s.c);
    case Terminate =>
  }

  /** What the child has done stays as it is. */
  predicate SameChild(s: State, t: State) {
    t.done == s.done && t.posted == s.posted && t.childError == s.childError
  }

  lemma ParentTestLeavesChild(s: State)
    requires ParentTest(s).Some?
    ensures SameChild(s, ParentTest(s).value)
  {
  }

  lemma ParentRecvLeavesChild(s: State)
    requires ParentRecv(s).Some?
    ensures SameChild(s, ParentRecv(s).value)
  {
  }

  lemma ParentWaitLeavesChild(s: State, choice: Choice)
    requires ParentWait(s, choice).Some?
    ensures SameChild(s, ParentWait(s, choice).value)
  {
  }

  lemma ParentLeavesChild(s: State, choice: Choice)
    requires ParentStep(s, choice).Some?
    ensures SameChild(s, ParentStep(s, choice).value)
  {
    if s.p.RecvLock? || s.p.RecvWait? {
      ParentWaitLeavesChild(s, choice);
    } else if s.p.RecvTestMessages? || s.p.RecvTestTerminated? || s.p.RecvTestDone? || s.p.RecvBlock? {
      ParentTestLeavesChild(s);
    } else if ParentStep(s, choice) == ParentRecv(s) {
      ParentRecvLeavesChild(s);
    }
  }

  /** When `recv` reports that the child exited or failed, the parent has taken every
      message the child posted by then or will ever post, and the report is the error
      the child ended with, if there was one. It reports the parent's own end only when
      the parent has been told to stop. */
  lemma ReportIsFinal(schedule: seq<Action>, later: seq<Action>)
    requires Run(Start(), schedule + later).Some?
    ensures Run(Start(), schedule).Some?
    ensures var s, t := Run(Start(), schedule).value, Run(Start(), schedule + later).value;
            s.report.Some? && !s.report.value.SelfTerminated? ==>
              && s.taken == t.posted
              && s.report.value == if t.childError.Some? then ChildFailed(t.childError.value) else ChildExited
    ensures var s := Run(Start(), schedule).value; s.report == Some(SelfTerminated) ==> s.terminated
  {
    RunSplits(Start(), schedule, later);
    RunKeepsInv(schedule);
    var s := Run(Start(), schedule).value;
    if s.done { NoPostAfterDone(s, later); }
    assert |s.toParent.messages| == 0 ==> s.taken + s.toParent.messages == s.taken;
  }

  /** After the destructor has stored `terminated`, locked, unlocked and notified, the
      child is not blocked in `pop`; after the child's end has done the same, the
      parent is not blocked in `recv`. */
  lemma NoLostWakeUp(schedule: seq<Action>)
    requires Run(Start(), schedule).Some?
    ensures var s := Run(Start(), schedule).value;
            && (s.p.StopLockParent? || s.p.StopUnlockParent? || s.p.StopNotifyParent? || s.p.Join? || s.p.Gone? ==> !s.toChild.waiting)
            && (s.c.CExited? ==> !s.toParent.waiting)
  {
    RunKeepsInv(schedule);
  }

  /** Nor does a reader stay blocked on a message: while one is there, its sender is
      still on the way to the notification. */
  lemma NoReaderLeftWaiting(schedule: seq<Action>)
    requires Run(Start(), schedule).Some?
    ensures var s := Run(Start(), schedule).value;
            && (s.toParent.waiting && |s.toParent.messages| > 0 ==> s.c.CPostUnlock? || s.c.CPostNotify?)
            && (s.toChild.waiting && |s.toChild.messages| > 0 ==> s.p.PostUnlock? || s.p.PostNotify?)
  {
    RunKeepsInv(schedule);
  }

  /** The child has decided to take a message and not done so yet. */
  function AboutToTake(s: State): nat {
    if s.c.CPopTake? then 1 else 0
  }

  /** Nothing is received from `s` to `t` but what the child was about to take. */
  predicate TakesNoMore(s: State, t: State) {
    t.childTerminated && s.received <= t.received && |t.received| + AboutToTake(t) <= |s.received| + AboutToTake(s)
  }

  lemma StoppedStep(s: State, a: Action)
    requires s.childTerminated && Step(s, a).Some?
    ensures TakesNoMore(s, Step(s, a).value)
  {
    match a
    case ByParent(choice) => StoppedParentStep(s, choice);
    case ByChild(choice) => StoppedChildStep(s, choice);
    case Terminate =>
  }

  lemma StoppedParentStep(s: State, choice: Choice)
    requires s.childTerminated && ParentStep(s, choice).Some?
    ensures var t := ParentStep(s, choice).value; t.childTerminated && t.received == s.received && t.c == s.c
  {
  }

  lemma StoppedChildStep(s: State, choice: Choice)
    requires s.childTerminated && ChildStep(s, choice).Some?
    ensures TakesNoMore(s, ChildStep(s, choice).value)
  {
    StoppedChildPop(s);
    StoppedChildElsewhere(s, choice);
  }

  lemma StoppedChildPop(s: State)
    requires s.childTerminated
    ensures ChildPop(s).Some? ==> TakesNoMore(s, ChildPop(s).value)
  {
  }

  lemma StoppedChildElsewhere(s: State, choice: Choice)
    requires s.childTerminated
    ensures ChildChoice(s, choice).Some? ==> TakesNoMore(s, ChildChoice(s, choice).value)
    ensures ChildPost(s).Some? ==> TakesNoMore(s, ChildPost(s).value)
    ensures ChildWait(s, choice).Some? ==> TakesNoMore(s, ChildWait(s, choice).value)
    ensures ChildTest(s).Some? ==> TakesNoMore(s, ChildTest(s).value)
    ensures ChildEnd(s).Some? ==> TakesNoMore(s, ChildEnd(s).value)
  {
  }

  /** Once the child has been told to stop, it takes at most one more message under
      any continuation, and none unless it had decided to before it was told. */
  lemma {:induction false} StoppedChildTakesAtMostOne(s: State, later: seq<Action>)
    requires s.childTerminated && Run(s, later).Some?
    ensures TakesNoMore(s, Run(s, later).value)
  {
    if later != [] {
      var before := later[..|later| - 1];
      StoppedChildTakesAtMostOne(s, before);
      StoppedStep(Run(s, before).value, later[|later| - 1]);
    }
  }
}
