/** What the calls of the two threads do, from their first step to their return,
    whatever the other thread does meanwhile, and when they return. */
module ActorCalls {
  import opened Wrappers
  import opened Actors

  // ---- what a call has done ----

  /** From `s` to `t` the parent has taken the first message it had not taken in `s`. */
  predicate TookFirst(s: State, t: State) {
    |s.taken| < |t.posted| && t.taken == s.taken + [t.posted[|s.taken|]]
  }

  /** `t` is reached from `s` inside `recv`, or is its return: with the queue's next
      message, or with a report. */
  predicate RecvDid(s: State, t: State) {
    && t.sent == s.sent
    && match t.p
       case RecvUnlockTaken => TookFirst(s, t) && t.report == s.report
       case PIdle =>
         || (TookFirst(s, t) && t.report == s.report)
         || (t.taken == s.taken && t.report == Some(SelfTerminated) && t.terminated)
         || (t.taken == s.taken && ReportsChild(t))
       case _ => InRecv(t.p) && t.taken == s.taken && t.report == s.report
  }

  /** The child has ended, all it posted has been taken, and the report says how. */
  predicate ReportsChild(t: State) {
    t.done && t.taken == t.posted && t.report == Some(if t.childError.Some? then ChildFailed(t.childError.value) else ChildExited)
  }

  predicate InRecv(p: ParentPc) {
    || p.RecvLock? || p.RecvTestMessages? || p.RecvTestTerminated? || p.RecvTestDone? || p.RecvBlock? || p.RecvWait?
    || p.RecvLook? || p.RecvUnlockTaken? || p.RecvUnlockEmpty? || p.RecvCheckTerminated? || p.RecvReport?
  }

  predicate PostDid(s: State, m: Message, t: State) {
    && t.taken == s.taken && t.report == s.report
    && match t.p
       case PostLock(x) => x == m && t.sent == s.sent
       case PostAppend(x) => x == m && t.sent == s.sent
       case PostUnlock => t.sent == s.sent + [m]
       case PostNotify => t.sent == s.sent + [m]
       case PIdle => t.sent == s.sent + [m]
       case _ => false
  }

  predicate TryRecvDid(s: State, t: State) {
    && t.sent == s.sent && t.report == s.report
    && match t.p
       case TryLock => t.taken == s.taken
       case TryTake => t.taken == s.taken
       case TryUnlock => t.taken == s.taken || TookFirst(s, t)
       case PIdle => t.taken == s.taken || TookFirst(s, t)
       case _ => false
  }

  /** The destructor takes and sends nothing, and ends only after the child. */
  predicate DestroyDid(s: State, t: State) {
    && t.sent == s.sent && t.taken == s.taken && t.report == s.report && t.childTerminated
    && Stopping(t.p) && (t.p.Gone? ==> t.c.CExited?)
  }

  predicate ParentDid(s: State, choice: Choice, t: State) {
    match choice
    case Post(m) => PostDid(s, m, t)
    case Recv => RecvDid(s, t)
    case TryRecv => TryRecvDid(s, t)
    case Destroy => DestroyDid(s, t)
    case _ => false
  }

  predicate ReceivedFirst(s: State, t: State) {
    |s.received| < |t.sent| && t.received == s.received + [t.sent[|s.received|]]
  }

  predicate ChildPostDid(s: State, m: Message, t: State) {
    && t.received == s.received && t.childError == s.childError
    && match t.c
       case CPostLock(x) => x == m && t.posted == s.posted
       case CPostAppend(x) => x == m && t.posted == s.posted
       case CPostUnlock => t.posted == s.posted + [m]
       case CPostNotify => t.posted == s.posted + [m]
       case CRunning => t.posted == s.posted + [m]
       case _ => false
  }

  /** `pop` returns with the queue's next message, or ends the thread because the child
      has been told to stop. */
  predicate PopDid(s: State, t: State) {
    && t.posted == s.posted && t.childError == s.childError
    && match t.c
       case CPopUnlock => ReceivedFirst(s, t)
       case CRunning => ReceivedFirst(s, t)
       case _ => InPop(t.c) && t.received == s.received && (Leaving(t.c) ==> t.childTerminated)
  }

  predicate Leaving(c: ChildPc) {
    c.CPopUnlockThrow? || c.CStoreDone? || Ended(c)
  }

  predicate InPop(c: ChildPc) {
    || c.CPopLock? || c.CPopTestMessages? || c.CPopTestTerminated? || c.CPopBlock? || c.CPopWait?
    || c.CPopCheckTerminated? || c.CPopTake? || Leaving(c)
  }

  predicate EndDid(s: State, error: Option<string>, t: State) {
    && t.received == s.received && t.posted == s.posted && t.childError == error
    && (t.c.CStoreDone? || Ended(t.c))
  }

  predicate ChildDid(s: State, choice: Choice, t: State) {
    match choice
    case Post(m) => ChildPostDid(s, m, t)
    case Recv => PopDid(s, t)
    case End => EndDid(s, s.childError, t)
    case Fail(e) => EndDid(s, Some(e), t)
    case _ => false
  }

  // ---- one step ----

  lemma ParentChoiceDid(s: State, choice: Choice)
    requires Inv(s) && s.p.PIdle? && ParentStep(s, choice).Some?
    ensures ParentDid(s, choice, ParentStep(s, choice).value)
  {
  }

  lemma FirstIsNext(s: State)
    requires Inv(s) && |s.toParent.messages| > 0
    ensures |s.taken| < |s.posted| && s.toParent.messages[0] == s.posted[|s.taken|]
  {
  }

  lemma FirstIsNextForChild(s: State)
    requires Inv(s) && |s.toChild.messages| > 0
    ensures |s.received| < |s.sent| && s.toChild.messages[0] == s.sent[|s.received|]
  {
  }

  lemma RecvStepDid(s: State, u: State, choice: Choice)
    requires Inv(u) && InRecv(u.p) && RecvDid(s, u) && ParentStep(u, choice).Some?
    ensures RecvDid(s, ParentStep(u, choice).value)
  {
    if |u.toParent.messages| > 0 {
      FirstIsNext(u);
    } else {
      assert u.taken + u.toParent.messages == u.taken;
    }
    RecvWaitStepDid(s, u, choice);
    RecvTestStepDid(s, u);
  }

  lemma RecvWaitStepDid(s: State, u: State, choice: Choice)
    requires Inv(u) && RecvDid(s, u)
    ensures ParentWait(u, choice).Some? ==> RecvDid(s, ParentWait(u, choice).value)
  {
  }

  lemma RecvTestStepDid(s: State, u: State)
    requires Inv(u) && RecvDid(s, u)
    ensures ParentTest(u).Some? ==> RecvDid(s, ParentTest(u).value)
  {
  }

  lemma PostStepDid(s: State, m: Message, u: State)
    requires PostDid(s, m, u) && ParentPost(u).Some?
    ensures PostDid(s, m, ParentPost(u).value)
  {
  }

  lemma TryStepDid(s: State, u: State)
    requires Inv(u) && TryRecvDid(s, u) && ParentTry(u).Some?
    ensures TryRecvDid(s, ParentTry(u).value)
  {
    if |u.toParent.messages| > 0 { FirstIsNext(u); }
  }

  lemma DestroyStepDid(s: State, u: State, choice: Choice)
    requires DestroyDid(s, u) && ParentStep(u, choice).Some?
    ensures DestroyDid(s, ParentStep(u, choice).value)
  {
  }

  lemma ParentStepDid(s: State, call: Choice, u: State, choice: Choice)
    requires Inv(u) && !u.p.PIdle? && ParentDid(s, call, u) && ParentStep(u, choice).Some?
    ensures ParentDid(s, call, ParentStep(u, choice).value)
  {
    match call
    case Post(m) => PostStepDid(s, m, u);
    case Recv => RecvStepDid(s, u, choice);
    case TryRecv => TryStepDid(s, u);
    case Destroy => DestroyStepDid(s, u, choice);
    case _ =>
  }

  /** The other thread takes nothing away from what a call has done. */
  predicate ParentSees(u: State, t: State) {
    && t.p == u.p && t.sent == u.sent && t.taken == u.taken && t.report == u.report && t.childTerminated == u.childTerminated
    && u.posted <= t.posted && (u.terminated ==> t.terminated) && (u.c.CExited? ==> t.c.CExited?)
  }

  lemma ChildIsSeen(u: State, choice: Choice)
    requires ChildStep(u, choice).Some?
    ensures ParentSees(u, ChildStep(u, choice).value)
  {
    ChildIsSeenReceiving(u, choice);
    ChildIsSeenElsewhere(u, choice);
  }

  lemma ChildIsSeenReceiving(u: State, choice: Choice)
    ensures ChildWait(u, choice).Some? ==> ParentSees(u, ChildWait(u, choice).value)
    ensures ChildTest(u).Some? ==> ParentSees(u, ChildTest(u).value)
    ensures ChildPop(u).Some? ==> ParentSees(u, ChildPop(u).value)
  {
  }

  lemma ChildIsSeenElsewhere(u: State, choice: Choice)
    ensures u.c.CRunning? && ChildChoice(u, choice).Some? ==> ParentSees(u, ChildChoice(u, choice).value)
    ensures ChildPost(u).Some? ==> ParentSees(u, ChildPost(u).value)
    ensures ChildEnd(u).Some? ==> ParentSees(u, ChildEnd(u).value)
  {
  }

  lemma SeenDid(s: State, call: Choice, u: State, t: State)
    requires ParentDid(s, call, u) && !u.p.PIdle? && ParentSees(u, t)
    ensures ParentDid(s, call, t)
  {
  }

  lemma ChildChoiceDid(s: State, choice: Choice)
    requires Inv(s) && s.c.CRunning? && ChildStep(s, choice).Some?
    ensures ChildDid(s, choice, ChildStep(s, choice).value)
  {
  }

  lemma ChildPostStepDid(s: State, m: Message, u: State)
    requires ChildPostDid(s, m, u) && ChildPost(u).Some?
    ensures ChildPostDid(s, m, ChildPost(u).value)
  {
  }

  lemma PopStepDid(s: State, u: State, choice: Choice)
    requires Inv(u) && !u.c.CRunning? && PopDid(s, u) && ChildStep(u, choice).Some?
    ensures PopDid(s, ChildStep(u, choice).value)
  {
    PopWaitStepDid(s, u, choice);
    PopTakeStepDid(s, u);
    PopEndStepDid(s, u);
  }

  lemma PopWaitStepDid(s: State, u: State, choice: Choice)
    requires Inv(u) && PopDid(s, u)
    ensures ChildWait(u, choice).Some? ==> PopDid(s, ChildWait(u, choice).value)
    ensures ChildTest(u).Some? ==> PopDid(s, ChildTest(u).value)
  {
  }

  lemma PopTakeStepDid(s: State, u: State)
    requires Inv(u) && PopDid(s, u)
    ensures ChildPop(u).Some? ==> PopDid(s, ChildPop(u).value)
  {
    if |u.toChild.messages| > 0 { FirstIsNextForChild(u); }
  }

  lemma PopEndStepDid(s: State, u: State)
    requires PopDid(s, u)
    ensures ChildEnd(u).Some? ==> PopDid(s, ChildEnd(u).value)
  {
  }

  lemma EndStepDid(s: State, error: Option<string>, u: State, choice: Choice)
    requires EndDid(s, error, u) && ChildStep(u, choice).Some?
    ensures EndDid(s, error, ChildStep(u, choice).value)
  {
  }

  lemma ChildStepDid(s: State, call: Choice, u: State, choice: Choice)
    requires Inv(u) && !u.c.CRunning? && ChildDid(s, call, u) && ChildStep(u, choice).Some?
    ensures ChildDid(s, call, ChildStep(u, choice).value)
  {
    match call
    case Post(m) => ChildPostStepDid(s, m, u);
    case Recv => PopStepDid(s, u, choice);
    case End => EndStepDid(s, s.childError, u, choice);
    case Fail(e) => EndStepDid(s, Some(e), u, choice);
    case _ =>
  }

  predicate ChildSees(u: State, t: State) {
    && t.c == u.c && t.posted == u.posted && t.received == u.received && t.childError == u.childError
    && u.sent <= t.sent && (u.childTerminated ==> t.childTerminated)
  }

  lemma ParentIsSeen(u: State, choice: Choice)
    requires ParentStep(u, choice).Some?
    ensures ChildSees(u, ParentStep(u, choice).value)
  {
    ParentIsSeenReceiving(u, choice);
    ParentIsSeenPosting(u, choice);
    ParentIsSeenStopping(u);
  }

  lemma ParentIsSeenPosting(u: State, choice: Choice)
    ensures ParentChoice(u, choice).Some? ==> ChildSees(u, ParentChoice(u, choice).value)
    ensures ParentPost(u).Some? ==> ChildSees(u, ParentPost(u).value)
    ensures ParentTry(u).Some? ==> ChildSees(u, ParentTry(u).value)
  {
  }

  lemma ParentIsSeenStopping(u: State)
    ensures ParentStop(u).Some? ==> ChildSees(u, ParentStop(u).value)
  {
  }

  lemma ParentIsSeenReceiving(u: State, choice: Choice)
    ensures ParentWait(u, choice).Some? ==> ChildSees(u, ParentWait(u, choice).value)
    ensures ParentTest(u).Some? ==> ChildSees(u, ParentTest(u).value)
    ensures ParentRecv(u).Some? ==> ChildSees(u, ParentRecv(u).value)
  {
  }

  lemma SeenByChildDid(s: State, call: Choice, u: State, t: State)
    requires ChildDid(s, call, u) && ChildSees(u, t)
    ensures ChildDid(s, call, t)
  {
  }

  // ---- whole calls ----

  /** After its first step the schedule stays inside one call of the parent, which its
      last step may end. */
  ghost predicate ParentBusy(s: State, steps: seq<Action>) {
    forall k :: 0 < k < |steps| && Run(s, steps[..k]).Some? ==> !Run(s, steps[..k]).value.p.PIdle?
  }

  ghost predicate ChildBusy(s: State, steps: seq<Action>) {
    forall k :: 0 < k < |steps| && Run(s, steps[..k]).Some? ==> !Run(s, steps[..k]).value.c.CRunning?
  }

  /** Whatever the child does meanwhile, `post` appends its message and nothing else;
      `recv` that returns has taken exactly the queue's next message, or has reported
      that the parent was told to stop, or has reported the child's end with every
      message of the child taken; `try-recv` takes the next message or none; the
      destructor ends only after the child. */
  lemma {:induction false} ParentCalls(s: State, call: Choice, steps: seq<Action>)
    requires Inv(s) && s.p.PIdle? && steps != [] && steps[0] == ByParent(call)
    requires Run(s, steps).Some? && ParentBusy(s, steps)
    ensures Inv(Run(s, steps).value) && ParentDid(s, call, Run(s, steps).value)
  {
    var before, last := steps[..|steps| - 1], steps[|steps| - 1];
    if before == [] {
      assert Run(s, before) == Some(s);
      StepKeepsInv(s, last);
      ParentChoiceDid(s, call);
    } else {
      assert forall k :: 0 < k < |before| ==> before[..k] == steps[..k];
      ParentCalls(s, call, before);
      var u := Run(s, before).value;
      StepKeepsInv(u, last);
      match last {
        case ByParent(choice) => ParentStepDid(s, call, u, choice);
        case ByChild(choice) => ChildIsSeen(u, choice); SeenDid(s, call, u, Step(u, last).value);
        case Terminate => SeenDid(s, call, u, Step(u, last).value);
      }
    }
  }

  /** The same for the child: `post` appends its message; `recv` that returns has taken
      exactly the queue's next message, and one that does not return has taken none and
      the child was told to stop; the thread's end records its error, if there is one,
      and nothing else. */
  lemma {:induction false} ChildCalls(s: State, call: Choice, steps: seq<Action>)
    requires Inv(s) && s.c.CRunning? && steps != [] && steps[0] == ByChild(call)
    requires Run(s, steps).Some? && ChildBusy(s, steps)
    ensures Inv(Run(s, steps).value) && ChildDid(s, call, Run(s, steps).value)
  {
    var before, last := steps[..|steps| - 1], steps[|steps| - 1];
    if before == [] {
      assert Run(s, before) == Some(s);
      StepKeepsInv(s, last);
      ChildChoiceDid(s, call);
    } else {
      assert forall k :: 0 < k < |before| ==> before[..k] == steps[..k];
      ChildCalls(s, call, before);
      var u := Run(s, before).value;
      StepKeepsInv(u, last);
      match last {
        case ByParent(choice) => ParentIsSeen(u, choice); SeenByChildDid(s, call, u, Step(u, last).value);
        case ByChild(choice) => ChildStepDid(s, call, u, choice);
        case Terminate => SeenByChildDid(s, call, u, Step(u, last).value);
      }
    }
  }

  /** Until the thread ends it has recorded no error. */
  lemma {:induction false} NoErrorBeforeTheEnd(schedule: seq<Action>)
    requires Run(Start(), schedule).Some?
    ensures var s := Run(Start(), schedule).value; s.c.CStoreDone? || Ended(s.c) || s.childError == None
  {
    if schedule != [] {
      var before, last := schedule[..|schedule| - 1], schedule[|schedule| - 1];
      NoErrorBeforeTheEnd(before);
      var u := Run(Start(), before).value;
      match last {
        case ByParent(choice) => ParentIsSeen(u, choice);
        case ByChild(choice) => NoErrorStep(u, choice);
        case Terminate =>
      }
    }
  }

  lemma NoErrorStep(u: State, choice: Choice)
    requires ChildStep(u, choice).Some? && (u.c.CStoreDone? || Ended(u.c) || u.childError == None)
    ensures var t := ChildStep(u, choice).value; t.c.CStoreDone? || Ended(t.c) || t.childError == None
  {
  }

  // ---- calls return ----

  /** The parent takes `n` steps alone. */
  function Alone(n: nat): seq<Action> {
    if n == 0 then [] else Alone(n - 1) + [ByParent(Go)]
  }

  function ChildAlone(n: nat): seq<Action> {
    if n == 0 then [] else ChildAlone(n - 1) + [ByChild(Go)]
  }

  lemma {:induction false} AloneLength(n: nat)
    ensures |Alone(n)| == |ChildAlone(n)| == n
  {
    if n > 0 { AloneLength(n - 1); }
  }

  /** Steps of the parent alone, or of the child alone, lead from `s` to `t`. */
  ghost predicate ParentLeads(s: State, t: State) {
    exists n: nat :: Run(s, Alone(n)) == Some(t)
  }

  ghost predicate ChildLeads(s: State, t: State) {
    exists n: nat :: Run(s, ChildAlone(n)) == Some(t)
  }

  lemma Stays(s: State)
    ensures ParentLeads(s, s) && ChildLeads(s, s)
  {
    assert Run(s, Alone(0)) == Some(s);
    assert Run(s, ChildAlone(0)) == Some(s);
  }

  lemma ParentGoes(s: State, u: State)
    requires ParentLeads(s, u) && ParentStep(u, Go).Some?
    ensures ParentLeads(s, ParentStep(u, Go).value)
  {
    var n: nat :| Run(s, Alone(n)) == Some(u);
    AloneLength(n);
    AloneLength(n + 1);
    assert Alone(n + 1)[..n] == Alone(n);
    assert Run(s, Alone(n + 1)) == ParentStep(u, Go);
  }

  lemma ChildGoes(s: State, u: State)
    requires ChildLeads(s, u) && ChildStep(u, Go).Some?
    ensures ChildLeads(s, ChildStep(u, Go).value)
  {
    var n: nat :| Run(s, ChildAlone(n)) == Some(u);
    AloneLength(n);
    AloneLength(n + 1);
    assert ChildAlone(n + 1)[..n] == ChildAlone(n);
    assert Run(s, ChildAlone(n + 1)) == ChildStep(u, Go);
  }

  lemma ParentThree(s: State, a: State, b: State, c: State)
    requires ParentStep(s, Go) == Some(a) && ParentStep(a, Go) == Some(b) && ParentStep(b, Go) == Some(c)
    ensures ParentLeads(s, c)
  {
    Stays(s);
    ParentGoes(s, s);
    ParentGoes(s, a);
    ParentGoes(s, b);
  }

  lemma ParentGoesOn(s: State, t: State, a: State, b: State)
    requires ParentLeads(s, t) && ParentStep(t, Go) == Some(a) && ParentStep(a, Go) == Some(b)
    ensures ParentLeads(s, b)
  {
    ParentGoes(s, t);
    ParentGoes(s, a);
  }

  lemma ChildThree(s: State, a: State, b: State, c: State)
    requires ChildStep(s, Go) == Some(a) && ChildStep(a, Go) == Some(b) && ChildStep(b, Go) == Some(c)
    ensures ChildLeads(s, c)
  {
    Stays(s);
    ChildGoes(s, s);
    ChildGoes(s, a);
    ChildGoes(s, b);
  }

  function WithoutFirst(q: Queue): Queue
    requires q.messages != []
  {
    Queue(q.messages[1..], q.waiting)
  }

  /** What an undisturbed `recv` comes to: it takes the first message; without one it
      reports that the parent was told to stop; else that the child has ended; else it
      waits. */
  function Received(s: State): State {
    if s.toParent.messages != [] then
      s.(toParent := WithoutFirst(s.toParent), taken := s.taken + [s.toParent.messages[0]], p := PIdle)
    else if s.terminated then s.(report := Some(SelfTerminated), p := PIdle)
    else if s.done then
      s.(report := Some(match s.childError case Some(e) => ChildFailed(e) case None => ChildExited), p := PIdle)
    else s.(toParent := Queue([], true), p := RecvWait)
  }

  lemma RecvAlone(s: State)
    requires s.p.RecvLock? && !ChildHoldsParentQueue(s.c)
    ensures ParentLeads(s, Received(s))
  {
    Stays(s);
    var u := s;
    while u != Received(s)
      invariant ParentLeads(s, u) && (u == Received(s) || OnTheWay(s, u))
      decreases u != Received(s), Left(u.p)
    {
      WayGoesOn(s, u);
      ParentGoes(s, u);
      u := ParentStep(u, Go).value;
    }
  }

  /** Where an undisturbed `recv` comes past. */
  predicate OnTheWay(s: State, u: State) {
    || (u.p.RecvUnlockTaken? && s.toParent.messages != [] && u == Received(s).(p := RecvUnlockTaken))
    || (u == s.(p := u.p) &&
        match u.p
        case RecvLock => true
        case RecvTestMessages => true
        case RecvTestTerminated => s.toParent.messages == []
        case RecvTestDone => s.toParent.messages == [] && !s.terminated
        case RecvBlock => s.toParent.messages == [] && !s.terminated && !s.done
        case RecvLook => s.toParent.messages != [] || s.terminated || s.done
        case RecvUnlockEmpty => s.toParent.messages == [] && (s.terminated || s.done)
        case RecvCheckTerminated => s.toParent.messages == [] && (s.terminated || s.done)
        case RecvReport => s.toParent.messages == [] && !s.terminated && s.done
        case _ => false)
  }

  lemma WayGoesOn(s: State, u: State)
    requires OnTheWay(s, u) && !ChildHoldsParentQueue(s.c)
    ensures ParentStep(u, Go).Some?
    ensures var t := ParentStep(u, Go).value; t == Received(s) || (OnTheWay(s, t) && Left(t.p) < Left(u.p))
  {
  }

  /** An undisturbed `try-recv` takes the first message, if there is one. */
  lemma TryRecvAlone(s: State)
    requires s.p.TryLock? && !ChildHoldsParentQueue(s.c)
    ensures ParentLeads(s,
              if s.toParent.messages == [] then s.(p := PIdle)
              else s.(toParent := WithoutFirst(s.toParent), taken := s.taken + [s.toParent.messages[0]], p := PIdle))
  {
    var taken := ParentTry(s.(p := TryTake)).value;
    ParentThree(s, s.(p := TryTake), taken, taken.(p := PIdle));
  }

  /** An undisturbed `post` appends its message and wakes the child. */
  lemma PostAlone(s: State)
    requires s.p.PostLock? && !ChildHoldsOwnQueue(s.c)
    ensures ParentLeads(s, s.(toChild := Queue(s.toChild.messages + [s.p.m], false), sent := s.sent + [s.p.m], p := PIdle))
  {
    var appended := ParentPost(s.(p := PostAppend(s.p.m))).value;
    var last := appended.(p := PostNotify);
    ParentThree(s, s.(p := PostAppend(s.p.m)), appended, last);
    ParentGoes(s, last);
  }

  /** The child's wakes the parent. */
  lemma ChildPostAlone(s: State)
    requires s.c.CPostLock? && !ParentHoldsOwnQueue(s.p)
    ensures ChildLeads(s, s.(toParent := Queue(s.toParent.messages + [s.c.m], false), posted := s.posted + [s.c.m], c := CRunning))
  {
    var appended := ChildPost(s.(c := CPostAppend(s.c.m))).value;
    var last := appended.(c := CPostNotify);
    ChildThree(s, s.(c := CPostAppend(s.c.m)), appended, last);
    ChildGoes(s, last);
  }

  /** What the child's undisturbed `recv` comes to: it takes the first message unless it
      has been told to stop, which ends the thread, and waits when there is none. */
  function Popped(s: State): State {
    if s.childTerminated then s.(c := CStoreDone)
    else if s.toChild.messages == [] then s.(toChild := Queue([], true), c := CPopWait)
    else s.(toChild := WithoutFirst(s.toChild), received := s.received + [s.toChild.messages[0]], c := CRunning)
  }

  lemma PopAlone(s: State)
    requires s.c.CPopLock? && !ParentHoldsChildQueue(s.p)
    ensures ChildLeads(s, Popped(s))
  {
    Stays(s);
    var u := s;
    while u != Popped(s)
      invariant ChildLeads(s, u) && (u == Popped(s) || OnTheWayToPop(s, u))
      decreases LeftToPop(u.c)
    {
      PopGoesOn(s, u);
      ChildGoes(s, u);
      u := ChildStep(u, Go).value;
    }
  }

  predicate OnTheWayToPop(s: State, u: State) {
    || (u.c.CPopUnlock? && !s.childTerminated && s.toChild.messages != [] && u == Popped(s).(c := CPopUnlock))
    || (u == s.(c := u.c) &&
        match u.c
        case CPopLock => true
        case CPopTestMessages => true
        case CPopTestTerminated => s.toChild.messages == []
        case CPopBlock => s.toChild.messages == [] && !s.childTerminated
        case CPopCheckTerminated => s.toChild.messages != [] || s.childTerminated
        case CPopTake => s.toChild.messages != [] && !s.childTerminated
        case CPopUnlockThrow => s.childTerminated
        case _ => false)
  }

  function LeftToPop(c: ChildPc): nat {
    match c
    case CPopLock => 6 case CPopTestMessages => 5 case CPopTestTerminated => 4 case CPopCheckTerminated => 3
    case CPopTake => 2 case CPopBlock => 1 case CPopUnlock => 1 case CPopUnlockThrow => 1
    case _ => 0
  }

  lemma PopGoesOn(s: State, u: State)
    requires OnTheWayToPop(s, u) && !ParentHoldsChildQueue(s.p)
    ensures ChildStep(u, Go).Some?
    ensures var t := ChildStep(u, Go).value; LeftToPop(t.c) < LeftToPop(u.c) && (t == Popped(s) || OnTheWayToPop(s, t))
  {
  }

  /** The thread's end stores `done` and wakes the parent. */
  lemma EndAlone(s: State)
    requires s.c.CStoreDone? && !ParentHoldsOwnQueue(s.p)
    ensures ChildLeads(s, s.(done := true, toParent := Queue(s.toParent.messages, false), c := CExited))
  {
    var t := s.(done := true);
    ChildThree(s, t.(c := CEndLock), t.(c := CEndUnlock), t.(c := CEndNotify));
    ChildGoes(s, t.(c := CEndNotify));
  }

  /** The destructor, once the child has exited: both queues are notified. */
  lemma DestroyAlone(s: State)
    requires s.p.StopLockChild? && s.c.CExited?
    ensures ParentLeads(s, s.(toChild := Notify(s.toChild), toParent := Notify(s.toParent), p := Gone))
  {
    var t := s.(toChild := Notify(s.toChild));
    ParentThree(s, s.(p := StopUnlockChild), s.(p := StopNotifyChild), t.(p := StopLockParent));
    JoinAlone(s, t.(p := StopLockParent));
  }

  lemma JoinAlone(s: State, t: State)
    requires ParentLeads(s, t) && t.p.StopLockParent? && t.c.CExited?
    ensures ParentLeads(s, t.(toParent := Notify(t.toParent), p := Gone))
  {
    UnlockAndNotify(t);
    var u := t.(toParent := Notify(t.toParent), p := Join);
    ParentGoesOn(s, t, t.(p := StopUnlockParent), t.(p := StopNotifyParent));
    ParentGoesOn(s, t.(p := StopNotifyParent), u, u.(p := Gone));
  }

  lemma UnlockAndNotify(t: State)
    requires t.p.StopLockParent? && t.c.CExited?
    ensures ParentStep(t, Go) == Some(t.(p := StopUnlockParent))
    ensures ParentStep(t.(p := StopUnlockParent), Go) == Some(t.(p := StopNotifyParent))
    ensures var u := t.(toParent := Notify(t.toParent), p := Join);
            ParentStep(t.(p := StopNotifyParent), Go) == Some(u) && ParentStep(u, Go) == Some(u.(p := Gone))
  {
  }

  /** Steps the parent's `recv` has left once the child has exited. */
  function Left(p: ParentPc): nat {
    match p
    case RecvLock => 8 case RecvWait => 8 case RecvTestMessages => 7 case RecvTestTerminated => 6 case RecvTestDone => 5
    case RecvLook => 4 case RecvUnlockEmpty => 3 case RecvCheckTerminated => 2 case RecvReport => 1 case RecvUnlockTaken => 1 case RecvBlock => 1
    case _ => 0
  }

  /** Once the child has exited, a `recv` returns by steps of the parent alone from
      wherever it is, also when it is waiting; `ParentCalls` says with what. */
  lemma RecvReturns(s: State) returns (t: State)
    requires Inv(s) && InRecv(s.p) && s.c.CExited?
    ensures ParentLeads(s, t) && t.p.PIdle?
  {
    Stays(s);
    t := s;
    while !t.p.PIdle?
      invariant ParentLeads(s, t) && Inv(t) && t.c.CExited? && (t.p.PIdle? || InRecv(t.p))
      decreases Left(t.p)
    {
      RecvGoesOn(t);
      StepKeepsInv(t, ByParent(Go));
      ParentGoes(s, t);
      t := ParentStep(t, Go).value;
    }
  }

  lemma RecvGoesOn(u: State)
    requires Inv(u) && InRecv(u.p) && u.c.CExited?
    ensures ParentStep(u, Go).Some?
    ensures var t := ParentStep(u, Go).value; t.c.CExited? && Left(t.p) < Left(u.p) && (t.p.PIdle? || InRecv(t.p))
  {
  }

  // ---- a parent that is told to stop while it waits ----

  /** An action that wakes the waiting parent: the child notifies it, or it wakes up of
      its own accord. */
  predicate Wakes(u: State, a: Action) {
    a == ByParent(Spurious) || (a.ByChild? && (u.c.CPostNotify? || u.c.CEndNotify?))
  }

  /** Storing `terminated` does not wake a `recv` that waits: it stays blocked under
      every schedule until the child notifies it. */
  lemma {:induction false} StaysBlocked(s: State, steps: seq<Action>)
    requires s.p.RecvWait? && s.toParent.waiting && Run(s, steps).Some?
    requires forall k :: 0 <= k < |steps| && Run(s, steps[..k]).Some? ==> !Wakes(Run(s, steps[..k]).value, steps[k])
    ensures var t := Run(s, steps).value; t.p.RecvWait? && t.toParent.waiting
  {
    if steps != [] {
      var before, last := steps[..|steps| - 1], steps[|steps| - 1];
      assert forall k :: 0 <= k < |before| ==> before[..k] == steps[..k] && before[k] == steps[k];
      StaysBlocked(s, before);
      BlockedStep(Run(s, before).value, last);
    }
  }

  lemma BlockedStep(u: State, a: Action)
    requires u.p.RecvWait? && u.toParent.waiting && Step(u, a).Some? && !Wakes(u, a)
    ensures Step(u, a).value.p.RecvWait? && Step(u, a).value.toParent.waiting
  {
    if a.ByChild? { ChildIsSeen(u, a.choice); }
  }

  /** Such a parent exists: it calls `recv`, waits, and is then told to stop. */
  lemma StoppedWhileWaiting() returns (schedule: seq<Action>)
    ensures Run(Start(), schedule) == Some(Start().(p := RecvWait, toParent := Queue([], true), terminated := true))
  {
    var call := [ByParent(Recv)];
    var s := Start().(p := RecvLock);
    assert call[..0] == [];
    assert Run(Start(), call) == Some(s);
    RecvAlone(s);
    var n: nat :| Run(s, Alone(n)) == Some(Received(s));
    RunsOn(Start(), call, s, Alone(n));
    schedule := call + Alone(n) + [Terminate];
    assert schedule[..|schedule| - 1] == call + Alone(n);
  }

  lemma {:induction false} RunsOn(s: State, before: seq<Action>, t: State, rest: seq<Action>)
    requires Run(s, before) == Some(t)
    ensures Run(s, before + rest) == Run(t, rest)
  {
    if rest == [] {
      assert before + rest == before;
    } else {
      var init, last := rest[..|rest| - 1], rest[|rest| - 1];
      RunsOn(s, before, t, init);
      assert before + rest == before + init + [last] && rest == init + [last];
      RunLast(s, before + init, last);
      RunLast(t, init, last);
    }
  }

  lemma RunLast(s: State, steps: seq<Action>, last: Action)
    ensures Run(s, steps + [last]) == match Run(s, steps) case Some(t) => Step(t, last) case None => None
  {
    assert (steps + [last])[..|steps|] == steps;
  }
}
