/** Running a chunk does what evaluating the program over registers does. */
module Simulation {
  import opened Semantics
  import opened Bytecode
  import opened Layout
  import opened Evaluation

  // ---- what a run shows ----

  /** Registers below `dest` and `next` are as they were: the ones between them
      hold nothing that is still needed. */
  predicate Frame(r: seq<Value>, r': seq<Value>, dest: nat, next: nat) {
    && |r| == REGISTERS && |r'| == REGISTERS
    && forall i :: 0 <= i < REGISTERS && i < next && i < dest ==> r'[i] == r[i]
  }

  /** The world a machine state stands for: evaluation and machine hold the same
      globals and the same registers. */
  function W(st: Vm): World {
    World(st.globals, st.regs)
  }

  /** After `n` steps from `st`, the status `s` shows the outcome of code that ends
      at `end`. A timeout with bound `fuel` shows as a machine still running
      after at least `fuel` steps. */
  predicate Shows(out: Outcome, s: Status, n: nat, st: Vm, dest: nat, next: nat, end: int, lp: LoopCtx, fuel: nat) {
    match out
    case Norm(v, w) =>
      && s.Running? && s.st.pc == end && W(s.st) == w && Frame(st.regs, s.st.regs, dest, next)
      && dest < REGISTERS && s.st.regs[dest] == v
    case Broke(w) =>
      lp.Closed? && s.Running? && s.st.pc == lp.exit && W(s.st) == w && Frame(st.regs, s.st.regs, dest, next)
    case Continued(w) =>
      && lp.Closed? && n > 0 && s.Running? && s.st.pc == lp.start
      && W(s.st) == w && Frame(st.regs, s.st.regs, dest, next)
    case Fault(e, g) => s == Failed(e, g)
    case Timeout => s.Running? && n >= fuel
  }

  /** The machine can run `size` instructions of code; inside a loop, they end
      close enough to its start for a backward jump. */
  predicate Ready(dest: nat, next: nat, size: nat, pc: nat, lp: LoopCtx, st: Vm) {
    && st.pc == pc && |st.regs| == REGISTERS && dest < next && !lp.Open?
    && (lp.Closed? ==> pc + size + 1 - lp.start <= 32768)
  }

  /** What the expression evaluates to, read as the chunk reads it. */
  function Ev(m: Machine, fuel: nat, e: Expr, dest: nat, next: nat, w: World): Outcome {
    Eval(m.h, Encoded, fuel, e, dest, next, w)
  }

  // ---- runs put together ----

  /** One more instruction. */
  lemma ThenStep(m: Machine, st: Vm, n: nat, st1: Vm, i: Ins) returns (n': nat, s: Status)
    requires |st.regs| == REGISTERS && |st1.regs| == REGISTERS
    requires Run(m, Running(st), n) == Running(st1)
    requires st1.pc >= 0 && At(m.ch, st1.pc, i)
    ensures n' == n + 1 && s == Perform(m, st1, i) == Run(m, Running(st), n')
  {
    n', s := n + 1, Perform(m, st1, i);
    OpenRun(m, Running(st), n');
  }

  /** A run to `st1` followed by a run that shows an outcome. The second may use
      another destination, as long as that is a temporary of the first. */
  lemma Chain(m: Machine, st: Vm, n1: nat, st1: Vm, out: Outcome, n2: nat, s: Status,
              dest: nat, next: nat, dest2: nat, next2: nat, end: int, lp: LoopCtx, fuel: nat)
    returns (n: nat)
    requires Frame(st.regs, st1.regs, dest, next) && Run(m, Running(st), n1) == Running(st1)
    requires s == Run(m, Running(st1), n2) && Shows(out, s, n2, st1, dest2, next2, end, lp, fuel)
    requires next <= next2 && (dest2 == dest || dest2 >= next)
    ensures n == n1 + n2 && s == Run(m, Running(st), n)
    ensures dest2 == dest || !out.Norm? ==> Shows(out, s, n, st, dest, next, end, lp, fuel)
    ensures out.Norm? ==> Frame(st.regs, s.st.regs, dest, next)
  {
    n := n1 + n2;
    RunSplit(m, Running(st), n1, n2);
  }

  lemma NotDone(m: Machine, o: Outcome, st: Vm, n: nat, s: Status, dest: nat, next: nat, end: nat, lp: LoopCtx, fuel: nat)
    returns (n': nat, s': Status)
    requires |st.regs| == REGISTERS && s == Run(m, Running(st), n) && Shows(o, s, n, st, dest, next, end, lp, fuel)
    requires dest < REGISTERS && At(m.ch, end, Not(dest, dest))
    ensures s' == Run(m, Running(st), n') && Shows(NotOutcome(dest, o), s', n', st, dest, next, end + 1, lp, fuel)
  {
    n', s' := n, s;
    if o.Norm? { n', s' := ThenStep(m, st, n, s.st, Not(dest, dest)); }
  }

  lemma AssignDone(m: Machine, id: SymbolId, o: Outcome, st: Vm, n: nat, s: Status,
                   dest: nat, next: nat, end: nat, k: nat, lp: LoopCtx, fuel: nat)
    returns (n': nat, s': Status)
    requires |st.regs| == REGISTERS && s == Run(m, Running(st), n) && Shows(o, s, n, st, dest, next, end, lp, fuel)
    requires dest < REGISTERS && ConstAt(m.ch, k, Int(id)) && At(m.ch, end, SetGlobal(dest, k))
    ensures s' == Run(m, Running(st), n') && Shows(AssignOutcome(id, o), s', n', st, dest, next, end + 1, lp, fuel)
  {
    n', s' := n, s;
    if o.Norm? { n', s' := ThenStep(m, st, n, s.st, SetGlobal(dest, k)); }
  }

  /** The jump over the `else` branch. */
  lemma SkipDone(m: Machine, o: Outcome, st: Vm, n: nat, s: Status, dest: nat, next: nat, end: nat, skip: nat,
                 lp: LoopCtx, fuel: nat)
    returns (n': nat, s': Status)
    requires |st.regs| == REGISTERS && s == Run(m, Running(st), n) && Shows(o, s, n, st, dest, next, end, lp, fuel)
    requires At(m.ch, end, Jmp(skip))
    ensures s' == Run(m, Running(st), n') && Shows(o, s', n', st, dest, next, end + 1 + skip, lp, fuel)
  {
    n', s' := n, s;
    if o.Norm? { n', s' := ThenStep(m, st, n, s.st, Jmp(skip)); }
  }

  /** After both operands of a comparison: their values in `ra` and in the
      register allocated after the first. */
  predicate ShowsPair(ops: Operands, s: Status, n: nat, st: Vm, ra: nat, rb: nat, end: int, lp: LoopCtx, fuel: nat) {
    match ops
    case Both(v, u, w) =>
      && s.Running? && s.st.pc == end && W(s.st) == w && Frame(st.regs, s.st.regs, ra, ra)
      && ra < rb < REGISTERS && s.st.regs[ra] == v && s.st.regs[rb] == u
    case Stopped(o) => !o.Norm? && Shows(o, s, n, st, ra, ra, 0, lp, fuel)
  }

  /** The second operand leaves the first in its register. */
  lemma PairDone(m: Machine, st: Vm, n1: nat, st1: Vm, v: Value, o: Outcome, n2: nat, s: Status,
                 ra: nat, rb: nat, end: int, lp: LoopCtx, fuel: nat)
    returns (n: nat)
    requires Frame(st.regs, st1.regs, ra, ra + 1) && Run(m, Running(st), n1) == Running(st1)
    requires ra < rb && ra < REGISTERS && st1.regs[ra] == v
    requires s == Run(m, Running(st1), n2) && Shows(o, s, n2, st1, rb, rb + 1, end, lp, fuel)
    ensures s == Run(m, Running(st), n)
    ensures ShowsPair(PairWith(v, o), s, n, st, ra, rb, end, lp, fuel)
  {
    n := Chain(m, st, n1, st1, o, n2, s, ra, ra, rb, rb + 1, end, lp, fuel);
  }

  lemma CmpDone(m: Machine, op: CmpOp, ops: Operands, st: Vm, n: nat, s: Status, dest: nat, ra: nat, rb: nat, end: nat,
                lp: LoopCtx, fuel: nat)
    returns (n': nat, s': Status)
    requires |st.regs| == REGISTERS && s == Run(m, Running(st), n)
    requires ShowsPair(ops, s, n, st, ra, rb, end, lp, fuel)
    requires dest < ra < 256 && rb < 256 && At(m.ch, end, Cmp(op, dest, ra, rb))
    ensures s' == Run(m, Running(st), n') && Shows(CmpOutcome(m.h, op, dest, ops), s', n', st, dest, ra, end + 1, lp, fuel)
  {
    n', s' := n, s;
    if ops.Both? { n', s' := ThenStep(m, st, n, s.st, Cmp(op, dest, ra, rb)); }
  }

  /** After a condition: at the next instruction when it holds, `skip`
      instructions further when it does not. */
  predicate ShowsCond(o: Outcome, s: Status, n: nat, st: Vm, cd: nat, temps: nat, after: int, skip: nat, lp: LoopCtx, fuel: nat) {
    if o.Norm? then
      && s.Running? && W(s.st) == o.w && Frame(st.regs, s.st.regs, cd, temps)
      && s.st.pc == (if Falsy(o.v) then after + skip else after)
    else Shows(o, s, n, st, cd, temps, 0, lp, fuel)
  }

  lemma FusedDone(m: Machine, op: CmpOp, ops: Operands, st: Vm, n: nat, s: Status, cd: nat, ra: nat, rb: nat, end: nat,
                  skip: nat, lp: LoopCtx, fuel: nat)
    returns (n': nat, s': Status)
    requires |st.regs| == REGISTERS && s == Run(m, Running(st), n)
    requires ShowsPair(ops, s, n, st, ra, rb, end, lp, fuel)
    requires ra < 256 && rb < 256 && At(m.ch, end, CmpJmp(op, ra, rb)) && At(m.ch, end + 1, Jmp(skip))
    ensures s' == Run(m, Running(st), n')
    ensures ShowsCond(TestOutcome(m.h, op, ops), s', n', st, cd, ra, end + 2, skip, lp, fuel)
  {
    n', s' := n, s;
    if ops.Both? {
      n', s' := ThenStep(m, st, n, s.st, CmpJmp(op, ra, rb));
      if !m.h.compare(op, ops.v, ops.u) { n', s' := ThenStep(m, st, n', s'.st, Jmp(skip)); }
    }
  }

  lemma PlainDone(m: Machine, o: Outcome, st: Vm, n: nat, s: Status, cd: nat, cn: nat, temps: nat, end: nat, skip: nat,
                  lp: LoopCtx, fuel: nat)
    returns (n': nat, s': Status)
    requires |st.regs| == REGISTERS && s == Run(m, Running(st), n) && Shows(o, s, n, st, cd, cn, end, lp, fuel)
    requires temps <= cn && cd < 256 && At(m.ch, end, JmpFalse(cd, skip))
    ensures s' == Run(m, Running(st), n')
    ensures ShowsCond(o, s', n', st, cd, temps, end + 1, skip, lp, fuel)
  {
    n', s' := n, s;
    if o.Norm? { n', s' := ThenStep(m, st, n, s.st, JmpFalse(cd, skip)); }
  }

  /** After the left operand of `and` or `or`: past the right one when it decides. */
  lemma LeftDone(m: Machine, i: Ins, isAnd: bool, o: Outcome, st: Vm, n: nat, s: Status, dest: nat, next: nat, end: nat,
                 skip: nat, lp: LoopCtx, fuel: nat)
    returns (n': nat, s': Status)
    requires |st.regs| == REGISTERS && s == Run(m, Running(st), n) && Shows(o, s, n, st, dest, next, end, lp, fuel)
    requires dest < 256 && i == (if isAnd then And(dest, skip) else Or(dest, skip)) && At(m.ch, end, i)
    ensures s' == Run(m, Running(st), n')
    ensures if o.Norm? && Falsy(o.v) != isAnd
            then s'.Running? && s'.st.pc == end + 1 && W(s'.st) == o.w && Frame(st.regs, s'.st.regs, dest, next)
            else Shows(o, s', n', st, dest, next, end + 1 + skip, lp, fuel)
  {
    n', s' := n, s;
    if o.Norm? { n', s' := ThenStep(m, st, n, s.st, i); }
  }

  /** One operation of an arithmetic chain. */
  lemma OperandDone(m: Machine, op: ArithOp, acc: Value, o: Outcome, st: Vm, n: nat, s: Status,
                    dest: nat, base: nat, cur: nat, end: nat, lp: LoopCtx, fuel: nat)
    returns (n': nat, s': Status)
    requires |st.regs| == REGISTERS && s == Run(m, Running(st), n) && Shows(o, s, n, st, cur, cur + 1, end, lp, fuel)
    requires dest < base <= cur < 256 && st.regs[dest] == acc && At(m.ch, end, BinOp(op, dest, dest, cur))
    ensures s' == Run(m, Running(st), n')
    ensures Shows(ArithOutcome(m.h, op, dest, acc, o), s', n', st, dest, base, end + 1, lp, fuel)
  {
    n', s' := n, s;
    if o.Norm? { n', s' := ThenStep(m, st, n, s.st, BinOp(op, dest, dest, cur)); }
  }

  lemma FoldedDone(m: Machine, op: ArithOp, imm: int, o: Outcome, st: Vm, n: nat, s: Status,
                   dest: nat, next: nat, end: nat, lp: LoopCtx, fuel: nat)
    returns (n': nat, s': Status)
    requires |st.regs| == REGISTERS && s == Run(m, Running(st), n) && Shows(o, s, n, st, dest, next, end, lp, fuel)
    requires dest < 256 && (op == Add || op == Sub) && At(m.ch, end, FoldedIns(op, dest, imm))
    ensures s' == Run(m, Running(st), n')
    ensures Shows(ImmediateOutcome(m.h, op, dest, o, imm), s', n', st, dest, next, end + 1, lp, fuel)
  {
    n', s' := n, s;
    if o.Norm? { n', s' := ThenStep(m, st, n, s.st, FoldedIns(op, dest, imm)); }
  }

  /** Leaving a loop: through the final LOADNULL or by a break to its end. */
  lemma LeaveDone(m: Machine, o: Outcome, st: Vm, n: nat, s: Status, dest: nat, next: nat, end: nat,
                  inner: LoopCtx, lp: LoopCtx, fuel: nat)
    returns (n': nat, s': Status)
    requires |st.regs| == REGISTERS && s == Run(m, Running(st), n) && !o.Continued?
    requires inner.Closed? && inner.exit == end + 1 && dest < 256 && At(m.ch, end, LoadNull(dest))
    requires if o.Norm? then s.Running? && s.st.pc == end && W(s.st) == o.w && Frame(st.regs, s.st.regs, dest, next)
             else Shows(o, s, n, st, dest, next, 0, inner, fuel)
    ensures s' == Run(m, Running(st), n') && Shows(LeaveOutcome(dest, o), s', n', st, dest, next, end + 1, lp, fuel)
  {
    n', s' := n, s;
    if o.Norm? { n', s' := ThenStep(m, st, n, s.st, LoadNull(dest)); }
  }

  // ---- simulation, by recursion on the expression ----

  lemma {:induction false} Sim(m: Machine, fuel: nat, e: Expr, dest: nat, next: nat, pc: nat, k: nat, lp: LoopCtx, st: Vm)
    returns (n: nat, s: Status)
    requires Ready(dest, next, Size(e), pc, lp, st) && LoopsFit(e) && CodeFor(m.h, m.ch, e, dest, next, pc, k, lp)
    ensures s == Run(m, Running(st), n)
    ensures Shows(Ev(m, fuel, e, dest, next, W(st)), s, n, st, dest, next, pc + Size(e), lp, fuel)
    decreases fuel, e, 2
  {
    OpenSizes(e);
    OpenCode(m.h, m.ch, e, dest, next, pc, k, lp);
    OpenEval(m.h, Encoded, fuel, e, dest, next, W(st));
    match e
    case EArith(_, _, _) => n, s := SimArith(m, fuel, e, dest, next, pc, k, lp, st);
    case ECmp(_, _, _) => n, s := SimCmp(m, fuel, e, dest, next, pc, k, lp, st);
    case ENot(a) => n, s := SimNot(m, fuel, a, dest, next, pc, k, lp, st);
    case EAssign(_, _) => n, s := SimAssign(m, fuel, e, dest, next, pc, k, lp, st);
    case EIf(_, _, _) => n, s := SimIf(m, fuel, e, dest, next, pc, k, lp, st);
    case ELoop(_, _) => n, s := SimLoop(m, fuel, e, dest, next, pc, k, lp, st);
    case EDo(es) => n, s := SimSeq(m, fuel, es, dest, next, pc, k, lp, st);
    case EAnd(_, _) => n, s := SimShort(m, fuel, e, dest, next, pc, k, lp, st);
    case EOr(_, _) => n, s := SimShort(m, fuel, e, dest, next, pc, k, lp, st);
    case _ => n, s := SimLeaf(m, fuel, e, dest, next, pc, k, lp, st);
  }

  lemma {:induction false} SimLeaf(m: Machine, fuel: nat, e: Expr, dest: nat, next: nat, pc: nat, k: nat, lp: LoopCtx, st: Vm)
    returns (n: nat, s: Status)
    requires Ready(dest, next, Size(e), pc, lp, st) && LoopsFit(e) && CodeFor(m.h, m.ch, e, dest, next, pc, k, lp)
    requires e.EInt? || e.EFloat? || e.EBool? || e.ENull? || e.EGlobal? || e.EBreak? || e.EContinue?
    ensures s == Run(m, Running(st), n)
    ensures Shows(Ev(m, fuel, e, dest, next, W(st)), s, n, st, dest, next, pc + Size(e), lp, fuel)
  {
    OpenSizes(e);
    OpenCode(m.h, m.ch, e, dest, next, pc, k, lp);
    OpenEval(m.h, Encoded, fuel, e, dest, next, W(st));
    OpenRun(m, Running(st), 0);
    n, s := ThenStep(m, st, 0, st, m.ch.code[pc]);
    if e.EInt? && IsImmediate(e.v) { ImmediateReadBack(e.v); }
  }

  lemma {:induction false} SimNot(m: Machine, fuel: nat, a: Expr, dest: nat, next: nat, pc: nat, k: nat, lp: LoopCtx, st: Vm)
    returns (n: nat, s: Status)
    requires Ready(dest, next, Size(a) + 1, pc, lp, st) && LoopsFit(a)
    requires CodeFor(m.h, m.ch, a, dest, next, pc, k, lp) && dest < 256 && At(m.ch, pc + Size(a), Not(dest, dest))
    ensures s == Run(m, Running(st), n)
    ensures Shows(NotOutcome(dest, Ev(m, fuel, a, dest, next, W(st))), s, n, st, dest, next, pc + Size(a) + 1, lp, fuel)
    decreases fuel, a, 3
  {
    n, s := Sim(m, fuel, a, dest, next, pc, k, lp, st);
    n, s := NotDone(m, Ev(m, fuel, a, dest, next, W(st)), st, n, s, dest, next, pc + Size(a), lp, fuel);
  }

  lemma {:induction false} SimAssign(m: Machine, fuel: nat, e: Expr, dest: nat, next: nat, pc: nat, k: nat, lp: LoopCtx, st: Vm)
    returns (n: nat, s: Status)
    requires e.EAssign? && Ready(dest, next, Size(e), pc, lp, st) && LoopsFit(e)
    requires dest < 256 && CodeForAssign(m.h, m.ch, e, dest, next, pc, k, lp)
    ensures s == Run(m, Running(st), n)
    ensures Shows(AssignOutcome(m.h.symbolId(e.name), Ev(m, fuel, e.e, dest, next, W(st))),
                  s, n, st, dest, next, pc + Size(e), lp, fuel)
    decreases fuel, e, 1
  {
    OpenSizes(e);
    n, s := Sim(m, fuel, e.e, dest, next, pc, k, lp, st);
    n, s := AssignDone(m, m.h.symbolId(e.name), Ev(m, fuel, e.e, dest, next, W(st)), st, n, s, dest, next,
                       pc + Size(e.e), k + Consts(e.e), lp, fuel);
  }

  lemma {:induction false} SimSeq(m: Machine, fuel: nat, es: seq<Expr>, dest: nat, next: nat, pc: nat, k: nat, lp: LoopCtx, st: Vm)
    returns (n: nat, s: Status)
    requires Ready(dest, next, SizeSeq(es), pc, lp, st) && dest < REGISTERS
    requires AllLoopsFit(es) && CodeForSeq(m.h, m.ch, es, dest, next, pc, k, lp)
    ensures s == Run(m, Running(st), n)
    ensures Shows(EvalSeq(m.h, Encoded, fuel, es, dest, next, W(st)), s, n, st, dest, next, pc + SizeSeq(es), lp, fuel)
    decreases fuel, es, 0
  {
    if es == [] {
      n, s := 0, Running(st);
      OpenRun(m, s, n);
    } else {
      n, s := Sim(m, fuel, es[0], dest, next, pc, k, lp, st);
      var out := Ev(m, fuel, es[0], dest, next, W(st));
      if out.Norm? && |es| > 1 {
        var n1, st1, nr := n, s.st, NextReg(es[0], next);
        n, s := SimSeq(m, fuel, es[1..], dest, nr, pc + Size(es[0]), k + Consts(es[0]), lp, st1);
        n := Chain(m, st, n1, st1, EvalSeq(m.h, Encoded, fuel, es[1..], dest, nr, out.w), n, s,
                   dest, next, dest, nr, pc + Size(es[0]) + SizeSeq(es[1..]), lp, fuel);
      } else if out.Norm? {
        assert SizeSeq(es[1..]) == 0;
      }
    }
  }

  lemma {:induction false} SimPair(m: Machine, fuel: nat, e: Expr, next: nat, pc: nat, k: nat, lp: LoopCtx, st: Vm)
    returns (n: nat, s: Status, ops: Operands)
    requires e.ECmp? && Ready(next, next + 1, Size(e.l) + Size(e.r), pc, lp, st)
    requires LoopsFit(e.l) && LoopsFit(e.r) && CodeForPair(m.h, m.ch, e, next, pc, k, lp)
    ensures s == Run(m, Running(st), n) && ops == EvalPair(m.h, Encoded, fuel, e, next, W(st))
    ensures ShowsPair(ops, s, n, st, next, NextReg(e.l, next + 1), pc + Size(e.l) + Size(e.r), lp, fuel)
    decreases fuel, e, 0
  {
    n, s := Sim(m, fuel, e.l, next, next + 1, pc, k, lp, st);
    var o, rb := Ev(m, fuel, e.l, next, next + 1, W(st)), NextReg(e.l, next + 1);
    if o.Norm? {
      n, s, ops := SimRight(m, fuel, e.r, next, rb, pc + Size(e.l), k + Consts(e.l), lp, st, n, s.st);
    } else {
      ops := Stopped(o);
    }
  }

  lemma {:induction false} SimRight(m: Machine, fuel: nat, b: Expr, ra: nat, rb: nat, pc: nat, k: nat, lp: LoopCtx,
                                    st: Vm, n1: nat, st1: Vm)
    returns (n: nat, s: Status, ops: Operands)
    requires Ready(rb, rb + 1, Size(b), pc, lp, st1) && LoopsFit(b) && CodeFor(m.h, m.ch, b, rb, rb + 1, pc, k, lp)
    requires ra < rb && ra < 256 && Frame(st.regs, st1.regs, ra, ra + 1) && Run(m, Running(st), n1) == Running(st1)
    ensures s == Run(m, Running(st), n) && ops == PairWith(st1.regs[ra], Ev(m, fuel, b, rb, rb + 1, W(st1)))
    ensures ShowsPair(ops, s, n, st, ra, rb, pc + Size(b), lp, fuel)
    decreases fuel, b, 3
  {
    n, s := Sim(m, fuel, b, rb, rb + 1, pc, k, lp, st1);
    var o := Ev(m, fuel, b, rb, rb + 1, W(st1));
    ops := PairWith(st1.regs[ra], o);
    n := PairDone(m, st, n1, st1, st1.regs[ra], o, n, s, ra, rb, pc + Size(b), lp, fuel);
  }

  lemma {:induction false} SimCmp(m: Machine, fuel: nat, e: Expr, dest: nat, next: nat, pc: nat, k: nat, lp: LoopCtx, st: Vm)
    returns (n: nat, s: Status)
    requires e.ECmp? && Ready(dest, next, Size(e), pc, lp, st) && LoopsFit(e)
    requires dest < 256 && CodeForCmp(m.h, m.ch, e, dest, next, pc, k, lp)
    ensures s == Run(m, Running(st), n)
    ensures Shows(EvalCmp(m.h, Encoded, fuel, e, dest, next, W(st)), s, n, st, dest, next, pc + Size(e), lp, fuel)
    decreases fuel, e, 1
  {
    OpenSizes(e);
    var ops;
    n, s, ops := SimPair(m, fuel, e, next, pc, k, lp, st);
    n, s := CmpDone(m, e.cop, ops, st, n, s, dest, next, NextReg(e.l, next + 1), pc + Size(e.l) + Size(e.r), lp, fuel);
  }

  lemma {:induction false} SimCond(m: Machine, fuel: nat, c: Expr, parent: Expr, cd: nat, cn: nat, temps: nat,
                                   pc: nat, k: nat, lp: LoopCtx, skip: nat, st: Vm)
    returns (n: nat, s: Status)
    requires c < parent && temps <= cn && Ready(cd, cn, Size(c), pc, lp, st)
    requires LoopsFit(c) && CodeForCond(m.h, m.ch, c, parent, cd, cn, temps, pc, k, lp, skip)
    ensures s == Run(m, Running(st), n)
    ensures ShowsCond(EvalCond(m.h, Encoded, fuel, c, cd, cn, temps, W(st)), s, n, st, cd, temps, pc + Size(c) + 1, skip, lp, fuel)
    decreases fuel, parent, 0
  {
    OpenSizes(c);
    if IsFused(c) {
      var ops;
      n, s, ops := SimPair(m, fuel, c, temps, pc, k, lp, st);
      n, s := FusedDone(m, c.cop, ops, st, n, s, cd, temps, NextReg(c.l, temps + 1), pc + Size(c.l) + Size(c.r), skip, lp, fuel);
    } else {
      n, s := Sim(m, fuel, c, cd, cn, pc, k, lp, st);
      n, s := PlainDone(m, Ev(m, fuel, c, cd, cn, W(st)), st, n, s, cd, cn, temps, pc + Size(c), skip, lp, fuel);
    }
  }

  lemma {:induction false} SimIf(m: Machine, fuel: nat, e: Expr, dest: nat, next: nat, pc: nat, k: nat, lp: LoopCtx, st: Vm)
    returns (n: nat, s: Status)
    requires e.EIf? && Ready(dest, next, Size(e), pc, lp, st) && LoopsFit(e)
    requires dest < 256 && CodeForIf(m.h, m.ch, e, dest, next, pc, k, lp)
    ensures s == Run(m, Running(st), n)
    ensures Shows(EvalIf(m.h, Encoded, fuel, e, dest, next, W(st)), s, n, st, dest, next, pc + Size(e), lp, fuel)
    decreases fuel, e, 1
  {
    OpenSizes(e);
    var EIf(c, t, f) := e;
    n, s := SimCond(m, fuel, c, e, dest, next, next, pc, k, lp, Size(t) + 1, st);
    var o := EvalCond(m.h, Encoded, fuel, c, dest, next, next, W(st));
    if o.Norm? {
      var n1, st1, nt := n, s.st, NextReg(c, next);
      var pt, nf := pc + Size(c) + 1, NextReg(t, nt);
      if Falsy(o.v) {
        n, s := Sim(m, fuel, f, dest, nf, pt + Size(t) + 1, k + Consts(c) + Consts(t), lp, st1);
        n := Chain(m, st, n1, st1, Ev(m, fuel, f, dest, nf, o.w), n, s,
                   dest, next, dest, nf, pt + Size(t) + 1 + Size(f), lp, fuel);
      } else {
        n, s := SimThen(m, fuel, t, Size(f), dest, nt, pt, k + Consts(c), lp, st1);
        n := Chain(m, st, n1, st1, Ev(m, fuel, t, dest, nt, o.w), n, s,
                   dest, next, dest, nt, pt + Size(t) + 1 + Size(f), lp, fuel);
      }
    }
  }

  lemma {:induction false} SimThen(m: Machine, fuel: nat, t: Expr, skip: nat, dest: nat, next: nat, pc: nat, k: nat, lp: LoopCtx, st: Vm)
    returns (n: nat, s: Status)
    requires Ready(dest, next, Size(t), pc, lp, st) && LoopsFit(t) && CodeFor(m.h, m.ch, t, dest, next, pc, k, lp) && At(m.ch, pc + Size(t), Jmp(skip))
    ensures s == Run(m, Running(st), n)
    ensures Shows(Ev(m, fuel, t, dest, next, W(st)), s, n, st, dest, next, pc + Size(t) + 1 + skip, lp, fuel)
    decreases fuel, t, 3
  {
    n, s := Sim(m, fuel, t, dest, next, pc, k, lp, st);
    n, s := SkipDone(m, Ev(m, fuel, t, dest, next, W(st)), st, n, s, dest, next, pc + Size(t), skip, lp, fuel);
  }

  lemma {:induction false} SimShort(m: Machine, fuel: nat, e: Expr, dest: nat, next: nat, pc: nat, k: nat, lp: LoopCtx, st: Vm)
    returns (n: nat, s: Status)
    requires (e.EAnd? || e.EOr?) && Ready(dest, next, Size(e), pc, lp, st) && LoopsFit(e)
    requires dest < 256 && CodeForShort(m.h, m.ch, e, dest, next, pc, k, lp)
    ensures s == Run(m, Running(st), n)
    ensures Shows(EvalShort(m.h, Encoded, fuel, e, dest, next, W(st)), s, n, st, dest, next, pc + Size(e), lp, fuel)
    decreases fuel, e, 1
  {
    OpenSizes(e);
    n, s := Sim(m, fuel, e.l, dest, next, pc, k, lp, st);
    var o := Ev(m, fuel, e.l, dest, next, W(st));
    n, s := LeftDone(m, ShortIns(e, dest), e.EAnd?, o, st, n, s, dest, next, pc + Size(e.l), Size(e.r), lp, fuel);
    if o.Norm? && Falsy(o.v) != e.EAnd? {
      var n1, st1, nr := n, s.st, NextReg(e.l, next);
      n, s := Sim(m, fuel, e.r, dest, nr, pc + Size(e.l) + 1, k + Consts(e.l), lp, st1);
      n := Chain(m, st, n1, st1, Ev(m, fuel, e.r, dest, nr, o.w), n, s,
                 dest, next, dest, nr, pc + Size(e.l) + 1 + Size(e.r), lp, fuel);
    }
  }

  lemma {:induction false} SimArith(m: Machine, fuel: nat, e: Expr, dest: nat, next: nat, pc: nat, k: nat, lp: LoopCtx, st: Vm)
    returns (n: nat, s: Status)
    requires e.EArith? && Ready(dest, next, Size(e), pc, lp, st) && LoopsFit(e)
    requires dest < 256 && CodeForArith(m.h, m.ch, e, dest, next, pc, k, lp)
    ensures s == Run(m, Running(st), n)
    ensures Shows(EvalArith(m.h, Encoded, fuel, e, dest, next, W(st)), s, n, st, dest, next, pc + Size(e), lp, fuel)
    decreases fuel, e, 1
  {
    OpenSizes(e);
    var EArith(op, a, rest) := e;
    n, s := Sim(m, fuel, a, dest, next, pc, k, lp, st);
    var o := Ev(m, fuel, a, dest, next, W(st));
    if IsFoldable(op, rest) {
      ImmediateReadBack(rest[0].v);
      n, s := FoldedDone(m, op, SBxReadBack(rest[0].v), o, st, n, s, dest, next, pc + Size(a), lp, fuel);
    } else if o.Norm? {
      var n1, st1, cur := n, s.st, NextReg(a, next);
      n, s := SimOperands(m, fuel, op, o.v, rest, dest, cur, next, pc + Size(a), k + Consts(a), lp, st1);
      n := Chain(m, st, n1, st1, EvalOperands(m.h, Encoded, fuel, op, o.v, rest, dest, cur, next, o.w), n, s,
                 dest, next, dest, next, pc + Size(a) + SizeOperands(rest), lp, fuel);
    }
  }

  lemma {:induction false} SimOperands(m: Machine, fuel: nat, op: ArithOp, acc: Value, es: seq<Expr>, dest: nat, cur: nat,
                                       base: nat, pc: nat, k: nat, lp: LoopCtx, st: Vm)
    returns (n: nat, s: Status)
    requires base <= cur && Ready(dest, base, SizeOperands(es), pc, lp, st)
    requires AllLoopsFit(es) && CodeForOperands(m.h, m.ch, op, es, dest, cur, base, pc, k, lp)
    requires dest < REGISTERS && st.regs[dest] == acc
    ensures s == Run(m, Running(st), n)
    ensures Shows(EvalOperands(m.h, Encoded, fuel, op, acc, es, dest, cur, base, W(st)), s, n, st, dest, base,
                  pc + SizeOperands(es), lp, fuel)
    decreases fuel, es, 0
  {
    if es == [] {
      n, s := 0, Running(st);
      OpenRun(m, s, n);
    } else {
      n, s := Sim(m, fuel, es[0], cur, cur + 1, pc, k, lp, st);
      var oe := Ev(m, fuel, es[0], cur, cur + 1, W(st));
      n, s := OperandDone(m, op, acc, oe, st, n, s, dest, base, cur, pc + Size(es[0]), lp, fuel);
      var o := ArithOutcome(m.h, op, dest, acc, oe);
      if o.Norm? {
        var n1, st1 := n, s.st;
        n, s := SimOperands(m, fuel, op, o.v, es[1..], dest, base, base,
                            pc + Size(es[0]) + 1, k + Consts(es[0]), lp, st1);
        n := Chain(m, st, n1, st1, EvalOperands(m.h, Encoded, fuel, op, o.v, es[1..], dest, base, base, o.w), n, s,
                   dest, base, dest, base, pc + Size(es[0]) + 1 + SizeOperands(es[1..]), lp, fuel);
      }
    }
  }

  lemma {:induction false} SimLoop(m: Machine, fuel: nat, e: Expr, dest: nat, next: nat, pc: nat, k: nat, lp: LoopCtx, st: Vm)
    returns (n: nat, s: Status)
    requires e.ELoop? && Ready(dest, next, 0, pc, NoLoop, st) && LoopsFit(e)
    requires dest < 256 && CodeForLoop(m.h, m.ch, e, dest, next, pc, k)
    ensures s == Run(m, Running(st), n)
    ensures Shows(EvalLoop(m.h, Encoded, fuel, e, dest, next, W(st)), s, n, st, dest, next, pc + Size(e), lp, fuel)
    decreases fuel, e, 1
  {
    OpenSizes(e);
    var ELoop(c, body) := e;
    var inner := Closed(pc, pc + Size(e));
    n, s := SimCond(m, fuel, c, e, next, next + 1, next, pc, k, inner, SizeSeq(body) + 1, st);
    var o := EvalCond(m.h, Encoded, fuel, c, next, next + 1, next, W(st));
    if o.Continued? {
      n, s := SimAgain(m, fuel, e, dest, next, pc, k, lp, st, n, s.st);
    } else if !o.Norm? || Falsy(o.v) {
      n, s := LeaveDone(m, o, st, n, s, dest, next, pc + Size(c) + 1 + SizeSeq(body) + 1, inner, lp, fuel);
    } else {
      var n1, st1 := n, s.st;
      n, s := SimBody(m, fuel, c, body, dest, next, pc, k, inner, st, n1, st1);
      var r := EvalSeq(m.h, Encoded, fuel, body, dest, LoopBodyReg(c, next), W(st1));
      if r.Norm? || r.Continued? {
        n, s := SimAgain(m, fuel, e, dest, next, pc, k, lp, st, n, s.st);
      } else {
        n, s := LeaveDone(m, r, st, n, s, dest, next, pc + Size(c) + 1 + SizeSeq(body) + 1, inner, lp, fuel);
      }
    }
  }

  /** The body of a loop and the jump back; ends at the start of the loop. */
  lemma {:induction false} SimBody(m: Machine, fuel: nat, c: Expr, body: seq<Expr>, dest: nat, next: nat, pc: nat, k: nat, inner: LoopCtx,
                                   st: Vm, n1: nat, st1: Vm)
    returns (n: nat, s: Status)
    requires inner.Closed? && st.pc == pc == inner.start && st1.pc == pc + Size(c) + 1 && dest < next && dest < REGISTERS
    requires Frame(st.regs, st1.regs, dest, next) && Run(m, Running(st), n1) == Running(st1)
    requires LoopOffset(c, body) <= 32768 && AllLoopsFit(body)
    requires CodeForSeq(m.h, m.ch, body, dest, LoopBodyReg(c, next), pc + Size(c) + 1, k + Consts(c), inner)
    requires At(m.ch, pc + Size(c) + 1 + SizeSeq(body), Loop(SBxReadBack(LoopOffset(c, body))))
    ensures s == Run(m, Running(st), n)
    ensures var r := EvalSeq(m.h, Encoded, fuel, body, dest, LoopBodyReg(c, next), W(st1));
            if r.Norm? || r.Continued?
            then n > 0 && s.Running? && s.st.pc == pc && W(s.st) == r.w && Frame(st.regs, s.st.regs, dest, next)
            else Shows(r, s, n, st, dest, next, 0, inner, fuel)
    decreases fuel, body, 1
  {
    var nb := LoopBodyReg(c, next);
    n, s := SimSeq(m, fuel, body, dest, nb, pc + Size(c) + 1, k + Consts(c), inner, st1);
    var r := EvalSeq(m.h, Encoded, fuel, body, dest, LoopBodyReg(c, next), W(st1));
    n := Chain(m, st, n1, st1, r, n, s, dest, next, dest, nb, pc + Size(c) + 1 + SizeSeq(body), inner, fuel);
    if r.Norm? {
      n, s := ThenStep(m, st, n, s.st, Loop(LoopOffset(c, body)));
    }
  }

  /** Back at the start of a loop with at least one step taken. */
  lemma {:induction false} SimAgain(m: Machine, fuel: nat, e: Expr, dest: nat, next: nat, pc: nat, k: nat, lp: LoopCtx, st: Vm,
                                    n1: nat, st1: Vm)
    returns (n: nat, s: Status)
    requires e.ELoop? && Ready(dest, next, 0, pc, NoLoop, st) && LoopsFit(e)
    requires dest < 256 && CodeForLoop(m.h, m.ch, e, dest, next, pc, k)
    requires Run(m, Running(st), n1) == Running(st1) && n1 > 0
    requires st1.pc == pc && Frame(st.regs, st1.regs, dest, next)
    ensures s == Run(m, Running(st), n)
    ensures Shows(EvalAgain(m.h, Encoded, fuel, e, dest, next, W(st1)), s, n, st, dest, next, pc + Size(e), lp, fuel)
    decreases fuel, e, 0
  {
    OpenSizes(e);
    if fuel == 0 {
      n, s := n1, Running(st1);
    } else {
      n, s := SimLoop(m, fuel - 1, e, dest, next, pc, k, lp, st1);
      n := Chain(m, st, n1, st1, EvalLoop(m.h, Encoded, fuel - 1, e, dest, next, W(st1)), n, s,
                 dest, next, dest, next, pc + Size(e), lp, fuel - 1);
    }
  }

  // ---- whole programs ----

  function Start(regs: seq<Value>, g: Globals): Status {
    Running(Vm(0, regs, g))
  }

  /** The status a chunk stops in agrees with the outcome of its program. */
  predicate Agrees(out: Outcome, s: Status) {
    match out
    case Norm(v, w) => s == Returned(v, w.globals)
    case Fault(e, g) => s == Failed(e, g)
    case _ => false
  }

  /** A program whose evaluation ends within `fuel` makes its chunk stop in
      agreement; one that does not keeps the chunk running for `fuel` steps. */
  lemma {:induction false} ProgramRuns(h: Host, ch: Chunk, prog: seq<Expr>, fuel: nat, regs: seq<Value>, g: Globals)
    returns (n: nat)
    requires |regs| == REGISTERS && AllLoopsFit(prog) && ProgramCode(h, ch, prog)
    ensures var out := EvalProgram(h, Encoded, fuel, prog, World(g, regs));
            var s := Run(Machine(h, ch), Start(regs, g), n);
            if out.Timeout? then n >= fuel && s.Running?
            else Agrees(out, s)
  {
    var m, st := Machine(h, ch), Vm(0, regs, g);
    var s;
    n, s := SimSeq(m, fuel, prog, RESULT_REG, RESULT_REG + 1, 0, 0, NoLoop, st);
    if EvalProgram(h, Encoded, fuel, prog, World(g, regs)).Norm? {
      n, s := ThenStep(m, st, n, s.st, Return(RESULT_REG));
    }
  }

  /** Whenever the chunk stops, the program's evaluation ends, within as many loop
      iterations as the chunk took steps, and the two agree on result, error and
      globals. */
  lemma ChunkStopsSound(h: Host, ch: Chunk, prog: seq<Expr>, regs: seq<Value>, g: Globals, n: nat)
    requires |regs| == REGISTERS && AllLoopsFit(prog) && ProgramCode(h, ch, prog)
    requires !Run(Machine(h, ch), Start(regs, g), n).Running?
    ensures Agrees(EvalProgram(h, Encoded, n + 1, prog, World(g, regs)), Run(Machine(h, ch), Start(regs, g), n))
  {
    var m, s0 := Machine(h, ch), Start(regs, g);
    var n' := ProgramRuns(h, ch, prog, n + 1, regs, g);
    if n <= n' {
      StoppedStays(m, s0, n, n');
    } else if !Run(m, s0, n').Running? {
      StoppedStays(m, s0, n', n);
    }
  }

  /** And whenever evaluation ends, so does the chunk, in agreement. */
  lemma ChunkStopsComplete(h: Host, ch: Chunk, prog: seq<Expr>, regs: seq<Value>, g: Globals, fuel: nat) returns (n: nat)
    requires |regs| == REGISTERS && AllLoopsFit(prog) && ProgramCode(h, ch, prog)
    requires !EvalProgram(h, Encoded, fuel, prog, World(g, regs)).Timeout?
    ensures Agrees(EvalProgram(h, Encoded, fuel, prog, World(g, regs)), Run(Machine(h, ch), Start(regs, g), n))
  {
    n := ProgramRuns(h, ch, prog, fuel, regs, g);
  }
}
