/** Programs that never use the value of a loop left by `break`, which is what its
    destination held, and one that does. */
module Settled {
  import opened Semantics
  import opened Bytecode
  import opened Layout
  import opened Evaluation
  import opened Simulation
  import opened Meaning

  // ---- which programs ----

  /** The expression can leave the loop around it by `break`. */
  predicate Breaks(e: Expr)
    decreases e, 1
  {
    match e
    case EBreak => true
    case EArith(_, a, rest) => Breaks(a) || AnyBreaks(rest)
    case ECmp(_, a, b) => Breaks(a) || Breaks(b)
    case ENot(a) => Breaks(a)
    case EAssign(_, a) => Breaks(a)
    case EIf(c, t, f) => Breaks(c) || Breaks(t) || Breaks(f)
    case EDo(es) => AnyBreaks(es)
    case EAnd(a, b) => Breaks(a) || Breaks(b)
    case EOr(a, b) => Breaks(a) || Breaks(b)
    case _ => false  // a loop keeps its own
  }

  predicate AnyBreaks(es: seq<Expr>)
    decreases es, 0
  {
    es != [] && (Breaks(es[0]) || AnyBreaks(es[1..]))
  }

  /** The value of the expression is not that of a loop that can be broken. */
  predicate Definite(e: Expr)
    decreases e, 1
  {
    match e
    case ELoop(c, body) => !Breaks(c) && !AnyBreaks(body)
    case EIf(_, t, f) => Definite(t) && Definite(f)
    case EDo(es) => LastDefinite(es)
    case EAnd(_, b) => Definite(b)
    case EOr(_, b) => Definite(b)
    case _ => true
  }

  predicate LastDefinite(es: seq<Expr>)
    decreases es, 0
  {
    es != [] && if |es| == 1 then Definite(es[0]) else LastDefinite(es[1..])
  }

  /** Every value the expression uses is definite. */
  predicate IsSettled(e: Expr)
    decreases e, 1
  {
    match e
    case EArith(_, a, rest) => IsSettled(a) && Definite(a) && AllOperandsSettled(rest)
    case ECmp(_, a, b) => IsSettled(a) && Definite(a) && IsSettled(b) && Definite(b)
    case ENot(a) => IsSettled(a) && Definite(a)
    case EAssign(_, a) => IsSettled(a) && Definite(a)
    case EIf(c, t, f) => IsSettled(c) && Definite(c) && IsSettled(t) && IsSettled(f)
    case ELoop(c, body) => IsSettled(c) && Definite(c) && AllSettled(body)
    case EDo(es) => AllSettled(es)
    case EAnd(a, b) => IsSettled(a) && Definite(a) && IsSettled(b)
    case EOr(a, b) => IsSettled(a) && Definite(a) && IsSettled(b)
    case _ => true
  }

  predicate AllOperandsSettled(es: seq<Expr>)
    decreases es, 0
  {
    es != [] ==> IsSettled(es[0]) && Definite(es[0]) && AllOperandsSettled(es[1..])
  }

  predicate AllSettled(es: seq<Expr>)
    decreases es, 0
  {
    es != [] ==> IsSettled(es[0]) && AllSettled(es[1..])
  }

  /** No `break` anywhere. */
  predicate BreakFree(e: Expr)
    decreases e, 1
  {
    match e
    case EBreak => false
    case EArith(_, a, rest) => BreakFree(a) && AllBreakFree(rest)
    case ECmp(_, a, b) => BreakFree(a) && BreakFree(b)
    case ENot(a) => BreakFree(a)
    case EAssign(_, a) => BreakFree(a)
    case EIf(c, t, f) => BreakFree(c) && BreakFree(t) && BreakFree(f)
    case ELoop(c, body) => BreakFree(c) && AllBreakFree(body)
    case EDo(es) => es != [] && AllBreakFree(es)
    case EAnd(a, b) => BreakFree(a) && BreakFree(b)
    case EOr(a, b) => BreakFree(a) && BreakFree(b)
    case _ => true
  }

  predicate AllBreakFree(es: seq<Expr>)
    decreases es, 0
  {
    es != [] ==> BreakFree(es[0]) && AllBreakFree(es[1..])
  }

  /** A program without `break` is settled. */
  lemma {:induction false} BreakFreeIsSettled(e: Expr)
    requires BreakFree(e)
    ensures !Breaks(e) && Definite(e) && IsSettled(e)
    decreases e, 1
  {
    match e
    case EArith(_, a, rest) =>
      BreakFreeIsSettled(a);
      AllBreakFreeIsSettled(rest);
    case ECmp(_, a, b) =>
      BreakFreeIsSettled(a);
      BreakFreeIsSettled(b);
    case ENot(a) => BreakFreeIsSettled(a);
    case EAssign(_, a) => BreakFreeIsSettled(a);
    case EIf(c, t, f) =>
      BreakFreeIsSettled(c);
      BreakFreeIsSettled(t);
      BreakFreeIsSettled(f);
    case ELoop(c, body) =>
      BreakFreeIsSettled(c);
      AllBreakFreeIsSettled(body);
    case EDo(es) => AllBreakFreeIsSettled(es);
    case EAnd(a, b) =>
      BreakFreeIsSettled(a);
      BreakFreeIsSettled(b);
    case EOr(a, b) =>
      BreakFreeIsSettled(a);
      BreakFreeIsSettled(b);
    case _ =>
  }

  lemma {:induction false} AllBreakFreeIsSettled(es: seq<Expr>)
    requires AllBreakFree(es)
    ensures !AnyBreaks(es) && AllSettled(es) && AllOperandsSettled(es) && (es != [] ==> LastDefinite(es))
    decreases es, 0
  {
    if es != [] {
      BreakFreeIsSettled(es[0]);
      AllBreakFreeIsSettled(es[1..]);
    }
  }

  // ---- without `break` ----

  /** Where an expression is evaluated. */
  datatype Place = Place(dest: nat, next: nat, w: World)

  function EvalAt(h: Host, rd: Reading, fuel: nat, e: Expr, p: Place): Outcome {
    Eval(h, rd, fuel, e, p.dest, p.next, p.w)
  }

  /** Without a `break` of its own around, an expression does not break. */
  lemma {:induction false} NoBreakNoBroke(h: Host, rd: Reading, fuel: nat, e: Expr, p: Place)
    requires !Breaks(e)
    ensures !EvalAt(h, rd, fuel, e, p).Broke?
    decreases fuel, e, 2
  {
    var Place(dest, next, w) := p;
    OpenEval(h, rd, fuel, e, dest, next, w);
    match e
    case EArith(op, a, rest) =>
      NoBreakNoBroke(h, rd, fuel, a, p);
      var o := EvalAt(h, rd, fuel, a, p);
      if o.Norm? && !IsFoldable(op, rest) {
        NoBreakNoBrokeOperands(h, rd, fuel, op, o.v, rest, dest, NextReg(a, next), next, o.w);
      }
    case ECmp(_, _, _) => NoBreakNoBrokePair(h, rd, fuel, e, next, w);
    case ENot(a) => NoBreakNoBroke(h, rd, fuel, a, p);
    case EAssign(_, a) => NoBreakNoBroke(h, rd, fuel, a, p);
    case EIf(_, _, _) => NoBreakNoBrokeIf(h, rd, fuel, e, p);
    case ELoop(_, _) => LoopNeverBroke(h, rd, fuel, e, dest, next, w);
    case EDo(es) => NoBreakNoBrokeSeq(h, rd, fuel, es, p);
    case EAnd(a, b) => NoBreakNoBrokeShort(h, rd, fuel, e, p);
    case EOr(a, b) => NoBreakNoBrokeShort(h, rd, fuel, e, p);
    case _ =>
  }

  lemma {:induction false} NoBreakNoBrokeShort(h: Host, rd: Reading, fuel: nat, e: Expr, p: Place)
    requires (e.EAnd? || e.EOr?) && !Breaks(e)
    ensures !EvalShort(h, rd, fuel, e, p.dest, p.next, p.w).Broke?
    decreases fuel, e, 1
  {
    NoBreakNoBroke(h, rd, fuel, e.l, p);
    var o := EvalAt(h, rd, fuel, e.l, p);
    if o.Norm? { NoBreakNoBroke(h, rd, fuel, e.r, Place(p.dest, NextReg(e.l, p.next), o.w)); }
  }

  lemma {:induction false} NoBreakNoBrokePair(h: Host, rd: Reading, fuel: nat, e: Expr, next: nat, w: World)
    requires e.ECmp? && !Breaks(e)
    ensures EvalPair(h, rd, fuel, e, next, w).Stopped? ==> !EvalPair(h, rd, fuel, e, next, w).o.Broke?
    decreases fuel, e, 0
  {
    NoBreakNoBroke(h, rd, fuel, e.l, Place(next, next + 1, w));
    var o, rb := Eval(h, rd, fuel, e.l, next, next + 1, w), NextReg(e.l, next + 1);
    if o.Norm? { NoBreakNoBroke(h, rd, fuel, e.r, Place(rb, rb + 1, o.w)); }
  }

  lemma {:induction false} NoBreakNoBrokeCond(h: Host, rd: Reading, fuel: nat, c: Expr, cd: nat, cn: nat, temps: nat, w: World)
    requires !Breaks(c)
    ensures !EvalCond(h, rd, fuel, c, cd, cn, temps, w).Broke?
    decreases fuel, c, 3
  {
    if IsFused(c) {
      NoBreakNoBrokePair(h, rd, fuel, c, temps, w);
    } else {
      NoBreakNoBroke(h, rd, fuel, c, Place(cd, cn, w));
    }
  }

  lemma {:induction false} NoBreakNoBrokeIf(h: Host, rd: Reading, fuel: nat, e: Expr, p: Place)
    requires e.EIf? && !Breaks(e)
    ensures !EvalIf(h, rd, fuel, e, p.dest, p.next, p.w).Broke?
    decreases fuel, e, 1
  {
    var Place(dest, next, w) := p;
    NoBreakNoBrokeCond(h, rd, fuel, e.cond, dest, next, next, w);
    var o, nt := EvalCond(h, rd, fuel, e.cond, dest, next, next, w), NextReg(e.cond, next);
    if o.Norm? {
      NoBreakNoBroke(h, rd, fuel, e.thn, Place(dest, nt, o.w));
      NoBreakNoBroke(h, rd, fuel, e.els, Place(dest, NextReg(e.thn, nt), o.w));
    }
  }

  lemma {:induction false} NoBreakNoBrokeOperands(h: Host, rd: Reading, fuel: nat, op: ArithOp, acc: Value, rest: seq<Expr>,
                                                  dest: nat, cur: nat, base: nat, w: World)
    requires !AnyBreaks(rest)
    ensures !EvalOperands(h, rd, fuel, op, acc, rest, dest, cur, base, w).Broke?
    decreases fuel, rest, 0
  {
    if rest != [] {
      NoBreakNoBroke(h, rd, fuel, rest[0], Place(cur, cur + 1, w));
      var o := ArithOutcome(h, op, dest, acc, Eval(h, rd, fuel, rest[0], cur, cur + 1, w));
      if o.Norm? { NoBreakNoBrokeOperands(h, rd, fuel, op, o.v, rest[1..], dest, base, base, o.w); }
    }
  }

  lemma {:induction false} NoBreakNoBrokeSeq(h: Host, rd: Reading, fuel: nat, es: seq<Expr>, p: Place)
    requires !AnyBreaks(es)
    ensures !EvalSeq(h, rd, fuel, es, p.dest, p.next, p.w).Broke?
    decreases fuel, es, 0
  {
    if es != [] {
      NoBreakNoBroke(h, rd, fuel, es[0], p);
      var o := EvalAt(h, rd, fuel, es[0], p);
      if o.Norm? && |es| > 1 { NoBreakNoBrokeSeq(h, rd, fuel, es[1..], Place(p.dest, NextReg(es[0], p.next), o.w)); }
    }
  }

  /** A loop takes every `break` inside it. */
  lemma {:induction false} LoopNeverBroke(h: Host, rd: Reading, fuel: nat, e: Expr, dest: nat, next: nat, w: World)
    requires e.ELoop?
    ensures !EvalLoop(h, rd, fuel, e, dest, next, w).Broke?
    decreases fuel, e, 1
  {
    var o := EvalCond(h, rd, fuel, e.cond, next, next + 1, next, w);
    if fuel > 0 {
      if o.Continued? {
        LoopNeverBroke(h, rd, fuel - 1, e, dest, next, o.w);
      } else if o.Norm? && !Falsy(o.v) {
        var r := EvalSeq(h, rd, fuel, e.body, dest, LoopBodyReg(e.cond, next), o.w);
        if r.Norm? || r.Continued? { LoopNeverBroke(h, rd, fuel - 1, e, dest, next, r.w); }
      }
    }
  }

  // ---- a loop left by `break` ----

  function BrokenLoop(): Expr {
    ELoop(EBool(true), [EBreak])
  }

  /** Its value is what the destination held, so it is `null` exactly when that was. */
  lemma BrokenLoopKeepsDestination(h: Host, rd: Reading, fuel: nat, dest: nat, next: nat, w: World)
    requires dest < next
    ensures Eval(h, rd, fuel, BrokenLoop(), dest, next, w) == Norm(Held(w, dest), Hold(w, next, Bool(true)))
  {
    var c, body, w1 := EBool(true), [EBreak], Hold(w, next, Bool(true));
    var nb := LoopBodyReg(c, next);
    OpenEval(h, rd, fuel, BrokenLoop(), dest, next, w);
    OpenEval(h, rd, fuel, c, next, next + 1, w);
    OpenEval(h, rd, fuel, EBreak, dest, nb, w1);
    assert EvalCond(h, rd, fuel, c, next, next + 1, next, w) == Norm(Bool(true), w1);
    assert EvalSeq(h, rd, fuel, body, dest, nb, w1) == Broke(w1);
    assert EvalLoop(h, rd, fuel, ELoop(c, body), dest, next, w) == LeaveOutcome(dest, Broke(w1));
  }

  lemma BrokenLoopMeans(h: Host, fuel: nat, g: Globals)
    ensures Mean(h, fuel, BrokenLoop(), g) == Yields(Null, g)
  {
    OpenMean(h, fuel, BrokenLoop(), g);
    OpenMean(h, fuel, EBool(true), g);
    OpenMean(h, fuel, EBreak, g);
    assert MeanSeq(h, fuel, [EBreak], g) == Exits(g);
  }

  /** `7 (= x (loop true (break)))` should set `x` to `null`. */
  function StaleProgram(): seq<Expr> {
    [EInt(7), EAssign("x", BrokenLoop())]
  }

  lemma StaleProgramMeans(h: Host, fuel: nat, g: Globals)
    ensures MeanSeq(h, fuel, StaleProgram(), g) == Yields(Null, g[h.symbolId("x") := Null])
  {
    var prog := StaleProgram();
    OpenMean(h, fuel, prog[0], g);
    OpenMean(h, fuel, prog[1], g);
    BrokenLoopMeans(h, fuel, g);
    assert prog[1..] == [prog[1]];
  }

  lemma StaleProgramEval(h: Host, g: Globals, regs: seq<Value>)
    requires |regs| == REGISTERS
    ensures var o := EvalProgram(h, Encoded, 0, StaleProgram(), World(g, regs));
            o.Norm? && o.v == Int(7) && o.w.globals == g[h.symbolId("x") := Int(7)]
  {
    var prog, w := StaleProgram(), World(g, regs);
    var w1, next := Hold(w, RESULT_REG, Int(7)), NextReg(prog[0], RESULT_REG + 1);
    OpenEval(h, Encoded, 0, prog[0], RESULT_REG, RESULT_REG + 1, w);
    OpenEval(h, Encoded, 0, prog[1], RESULT_REG, next, w1);
    BrokenLoopKeepsDestination(h, Encoded, 0, RESULT_REG, next, w1);
    assert prog[1..] == [prog[1]];
  }

  lemma StaleProgramFits()
    ensures AllLoopsFit(StaleProgram())
  {
    var prog, loop, body := StaleProgram(), BrokenLoop(), [EBreak];
    OpenSizes(prog[0]);
    OpenSizes(prog[1]);
    OpenSizes(loop);
    OpenSizes(EBool(true));
    OpenSizes(EBreak);
    assert body[1..] == [] && prog[1..] == [prog[1]] && prog[1..][1..] == [];
    assert SizeSeq(body) == 2 && AllLoopsFit(body);
    assert LoopsFit(loop) && LoopsFit(prog[1]) && AllLoopsFit(prog[1..]);
  }

  /** Its chunk sets it to 7, whatever the registers held. */
  lemma BrokenLoopReturnsStaleValue(h: Host, ch: Chunk, regs: seq<Value>, g: Globals) returns (n: nat)
    requires |regs| == REGISTERS && ProgramCode(h, ch, StaleProgram())
    ensures MeanSeq(h, 0, StaleProgram(), g) == Yields(Null, g[h.symbolId("x") := Null])
    ensures Run(Machine(h, ch), Start(regs, g), n) == Returned(Int(7), g[h.symbolId("x") := Int(7)])
  {
    StaleProgramMeans(h, 0, g);
    StaleProgramEval(h, g, regs);
    StaleProgramFits();
    n := ChunkStopsComplete(h, ch, StaleProgram(), regs, g, 0);
  }
}
