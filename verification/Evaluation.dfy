/** Evaluation of the fragment over registers: what an expression does where it is
    compiled, for every program. A loop left by `break` leaves what its destination
    held, and ADDI may use the register after its own; so evaluation keeps what every
    register holds and is told which ones an expression has. `Meaning` says what
    programs should do, without them. */
module Evaluation {
  import opened Semantics
  import opened Bytecode
  import opened Layout

  /** What evaluation works on: the globals, and what the registers hold. */
  datatype World = World(globals: Globals, regs: seq<Value>)

  function Held(w: World, dest: nat): Value {
    if dest < |w.regs| then w.regs[dest] else Null
  }

  function Hold(w: World, dest: nat, v: Value): World {
    if dest < |w.regs| then w.(regs := w.regs[dest := v]) else w
  }

  /** `Broke` and `Continued` are on their way to the loop around, `Timeout`: the
      bound on loop iterations ran out. */
  datatype Outcome =
    | Norm(v: Value, w: World)
    | Broke(w: World)
    | Continued(w: World)
    | Fault(e: RuntimeError, g: Globals)
    | Timeout

  function Give(dest: nat, v: Value, w: World): Outcome {
    Norm(v, Hold(w, dest, v))
  }

  /** The value of `e`, computed into `dest` with temporaries from `next` on. */
  function Eval(h: Host, rd: Reading, fuel: nat, e: Expr, dest: nat, next: nat, w: World): Outcome
    decreases fuel, e, 4
  {
    EvalSealed(h, rd, fuel, e, dest, next, w)
  }

  function EvalSealed(h: Host, rd: Reading, fuel: nat, e: Expr, dest: nat, next: nat, w: World): Outcome
    decreases fuel, e, 3
  {
    EvalDef(h, rd, fuel, e, dest, next, w)
  }

  function EvalDef(h: Host, rd: Reading, fuel: nat, e: Expr, dest: nat, next: nat, w: World): Outcome
    decreases fuel, e, 2
  {
    match e
    case EInt(v) => Give(dest, if IsImmediate(v) then Int(ReadLiteral(rd, v)) else h.boxInt(v), w)
    case EFloat(x) => Give(dest, Float(x), w)
    case EBool(b) => Give(dest, Bool(b), w)
    case ENull => Give(dest, Null, w)
    case EGlobal(x) =>
      if h.symbolId(x) in w.globals then Give(dest, w.globals[h.symbolId(x)], w) else Fault(UndefinedVariable, w.globals)
    case EArith(_, _, _) => EvalArith(h, rd, fuel, e, dest, next, w)
    case ECmp(_, _, _) => EvalCmp(h, rd, fuel, e, dest, next, w)
    case ENot(a) => NotOutcome(dest, Eval(h, rd, fuel, a, dest, next, w))
    case EAssign(x, a) => AssignOutcome(h.symbolId(x), Eval(h, rd, fuel, a, dest, next, w))
    case EIf(_, _, _) => EvalIf(h, rd, fuel, e, dest, next, w)
    case ELoop(_, _) => EvalLoop(h, rd, fuel, e, dest, next, w)
    case EDo(es) => EvalSeq(h, rd, fuel, es, dest, next, w)
    case EAnd(_, _) => EvalShort(h, rd, fuel, e, dest, next, w)
    case EOr(_, _) => EvalShort(h, rd, fuel, e, dest, next, w)
    case EBreak => Broke(w)
    case EContinue => Continued(w)
  }

  /** Applies `op` from left to right, each operand evaluated just before it is
      used. An immediate operand needs no temporary. */
  function EvalArith(h: Host, rd: Reading, fuel: nat, e: Expr, dest: nat, next: nat, w: World): Outcome
    requires e.EArith?
    decreases fuel, e, 1
  {
    var o := Eval(h, rd, fuel, e.first, dest, next, w);
    if !o.Norm? then o
    else if IsFoldable(e.op, e.rest) then ImmediateOutcome(h, e.op, dest, o, ReadLiteral(rd, e.rest[0].v))
    else EvalOperands(h, rd, fuel, e.op, o.v, e.rest, dest, NextReg(e.first, next), next, o.w)
  }

  function EvalOperands(h: Host, rd: Reading, fuel: nat, op: ArithOp, acc: Value, rest: seq<Expr>,
                        dest: nat, cur: nat, base: nat, w: World): Outcome
    decreases fuel, rest, 0
  {
    if rest == [] then Norm(acc, w)
    else
      var o := ArithOutcome(h, op, dest, acc, Eval(h, rd, fuel, rest[0], cur, cur + 1, w));
      if o.Norm? then EvalOperands(h, rd, fuel, op, o.v, rest[1..], dest, base, base, o.w) else o
  }

  function ArithOutcome(h: Host, op: ArithOp, dest: nat, acc: Value, o: Outcome): Outcome {
    if o.Norm? then Compute(dest, h.arith(op, acc, o.v), o.w) else o
  }

  function Compute(dest: nat, r: Computed, w: World): Outcome {
    match r
    case Ok(v) => Give(dest, v, w)
    case Error(e) => Fault(e, w.globals)
  }

  /** An immediate operand. Adding one to a value that is not an integer goes
      through the register after `dest`, which for register 254 is itself. */
  function ImmediateOutcome(h: Host, op: ArithOp, dest: nat, o: Outcome, imm: int): Outcome {
    if !o.Norm? then o
    else if op != Add || o.v.Int? then Compute(dest, h.immediate(op, o.v, imm), o.w)
    else
      Compute(dest, h.arith(Add, if Scratch(dest) == dest then Int(imm) else o.v, Int(imm)), Hold(o.w, Scratch(dest), Int(imm)))
  }

  /** Both operands of a comparison, or the outcome that kept them from being
      computed. */
  datatype Operands = Both(v: Value, u: Value, w: World) | Stopped(o: Outcome)

  function EvalPair(h: Host, rd: Reading, fuel: nat, e: Expr, next: nat, w: World): Operands
    requires e.ECmp?
    decreases fuel, e, 0
  {
    var o, rb := Eval(h, rd, fuel, e.l, next, next + 1, w), NextReg(e.l, next + 1);
    if !o.Norm? then Stopped(o)
    else PairWith(o.v, Eval(h, rd, fuel, e.r, rb, rb + 1, o.w))
  }

  function PairWith(v: Value, o: Outcome): Operands {
    if o.Norm? then Both(v, o.v, o.w) else Stopped(o)
  }

  function EvalCmp(h: Host, rd: Reading, fuel: nat, e: Expr, dest: nat, next: nat, w: World): Outcome
    requires e.ECmp?
    decreases fuel, e, 1
  {
    CmpOutcome(h, e.cop, dest, EvalPair(h, rd, fuel, e, next, w))
  }

  function CmpOutcome(h: Host, op: CmpOp, dest: nat, ops: Operands): Outcome {
    match ops
    case Both(v, u, w) => Give(dest, Bool(h.compare(op, v, u)), w)
    case Stopped(o) => o
  }

  /** A condition: the truth of a fused comparison goes nowhere, any other
      condition goes to `cd`. */
  function EvalCond(h: Host, rd: Reading, fuel: nat, c: Expr, cd: nat, cn: nat, temps: nat, w: World): Outcome
    decreases fuel, c, 5
  {
    if IsFused(c) then TestOutcome(h, c.cop, EvalPair(h, rd, fuel, c, temps, w))
    else Eval(h, rd, fuel, c, cd, cn, w)
  }

  function TestOutcome(h: Host, op: CmpOp, ops: Operands): Outcome {
    match ops
    case Both(v, u, w) => Norm(Bool(h.compare(op, v, u)), w)
    case Stopped(o) => o
  }

  function NotOutcome(dest: nat, o: Outcome): Outcome {
    if o.Norm? then Give(dest, Bool(Falsy(o.v)), o.w) else o
  }

  function AssignOutcome(id: nat, o: Outcome): Outcome {
    if o.Norm? then Norm(o.v, o.w.(globals := o.w.globals[id := o.v])) else o
  }

  function EvalIf(h: Host, rd: Reading, fuel: nat, e: Expr, dest: nat, next: nat, w: World): Outcome
    requires e.EIf?
    decreases fuel, e, 1
  {
    var o, nt := EvalCond(h, rd, fuel, e.cond, dest, next, next, w), NextReg(e.cond, next);
    if !o.Norm? then o
    else if Falsy(o.v) then Eval(h, rd, fuel, e.els, dest, NextReg(e.thn, nt), o.w)
    else Eval(h, rd, fuel, e.thn, dest, nt, o.w)
  }

  /** `and` stops at a falsy left operand, `or` at a truthy one. */
  function EvalShort(h: Host, rd: Reading, fuel: nat, e: Expr, dest: nat, next: nat, w: World): Outcome
    requires e.EAnd? || e.EOr?
    decreases fuel, e, 1
  {
    var o := Eval(h, rd, fuel, e.l, dest, next, w);
    if !o.Norm? || Falsy(o.v) == e.EAnd? then o else Eval(h, rd, fuel, e.r, dest, NextReg(e.l, next), o.w)
  }

  function EvalLoop(h: Host, rd: Reading, fuel: nat, e: Expr, dest: nat, next: nat, w: World): Outcome
    requires e.ELoop?
    decreases fuel, e, 1
  {
    var o := EvalCond(h, rd, fuel, e.cond, next, next + 1, next, w);
    if o.Continued? then EvalAgain(h, rd, fuel, e, dest, next, o.w)
    else if !o.Norm? || Falsy(o.v) then LeaveOutcome(dest, o)
    else
      var r := EvalSeq(h, rd, fuel, e.body, dest, LoopBodyReg(e.cond, next), o.w);
      if r.Norm? || r.Continued? then EvalAgain(h, rd, fuel, e, dest, next, r.w) else LeaveOutcome(dest, r)
  }

  /** A loop gives `null` when its condition fails, and what its destination holds
      when it is left by `break`; anything else passes through. */
  function LeaveOutcome(dest: nat, o: Outcome): Outcome {
    match o
    case Norm(_, w) => Give(dest, Null, w)
    case Broke(w) => Norm(Held(w, dest), w)
    case other => other
  }

  /** Another iteration, if the bound allows one. */
  function EvalAgain(h: Host, rd: Reading, fuel: nat, e: Expr, dest: nat, next: nat, w: World): Outcome
    requires e.ELoop?
    decreases fuel, e, 0
  {
    if fuel == 0 then Timeout else EvalLoop(h, rd, fuel - 1, e, dest, next, w)
  }

  /** The value of a sequence is that of its last expression. */
  function EvalSeq(h: Host, rd: Reading, fuel: nat, es: seq<Expr>, dest: nat, next: nat, w: World): Outcome
    decreases fuel, es, 0
  {
    if es == [] then Norm(Held(w, dest), w)
    else match Eval(h, rd, fuel, es[0], dest, next, w)
      case Norm(v, w1) => if |es| == 1 then Norm(v, w1) else EvalSeq(h, rd, fuel, es[1..], dest, NextReg(es[0], next), w1)
      case other => other
  }

  /** A program leaves its value in the result register. */
  function EvalProgram(h: Host, rd: Reading, fuel: nat, prog: seq<Expr>, w: World): Outcome {
    EvalSeq(h, rd, fuel, prog, RESULT_REG, RESULT_REG + 1, w)
  }

  lemma OpenEval(h: Host, rd: Reading, fuel: nat, e: Expr, dest: nat, next: nat, w: World)
    ensures Eval(h, rd, fuel, e, dest, next, w) == EvalDef(h, rd, fuel, e, dest, next, w)
  {
    assert EvalSealed(h, rd, fuel, e, dest, next, w) == EvalDef(h, rd, fuel, e, dest, next, w);
  }

  // ---- the two readings ----

  /** Without the literal -32768 the two readings agree. */
  lemma {:induction false} ReadingsAgree(h: Host, fuel: nat, e: Expr, dest: nat, next: nat, w: World)
    requires !HasMinLiteral(e)
    ensures Eval(h, Encoded, fuel, e, dest, next, w) == Eval(h, Written, fuel, e, dest, next, w)
    decreases fuel, e, 2
  {
    OpenEval(h, Encoded, fuel, e, dest, next, w);
    OpenEval(h, Written, fuel, e, dest, next, w);
    match e
    case EArith(_, _, _) => ReadingsAgreeArith(h, fuel, e, dest, next, w);
    case ECmp(_, _, _) => ReadingsAgreePair(h, fuel, e, next, w);
    case ENot(a) => ReadingsAgree(h, fuel, a, dest, next, w);
    case EAssign(_, a) => ReadingsAgree(h, fuel, a, dest, next, w);
    case EIf(_, _, _) => ReadingsAgreeIf(h, fuel, e, dest, next, w);
    case ELoop(_, _) => ReadingsAgreeLoop(h, fuel, e, dest, next, w);
    case EDo(es) => ReadingsAgreeSeq(h, fuel, es, dest, next, w);
    case EAnd(_, _) => ReadingsAgreeShort(h, fuel, e, dest, next, w);
    case EOr(_, _) => ReadingsAgreeShort(h, fuel, e, dest, next, w);
    case _ =>
  }

  lemma {:induction false} ReadingsAgreeArith(h: Host, fuel: nat, e: Expr, dest: nat, next: nat, w: World)
    requires e.EArith? && !HasMinLiteral(e)
    ensures EvalArith(h, Encoded, fuel, e, dest, next, w) == EvalArith(h, Written, fuel, e, dest, next, w)
    decreases fuel, e, 1
  {
    ReadingsAgree(h, fuel, e.first, dest, next, w);
    var r := Eval(h, Written, fuel, e.first, dest, next, w);
    if IsFoldable(e.op, e.rest) {
      assert !HasMinLiteral(e.rest[0]);
    } else if r.Norm? {
      ReadingsAgreeOperands(h, fuel, e.op, r.v, e.rest, dest, NextReg(e.first, next), next, r.w);
    }
  }

  lemma {:induction false} ReadingsAgreePair(h: Host, fuel: nat, e: Expr, next: nat, w: World)
    requires e.ECmp? && !HasMinLiteral(e)
    ensures EvalPair(h, Encoded, fuel, e, next, w) == EvalPair(h, Written, fuel, e, next, w)
    decreases fuel, e, 0
  {
    ReadingsAgree(h, fuel, e.l, next, next + 1, w);
    var r, rb := Eval(h, Written, fuel, e.l, next, next + 1, w), NextReg(e.l, next + 1);
    if r.Norm? { ReadingsAgree(h, fuel, e.r, rb, rb + 1, r.w); }
  }

  lemma {:induction false} ReadingsAgreeCond(h: Host, fuel: nat, c: Expr, cd: nat, cn: nat, temps: nat, w: World)
    requires !HasMinLiteral(c)
    ensures EvalCond(h, Encoded, fuel, c, cd, cn, temps, w) == EvalCond(h, Written, fuel, c, cd, cn, temps, w)
    decreases fuel, c, 3
  {
    if IsFused(c) {
      ReadingsAgreePair(h, fuel, c, temps, w);
    } else {
      ReadingsAgree(h, fuel, c, cd, cn, w);
    }
  }

  lemma {:induction false} ReadingsAgreeIf(h: Host, fuel: nat, e: Expr, dest: nat, next: nat, w: World)
    requires e.EIf? && !HasMinLiteral(e)
    ensures EvalIf(h, Encoded, fuel, e, dest, next, w) == EvalIf(h, Written, fuel, e, dest, next, w)
    decreases fuel, e, 1
  {
    ReadingsAgreeCond(h, fuel, e.cond, dest, next, next, w);
    var r, nt := EvalCond(h, Written, fuel, e.cond, dest, next, next, w), NextReg(e.cond, next);
    if r.Norm? {
      ReadingsAgree(h, fuel, e.thn, dest, nt, r.w);
      ReadingsAgree(h, fuel, e.els, dest, NextReg(e.thn, nt), r.w);
    }
  }

  lemma {:induction false} ReadingsAgreeShort(h: Host, fuel: nat, e: Expr, dest: nat, next: nat, w: World)
    requires (e.EAnd? || e.EOr?) && !HasMinLiteral(e)
    ensures EvalShort(h, Encoded, fuel, e, dest, next, w) == EvalShort(h, Written, fuel, e, dest, next, w)
    decreases fuel, e, 1
  {
    ReadingsAgree(h, fuel, e.l, dest, next, w);
    var r := Eval(h, Written, fuel, e.l, dest, next, w);
    if r.Norm? { ReadingsAgree(h, fuel, e.r, dest, NextReg(e.l, next), r.w); }
  }

  lemma {:induction false} ReadingsAgreeLoop(h: Host, fuel: nat, e: Expr, dest: nat, next: nat, w: World)
    requires e.ELoop? && !HasMinLiteral(e)
    ensures EvalLoop(h, Encoded, fuel, e, dest, next, w) == EvalLoop(h, Written, fuel, e, dest, next, w)
    decreases fuel, e, 1
  {
    ReadingsAgreeCond(h, fuel, e.cond, next, next + 1, next, w);
    var r := EvalCond(h, Written, fuel, e.cond, next, next + 1, next, w);
    if r.Norm? {
      var nb := LoopBodyReg(e.cond, next);
      ReadingsAgreeSeq(h, fuel, e.body, dest, nb, r.w);
      var s := EvalSeq(h, Written, fuel, e.body, dest, nb, r.w);
      if s.Norm? || s.Continued? { ReadingsAgreeAgain(h, fuel, e, dest, next, s.w); }
    } else if r.Continued? {
      ReadingsAgreeAgain(h, fuel, e, dest, next, r.w);
    }
  }

  lemma {:induction false} ReadingsAgreeAgain(h: Host, fuel: nat, e: Expr, dest: nat, next: nat, w: World)
    requires e.ELoop? && !HasMinLiteral(e)
    ensures EvalAgain(h, Encoded, fuel, e, dest, next, w) == EvalAgain(h, Written, fuel, e, dest, next, w)
    decreases fuel, e, 0
  {
    if fuel > 0 { ReadingsAgreeLoop(h, fuel - 1, e, dest, next, w); }
  }

  lemma {:induction false} ReadingsAgreeOperands(h: Host, fuel: nat, op: ArithOp, acc: Value, rest: seq<Expr>,
                                                 dest: nat, cur: nat, base: nat, w: World)
    requires !AnyMinLiteral(rest)
    ensures EvalOperands(h, Encoded, fuel, op, acc, rest, dest, cur, base, w)
         == EvalOperands(h, Written, fuel, op, acc, rest, dest, cur, base, w)
    decreases fuel, rest, 0
  {
    if rest != [] {
      ReadingsAgree(h, fuel, rest[0], cur, cur + 1, w);
      var o := ArithOutcome(h, op, dest, acc, Eval(h, Written, fuel, rest[0], cur, cur + 1, w));
      if o.Norm? { ReadingsAgreeOperands(h, fuel, op, o.v, rest[1..], dest, base, base, o.w); }
    }
  }

  lemma {:induction false} ReadingsAgreeSeq(h: Host, fuel: nat, es: seq<Expr>, dest: nat, next: nat, w: World)
    requires !AnyMinLiteral(es)
    ensures EvalSeq(h, Encoded, fuel, es, dest, next, w) == EvalSeq(h, Written, fuel, es, dest, next, w)
    decreases fuel, es, 0
  {
    if es != [] {
      ReadingsAgree(h, fuel, es[0], dest, next, w);
      var r := Eval(h, Written, fuel, es[0], dest, next, w);
      if r.Norm? && |es| > 1 { ReadingsAgreeSeq(h, fuel, es[1..], dest, NextReg(es[0], next), r.w); }
    }
  }
}
