/** What the compiler emits for a fragment expression, described without
    emission: how many instructions and constants, which registers, and a
    predicate on finished code saying which instruction stands where.

    A recursive definition F is written as F, FSealed and FDef, the first two
    only passing their arguments on: the verifier then unfolds it only where
    FDef is mentioned. */
module Layout {
  import opened Semantics
  import opened Bytecode

  // ---- sizes ----

  /** The only operand is an immediate that ADDI or SUBI takes. */
  predicate IsFoldable(op: ArithOp, rest: seq<Expr>) {
    |rest| == 1 && rest[0].EInt? && IsImmediate(rest[0].v) && (op == Add || op == Sub)
  }

  predicate IsFused(c: Expr) {
    c.ECmp? && IsFusible(c.cop)
  }

  /** The number of instructions of an expression. A condition takes one more,
      for its jump, whether or not the comparison is fused with it. */
  function Size(e: Expr): nat
    decreases e, 3
  {
    SizeSealed(e)
  }

  function SizeSealed(e: Expr): nat
    decreases e, 2
  {
    SizeDef(e)
  }

  function SizeDef(e: Expr): nat
    decreases e, 1
  {
    match e
    case EArith(op, a, rest) => Size(a) + (if IsFoldable(op, rest) then 1 else SizeOperands(rest))
    case ECmp(_, a, b) => Size(a) + Size(b) + 1
    case ENot(a) => Size(a) + 1
    case EAssign(_, a) => Size(a) + 1
    case EIf(c, t, f) => Size(c) + 1 + Size(t) + 1 + Size(f)
    case ELoop(c, body) => Size(c) + 1 + SizeSeq(body) + 2
    case EDo(es) => SizeSeq(es)
    case EAnd(a, b) => Size(a) + 1 + Size(b)
    case EOr(a, b) => Size(a) + 1 + Size(b)
    case EBreak => 2
    case _ => 1
  }

  function SizeOperands(es: seq<Expr>): nat
    decreases es, 0
  {
    if es == [] then 0 else Size(es[0]) + 1 + SizeOperands(es[1..])
  }

  function SizeSeq(es: seq<Expr>): nat
    decreases es, 0
  {
    if es == [] then 0 else Size(es[0]) + SizeSeq(es[1..])
  }

  /** The number of constants an expression adds; the pool is never shared. */
  function Consts(e: Expr): nat
    decreases e, 3
  {
    ConstsSealed(e)
  }

  function ConstsSealed(e: Expr): nat
    decreases e, 2
  {
    ConstsDef(e)
  }

  function ConstsDef(e: Expr): nat
    decreases e, 1
  {
    match e
    case EInt(v) => if IsImmediate(v) then 0 else 1
    case EFloat(_) => 1
    case EGlobal(_) => 1
    case EArith(op, a, rest) => Consts(a) + (if IsFoldable(op, rest) then 0 else ConstsSeq(rest))
    case ECmp(_, a, b) => Consts(a) + Consts(b)
    case ENot(a) => Consts(a)
    case EAssign(_, a) => Consts(a) + 1
    case EIf(c, t, f) => Consts(c) + Consts(t) + Consts(f)
    case ELoop(c, body) => Consts(c) + ConstsSeq(body)
    case EDo(es) => ConstsSeq(es)
    case EAnd(a, b) => Consts(a) + Consts(b)
    case EOr(a, b) => Consts(a) + Consts(b)
    case _ => 0
  }

  function ConstsSeq(es: seq<Expr>): nat
    decreases es, 0
  {
    if es == [] then 0 else Consts(es[0]) + ConstsSeq(es[1..])
  }

  /** `nextReg` after compiling an expression that finds it at `next`. Only a
      loop whose condition is fused leaves its two temporaries allocated. */
  function NextReg(e: Expr, next: nat): (n: nat)
    ensures n >= next
    decreases e, 3
  {
    NextRegSealed(e, next)
  }

  function NextRegSealed(e: Expr, next: nat): (n: nat)
    ensures n >= next
    decreases e, 2
  {
    NextRegDef(e, next)
  }

  function NextRegDef(e: Expr, next: nat): (n: nat)
    ensures n >= next
    decreases e, 1
  {
    match e
    case ENot(a) => NextReg(a, next)
    case EAssign(_, a) => NextReg(a, next)
    case EIf(c, t, f) => NextReg(f, NextReg(t, NextReg(c, next)))
    case ELoop(c, body) =>
      if IsFused(c) then NextRegSeq(body, NextReg(c.r, NextReg(c.l, next + 1) + 1))
      else NextRegSeq(body, NextReg(c, next + 1) - 1)
    case EDo(es) => NextRegSeq(es, next)
    case EAnd(a, b) => NextReg(b, NextReg(a, next))
    case EOr(a, b) => NextReg(b, NextReg(a, next))
    case _ => next
  }

  function NextRegSeq(es: seq<Expr>, next: nat): (n: nat)
    ensures n >= next
    decreases es, 0
  {
    if es == [] then next else NextRegSeq(es[1..], NextReg(es[0], next))
  }

  // ---- break ----

  /** The instructions a `break` of the enclosing loop occupies. */
  function BreakSlots(e: Expr, pc: nat): seq<nat>
    decreases e, 3
  {
    BreakSlotsSealed(e, pc)
  }

  function BreakSlotsSealed(e: Expr, pc: nat): seq<nat>
    decreases e, 2
  {
    BreakSlotsDef(e, pc)
  }

  function BreakSlotsDef(e: Expr, pc: nat): seq<nat>
    decreases e, 1
  {
    match e
    case EArith(op, a, rest) =>
      BreakSlots(a, pc) + (if IsFoldable(op, rest) then [] else BreakSlotsOperands(rest, pc + Size(a)))
    case ECmp(_, a, b) => BreakSlots(a, pc) + BreakSlots(b, pc + Size(a))
    case ENot(a) => BreakSlots(a, pc)
    case EAssign(_, a) => BreakSlots(a, pc)
    case EIf(c, t, f) =>
      BreakSlots(c, pc) + BreakSlots(t, pc + Size(c) + 1) +
      BreakSlots(f, pc + Size(c) + 1 + Size(t) + 1)
    case EDo(es) => BreakSlotsSeq(es, pc)
    case EAnd(a, b) => BreakSlots(a, pc) + BreakSlots(b, pc + Size(a) + 1)
    case EOr(a, b) => BreakSlots(a, pc) + BreakSlots(b, pc + Size(a) + 1)
    case EBreak => [pc]
    case _ => []
  }

  function BreakSlotsOperands(es: seq<Expr>, pc: nat): seq<nat>
    decreases es, 0
  {
    if es == [] then [] else BreakSlots(es[0], pc) + BreakSlotsOperands(es[1..], pc + Size(es[0]) + 1)
  }

  function BreakSlotsSeq(es: seq<Expr>, pc: nat): seq<nat>
    decreases es, 0
  {
    if es == [] then [] else BreakSlots(es[0], pc) + BreakSlotsSeq(es[1..], pc + Size(es[0]))
  }

  /** The slots patched when a loop ends. */
  function LoopBreaks(c: Expr, body: seq<Expr>, pc: nat): seq<nat> {
    BreakSlots(c, pc) + BreakSlotsSeq(body, pc + Size(c) + 1)
  }

  // ---- limits ----

  const MAX_DEPTH := 512
  const MAX_CONST := 65535
  const MAX_JUMP := 32767

  /** Exactly the conditions under which compiling `e` raises no error: nesting,
      registers, constants, jump distances, and `break` only inside a loop. */
  predicate Fits(e: Expr, next: nat, pc: nat, k: nat, depth: nat, inLoop: bool)
    decreases e, 3
  {
    FitsSealed(e, next, pc, k, depth, inLoop)
  }

  predicate FitsSealed(e: Expr, next: nat, pc: nat, k: nat, depth: nat, inLoop: bool)
    decreases e, 2
  {
    FitsDef(e, next, pc, k, depth, inLoop)
  }

  predicate FitsDef(e: Expr, next: nat, pc: nat, k: nat, depth: nat, inLoop: bool)
    decreases e, 1
  {
    depth < MAX_DEPTH &&
    match e
    case EInt(v) => IsImmediate(v) || k <= MAX_CONST
    case EFloat(_) => k <= MAX_CONST
    case EGlobal(_) => k <= MAX_CONST
    case EArith(_, _, _) => FitsArith(e, next, pc, k, depth + 1, inLoop)
    case ECmp(_, _, _) => FitsPair(e, next, pc, k, depth + 1, inLoop)
    case ENot(a) => Fits(a, next, pc, k, depth + 1, inLoop)
    case EAssign(_, a) => Fits(a, next, pc, k, depth + 1, inLoop) && k + Consts(a) <= MAX_CONST
    case EIf(_, _, _) => FitsIf(e, next, pc, k, depth + 1, inLoop)
    case ELoop(_, _) => FitsLoop(e, next, pc, k, depth + 1)
    case EDo(es) => FitsSeq(es, next, pc, k, depth + 1, inLoop)
    case EAnd(_, _) => FitsShort(e, next, pc, k, depth + 1, inLoop)
    case EOr(_, _) => FitsShort(e, next, pc, k, depth + 1, inLoop)
    case EBreak => inLoop
    case EContinue => inLoop
    case _ => true
  }

  predicate FitsArith(e: Expr, next: nat, pc: nat, k: nat, depth: nat, inLoop: bool)
    requires e.EArith?
    decreases e, 0
  {
    && Fits(e.first, next, pc, k, depth, inLoop)
    && (IsFoldable(e.op, e.rest)
        || FitsOperands(e.rest, NextReg(e.first, next), next, pc + Size(e.first), k + Consts(e.first), depth, inLoop))
  }

  predicate FitsIf(e: Expr, next: nat, pc: nat, k: nat, depth: nat, inLoop: bool)
    requires e.EIf?
    decreases e, 0
  {
    var EIf(c, t, f) := e;
    && (if IsFused(c) then FitsPair(c, next, pc, k, depth, inLoop) else Fits(c, next, pc, k, depth, inLoop))
    && Fits(t, NextReg(c, next), pc + Size(c) + 1, k + Consts(c), depth, inLoop)
    && Size(t) + 1 <= MAX_JUMP
    && Fits(f, NextReg(t, NextReg(c, next)), pc + Size(c) + 1 + Size(t) + 1, k + Consts(c) + Consts(t), depth, inLoop)
    && Size(f) <= MAX_JUMP
  }

  /** The code inside a loop may `break`, whatever is around it. */
  predicate FitsLoop(e: Expr, next: nat, pc: nat, k: nat, depth: nat)
    requires e.ELoop?
    decreases e, 0
  {
    var ELoop(c, body) := e;
    && (if IsFused(c) then FitsPair(c, next, pc, k, depth, true)
        else next < 255 && Fits(c, next + 1, pc, k, depth, true))
    && FitsSeq(body, LoopBodyReg(c, next), pc + Size(c) + 1, k + Consts(c), depth, true)
    && SizeSeq(body) + 1 <= MAX_JUMP
    && BreaksReach(LoopBreaks(c, body, pc), pc + LoopOffset(c, body) + 1)
  }

  /** Every `break` jump can reach the end of its loop. */
  predicate BreaksReach(slots: seq<nat>, exit: nat) {
    forall i | i in slots :: exit - i - 1 <= MAX_JUMP
  }

  /** `nextReg` at the first body expression of a loop. */
  function LoopBodyReg(c: Expr, next: nat): (n: nat)
    ensures n >= next
  {
    if IsFused(c) then NextReg(c.r, NextReg(c.l, next + 1) + 1) else NextReg(c, next + 1) - 1
  }

  predicate FitsPair(e: Expr, next: nat, pc: nat, k: nat, depth: nat, inLoop: bool)
    requires e.ECmp?
    decreases e, 0
  {
    && next < 255
    && Fits(e.l, next + 1, pc, k, depth, inLoop)
    && NextReg(e.l, next + 1) < 255
    && Fits(e.r, NextReg(e.l, next + 1) + 1, pc + Size(e.l), k + Consts(e.l), depth, inLoop)
  }

  predicate FitsShort(e: Expr, next: nat, pc: nat, k: nat, depth: nat, inLoop: bool)
    requires e.EAnd? || e.EOr?
    decreases e, 0
  {
    && Fits(e.l, next, pc, k, depth, inLoop)
    && Fits(e.r, NextReg(e.l, next), pc + Size(e.l) + 1, k + Consts(e.l), depth, inLoop)
    && Size(e.r) <= MAX_JUMP
  }

  /** Operands are compiled at `cur` first and at `base` from then on. */
  predicate FitsOperands(es: seq<Expr>, cur: nat, base: nat, pc: nat, k: nat, depth: nat, inLoop: bool)
    decreases es, 0
  {
    es == [] ||
    (&& cur < 255
     && Fits(es[0], cur + 1, pc, k, depth, inLoop)
     && FitsOperands(es[1..], base, base, pc + Size(es[0]) + 1, k + Consts(es[0]), depth, inLoop))
  }

  predicate FitsSeq(es: seq<Expr>, next: nat, pc: nat, k: nat, depth: nat, inLoop: bool)
    decreases es, 0
  {
    es == [] ||
    (&& Fits(es[0], next, pc, k, depth, inLoop)
     && FitsSeq(es[1..], NextReg(es[0], next), pc + Size(es[0]), k + Consts(es[0]), depth, inLoop))
  }

  // ---- the code of an expression ----

  /** The innermost loop around an expression: none, one whose exit is not known
      yet, or one whose `break` jumps have been patched to `exit`. */
  datatype LoopCtx = NoLoop | Open(start: nat) | Closed(start: nat, exit: nat)

  predicate At(ch: Chunk, pc: nat, ins: Ins) {
    pc < |ch.code| && ch.code[pc] == ins
  }

  predicate ConstAt(ch: Chunk, k: nat, v: Value) {
    k < 0x1_0000 && k < |ch.consts| && ch.consts[k] == v
  }

  /** An unpatched `break` jumps by zero. */
  function BreakIns(lp: LoopCtx, pc: nat): Ins {
    if lp.Closed? then Jmp(lp.exit - pc - 1) else Jmp(0)
  }

  function SymbolConst(h: Host, name: string): Value {
    Int(h.symbolId(name))
  }

  /** The instructions of `e` with destination `dest` stand at `pc`, its constants
      at `k`, and its temporaries start at `next`. */
  predicate CodeFor(h: Host, ch: Chunk, e: Expr, dest: nat, next: nat, pc: nat, k: nat, lp: LoopCtx)
    decreases e, 4
  {
    dest < 256 && CodeForSealed(h, ch, e, dest, next, pc, k, lp)
  }

  predicate CodeForSealed(h: Host, ch: Chunk, e: Expr, dest: Reg, next: nat, pc: nat, k: nat, lp: LoopCtx)
    decreases e, 3
  {
    CodeForDef(h, ch, e, dest, next, pc, k, lp)
  }

  predicate CodeForDef(h: Host, ch: Chunk, e: Expr, dest: Reg, next: nat, pc: nat, k: nat, lp: LoopCtx)
    decreases e, 2
  {
    match e
    case EInt(v) =>
      if IsImmediate(v) then At(ch, pc, LoadInt(dest, SBxReadBack(v)))
      else ConstAt(ch, k, h.boxInt(v)) && At(ch, pc, LoadK(dest, k))
    case EFloat(w) => ConstAt(ch, k, Float(w)) && At(ch, pc, LoadK(dest, k))
    case EBool(b) => At(ch, pc, LoadBool(dest, if b then 1 else 0))
    case ENull => At(ch, pc, LoadNull(dest))
    case EGlobal(x) => ConstAt(ch, k, SymbolConst(h, x)) && At(ch, pc, GetGlobal(dest, k))
    case EArith(_, _, _) => CodeForArith(h, ch, e, dest, next, pc, k, lp)
    case ECmp(_, _, _) => CodeForCmp(h, ch, e, dest, next, pc, k, lp)
    case ENot(a) => CodeFor(h, ch, a, dest, next, pc, k, lp) && At(ch, pc + Size(a), Not(dest, dest))
    case EAssign(_, _) => CodeForAssign(h, ch, e, dest, next, pc, k, lp)
    case EIf(_, _, _) => CodeForIf(h, ch, e, dest, next, pc, k, lp)
    case ELoop(_, _) => CodeForLoop(h, ch, e, dest, next, pc, k)
    case EDo(es) => CodeForSeq(h, ch, es, dest, next, pc, k, lp)
    case EAnd(_, _) => CodeForShort(h, ch, e, dest, next, pc, k, lp)
    case EOr(_, _) => CodeForShort(h, ch, e, dest, next, pc, k, lp)
    case EBreak =>
      !lp.NoLoop? && At(ch, pc, BreakIns(lp, pc)) && At(ch, pc + 1, LoadNull(dest))
    case EContinue =>
      !lp.NoLoop? && lp.start <= pc && At(ch, pc, Loop(SBxReadBack(pc - lp.start + 1)))
  }

  predicate CodeForArith(h: Host, ch: Chunk, e: Expr, dest: Reg, next: nat, pc: nat, k: nat, lp: LoopCtx)
    requires e.EArith?
    decreases e, 1
  {
    var EArith(op, a, rest) := e;
    && CodeFor(h, ch, a, dest, next, pc, k, lp)
    && (if IsFoldable(op, rest) then
          At(ch, pc + Size(a), FoldedIns(op, dest, SBxReadBack(rest[0].v)))
        else
          CodeForOperands(h, ch, op, rest, dest, NextReg(a, next), next, pc + Size(a), k + Consts(a), lp))
  }

  predicate CodeForCmp(h: Host, ch: Chunk, e: Expr, dest: Reg, next: nat, pc: nat, k: nat, lp: LoopCtx)
    requires e.ECmp?
    decreases e, 1
  {
    var ECmp(op, a, b) := e;
    && CodeForPair(h, ch, e, next, pc, k, lp)
    && At(ch, pc + Size(a) + Size(b), Cmp(op, dest, next, NextReg(a, next + 1)))
  }

  predicate CodeForAssign(h: Host, ch: Chunk, e: Expr, dest: Reg, next: nat, pc: nat, k: nat, lp: LoopCtx)
    requires e.EAssign?
    decreases e, 1
  {
    var EAssign(x, a) := e;
    && CodeFor(h, ch, a, dest, next, pc, k, lp)
    && ConstAt(ch, k + Consts(a), SymbolConst(h, x))
    && At(ch, pc + Size(a), SetGlobal(dest, k + Consts(a)))
  }

  predicate CodeForIf(h: Host, ch: Chunk, e: Expr, dest: Reg, next: nat, pc: nat, k: nat, lp: LoopCtx)
    requires e.EIf?
    decreases e, 1
  {
    var EIf(c, t, f) := e;
    var pt := pc + Size(c) + 1;
    && CodeForCond(h, ch, c, e, dest, next, next, pc, k, lp, Size(t) + 1)
    && CodeFor(h, ch, t, dest, NextReg(c, next), pt, k + Consts(c), lp)
    && At(ch, pt + Size(t), Jmp(Size(f)))
    && CodeFor(h, ch, f, dest, NextReg(t, NextReg(c, next)), pt + Size(t) + 1, k + Consts(c) + Consts(t), lp)
  }

  predicate CodeForShort(h: Host, ch: Chunk, e: Expr, dest: Reg, next: nat, pc: nat, k: nat, lp: LoopCtx)
    requires e.EAnd? || e.EOr?
    decreases e, 1
  {
    && CodeFor(h, ch, e.l, dest, next, pc, k, lp)
    && At(ch, pc + Size(e.l), ShortIns(e, dest))
    && CodeFor(h, ch, e.r, dest, NextReg(e.l, next), pc + Size(e.l) + 1, k + Consts(e.l), lp)
  }

  function ShortIns(e: Expr, dest: Reg): Ins
    requires e.EAnd? || e.EOr?
  {
    if e.EAnd? then And(dest, Size(e.r)) else Or(dest, Size(e.r))
  }

  /** The code inside a loop sees that loop, whatever is around it. */
  predicate CodeForLoop(h: Host, ch: Chunk, e: Expr, dest: Reg, next: nat, pc: nat, k: nat)
    requires e.ELoop?
    decreases e, 1
  {
    var ELoop(c, body) := e;
    var inner := Closed(pc, pc + Size(e));
    var pb := pc + Size(c) + 1;
    && CodeForCond(h, ch, c, e, next, next + 1, next, pc, k, inner, SizeSeq(body) + 1)
    && CodeForSeq(h, ch, body, dest, LoopBodyReg(c, next), pb, k + Consts(c), inner)
    && At(ch, pb + SizeSeq(body), Loop(SBxReadBack(LoopOffset(c, body))))
    && At(ch, pb + SizeSeq(body) + 1, LoadNull(dest))
  }

  /** The instruction that takes the only operand of `+` or `-` as an immediate. */
  function FoldedIns(op: ArithOp, dest: Reg, imm: int): Ins {
    if op == Add then AddI(dest, imm) else SubI(dest, imm)
  }

  /** The distance the LOOP instruction at the end of a loop jumps back. */
  function LoopOffset(c: Expr, body: seq<Expr>): nat {
    Size(c) + 1 + SizeSeq(body) + 1
  }

  /** The operands of a comparison, each in a fresh register. */
  predicate CodeForPair(h: Host, ch: Chunk, e: Expr, next: nat, pc: nat, k: nat, lp: LoopCtx)
    requires e.ECmp?
    decreases e, 0
  {
    var rb := NextReg(e.l, next + 1);
    && next < 256 && rb < 256
    && CodeFor(h, ch, e.l, next, next + 1, pc, k, lp)
    && CodeFor(h, ch, e.r, rb, rb + 1, pc + Size(e.l), k + Consts(e.l), lp)
  }

  /** A condition that falls through when it holds and jumps `skip` instructions
      forward when it does not. A fused comparison uses temporaries from `temps`;
      any other condition is computed into `cd`, with temporaries from `cn`. */
  predicate CodeForCond(h: Host, ch: Chunk, c: Expr, parent: Expr, cd: nat, cn: nat, temps: nat,
                        pc: nat, k: nat, lp: LoopCtx, skip: nat)
    requires c < parent
    decreases parent, 0
  {
    if IsFused(c) then
      && CodeForPair(h, ch, c, temps, pc, k, lp)
      && At(ch, pc + Size(c.l) + Size(c.r), CmpJmp(c.cop, temps, NextReg(c.l, temps + 1)))
      && At(ch, pc + Size(c.l) + Size(c.r) + 1, Jmp(skip))
    else
      && CodeFor(h, ch, c, cd, cn, pc, k, lp)
      && At(ch, pc + Size(c), JmpFalse(cd, skip))
  }

  predicate CodeForOperands(h: Host, ch: Chunk, op: ArithOp, es: seq<Expr>, dest: nat, cur: nat, base: nat,
                            pc: nat, k: nat, lp: LoopCtx)
    decreases es, 0
  {
    dest < 256 &&
    (es == [] ||
     (&& CodeFor(h, ch, es[0], cur, cur + 1, pc, k, lp)
      && At(ch, pc + Size(es[0]), BinOp(op, dest, dest, cur))
      && CodeForOperands(h, ch, op, es[1..], dest, base, base, pc + Size(es[0]) + 1, k + Consts(es[0]), lp)))
  }

  predicate CodeForSeq(h: Host, ch: Chunk, es: seq<Expr>, dest: nat, next: nat, pc: nat, k: nat, lp: LoopCtx)
    decreases es, 0
  {
    es == [] ||
    (&& CodeFor(h, ch, es[0], dest, next, pc, k, lp)
     && CodeForSeq(h, ch, es[1..], dest, NextReg(es[0], next), pc + Size(es[0]), k + Consts(es[0]), lp))
  }

  const RESULT_REG := 1

  /** The chunk of a whole program: register 0 is reserved, the result is
      returned from register 1. */
  predicate ProgramCode(h: Host, ch: Chunk, prog: seq<Expr>) {
    && CodeForSeq(h, ch, prog, RESULT_REG, RESULT_REG + 1, 0, 0, NoLoop)
    && At(ch, SizeSeq(prog), Return(RESULT_REG))
    && |ch.code| == SizeSeq(prog) + 1
  }

  /** Every loop's backward distance survives encoding. */
  predicate LoopsFit(e: Expr)
    decreases e, 3
  {
    LoopsFitSealed(e)
  }

  predicate LoopsFitSealed(e: Expr)
    decreases e, 2
  {
    LoopsFitDef(e)
  }

  predicate LoopsFitDef(e: Expr)
    decreases e, 1
  {
    match e
    case EArith(_, a, rest) => LoopsFit(a) && AllLoopsFit(rest)
    case ECmp(_, a, b) => LoopsFit(a) && LoopsFit(b)
    case ENot(a) => LoopsFit(a)
    case EAssign(_, a) => LoopsFit(a)
    case EIf(c, t, f) => LoopsFit(c) && LoopsFit(t) && LoopsFit(f)
    case ELoop(c, body) => LoopOffset(c, body) <= 32768 && LoopsFit(c) && AllLoopsFit(body)
    case EDo(es) => AllLoopsFit(es)
    case EAnd(a, b) => LoopsFit(a) && LoopsFit(b)
    case EOr(a, b) => LoopsFit(a) && LoopsFit(b)
    case _ => true
  }

  predicate AllLoopsFit(es: seq<Expr>)
    decreases es, 0
  {
    es == [] || (LoopsFit(es[0]) && AllLoopsFit(es[1..]))
  }

  /** The definitions at `e`. */
  lemma OpenSizes(e: Expr)
    ensures Size(e) == SizeDef(e) && Consts(e) == ConstsDef(e) && LoopsFit(e) == LoopsFitDef(e)
    ensures forall next :: NextReg(e, next) == NextRegDef(e, next)
  {
    assert SizeSealed(e) == SizeDef(e) && ConstsSealed(e) == ConstsDef(e) && LoopsFitSealed(e) == LoopsFitDef(e);
    forall next ensures NextReg(e, next) == NextRegDef(e, next) {
      assert NextRegSealed(e, next) == NextRegDef(e, next);
    }
  }

  lemma OpenBreaks(e: Expr, pc: nat)
    ensures BreakSlots(e, pc) == BreakSlotsDef(e, pc)
  {
    assert BreakSlotsSealed(e, pc) == BreakSlotsDef(e, pc);
  }

  lemma OpenFits(e: Expr, next: nat, pc: nat, k: nat, depth: nat, inLoop: bool)
    ensures Fits(e, next, pc, k, depth, inLoop) <==> FitsDef(e, next, pc, k, depth, inLoop)
  {
    assert FitsSealed(e, next, pc, k, depth, inLoop) == FitsDef(e, next, pc, k, depth, inLoop);
  }

  lemma OpenCode(h: Host, ch: Chunk, e: Expr, dest: nat, next: nat, pc: nat, k: nat, lp: LoopCtx)
    ensures CodeFor(h, ch, e, dest, next, pc, k, lp) <==> dest < 256 && CodeForDef(h, ch, e, dest, next, pc, k, lp)
  {
    assert dest < 256 ==>
      CodeForSealed(h, ch, e, dest, next, pc, k, lp) == CodeForDef(h, ch, e, dest, next, pc, k, lp);
  }
}
