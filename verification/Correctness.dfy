/** A settled program's chunk does what the program means. */
module Correctness {
  import opened Wrappers
  import opened Ast
  import opened Semantics
  import opened Bytecode
  import opened Layout
  import opened Evaluation
  import opened Simulation
  import opened Settled
  import opened Meaning
  import opened Trees

  // ---- operands that are immediates ----

  /** A sum or difference whose only operand is an immediate of the instruction. */
  datatype Fold = Fold(op: ArithOp, imm: int)

  /** The folded sums and differences of an expression. */
  function Folds(e: Expr): set<Fold>
    decreases e, 1
  {
    match e
    case EArith(op, a, rest) => Folds(a) + if IsFoldable(op, rest) then {Fold(op, rest[0].v)} else AllFolds(rest)
    case ECmp(_, a, b) => Folds(a) + Folds(b)
    case ENot(a) => Folds(a)
    case EAssign(_, a) => Folds(a)
    case EIf(c, t, f) => Folds(c) + Folds(t) + Folds(f)
    case ELoop(c, body) => Folds(c) + AllFolds(body)
    case EDo(es) => AllFolds(es)
    case EAnd(a, b) => Folds(a) + Folds(b)
    case EOr(a, b) => Folds(a) + Folds(b)
    case _ => {}
  }

  function AllFolds(es: seq<Expr>): set<Fold>
    decreases es, 0
  {
    if es == [] then {} else Folds(es[0]) + AllFolds(es[1..])
  }

  /** The inline code of SUBI, and that of ADDI on an integer, give what the
      operation gives for a register and the immediate. */
  ghost predicate FoldAgrees(h: Host, f: Fold) {
    forall v: Value | f.op == Sub || v.Int? :: h.immediate(f.op, v, f.imm) == h.arith(f.op, v, Int(f.imm))
  }

  ghost predicate FoldsAgree(h: Host, fs: set<Fold>) {
    forall f | f in fs :: FoldAgrees(h, f)
  }

  /** The runtime's helpers make no difference between the two. */
  lemma HelperFoldsAgree(d: Doubles, symbolId: string -> SymbolId, fs: set<Fold>)
    ensures FoldsAgree(HelperHost(d, symbolId), fs)
  {
  }

  /** No sum with an immediate is computed in the last register, where ADDI has no
      next register to put the immediate. */
  predicate NoLateAdd(e: Expr, dest: nat, next: nat)
    decreases e, 1
  {
    match e
    case EArith(op, a, rest) =>
      && NoLateAdd(a, dest, next)
      && (if IsFoldable(op, rest) then op == Add ==> dest < 254 else NoLateAddOperands(rest, NextReg(a, next), next))
    case ECmp(_, a, b) => NoLateAdd(a, next, next + 1) && NoLateAdd(b, NextReg(a, next + 1), NextReg(a, next + 1) + 1)
    case ENot(a) => NoLateAdd(a, dest, next)
    case EAssign(_, a) => NoLateAdd(a, dest, next)
    case EIf(c, t, f) =>
      && NoLateAdd(c, dest, next)
      && NoLateAdd(t, dest, NextReg(c, next)) && NoLateAdd(f, dest, NextReg(t, NextReg(c, next)))
    case ELoop(c, body) =>
      NoLateAdd(c, next, if IsFused(c) then next else next + 1) && NoLateAddSeq(body, dest, LoopBodyReg(c, next))
    case EDo(es) => NoLateAddSeq(es, dest, next)
    case EAnd(a, b) => NoLateAdd(a, dest, next) && NoLateAdd(b, dest, NextReg(a, next))
    case EOr(a, b) => NoLateAdd(a, dest, next) && NoLateAdd(b, dest, NextReg(a, next))
    case _ => true
  }

  predicate NoLateAddOperands(es: seq<Expr>, cur: nat, base: nat)
    decreases es, 0
  {
    es != [] ==> NoLateAdd(es[0], cur, cur + 1) && NoLateAddOperands(es[1..], base, base)
  }

  predicate NoLateAddSeq(es: seq<Expr>, dest: nat, next: nat)
    decreases es, 0
  {
    es != [] ==> NoLateAdd(es[0], dest, next) && NoLateAddSeq(es[1..], dest, NextReg(es[0], next))
  }

  // ---- evaluation over registers does what the program means ----

  /** The outcome shows the result: the same ending and globals, the same error,
      and the same value if it is definite. */
  predicate Meets(r: Result, o: Outcome, definite: bool) {
    match o
    case Norm(v, w) => r.Yields? && r.g == w.globals && (definite ==> r.v == v)
    case Broke(w) => r == Exits(w.globals)
    case Continued(w) => r == Repeats(w.globals)
    case Fault(e, g) => r == Raises(e, g)
    case Timeout => r == Exhausted
  }

  /** Every value used is definite, and every immediate takes part as a value would. */
  ghost predicate Plain(h: Host, e: Expr, p: Place) {
    IsSettled(e) && FoldsAgree(h, Folds(e)) && NoLateAdd(e, p.dest, p.next)
  }

  /** Wherever such an expression is evaluated, and whatever the registers hold, it
      shows its meaning. */
  lemma {:induction false} EvalMeans(h: Host, fuel: nat, e: Expr, p: Place)
    requires Plain(h, e, p)
    ensures Meets(Mean(h, fuel, e, p.w.globals), EvalAt(h, Written, fuel, e, p), Definite(e))
    decreases fuel, e, 2
  {
    OpenBoth(h, fuel, e, p);
    match e
    case EArith(_, _, _) => EvalMeansArith(h, fuel, e, p);
    case ECmp(_, _, _) => EvalMeansPair(h, fuel, e, p.next, p.w);
    case ENot(a) => EvalMeans(h, fuel, a, p);
    case EAssign(_, a) => EvalMeans(h, fuel, a, p);
    case EIf(_, _, _) => EvalMeansIf(h, fuel, e, p);
    case ELoop(_, _) => EvalMeansLoop(h, fuel, e, p);
    case EDo(es) => EvalMeansSeq(h, fuel, es, p);
    case EAnd(_, _) => EvalMeansShort(h, fuel, e, p);
    case EOr(_, _) => EvalMeansShort(h, fuel, e, p);
    case _ => LeafMeans(h, fuel, e, p);
  }

  lemma OpenBoth(h: Host, fuel: nat, e: Expr, p: Place)
    ensures Mean(h, fuel, e, p.w.globals) == MeanDef(h, fuel, e, p.w.globals)
    ensures EvalAt(h, Written, fuel, e, p) == EvalDef(h, Written, fuel, e, p.dest, p.next, p.w)
  {
    OpenMean(h, fuel, e, p.w.globals);
    OpenEval(h, Written, fuel, e, p.dest, p.next, p.w);
  }

  lemma LeafMeans(h: Host, fuel: nat, e: Expr, p: Place)
    requires e.EInt? || e.EFloat? || e.EBool? || e.ENull? || e.EGlobal? || e.EBreak? || e.EContinue?
    ensures Meets(Mean(h, fuel, e, p.w.globals), EvalAt(h, Written, fuel, e, p), true)
  {
    OpenBoth(h, fuel, e, p);
  }

  lemma {:induction false} EvalMeansArith(h: Host, fuel: nat, e: Expr, p: Place)
    requires e.EArith? && Plain(h, e, p)
    ensures Meets(MeanArith(h, fuel, e, p.w.globals), EvalArith(h, Written, fuel, e, p.dest, p.next, p.w), true)
    decreases fuel, e, 1
  {
    var EArith(op, a, rest) := e;
    EvalMeans(h, fuel, a, p);
    var r, o := Mean(h, fuel, a, p.w.globals), EvalAt(h, Written, fuel, a, p);
    if o.Norm? {
      if IsFoldable(op, rest) {
        FoldMeans(h, fuel, op, r.v, rest, o, p.dest);
      } else {
        EvalMeansOperands(h, fuel, op, o.v, rest, p.dest, NextReg(a, p.next), p.next, o.w);
      }
    }
  }

  /** An immediate operand, through either path of ADDI or through SUBI. */
  lemma FoldMeans(h: Host, fuel: nat, op: ArithOp, acc: Value, rest: seq<Expr>, o: Outcome, dest: nat)
    requires IsFoldable(op, rest) && FoldAgrees(h, Fold(op, rest[0].v)) && (op == Add ==> dest < 254)
    requires o.Norm? && acc == o.v
    ensures Meets(MeanOperands(h, fuel, op, acc, rest, o.w.globals), ImmediateOutcome(h, op, dest, o, rest[0].v), true)
  {
    OpenMean(h, fuel, rest[0], o.w.globals);
    assert rest[1..] == [];
    var f := Fold(op, rest[0].v);
    assert f.op == Sub || acc.Int? ==> h.immediate(f.op, acc, f.imm) == h.arith(f.op, acc, Int(f.imm));
  }

  lemma {:induction false} EvalMeansOperands(h: Host, fuel: nat, op: ArithOp, acc: Value, rest: seq<Expr>,
                                             dest: nat, cur: nat, base: nat, w: World)
    requires AllOperandsSettled(rest) && FoldsAgree(h, AllFolds(rest)) && NoLateAddOperands(rest, cur, base)
    ensures Meets(MeanOperands(h, fuel, op, acc, rest, w.globals),
                  EvalOperands(h, Written, fuel, op, acc, rest, dest, cur, base, w), true)
    decreases fuel, rest, 0
  {
    if rest != [] {
      EvalMeans(h, fuel, rest[0], Place(cur, cur + 1, w));
      var o := ArithOutcome(h, op, dest, acc, Eval(h, Written, fuel, rest[0], cur, cur + 1, w));
      if o.Norm? { EvalMeansOperands(h, fuel, op, o.v, rest[1..], dest, base, base, o.w); }
    }
  }

  /** What both operands of a comparison come to. */
  predicate MeetsPair(h: Host, op: CmpOp, r: Result, ops: Operands) {
    match ops
    case Both(v, u, w) => r == Yields(Bool(h.compare(op, v, u)), w.globals)
    case Stopped(o) => !o.Norm? && Meets(r, o, true)
  }

  lemma {:induction false} EvalMeansPair(h: Host, fuel: nat, e: Expr, next: nat, w: World)
    requires e.ECmp? && IsSettled(e) && FoldsAgree(h, Folds(e)) && NoLateAdd(e, next, next)
    ensures MeetsPair(h, e.cop, MeanCmp(h, fuel, e, w.globals), EvalPair(h, Written, fuel, e, next, w))
    decreases fuel, e, 0
  {
    EvalMeans(h, fuel, e.l, Place(next, next + 1, w));
    var o, rb := Eval(h, Written, fuel, e.l, next, next + 1, w), NextReg(e.l, next + 1);
    if o.Norm? { EvalMeans(h, fuel, e.r, Place(rb, rb + 1, o.w)); }
  }

  lemma {:induction false} EvalMeansCond(h: Host, fuel: nat, c: Expr, cd: nat, cn: nat, temps: nat, w: World)
    requires IsSettled(c) && Definite(c) && FoldsAgree(h, Folds(c))
    requires if IsFused(c) then NoLateAdd(c, temps, temps) else NoLateAdd(c, cd, cn)
    ensures Meets(Mean(h, fuel, c, w.globals), EvalCond(h, Written, fuel, c, cd, cn, temps, w), true)
    decreases fuel, c, 3
  {
    if IsFused(c) {
      OpenMean(h, fuel, c, w.globals);
      EvalMeansPair(h, fuel, c, temps, w);
    } else {
      EvalMeans(h, fuel, c, Place(cd, cn, w));
    }
  }

  lemma {:induction false} EvalMeansIf(h: Host, fuel: nat, e: Expr, p: Place)
    requires e.EIf? && Plain(h, e, p)
    ensures Meets(MeanIf(h, fuel, e, p.w.globals), EvalIf(h, Written, fuel, e, p.dest, p.next, p.w), Definite(e))
    decreases fuel, e, 1
  {
    var Place(dest, next, w) := p;
    EvalMeansCond(h, fuel, e.cond, dest, next, next, w);
    var o, nt := EvalCond(h, Written, fuel, e.cond, dest, next, next, w), NextReg(e.cond, next);
    if o.Norm? {
      EvalMeans(h, fuel, e.thn, Place(dest, nt, o.w));
      EvalMeans(h, fuel, e.els, Place(dest, NextReg(e.thn, nt), o.w));
    }
  }

  lemma {:induction false} EvalMeansShort(h: Host, fuel: nat, e: Expr, p: Place)
    requires (e.EAnd? || e.EOr?) && Plain(h, e, p)
    ensures Meets(MeanShort(h, fuel, e, p.w.globals), EvalShort(h, Written, fuel, e, p.dest, p.next, p.w), Definite(e))
    decreases fuel, e, 1
  {
    EvalMeans(h, fuel, e.l, p);
    var o := EvalAt(h, Written, fuel, e.l, p);
    if o.Norm? { EvalMeans(h, fuel, e.r, Place(p.dest, NextReg(e.l, p.next), o.w)); }
  }

  lemma {:induction false} EvalMeansLoop(h: Host, fuel: nat, e: Expr, p: Place)
    requires e.ELoop? && Plain(h, e, p)
    ensures Meets(MeanLoop(h, fuel, e, p.w.globals), EvalLoop(h, Written, fuel, e, p.dest, p.next, p.w), Definite(e))
    decreases fuel, e, 1
  {
    var Place(dest, next, w) := p;
    var ELoop(c, body) := e;
    EvalMeansCond(h, fuel, c, next, next + 1, next, w);
    var o := EvalCond(h, Written, fuel, c, next, next + 1, next, w);
    if !Breaks(c) { NoBreakNoBrokeCond(h, Written, fuel, c, next, next + 1, next, w); }
    if o.Continued? {
      EvalMeansAgain(h, fuel, e, Place(dest, next, o.w));
    } else if o.Norm? && !Falsy(o.v) {
      var b := Place(dest, LoopBodyReg(c, next), o.w);
      EvalMeansSeq(h, fuel, body, b);
      if !AnyBreaks(body) { NoBreakNoBrokeSeq(h, Written, fuel, body, b); }
      var s := EvalSeq(h, Written, fuel, body, b.dest, b.next, b.w);
      if s.Norm? || s.Continued? { EvalMeansAgain(h, fuel, e, Place(dest, next, s.w)); }
    }
  }

  lemma {:induction false} EvalMeansAgain(h: Host, fuel: nat, e: Expr, p: Place)
    requires e.ELoop? && Plain(h, e, p)
    ensures Meets(MeanAgain(h, fuel, e, p.w.globals), EvalAgain(h, Written, fuel, e, p.dest, p.next, p.w), Definite(e))
    decreases fuel, e, 0
  {
    if fuel > 0 { EvalMeansLoop(h, fuel - 1, e, p); }
  }

  lemma {:induction false} EvalMeansSeq(h: Host, fuel: nat, es: seq<Expr>, p: Place)
    requires AllSettled(es) && FoldsAgree(h, AllFolds(es)) && NoLateAddSeq(es, p.dest, p.next)
    ensures Meets(MeanSeq(h, fuel, es, p.w.globals), EvalSeq(h, Written, fuel, es, p.dest, p.next, p.w), LastDefinite(es))
    decreases fuel, es, 0
  {
    if es != [] {
      EvalMeans(h, fuel, es[0], p);
      var o := EvalAt(h, Written, fuel, es[0], p);
      if o.Norm? && |es| > 1 { EvalMeansSeq(h, fuel, es[1..], Place(p.dest, NextReg(es[0], p.next), o.w)); }
    }
  }

  // ---- chunks ----

  /** The status a chunk stops in shows what its program means. */
  predicate Matches(r: Result, s: Status, definite: bool) {
    match r
    case Yields(v, g) => s.Returned? && s.globals == g && (definite ==> s.v == v)
    case Raises(e, g) => s == Failed(e, g)
    case _ => false
  }

  /** The programs that are compiled to what they mean: no jump back is too long, no
      literal is -32768, no sum with an immediate is computed in the last register,
      the value of no broken loop is used, and the immediates take part as values
      would. All but the last can be read off the program. */
  ghost predicate AsWritten(h: Host, prog: seq<Expr>) {
    && AllLoopsFit(prog) && !AnyMinLiteral(prog) && NoLateAddSeq(prog, RESULT_REG, RESULT_REG + 1)
    && AllSettled(prog) && FoldsAgree(h, AllFolds(prog))
  }

  /** The program's meaning, and its evaluation as the chunk reads it. */
  lemma ProgramMeans(h: Host, prog: seq<Expr>, regs: seq<Value>, g: Globals, fuel: nat)
    requires AsWritten(h, prog)
    ensures Meets(MeanSeq(h, fuel, prog, g), EvalProgram(h, Encoded, fuel, prog, World(g, regs)), LastDefinite(prog))
  {
    ReadingsAgreeSeq(h, fuel, prog, RESULT_REG, RESULT_REG + 1, World(g, regs));
    EvalMeansSeq(h, fuel, prog, Place(RESULT_REG, RESULT_REG + 1, World(g, regs)));
  }

  /** Main result. Whenever the chunk stops, with whatever registers it started, the
      program has a meaning within as many loop iterations as the chunk took steps,
      and the chunk's result, globals or error are that meaning. */
  lemma ChunkMeansProgram(h: Host, ch: Chunk, prog: seq<Expr>, regs: seq<Value>, g: Globals, n: nat)
    requires |regs| == REGISTERS && ProgramCode(h, ch, prog) && AsWritten(h, prog)
    requires !Run(Machine(h, ch), Start(regs, g), n).Running?
    ensures Matches(MeanSeq(h, n + 1, prog, g), Run(Machine(h, ch), Start(regs, g), n), LastDefinite(prog))
  {
    ChunkStopsSound(h, ch, prog, regs, g, n);
    ProgramMeans(h, prog, regs, g, n + 1);
  }

  /** And whenever the program has a meaning, the chunk stops and shows it. */
  lemma MeaningIsReached(h: Host, ch: Chunk, prog: seq<Expr>, regs: seq<Value>, g: Globals, fuel: nat) returns (n: nat)
    requires |regs| == REGISTERS && ProgramCode(h, ch, prog) && AsWritten(h, prog)
    requires !MeanSeq(h, fuel, prog, g).Exhausted?
    ensures Matches(MeanSeq(h, fuel, prog, g), Run(Machine(h, ch), Start(regs, g), n), LastDefinite(prog))
  {
    ProgramMeans(h, prog, regs, g, fuel);
    n := ChunkStopsComplete(h, ch, prog, regs, g, fuel);
  }

  /** Whatever the registers and globals the chunk starts with: when it stops, it
      shows what the trees mean; when they mean something, it stops. */
  ghost predicate Implements(h: Host, ch: Chunk, nodes: seq<Node>, definite: bool) {
    && (forall regs, g, n: nat | |regs| == REGISTERS && !Run(Machine(h, ch), Start(regs, g), n).Running? ::
          Matches(MeanNodes(h, n + 1, nodes, g), Run(Machine(h, ch), Start(regs, g), n), definite))
    && (forall regs, g, fuel: nat | |regs| == REGISTERS && !MeanNodes(h, fuel, nodes, g).Exhausted? ::
          Reaches(h, ch, nodes, definite, regs, g, fuel))
  }

  ghost predicate Reaches(h: Host, ch: Chunk, nodes: seq<Node>, definite: bool, regs: seq<Value>, g: Globals, fuel: nat)
    requires |regs| == REGISTERS
  {
    exists n: nat :: Matches(MeanNodes(h, fuel, nodes, g), Run(Machine(h, ch), Start(regs, g), n), definite)
  }

  lemma ChunkImplements(h: Host, ch: Chunk, nodes: seq<Node>)
    requires ElabProgram(nodes).Some? && ProgramCode(h, ch, ElabProgram(nodes).value) && AsWritten(h, ElabProgram(nodes).value)
    ensures Implements(h, ch, nodes, LastDefinite(ElabProgram(nodes).value))
  {
    var prog := ElabProgram(nodes).value;
    forall regs, g, n: nat | |regs| == REGISTERS && !Run(Machine(h, ch), Start(regs, g), n).Running?
      ensures Matches(MeanNodes(h, n + 1, nodes, g), Run(Machine(h, ch), Start(regs, g), n), LastDefinite(prog))
    {
      ElabProgramMeans(h, n + 1, nodes, g);
      ChunkMeansProgram(h, ch, prog, regs, g, n);
    }
    forall regs, g, fuel: nat | |regs| == REGISTERS && !MeanNodes(h, fuel, nodes, g).Exhausted?
      ensures Reaches(h, ch, nodes, LastDefinite(prog), regs, g, fuel)
    {
      ElabProgramMeans(h, fuel, nodes, g);
      var n := MeaningIsReached(h, ch, prog, regs, g, fuel);
    }
  }

  /** The literal -32768 alone is already compiled to a different result. */
  lemma MinLiteralMiscompiled(h: Host, ch: Chunk, regs: seq<Value>, g: Globals) returns (n: nat)
    requires |regs| == REGISTERS && ProgramCode(h, ch, [EInt(MIN_IMMEDIATE)])
    ensures MeanSeq(h, 0, [EInt(MIN_IMMEDIATE)], g) == Yields(Int(-32768), g)
    ensures Run(Machine(h, ch), Start(regs, g), n) == Returned(Int(32768), g)
  {
    var prog := [EInt(MIN_IMMEDIATE)];
    OpenEval(h, Encoded, 0, prog[0], RESULT_REG, RESULT_REG + 1, World(g, regs));
    OpenMean(h, 0, prog[0], g);
    OpenSizes(prog[0]);
    assert AllLoopsFit(prog[1..]);
    n := ChunkStopsComplete(h, ch, prog, regs, g, 0);
  }
}
