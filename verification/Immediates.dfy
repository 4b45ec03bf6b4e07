/** Sums and differences with an immediate operand that do not mean what they say:
    ADDI without a next register for its immediate, the register it does use, and
    SUBI, which looks at no type. */
module Immediates {
  import opened Wrappers
  import opened Ast
  import opened NanBox
  import opened Semantics
  import opened Bytecode
  import opened Layout
  import opened Evaluation
  import opened Simulation
  import opened Settled
  import opened Meaning
  import opened Correctness
  import opened Compiler

  // ---- one operand, one expression ----

  lemma OneOperandEval(h: Host, acc: Value, op: ArithOp, e: Expr, dest: nat, cur: nat, base: nat, w: World)
    ensures EvalOperands(h, Encoded, 0, op, acc, [e], dest, cur, base, w)
         == ArithOutcome(h, op, dest, acc, Eval(h, Encoded, 0, e, cur, cur + 1, w))
  {
    assert [e][1..] == [];
  }

  lemma OneOperandMeans(h: Host, acc: Value, op: ArithOp, e: Expr, g: Globals)
    ensures MeanOperands(h, 0, op, acc, [e], g) == ArithResult(h, op, acc, Mean(h, 0, e, g))
  {
    assert [e][1..] == [];
  }

  // ---- ADDI in the last register ----

  /** In register 254 ADDI leaves the sum with the value there exactly when the inline
      code does, for an integer, and otherwise when the immediate added to itself
      happens to be that sum. */
  lemma LateAddExactly(m: Machine, st: Vm, imm: int)
    requires |st.regs| == REGISTERS
    ensures AddImmediate(m, st, 254, imm) == SetResult(st, 254, m.h.arith(Add, st.regs[254], Int(imm))) <==>
            m.h.arith(Add, st.regs[254], Int(imm)) ==
              if st.regs[254].Int? then m.h.immediate(Add, st.regs[254], imm) else m.h.arith(Add, Int(imm), Int(imm))
  {
    var sum := if st.regs[254].Int? then m.h.immediate(Add, st.regs[254], imm) else m.h.arith(Add, Int(imm), Int(imm));
    var right := m.h.arith(Add, st.regs[254], Int(imm));
    if sum.Ok? {
      assert st.regs[254 := Int(imm)][254 := sum.v] == st.regs[254 := sum.v];
      if right.Ok? { assert st.regs[254 := sum.v][254] == sum.v && st.regs[254 := right.v][254] == right.v; }
    }
  }

  /** `(+ 0 (+ 0 ... (+ x 1)))` with `n` zeros. */
  function Nest(n: nat): Expr {
    if n == 0 then EArith(Add, EGlobal("x"), [EInt(1)]) else EArith(Add, EInt(0), [Nest(n - 1)])
  }

  function NestTree(n: nat): Node {
    if n == 0 then List([Symbol("+"), Symbol("x"), IntLiteral(1)])
    else List([Symbol("+"), IntLiteral(0), NestTree(n - 1)])
  }

  lemma {:induction false} NestElab(n: nat)
    ensures Elab(NestTree(n)) == Some(Nest(n))
  {
    var t := NestTree(n);
    OpenElab(t);
    if n == 0 {
      OpenElab(Symbol("x"));
      LiteralElab(IntLiteral(1));
      AllElaborated([IntLiteral(1)], [EInt(1)]);
      assert t.children[2..] == [IntLiteral(1)];
    } else {
      NestElab(n - 1);
      LiteralElab(IntLiteral(0));
      AllElaborated([NestTree(n - 1)], [Nest(n - 1)]);
      assert t.children[2..] == [NestTree(n - 1)];
    }
  }

  lemma {:induction false} NestFits(n: nat, next: nat, pc: nat, k: nat, depth: nat)
    requires next + n <= 255 && k <= MAX_CONST && depth + n + 1 < MAX_DEPTH
    ensures Fits(Nest(n), next, pc, k, depth, false)
  {
    OpenFits(Nest(n), next, pc, k, depth, false);
    if n == 0 {
      OpenFits(EGlobal("x"), next, pc, k, depth + 1, false);
    } else {
      OpenFits(EInt(0), next, pc, k, depth + 1, false);
      OpenSizes(EInt(0));
      NestFits(n - 1, next + 1, pc + 1, k, depth + 1);
      var e := Nest(n);
      assert e.rest == [Nest(n - 1)] && e.rest[1..] == [];
      assert FitsOperands(e.rest, next, next, pc + 1, k, depth + 1, false);
    }
  }

  lemma {:induction false} NestHasNoLoops(n: nat)
    ensures LoopsFit(Nest(n))
  {
    OpenSizes(Nest(n));
    OpenSizes(EInt(0));
    OpenSizes(EInt(1));
    OpenSizes(EGlobal("x"));
    assert [EInt(1)][1..] == [];
    if n > 0 {
      NestHasNoLoops(n - 1);
      assert [Nest(n - 1)][1..] == [] && AllLoopsFit([Nest(n - 1)]);
    }
  }

  /** The sum `(+ x 1)` is computed `n` registers after the nest. */
  lemma {:induction false} NestIsLate(n: nat, dest: nat)
    ensures NoLateAdd(Nest(n), dest, dest + 1) <==> dest + n < 254
  {
    if n > 0 {
      OpenSizes(EInt(0));
      NestIsLate(n - 1, dest + 1);
      var rest := [Nest(n - 1)];
      assert Nest(n).rest == rest && rest[1..] == [] && !IsFoldable(Add, rest);
      assert NoLateAddOperands(rest, dest + 1, dest + 1) == NoLateAdd(Nest(n - 1), dest + 1, dest + 2);
    }
  }

  lemma NestAccepted(n: nat)
    requires n <= 253
    ensures ElabProgram([NestTree(n)]) == Some([Nest(n)]) && ProgramFits([Nest(n)]) && AllLoopsFit([Nest(n)])
  {
    NestElab(n);
    AllElaborated([NestTree(n)], [Nest(n)]);
    NestFits(n, RESULT_REG + 1, 0, 0, 0);
    NestHasNoLoops(n);
    assert [Nest(n)][1..] == [];
  }

  /** With 253 zeros the compiler accepts it, and the sum is in the last register. */
  lemma LateAddAccepted(n: nat)
    requires n == 253
    ensures ElabProgram([NestTree(n)]) == Some([Nest(n)]) && ProgramFits([Nest(n)]) && AllLoopsFit([Nest(n)])
    ensures !NoLateAddSeq([Nest(n)], RESULT_REG, RESULT_REG + 1)
  {
    NestAccepted(n);
    NestIsLate(n, RESULT_REG);
  }

  /** Small integers are added as integers. */
  predicate AddsOnes(h: Host) {
    h.arith(Add, Int(1), Int(1)) == Ok(Int(2)) && h.arith(Add, Int(0), Int(2)) == Ok(Int(2))
  }

  lemma HelperAddsOnes(d: Doubles, symbolId: string -> SymbolId)
    ensures AddsOnes(HelperHost(d, symbolId))
  {
  }

  predicate NotAnInteger(h: Host, g: Globals) {
    h.symbolId("x") in g && !g[h.symbolId("x")].Int?
  }

  lemma {:induction false} NestEval(h: Host, n: nat, dest: nat, w: World)
    requires AddsOnes(h) && NotAnInteger(h, w.globals) && dest + n == 254
    ensures var o := Eval(h, Encoded, 0, Nest(n), dest, dest + 1, w); o.Norm? && o.v == Int(2) && o.w.globals == w.globals
  {
    OpenEval(h, Encoded, 0, Nest(n), dest, dest + 1, w);
    if n == 0 {
      OpenEval(h, Encoded, 0, EGlobal("x"), dest, dest + 1, w);
    } else {
      OpenEval(h, Encoded, 0, EInt(0), dest, dest + 1, w);
      OpenSizes(EInt(0));
      var w1 := Hold(w, dest, Int(0));
      NestEval(h, n - 1, dest + 1, w1);
      OneOperandEval(h, Int(0), Add, Nest(n - 1), dest, dest + 1, dest + 1, w1);
    }
  }

  /** What it means: an error if `x` cannot be added to. */
  lemma {:induction false} NestMeans(h: Host, n: nat, g: Globals)
    requires h.symbolId("x") in g && h.arith(Add, g[h.symbolId("x")], Int(1)).Error?
    ensures Mean(h, 0, Nest(n), g) == Raises(h.arith(Add, g[h.symbolId("x")], Int(1)).e, g)
  {
    OpenMean(h, 0, Nest(n), g);
    if n == 0 {
      OpenMean(h, 0, EGlobal("x"), g);
      OpenMean(h, 0, EInt(1), g);
      OneOperandMeans(h, g[h.symbolId("x")], Add, EInt(1), g);
    } else {
      OpenMean(h, 0, EInt(0), g);
      NestMeans(h, n - 1, g);
      OneOperandMeans(h, Int(0), Add, Nest(n - 1), g);
    }
  }

  /** The chunk returns 2 for every `x` that is not an integer. */
  lemma LateAddIgnoresItsOperand(h: Host, ch: Chunk, zeros: nat, regs: seq<Value>, g: Globals) returns (n: nat)
    requires zeros == 253 && |regs| == REGISTERS && ProgramCode(h, ch, [Nest(zeros)]) && AddsOnes(h) && NotAnInteger(h, g)
    ensures Run(Machine(h, ch), Start(regs, g), n) == Returned(Int(2), g)
  {
    var prog := [Nest(zeros)];
    NestEval(h, zeros, RESULT_REG, World(g, regs));
    NestHasNoLoops(zeros);
    assert prog[1..] == [] && AllLoopsFit(prog);
    assert EvalSeq(h, Encoded, 0, prog, RESULT_REG, RESULT_REG + 1, World(g, regs))
        == Eval(h, Encoded, 0, Nest(zeros), RESULT_REG, RESULT_REG + 1, World(g, regs));
    n := ChunkStopsComplete(h, ch, prog, regs, g, 0);
  }

  /** So with the runtime's helpers, `null` is added to, where the program raises an
      error. */
  lemma LateAddMiscompiled(d: Doubles, symbolId: string -> SymbolId, ch: Chunk, zeros: nat, regs: seq<Value>, g: Globals) returns (n: nat)
    requires zeros == 253 && |regs| == REGISTERS && ProgramCode(HelperHost(d, symbolId), ch, [Nest(zeros)])
    requires symbolId("x") in g && g[symbolId("x")] == Null
    ensures MeanSeq(HelperHost(d, symbolId), 0, [Nest(zeros)], g) == Raises(TypeMismatch, g)
    ensures Run(Machine(HelperHost(d, symbolId), ch), Start(regs, g), n) == Returned(Int(2), g)
  {
    var h := HelperHost(d, symbolId);
    HelperAddsOnes(d, symbolId);
    NestMeans(h, zeros, g);
    n := LateAddIgnoresItsOperand(h, ch, zeros, regs, g);
  }

  // ---- the register ADDI uses ----

  /** `(+ f 7) (+ 0 (loop true (break)))` for a double `f`: the second sum adds what
      the broken loop's destination held, which is the 7 that the first left there. */
  function ScratchProgram(f: Word): seq<Expr> {
    [EArith(Add, EFloat(f), [EInt(7)]), EArith(Add, EInt(0), [BrokenLoop()])]
  }

  /** The first sum leaves its immediate in register 2. */
  lemma FirstSumEval(h: Host, f: Word, w: World)
    requires |w.regs| == REGISTERS && h.arith(Add, Float(f), Int(7)).Ok?
    ensures var o := Eval(h, Encoded, 0, ScratchProgram(f)[0], 1, 2, w);
            o.Norm? && |o.w.regs| == REGISTERS && o.w.regs[2] == Int(7) && o.w.globals == w.globals
  {
    OpenEval(h, Encoded, 0, ScratchProgram(f)[0], 1, 2, w);
    OpenEval(h, Encoded, 0, EFloat(f), 1, 2, w);
  }

  lemma SecondSumEval(h: Host, f: Word, w: World)
    requires |w.regs| == REGISTERS && w.regs[2] == Int(7) && h.arith(Add, Int(0), Int(7)) == Ok(Int(7))
    ensures var o := Eval(h, Encoded, 0, ScratchProgram(f)[1], 1, 2, w);
            o.Norm? && o.v == Int(7) && o.w.globals == w.globals
  {
    var w1, e := Hold(w, 1, Int(0)), EArith(Add, EInt(0), [BrokenLoop()]);
    assert ScratchProgram(f)[1] == e && !IsFoldable(Add, e.rest);
    OpenEval(h, Encoded, 0, e, 1, 2, w);
    OpenEval(h, Encoded, 0, EInt(0), 1, 2, w);
    OpenSizes(EInt(0));
    BrokenLoopKeepsDestination(h, Encoded, 0, 2, 3, w1);
    OneOperandEval(h, Int(0), Add, BrokenLoop(), 1, 2, 2, w1);
    assert Eval(h, Encoded, 0, EInt(0), 1, 2, w) == Norm(Int(0), w1) && Held(w1, 2) == Int(7);
  }

  lemma ScratchEval(h: Host, f: Word, regs: seq<Value>, g: Globals)
    requires |regs| == REGISTERS && h.arith(Add, Float(f), Int(7)).Ok? && h.arith(Add, Int(0), Int(7)) == Ok(Int(7))
    ensures var o := EvalProgram(h, Encoded, 0, ScratchProgram(f), World(g, regs));
            o.Norm? && o.v == Int(7) && o.w.globals == g
  {
    var prog, w := ScratchProgram(f), World(g, regs);
    OpenSizes(prog[0]);
    FirstSumEval(h, f, w);
    var w1 := Eval(h, Encoded, 0, prog[0], 1, 2, w).w;
    SecondSumEval(h, f, w1);
    assert NextReg(prog[0], 2) == 2 && prog[1..] == [prog[1]];
    assert EvalSeq(h, Encoded, 0, [prog[1]], 1, 2, w1) == Eval(h, Encoded, 0, prog[1], 1, 2, w1);
  }

  lemma ScratchProgramFits(f: Word)
    ensures AllLoopsFit(ScratchProgram(f))
  {
    var prog := ScratchProgram(f);
    StaleProgramFits();
    OpenSizes(StaleProgram()[1]);
    OpenSizes(prog[0]);
    OpenSizes(prog[1]);
    OpenSizes(EFloat(f));
    OpenSizes(EInt(7));
    OpenSizes(EInt(0));
    assert [EInt(7)][1..] == [] && [BrokenLoop()][1..] == [] && prog[1..] == [prog[1]] && prog[1..][1..] == [];
    assert StaleProgram()[1..][0] == StaleProgram()[1];
  }

  /** The program means an addition to `null`; its chunk returns 7. */
  lemma ScratchRegisterShows(h: Host, ch: Chunk, f: Word, regs: seq<Value>, g: Globals) returns (n: nat)
    requires |regs| == REGISTERS && ProgramCode(h, ch, ScratchProgram(f))
    requires h.arith(Add, Float(f), Int(7)).Ok? && h.arith(Add, Int(0), Int(7)) == Ok(Int(7))
    ensures MeanSeq(h, 0, ScratchProgram(f), g) == Computes(h.arith(Add, Int(0), Null), g)
    ensures Run(Machine(h, ch), Start(regs, g), n) == Returned(Int(7), g)
  {
    ScratchMeans(h, f, g);
    ScratchEval(h, f, regs, g);
    ScratchProgramFits(f);
    n := ChunkStopsComplete(h, ch, ScratchProgram(f), regs, g, 0);
  }

  lemma ScratchMeans(h: Host, f: Word, g: Globals)
    requires h.arith(Add, Float(f), Int(7)).Ok?
    ensures MeanSeq(h, 0, ScratchProgram(f), g) == Computes(h.arith(Add, Int(0), Null), g)
  {
    var prog := ScratchProgram(f);
    OpenMean(h, 0, prog[0], g);
    OpenMean(h, 0, EFloat(f), g);
    OpenMean(h, 0, EInt(7), g);
    OneOperandMeans(h, Float(f), Add, EInt(7), g);
    OpenMean(h, 0, prog[1], g);
    OpenMean(h, 0, EInt(0), g);
    OneOperandMeans(h, Int(0), Add, BrokenLoop(), g);
    BrokenLoopMeans(h, 0, g);
    assert prog[1..] == [prog[1]];
  }

  // ---- SUBI ----

  /** `(- x imm)` */
  function Difference(imm: int): seq<Expr> {
    [EArith(Sub, EGlobal("x"), [EInt(imm)])]
  }

  lemma DifferenceMeans(h: Host, imm: int, g: Globals)
    requires -32768 < imm <= 32767 && h.symbolId("x") in g
    ensures MeanSeq(h, 0, Difference(imm), g) == Computes(h.arith(Sub, g[h.symbolId("x")], Int(imm)), g)
  {
    var e := Difference(imm)[0];
    OpenMean(h, 0, e, g);
    OpenMean(h, 0, EGlobal("x"), g);
    OpenMean(h, 0, EInt(imm), g);
    OneOperandMeans(h, g[h.symbolId("x")], Sub, EInt(imm), g);
  }

  lemma DifferenceEval(h: Host, imm: int, regs: seq<Value>, g: Globals)
    requires -32768 < imm <= 32767 && h.symbolId("x") in g && |regs| == REGISTERS
    ensures var o, c := EvalProgram(h, Encoded, 0, Difference(imm), World(g, regs)), h.immediate(Sub, g[h.symbolId("x")], imm);
            if c.Ok? then o.Norm? && o.v == c.v && o.w.globals == g else o == Fault(c.e, g)
    ensures AllLoopsFit(Difference(imm))
  {
    var e, w := Difference(imm)[0], World(g, regs);
    OpenEval(h, Encoded, 0, e, RESULT_REG, RESULT_REG + 1, w);
    OpenEval(h, Encoded, 0, EGlobal("x"), RESULT_REG, RESULT_REG + 1, w);
    OpenSizes(e);
    OpenSizes(EGlobal("x"));
    OpenSizes(EInt(imm));
    var rest, prog := [EInt(imm)], Difference(imm);
    assert e.rest == rest && rest[1..] == [] && prog[1..] == [];
    assert AllLoopsFit(rest) && EvalSeq(h, Encoded, 0, prog, RESULT_REG, RESULT_REG + 1, w) == Eval(h, Encoded, 0, e, RESULT_REG, RESULT_REG + 1, w);
  }

  /** The chunk of `(- x imm)` shows its meaning exactly when SUBI, which looks at no
      type, leaves the difference. */
  lemma SubImmediateExactly(h: Host, ch: Chunk, imm: int, regs: seq<Value>, g: Globals) returns (n: nat)
    requires -32768 < imm <= 32767 && h.symbolId("x") in g
    requires |regs| == REGISTERS && ProgramCode(h, ch, Difference(imm))
    ensures !Run(Machine(h, ch), Start(regs, g), n).Running?
    ensures Matches(MeanSeq(h, 0, Difference(imm), g), Run(Machine(h, ch), Start(regs, g), n), true) <==>
            h.immediate(Sub, g[h.symbolId("x")], imm) == h.arith(Sub, g[h.symbolId("x")], Int(imm))
  {
    DifferenceMeans(h, imm, g);
    DifferenceEval(h, imm, regs, g);
    n := ChunkStopsComplete(h, ch, Difference(imm), regs, g, 0);
  }
}
