/** The small programs that do not do what they mean are accepted by the compiler. */
module Witnesses {
  import opened Wrappers
  import opened Ast
  import opened NanBox
  import opened Semantics
  import opened Bytecode
  import opened Layout
  import opened Settled
  import opened Compiler
  import opened Immediates

  /** `(loop true (break))` */
  function BrokenLoopTree(): Node {
    List([Symbol("loop"), BoolLiteral(true), List([Symbol("break")])])
  }

  lemma BrokenLoopElab()
    ensures Elab(BrokenLoopTree()) == Some(BrokenLoop())
  {
    var t, stop := BrokenLoopTree(), List([Symbol("break")]);
    OpenElab(t);
    OpenElab(BoolLiteral(true));
    OpenElab(stop);
    assert HeadOf("break") == HBreak && Elab(stop) == Some(EBreak);
    AllElaborated([stop], [EBreak]);
    assert t.children[2..] == [stop];
  }

  lemma BrokenLoopFits(next: nat, pc: nat, k: nat, depth: nat)
    requires next < 255 && depth + 1 < MAX_DEPTH
    ensures Fits(BrokenLoop(), next, pc, k, depth, false)
  {
    var body := [EBreak];
    OpenFits(BrokenLoop(), next, pc, k, depth, false);
    OpenFits(EBool(true), next + 1, pc, k, depth + 1, true);
    OpenFits(EBreak, LoopBodyReg(EBool(true), next), pc + 2, k, depth + 1, true);
    OpenSizes(EBool(true));
    OpenSizes(EBreak);
    OpenBreaks(EBool(true), pc);
    OpenBreaks(EBreak, pc + 2);
    assert body[1..] == [] && SizeSeq(body) == 2 && LoopBreaks(EBool(true), body, pc) == [pc + 2];
    assert FitsSeq(body, LoopBodyReg(EBool(true), next), pc + 2, k, depth + 1, true);
  }

  lemma TwoFit(a: Expr, b: Expr)
    requires Fits(a, 2, 0, 0, 0, false) && Fits(b, NextReg(a, 2), Size(a), Consts(a), 0, false)
    ensures ProgramFits([a, b])
  {
    assert [a, b][1..] == [b] && [b][1..] == [];
    assert FitsSeq([b], NextReg(a, 2), 0 + Size(a), 0 + Consts(a), 0, false);
  }

  /** A folded operation on one leaf. */
  lemma FoldFits(op: ArithOp, a: Expr, imm: int, next: nat, pc: nat, k: nat)
    requires (op == Add || op == Sub) && (a.EFloat? || a.EGlobal?) && IsImmediate(imm) && k <= MAX_CONST
    ensures var e := EArith(op, a, [EInt(imm)]);
            && Fits(e, next, pc, k, 0, false) && NextReg(e, next) == next && Size(e) == 2 && Consts(e) == 1
  {
    var e := EArith(op, a, [EInt(imm)]);
    OpenFits(e, next, pc, k, 0, false);
    OpenFits(a, next, pc, k, 1, false);
    OpenSizes(e);
    OpenSizes(a);
  }

  /** `7 (= x (loop true (break)))` */
  function StaleTree(): seq<Node> {
    [IntLiteral(7), List([Symbol("="), Symbol("x"), BrokenLoopTree()])]
  }

  lemma StaleElab()
    ensures ElabProgram(StaleTree()) == Some(StaleProgram())
  {
    var ts, prog := StaleTree(), StaleProgram();
    BrokenLoopElab();
    LiteralElab(ts[0]);
    OpenElab(ts[1]);
    assert HeadOf("=") == HAssign && Elab(ts[1]) == Some(prog[1]);
    AllElaborated(ts, prog);
  }

  lemma StoreFits(next: nat, pc: nat)
    requires next < 255
    ensures Fits(EAssign("x", BrokenLoop()), next, pc, 0, 0, false)
  {
    OpenFits(EAssign("x", BrokenLoop()), next, pc, 0, 0, false);
    BrokenLoopFits(next, pc, 0, 1);
    OpenSizes(BrokenLoop());
    OpenSizes(EBool(true));
    OpenSizes(EBreak);
    assert [EBreak][1..] == [];
  }

  lemma StaleAccepted()
    ensures ElabProgram(StaleTree()) == Some(StaleProgram()) && ProgramFits(StaleProgram())
  {
    var prog := StaleProgram();
    StaleElab();
    OpenFits(EInt(7), 2, 0, 0, 0, false);
    OpenSizes(EInt(7));
    StoreFits(2, 1);
    TwoFit(prog[0], prog[1]);
    assert prog == [prog[0], prog[1]];
  }

  /** `(+ f 7) (+ 0 (loop true (break)))` */
  function ScratchTree(f: Word): seq<Node> {
    [List([Symbol("+"), FloatLiteral(f), IntLiteral(7)]), List([Symbol("+"), IntLiteral(0), BrokenLoopTree()])]
  }

  lemma ScratchElab(f: Word)
    ensures ElabProgram(ScratchTree(f)) == Some(ScratchProgram(f))
  {
    var ts, prog := ScratchTree(f), ScratchProgram(f);
    BrokenLoopElab();
    OpenElab(ts[0]);
    OpenElab(FloatLiteral(f));
    LiteralElab(IntLiteral(7));
    AllElaborated([IntLiteral(7)], [EInt(7)]);
    assert ts[0].children[2..] == [IntLiteral(7)];
    OpenElab(ts[1]);
    LiteralElab(IntLiteral(0));
    AllElaborated([BrokenLoopTree()], [BrokenLoop()]);
    assert ts[1].children[2..] == [BrokenLoopTree()];
    AllElaborated(ts, prog);
  }

  lemma SumWithLoopFits(next: nat, pc: nat, k: nat)
    requires next < 254
    ensures Fits(EArith(Add, EInt(0), [BrokenLoop()]), next, pc, k, 0, false)
  {
    var e := EArith(Add, EInt(0), [BrokenLoop()]);
    OpenFits(e, next, pc, k, 0, false);
    OpenFits(EInt(0), next, pc, k, 1, false);
    OpenSizes(EInt(0));
    BrokenLoopFits(next + 1, pc + 1, k, 1);
    assert e.rest[1..] == [] && FitsOperands(e.rest, next, next, pc + 1, k, 1, false);
  }

  lemma ScratchAccepted(f: Word)
    ensures ElabProgram(ScratchTree(f)) == Some(ScratchProgram(f)) && ProgramFits(ScratchProgram(f))
  {
    var prog := ScratchProgram(f);
    ScratchElab(f);
    FoldFits(Add, EFloat(f), 7, 2, 0, 0);
    SumWithLoopFits(2, 2, 1);
    TwoFit(prog[0], prog[1]);
    assert prog == [prog[0], prog[1]];
  }

  /** `(- x imm)` */
  lemma DifferenceAccepted(imm: int)
    requires IsImmediate(imm)
    ensures ElabProgram([List([Symbol("-"), Symbol("x"), IntLiteral(imm)])]) == Some(Difference(imm)) && ProgramFits(Difference(imm))
  {
    var t, prog := List([Symbol("-"), Symbol("x"), IntLiteral(imm)]), Difference(imm);
    OpenElab(t);
    OpenElab(Symbol("x"));
    LiteralElab(IntLiteral(imm));
    AllElaborated([IntLiteral(imm)], [EInt(imm)]);
    assert t.children[2..] == [IntLiteral(imm)];
    AllElaborated([t], prog);
    FoldFits(Sub, EGlobal("x"), imm, 2, 0, 0);
    assert prog[1..] == [];
  }
}
