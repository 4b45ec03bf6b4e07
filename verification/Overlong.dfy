/** Loops longer than a LOOP instruction can jump back: the compiler does not
    measure that distance. */
module Overlong {
  import opened Wrappers
  import opened Ast
  import opened Semantics
  import opened Bytecode
  import opened Layout
  import opened Compiler
  import opened Closure

  /** Where the LOOP instruction of a loop stands. */
  function LoopAt(e: Expr, pc: nat): nat
    requires e.ELoop?
  {
    pc + Size(e.cond) + 1 + SizeSeq(e.body)
  }

  /** The loop goes round exactly when the distance fits. */
  lemma LoopReturnsExactly(h: Host, ch: Chunk, e: Expr, dest: Reg, next: nat, pc: nat, k: nat)
    requires e.ELoop? && CodeForLoop(h, ch, e, dest, next, pc, k)
    ensures LoopAt(e, pc) < |ch.code|
    ensures Successors(ch.code[LoopAt(e, pc)], LoopAt(e, pc)) == [pc as int] <==> LoopOffset(e.cond, e.body) <= 32768
  {
    LoopGoesTo(h, ch, e, dest, next, pc, k);
    ReadBackExactly(LoopOffset(e.cond, e.body));
  }

  lemma ReadBackExactly(offset: nat)
    ensures SBxReadBack(offset) == offset <==> offset <= 32768
  {
  }

  /** So does `continue`. */
  lemma ContinueReturnsExactly(h: Host, ch: Chunk, dest: nat, next: nat, pc: nat, k: nat, lp: LoopCtx)
    requires CodeFor(h, ch, EContinue, dest, next, pc, k, lp)
    ensures !lp.NoLoop? && pc < |ch.code|
    ensures Successors(ch.code[pc], pc) == [lp.start as int] <==> pc - lp.start + 1 <= 32768
  {
    OpenCode(h, ch, EContinue, dest, next, pc, k, lp);
    ReadBackExactly(pc - lp.start + 1);
  }

  // ---- a program the compiler accepts ----

  function Ones(n: nat): seq<Expr> {
    seq(n, _ => EInt(1))
  }

  /** `(loop (+ 1 1 ... 1))` with `n` ones after the first. */
  function SumLoopTree(n: nat): Node {
    List([Symbol("loop"), List([Symbol("+"), IntLiteral(1)] + seq(n, _ => IntLiteral(1)))])
  }

  function Sum(n: nat): Expr {
    EArith(Add, EInt(1), Ones(n))
  }

  function SumLoop(n: nat): Expr {
    ELoop(Sum(n), [])
  }

  lemma {:induction false} OnesAreLong(n: nat, pc: nat)
    ensures SizeOperands(Ones(n)) == 2 * n && BreakSlotsOperands(Ones(n), pc) == []
  {
    if n > 0 {
      OpenSizes(EInt(1));
      OpenBreaks(EInt(1), pc);
      assert Ones(n)[1..] == Ones(n - 1);
      OnesAreLong(n - 1, pc + 2);
    }
  }

  lemma {:induction false} OnesFit(n: nat, cur: nat, base: nat, pc: nat, k: nat, depth: nat, inLoop: bool)
    requires cur < 255 && base < 255 && depth < MAX_DEPTH
    ensures FitsOperands(Ones(n), cur, base, pc, k, depth, inLoop)
  {
    if n > 0 {
      OpenSizes(EInt(1));
      OpenFits(EInt(1), cur + 1, pc, k, depth, inLoop);
      assert Ones(n)[1..] == Ones(n - 1);
      OnesFit(n - 1, base, base, pc + 2, k, depth, inLoop);
    }
  }

  lemma SumIsLong(n: nat, pc: nat)
    requires n > 1
    ensures Size(Sum(n)) == 1 + 2 * n && BreakSlots(Sum(n), pc) == []
  {
    OpenSizes(EInt(1));
    OpenSizes(Sum(n));
    OpenBreaks(EInt(1), pc);
    OpenBreaks(Sum(n), pc);
    OnesAreLong(n, pc + 1);
  }

  lemma SumFits(n: nat, next: nat, pc: nat, k: nat, depth: nat)
    requires n > 1 && next < 255 && depth + 1 < MAX_DEPTH
    ensures Fits(Sum(n), next, pc, k, depth, true)
  {
    OpenSizes(EInt(1));
    OpenFits(EInt(1), next, pc, k, depth + 1, true);
    OpenFits(Sum(n), next, pc, k, depth, true);
    OnesFit(n, next, next, pc + 1, k, depth + 1, true);
  }

  lemma SumLoopFits(n: nat)
    requires n > 1
    ensures ProgramFits([SumLoop(n)])
    ensures LoopOffset(Sum(n), []) == 2 * n + 3 && Size(SumLoop(n)) == 2 * n + 4
    ensures AllLoopsFit([SumLoop(n)]) ==> 2 * n + 3 <= 32768
  {
    var e, next := SumLoop(n), RESULT_REG + 1;
    SumIsLong(n, 0);
    SumFits(n, next + 1, 0, 0, 1);
    OpenSizes(e);
    OpenFits(e, next, 0, 0, 0, false);
    assert LoopBreaks(Sum(n), [], 0) == [];
    assert FitsLoop(e, next, 0, 0, 1);
    assert [e][1..] == [];
  }

  lemma SumLoopElab(n: nat)
    requires n > 0
    ensures ElabProgram([SumLoopTree(n)]) == Some([SumLoop(n)])
  {
    var ones: seq<Node> := seq(n, _ => IntLiteral(1));
    var sum := List([Symbol("+"), IntLiteral(1)] + ones);
    forall j | 0 <= j < n ensures Elab(ones[j]) == Some(Ones(n)[j]) { LiteralElab(ones[j]); }
    AllElaborated(ones, Ones(n));
    LiteralElab(IntLiteral(1));
    assert sum.children[2..] == ones;
    OpenElab(sum);
    OpenElab(SumLoopTree(n));
    assert SumLoopTree(n).children[2..] == [];
    AllElaborated([SumLoopTree(n)], [SumLoop(n)]);
  }

  /** Such a tree compiles, though with 20001 ones the distance does not fit. */
  lemma OverlongLoopAccepted()
    ensures ElabProgram([SumLoopTree(20000)]) == Some([SumLoop(20000)]) && ProgramFits([SumLoop(20000)])
    ensures LoopOffset(Sum(20000), []) == 40003 && !AllLoopsFit([SumLoop(20000)])
  {
    SumLoopElab(20000);
    SumLoopFits(20000);
  }

  lemma OneExprCode(h: Host, ch: Chunk, e: Expr)
    requires e.ELoop? && ProgramCode(h, ch, [e])
    ensures CodeForLoop(h, ch, e, RESULT_REG, RESULT_REG + 1, 0, 0) && |ch.code| == Size(e) + 1
  {
    var prog := [e];
    assert prog[0] == e && prog[1..] == [];
    OpenCode(h, ch, e, RESULT_REG, RESULT_REG + 1, 0, 0, NoLoop);
    assert CodeFor(h, ch, prog[0], RESULT_REG, RESULT_REG + 1, 0, 0, NoLoop);
    assert SizeSeq(prog) == Size(e) + SizeSeq(prog[1..]);
  }

  lemma LoopGoesTo(h: Host, ch: Chunk, e: Expr, dest: Reg, next: nat, pc: nat, k: nat)
    requires e.ELoop? && CodeForLoop(h, ch, e, dest, next, pc, k)
    ensures LoopAt(e, pc) < |ch.code|
    ensures Successors(ch.code[LoopAt(e, pc)], LoopAt(e, pc)) == [LoopAt(e, pc) + 1 - SBxReadBack(LoopOffset(e.cond, e.body))]
  {
  }

  /** With 16384 ones and more, LOOP leads out of the chunk. */
  lemma OverlongLoopLeavesItsChunk(h: Host, ch: Chunk, n: nat)
    requires 16383 <= n < 32765 && ProgramCode(h, ch, [SumLoop(n)])
    ensures LoopAt(SumLoop(n), 0) < |ch.code| < 65536
    ensures Successors(ch.code[LoopAt(SumLoop(n), 0)], LoopAt(SumLoop(n), 0)) == [65536]
  {
    SumLoopFits(n);
    SumIsLong(n, 0);
    OneExprCode(h, ch, SumLoop(n));
    LoopGoesTo(h, ch, SumLoop(n), RESULT_REG, RESULT_REG + 1, 0, 0);
    WrappedReadBack(2 * n + 3);
    assert SumLoop(n).cond == Sum(n) && SumLoop(n).body == [] && SizeSeq([]) == 0;
    assert LoopAt(SumLoop(n), 0) == 2 * n + 2;
  }

  lemma WrappedReadBack(offset: nat)
    requires 32768 < offset <= 65536 + 32768
    ensures SBxReadBack(offset) == offset - 65536
  {
  }
}
