/** Where emitted code can go and which registers it can change, read off the code
    without running it. */
module Closure {
  import opened Semantics
  import opened Bytecode
  import opened Layout

  /** The registers an instruction may assign. */
  function Assigned(i: Ins): set<nat> {
    match i
    case LoadK(a, _) => {a}
    case LoadNull(a) => {a}
    case LoadBool(a, _) => {a}
    case LoadInt(a, _) => {a}
    case BinOp(_, a, _, _) => {a}
    case AddI(a, _) => {a, Scratch(a)}
    case SubI(a, _) => {a}
    case Cmp(_, a, _, _) => {a}
    case Not(a, _) => {a}
    case GetGlobal(a, _) => {a}
    case _ => {}
  }

  /** Where control can be after the instruction at `pc`. */
  function Successors(i: Ins, pc: int): seq<int> {
    match i
    case Jmp(s) => [pc + 1 + s]
    case JmpFalse(_, s) => [pc + 1, pc + 1 + s]
    case And(_, s) => [pc + 1, pc + 1 + s]
    case Or(_, s) => [pc + 1, pc + 1 + s]
    case Loop(s) => [pc + 1 - s]
    case CmpJmp(_, _, _) => [pc + 1, pc + 2]
    case Return(_) => []
    case _ => [pc + 1]
  }

  predicate IsSymbol(ch: Chunk, k: nat) {
    k < |ch.consts| && ch.consts[k].Int? && ch.consts[k].n >= 0
  }

  /** The instruction is one of the model's and finds its constant. */
  predicate Known(ch: Chunk, i: Ins) {
    match i
    case LoadK(_, bx) => bx < |ch.consts|
    case GetGlobal(_, bx) => IsSymbol(ch, bx)
    case SetGlobal(_, bx) => IsSymbol(ch, bx)
    case Unmodelled => false
    case _ => true
  }

  /** One step of the machine respects all three readings. */
  lemma StepFollows(m: Machine, st: Vm)
    requires |st.regs| == REGISTERS && 0 <= st.pc < |m.ch.code|
    ensures Known(m.ch, m.ch.code[st.pc]) <==> !Step(m, Running(st)).Wild?
    ensures var i, s := m.ch.code[st.pc], Step(m, Running(st));
            s.Running? ==>
              && s.st.pc in Successors(i, st.pc)
              && forall r: Reg :: r !in Assigned(i) ==> s.st.regs[r] == st.regs[r]
  {
    var i := m.ch.code[st.pc];
    match i
    case BinOp(op, _, b, c) => var r := m.h.arith(op, st.regs[b], st.regs[c]);
    case _ =>
  }

  /** The instruction at `i` is known, assigns only `dest`, the register an ADDI uses beside
      it, or a register from `next` on, and leads somewhere from `lo` to `hi`, to the
      start of the loop around or to its exit. */
  predicate Confined(ch: Chunk, i: nat, dest: nat, next: nat, lo: int, hi: int, lp: LoopCtx) {
    && i < |ch.code| && Known(ch, ch.code[i])
    && (forall r | r in Assigned(ch.code[i]) :: r == dest || r >= next || (ch.code[i].AddI? && r == Scratch(dest)))
    && forall t | t in Successors(ch.code[i], i) :: lo <= t <= hi || (lp.Closed? && (t == lp.start || t == lp.exit))
  }

  predicate AllConfined(ch: Chunk, from: nat, to: nat, dest: nat, next: nat, lo: int, hi: int, lp: LoopCtx) {
    forall i :: from <= i < to ==> Confined(ch, i, dest, next, lo, hi, lp)
  }

  /** What a piece of code is confined to also confines it as part of a larger one. */
  lemma Widen(ch: Chunk, from: nat, to: nat, dest': nat, next': nat, lp': LoopCtx, dest: nat, next: nat, lo: int, hi: int, lp: LoopCtx)
    requires AllConfined(ch, from, to, dest', next', from, to, lp')
    requires lo <= from && to <= hi && next <= next' && (dest' == dest || dest' >= next)
    requires lp' == lp || !lp'.Closed? || (lo <= lp'.start <= hi && lo <= lp'.exit <= hi)
    ensures AllConfined(ch, from, to, dest, next, lo, hi, lp)
  {
    forall i | from <= i < to ensures Confined(ch, i, dest, next, lo, hi, lp) {
      assert Confined(ch, i, dest', next', from, to, lp');
    }
  }

  /** The loop around, if any, is closed and near enough for a backward jump. */
  predicate Near(lp: LoopCtx, end: nat) {
    !lp.Open? && (lp.Closed? ==> end + 1 - lp.start <= 32768)
  }

  lemma {:induction false} CodeConfined(h: Host, ch: Chunk, e: Expr, dest: nat, next: nat, pc: nat, k: nat, lp: LoopCtx)
    requires CodeFor(h, ch, e, dest, next, pc, k, lp) && LoopsFit(e) && Near(lp, pc + Size(e))
    ensures AllConfined(ch, pc, pc + Size(e), dest, next, pc, pc + Size(e), lp)
    decreases e, 3
  {
    OpenSizes(e);
    OpenCode(h, ch, e, dest, next, pc, k, lp);
    match e
    case EArith(_, _, _) => ArithConfined(h, ch, e, dest, next, pc, k, lp);
    case ECmp(_, _, _) => PairConfined(h, ch, e, dest, next, pc, k, lp);
    case ENot(a) => UnaryConfined(h, ch, a, dest, next, pc, k, lp);
    case EAssign(_, a) => UnaryConfined(h, ch, a, dest, next, pc, k, lp);
    case EIf(_, _, _) => IfConfined(h, ch, e, dest, next, pc, k, lp);
    case ELoop(_, _) => LoopConfined(h, ch, e, dest, next, pc, k, lp);
    case EDo(es) => SeqConfined(h, ch, es, dest, next, pc, k, lp);
    case EAnd(_, _) => ShortConfined(h, ch, e, dest, next, pc, k, lp);
    case EOr(_, _) => ShortConfined(h, ch, e, dest, next, pc, k, lp);
    case _ => LeafConfined(h, ch, e, dest, next, pc, k, lp);
  }

  lemma LeafConfined(h: Host, ch: Chunk, e: Expr, dest: Reg, next: nat, pc: nat, k: nat, lp: LoopCtx)
    requires e.EInt? || e.EFloat? || e.EBool? || e.ENull? || e.EGlobal? || e.EBreak? || e.EContinue?
    requires CodeForDef(h, ch, e, dest, next, pc, k, lp) && Near(lp, pc + Size(e))
    ensures AllConfined(ch, pc, pc + Size(e), dest, next, pc, pc + Size(e), lp)
  {
    OpenSizes(e);
    assert Confined(ch, pc, dest, next, pc, pc + Size(e), lp);
    if e.EBreak? { assert Confined(ch, pc + 1, dest, next, pc, pc + Size(e), lp); }
  }

  /** An operand in place and one more instruction that stays in `dest`. */
  lemma {:induction false} UnaryConfined(h: Host, ch: Chunk, a: Expr, dest: nat, next: nat, pc: nat, k: nat, lp: LoopCtx)
    requires CodeFor(h, ch, a, dest, next, pc, k, lp) && LoopsFit(a) && Near(lp, pc + Size(a))
    requires Confined(ch, pc + Size(a), dest, next, pc, pc + Size(a) + 1, lp)
    ensures AllConfined(ch, pc, pc + Size(a) + 1, dest, next, pc, pc + Size(a) + 1, lp)
    decreases a, 4
  {
    CodeConfined(h, ch, a, dest, next, pc, k, lp);
    Widen(ch, pc, pc + Size(a), dest, next, lp, dest, next, pc, pc + Size(a) + 1, lp);
  }

  lemma {:induction false} ArithConfined(h: Host, ch: Chunk, e: Expr, dest: Reg, next: nat, pc: nat, k: nat, lp: LoopCtx)
    requires e.EArith? && CodeForArith(h, ch, e, dest, next, pc, k, lp) && LoopsFit(e) && Near(lp, pc + Size(e))
    ensures AllConfined(ch, pc, pc + Size(e), dest, next, pc, pc + Size(e), lp)
    decreases e, 2
  {
    OpenSizes(e);
    var EArith(op, a, rest) := e;
    var mid := pc + Size(a);
    CodeConfined(h, ch, a, dest, next, pc, k, lp);
    Widen(ch, pc, mid, dest, next, lp, dest, next, pc, pc + Size(e), lp);
    if !IsFoldable(op, rest) {
      OperandsConfined(h, ch, op, rest, dest, NextReg(a, next), next, mid, k + Consts(a), lp);
      Widen(ch, mid, pc + Size(e), dest, next, lp, dest, next, pc, pc + Size(e), lp);
    } else {
      assert Confined(ch, mid, dest, next, pc, pc + Size(e), lp);
    }
  }

  /** Both operands of a comparison, seen as part of code for `dest`. */
  lemma {:induction false} OperandPairConfined(h: Host, ch: Chunk, e: Expr, dest: nat, next: nat, pc: nat, k: nat, lp: LoopCtx, hi: nat)
    requires e.ECmp? && CodeForPair(h, ch, e, next, pc, k, lp) && LoopsFit(e.l) && LoopsFit(e.r)
    requires pc + Size(e.l) + Size(e.r) <= hi && Near(lp, pc + Size(e.l) + Size(e.r))
    ensures AllConfined(ch, pc, pc + Size(e.l) + Size(e.r), dest, next, pc, hi, lp)
    decreases e, 0
  {
    var rb, mid := NextReg(e.l, next + 1), pc + Size(e.l);
    CodeConfined(h, ch, e.l, next, next + 1, pc, k, lp);
    CodeConfined(h, ch, e.r, rb, rb + 1, mid, k + Consts(e.l), lp);
    Widen(ch, pc, mid, next, next + 1, lp, dest, next, pc, hi, lp);
    Widen(ch, mid, mid + Size(e.r), rb, rb + 1, lp, dest, next, pc, hi, lp);
  }

  lemma {:induction false} PairConfined(h: Host, ch: Chunk, e: Expr, dest: Reg, next: nat, pc: nat, k: nat, lp: LoopCtx)
    requires e.ECmp? && CodeForCmp(h, ch, e, dest, next, pc, k, lp) && LoopsFit(e) && Near(lp, pc + Size(e))
    ensures AllConfined(ch, pc, pc + Size(e), dest, next, pc, pc + Size(e), lp)
    decreases e, 1
  {
    OpenSizes(e);
    OperandPairConfined(h, ch, e, dest, next, pc, k, lp, pc + Size(e));
    assert Confined(ch, pc + Size(e) - 1, dest, next, pc, pc + Size(e), lp);
  }

  /** A condition whose jump ends at `hi` or before. */
  lemma {:induction false} CondConfined(h: Host, ch: Chunk, c: Expr, parent: Expr, cd: nat, cn: nat, temps: nat, dest: nat, next: nat,
                                        pc: nat, k: nat, lp: LoopCtx, skip: nat, hi: nat)
    requires c < parent && CodeForCond(h, ch, c, parent, cd, cn, temps, pc, k, lp, skip) && LoopsFit(c)
    requires pc + Size(c) + 1 + skip <= hi && Near(lp, pc + Size(c)) && next <= temps && next <= cn && (cd == dest || cd >= next)
    ensures AllConfined(ch, pc, pc + Size(c) + 1, dest, next, pc, hi, lp)
    decreases parent, 0
  {
    OpenSizes(c);
    var pj := pc + Size(c);
    if IsFused(c) {
      OperandPairConfined(h, ch, c, dest, temps, pc, k, lp, hi);
      assert Confined(ch, pj - 1, dest, next, pc, hi, lp);
      forall i | pc <= i < pj - 1 ensures Confined(ch, i, dest, next, pc, hi, lp) {
        assert Confined(ch, i, dest, temps, pc, hi, lp);
      }
    } else {
      CodeConfined(h, ch, c, cd, cn, pc, k, lp);
      Widen(ch, pc, pj, cd, cn, lp, dest, next, pc, hi, lp);
    }
    assert Confined(ch, pj, dest, next, pc, hi, lp);
  }

  lemma {:induction false} IfConfined(h: Host, ch: Chunk, e: Expr, dest: Reg, next: nat, pc: nat, k: nat, lp: LoopCtx)
    requires e.EIf? && CodeForIf(h, ch, e, dest, next, pc, k, lp) && LoopsFit(e) && Near(lp, pc + Size(e))
    ensures AllConfined(ch, pc, pc + Size(e), dest, next, pc, pc + Size(e), lp)
    decreases e, 2
  {
    OpenSizes(e);
    var EIf(c, t, f) := e;
    var pt, hi, nt := pc + Size(c) + 1, pc + Size(e), NextReg(c, next);
    var pf := pt + Size(t) + 1;
    CondConfined(h, ch, c, e, dest, next, next, dest, next, pc, k, lp, Size(t) + 1, hi);
    CodeConfined(h, ch, t, dest, nt, pt, k + Consts(c), lp);
    Widen(ch, pt, pf - 1, dest, nt, lp, dest, next, pc, hi, lp);
    assert Confined(ch, pf - 1, dest, next, pc, hi, lp);
    CodeConfined(h, ch, f, dest, NextReg(t, nt), pf, k + Consts(c) + Consts(t), lp);
    Widen(ch, pf, hi, dest, NextReg(t, nt), lp, dest, next, pc, hi, lp);
  }

  lemma {:induction false} ShortConfined(h: Host, ch: Chunk, e: Expr, dest: Reg, next: nat, pc: nat, k: nat, lp: LoopCtx)
    requires (e.EAnd? || e.EOr?) && CodeForShort(h, ch, e, dest, next, pc, k, lp) && LoopsFit(e) && Near(lp, pc + Size(e))
    ensures AllConfined(ch, pc, pc + Size(e), dest, next, pc, pc + Size(e), lp)
    decreases e, 2
  {
    OpenSizes(e);
    var mid, hi := pc + Size(e.l), pc + Size(e);
    CodeConfined(h, ch, e.l, dest, next, pc, k, lp);
    Widen(ch, pc, mid, dest, next, lp, dest, next, pc, hi, lp);
    assert Confined(ch, mid, dest, next, pc, hi, lp);
    CodeConfined(h, ch, e.r, dest, NextReg(e.l, next), mid + 1, k + Consts(e.l), lp);
    Widen(ch, mid + 1, hi, dest, NextReg(e.l, next), lp, dest, next, pc, hi, lp);
  }

  /** A loop keeps to itself: its `break`s and `continue`s lead to its own ends. */
  lemma {:induction false} LoopConfined(h: Host, ch: Chunk, e: Expr, dest: Reg, next: nat, pc: nat, k: nat, lp: LoopCtx)
    requires e.ELoop? && CodeForLoop(h, ch, e, dest, next, pc, k) && LoopsFit(e)
    ensures AllConfined(ch, pc, pc + Size(e), dest, next, pc, pc + Size(e), lp)
    decreases e, 2
  {
    OpenSizes(e);
    var ELoop(c, body) := e;
    var inner, hi := Closed(pc, pc + Size(e)), pc + Size(e);
    LoopPartsConfined(h, ch, c, body, e, dest, next, pc, k, inner, hi);
    LeaveInner(ch, pc, hi - 2, dest, next, hi, inner, lp);
    LoopEndConfined(h, ch, e, dest, next, pc, k, lp);
  }

  /** The jump back and the result of the loop. */
  lemma LoopEndConfined(h: Host, ch: Chunk, e: Expr, dest: Reg, next: nat, pc: nat, k: nat, lp: LoopCtx)
    requires e.ELoop? && CodeForLoop(h, ch, e, dest, next, pc, k) && LoopsFit(e) && Size(e) == LoopOffset(e.cond, e.body) + 1
    ensures Confined(ch, pc + Size(e) - 2, dest, next, pc, pc + Size(e), lp)
    ensures Confined(ch, pc + Size(e) - 1, dest, next, pc, pc + Size(e), lp)
  {
    OpenSizes(e);
    assert SBxReadBack(LoopOffset(e.cond, e.body)) == LoopOffset(e.cond, e.body);
  }

  lemma {:induction false} LoopPartsConfined(h: Host, ch: Chunk, c: Expr, body: seq<Expr>, parent: Expr, dest: nat, next: nat,
                                             pc: nat, k: nat, inner: LoopCtx, hi: nat)
    requires parent == ELoop(c, body) && hi == pc + LoopOffset(c, body) + 1 && inner == Closed(pc, hi)
    requires CodeForCond(h, ch, c, parent, next, next + 1, next, pc, k, inner, SizeSeq(body) + 1) && LoopsFit(c)
    requires CodeForSeq(h, ch, body, dest, LoopBodyReg(c, next), pc + Size(c) + 1, k + Consts(c), inner) && AllLoopsFit(body)
    requires LoopOffset(c, body) <= 32768
    ensures AllConfined(ch, pc, hi - 2, dest, next, pc, hi, inner)
    decreases parent, 1
  {
    var pb, nb := pc + Size(c) + 1, LoopBodyReg(c, next);
    CondConfined(h, ch, c, parent, next, next + 1, next, dest, next, pc, k, inner, SizeSeq(body) + 1, hi);
    SeqConfined(h, ch, body, dest, nb, pb, k + Consts(c), inner);
    Widen(ch, pb, hi - 2, dest, nb, inner, dest, next, pc, hi, inner);
  }

  lemma LeaveInner(ch: Chunk, pc: nat, to: nat, dest: nat, next: nat, hi: nat, inner: LoopCtx, lp: LoopCtx)
    requires inner == Closed(pc, hi) && to <= hi && AllConfined(ch, pc, to, dest, next, pc, hi, inner)
    ensures AllConfined(ch, pc, to, dest, next, pc, hi, lp)
  {
    forall i | pc <= i < to ensures Confined(ch, i, dest, next, pc, hi, lp) {
      assert Confined(ch, i, dest, next, pc, hi, inner);
    }
  }

  lemma {:induction false} OperandsConfined(h: Host, ch: Chunk, op: ArithOp, es: seq<Expr>, dest: nat, cur: nat, base: nat,
                                            pc: nat, k: nat, lp: LoopCtx)
    requires CodeForOperands(h, ch, op, es, dest, cur, base, pc, k, lp) && AllLoopsFit(es)
    requires base <= cur && Near(lp, pc + SizeOperands(es))
    ensures AllConfined(ch, pc, pc + SizeOperands(es), dest, base, pc, pc + SizeOperands(es), lp)
    decreases es, 0
  {
    if es != [] {
      var mid, hi := pc + Size(es[0]), pc + SizeOperands(es);
      CodeConfined(h, ch, es[0], cur, cur + 1, pc, k, lp);
      Widen(ch, pc, mid, cur, cur + 1, lp, dest, base, pc, hi, lp);
      assert Confined(ch, mid, dest, base, pc, hi, lp);
      OperandsConfined(h, ch, op, es[1..], dest, base, base, mid + 1, k + Consts(es[0]), lp);
      Widen(ch, mid + 1, hi, dest, base, lp, dest, base, pc, hi, lp);
    }
  }

  lemma {:induction false} SeqConfined(h: Host, ch: Chunk, es: seq<Expr>, dest: nat, next: nat, pc: nat, k: nat, lp: LoopCtx)
    requires CodeForSeq(h, ch, es, dest, next, pc, k, lp) && AllLoopsFit(es) && Near(lp, pc + SizeSeq(es))
    ensures AllConfined(ch, pc, pc + SizeSeq(es), dest, next, pc, pc + SizeSeq(es), lp)
    decreases es, 0
  {
    if es != [] {
      var mid, hi := pc + Size(es[0]), pc + SizeSeq(es);
      CodeConfined(h, ch, es[0], dest, next, pc, k, lp);
      Widen(ch, pc, mid, dest, next, lp, dest, next, pc, hi, lp);
      SeqConfined(h, ch, es[1..], dest, NextReg(es[0], next), mid, k + Consts(es[0]), lp);
      Widen(ch, mid, hi, dest, NextReg(es[0], next), lp, dest, next, pc, hi, lp);
    }
  }

  /** In the chunk of a program every instruction, reached or not, is known and leads to
      another one of the chunk, and register 0 is never assigned. */
  lemma ProgramConfined(h: Host, ch: Chunk, prog: seq<Expr>, i: nat)
    requires ProgramCode(h, ch, prog) && AllLoopsFit(prog) && i < |ch.code|
    ensures Known(ch, ch.code[i]) && forall t | t in Successors(ch.code[i], i) :: 0 <= t < |ch.code|
    ensures forall r | r in Assigned(ch.code[i]) :: r >= RESULT_REG
  {
    SeqConfined(h, ch, prog, RESULT_REG, RESULT_REG + 1, 0, 0, NoLoop);
    if i < SizeSeq(prog) {
      assert Confined(ch, i, RESULT_REG, RESULT_REG + 1, 0, SizeSeq(prog), NoLoop);
    }
  }

  /** So a running chunk never leaves itself and never misses a constant. */
  lemma {:induction false} NeverWild(h: Host, ch: Chunk, prog: seq<Expr>, st: Vm, n: nat)
    requires ProgramCode(h, ch, prog) && AllLoopsFit(prog)
    requires |st.regs| == REGISTERS && st.pc == 0
    ensures var s := Run(Machine(h, ch), Running(st), n); !s.Wild? && (s.Running? ==> 0 <= s.st.pc < |ch.code|)
  {
    var m := Machine(h, ch);
    OpenRun(m, Running(st), n);
    if n > 0 {
      NeverWild(h, ch, prog, st, n - 1);
      var s := Run(m, Running(st), n - 1);
      if s.Running? {
        ProgramConfined(h, ch, prog, s.st.pc);
        StepFollows(m, s.st);
      }
    }
  }
}
