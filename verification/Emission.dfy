/** How the compiler's state changes while it emits an expression. */
module Emission {
  import opened Semantics
  import opened Bytecode
  import opened Layout
  import opened Patching

  // ---- states ----

  /** A loop being compiled: where it starts, and the jumps its `break`s left. */
  datatype LoopInfo = LoopInfo(start: nat, breaks: seq<nat>)

  /** The compiler's state, its code as the machine will read it. */
  datatype Snap = Snap(ch: Chunk, next: nat, depth: nat, loops: seq<LoopInfo>)

  function Pc(s: Snap): nat {
    |s.ch.code|
  }

  function K(s: Snap): nat {
    |s.ch.consts|
  }

  function Ctx(loops: seq<LoopInfo>): LoopCtx {
    if loops == [] then NoLoop else Open(loops[|loops| - 1].start)
  }

  function AddBreaks(loops: seq<LoopInfo>, slots: seq<nat>): seq<LoopInfo> {
    if loops == [] then []
    else
      var last := loops[|loops| - 1];
      loops[|loops| - 1 := last.(breaks := last.breaks + slots)]
  }

  function Plus(s: Snap, i: Ins): Snap {
    s.(ch := Chunk(s.ch.code + [i], s.ch.consts))
  }

  /** The instruction at `pc` that jumps back to `start`. */
  function LoopTo(pc: nat, start: nat): Ins {
    Loop(SBxReadBack(pc - start + 1))
  }

  predicate IsJump(i: Ins) {
    i.Jmp? || i.JmpFalse? || i.And? || i.Or?
  }

  function Retarget(i: Ins, sbx: int): Ins
    requires IsJump(i)
  {
    i.(sbx := sbx)
  }

  /** The jump at `offset` now leads to the end of the code. */
  function Patch(s: Snap, offset: nat): Snap
    requires offset < Pc(s) && IsJump(s.ch.code[offset])
  {
    s.(ch := Chunk(s.ch.code[offset := Retarget(s.ch.code[offset], Pc(s) - offset - 1)], s.ch.consts))
  }

  // ---- what a step of compilation adds ----

  predicate Grows(s0: Snap, s1: Snap, size: nat, consts: nat, slots: seq<nat>) {
    && Pc(s1) == Pc(s0) + size && s0.ch.code <= s1.ch.code
    && K(s1) == K(s0) + consts && s0.ch.consts <= s1.ch.consts
    && s1.depth == s0.depth && s1.loops == AddBreaks(s0.loops, slots)
  }

  lemma GrowsThen(s0: Snap, s1: Snap, s2: Snap, a: nat, b: nat, x: seq<nat>, c: nat, d: nat, y: seq<nat>)
    requires Grows(s0, s1, a, b, x) && Grows(s1, s2, c, d, y)
    ensures Grows(s0, s2, a + c, b + d, x + y) && Ctx(s1.loops) == Ctx(s0.loops)
    ensures Agree(s1.ch, s2.ch, 0, Pc(s1))
  {
    assert s0.ch.code <= s2.ch.code;
    if s0.loops != [] {
      var last := s0.loops[|s0.loops| - 1];
      assert last.breaks + x + y == last.breaks + (x + y);
    }
  }

  lemma GrowsPlus(s: Snap, i: Ins)
    ensures Grows(s, Plus(s, i), 1, 0, []) && At(Plus(s, i).ch, Pc(s), i)
  {
    if s.loops != [] {
      var last := s.loops[|s.loops| - 1];
      assert last.breaks + [] == last.breaks;
    }
  }

  /** A patch inside the code that was added. */
  lemma GrowsPatch(s0: Snap, s1: Snap, size: nat, consts: nat, slots: seq<nat>, offset: nat)
    requires Grows(s0, s1, size, consts, slots) && Pc(s0) <= offset < Pc(s1) && IsJump(s1.ch.code[offset])
    ensures Grows(s0, Patch(s1, offset), size, consts, slots)
  {
    assert s0.ch.code <= Patch(s1, offset).ch.code;
  }

  /** Compiling `e` into `dest` leads from `s0` to `s1`. */
  predicate Emits(h: Host, s0: Snap, s1: Snap, e: Expr, dest: nat) {
    && Grows(s0, s1, Size(e), Consts(e), BreakSlots(e, Pc(s0)))
    && s1.next == NextReg(e, s0.next)
    && CodeFor(h, s1.ch, e, dest, s0.next, Pc(s0), K(s0), Ctx(s0.loops))
  }

  predicate EmitsSeq(h: Host, s0: Snap, s1: Snap, es: seq<Expr>, dest: nat) {
    && Grows(s0, s1, SizeSeq(es), ConstsSeq(es), BreakSlotsSeq(es, Pc(s0)))
    && s1.next == NextRegSeq(es, s0.next)
    && CodeForSeq(h, s1.ch, es, dest, s0.next, Pc(s0), K(s0), Ctx(s0.loops))
  }

  /** The operands of an arithmetic chain; from the second on they start at `base`. */
  predicate EmitsOperands(h: Host, s0: Snap, s1: Snap, op: ArithOp, es: seq<Expr>, dest: nat, base: nat) {
    && Grows(s0, s1, SizeOperands(es), ConstsSeq(es), BreakSlotsOperands(es, Pc(s0)))
    && s1.next == (if es == [] then s0.next else base)
    && CodeForOperands(h, s1.ch, op, es, dest, s0.next, base, Pc(s0), K(s0), Ctx(s0.loops))
  }

  predicate EmitsPair(h: Host, s0: Snap, s1: Snap, e: Expr)
    requires e.ECmp?
  {
    && Grows(s0, s1, Size(e.l) + Size(e.r), Consts(e.l) + Consts(e.r),
             BreakSlots(e.l, Pc(s0)) + BreakSlots(e.r, Pc(s0) + Size(e.l)))
    && s1.next == NextReg(e.r, NextReg(e.l, s0.next + 1) + 1)
    && CodeForPair(h, s1.ch, e, s0.next, Pc(s0), K(s0), Ctx(s0.loops))
  }

  /** The condition `c` of `parent` and its jump, not yet patched. */
  predicate EmitsCond(h: Host, s0: Snap, s1: Snap, c: Expr, parent: Expr, cd: nat, cn: nat)
    requires c < parent
  {
    && Grows(s0, s1, Size(c) + 1, Consts(c), BreakSlots(c, Pc(s0)))
    && CodeForCond(h, s1.ch, c, parent, cd, cn, s0.next, Pc(s0), K(s0), Ctx(s0.loops), 0)
  }

  // ---- sequences, one element at a time ----

  lemma {:induction false} SeqSplit(a: seq<Expr>, b: seq<Expr>, next: nat, pc: nat)
    ensures SizeSeq(a + b) == SizeSeq(a) + SizeSeq(b) && ConstsSeq(a + b) == ConstsSeq(a) + ConstsSeq(b)
    ensures NextRegSeq(a + b, next) == NextRegSeq(b, NextRegSeq(a, next))
    ensures BreakSlotsSeq(a + b, pc) == BreakSlotsSeq(a, pc) + BreakSlotsSeq(b, pc + SizeSeq(a))
  {
    if a == [] {
      assert a + b == b;
    } else {
      assert (a + b)[1..] == a[1..] + b;
      SeqSplit(a[1..], b, NextReg(a[0], next), pc + Size(a[0]));
    }
  }

  lemma {:induction false} FitsSplit(a: seq<Expr>, b: seq<Expr>, next: nat, pc: nat, k: nat, depth: nat, inLoop: bool)
    ensures FitsSeq(a + b, next, pc, k, depth, inLoop) <==>
              FitsSeq(a, next, pc, k, depth, inLoop)
              && FitsSeq(b, NextRegSeq(a, next), pc + SizeSeq(a), k + ConstsSeq(a), depth, inLoop)
  {
    if a == [] {
      assert a + b == b;
    } else {
      assert (a + b)[1..] == a[1..] + b;
      FitsSplit(a[1..], b, NextReg(a[0], next), pc + Size(a[0]), k + Consts(a[0]), depth, inLoop);
    }
  }

  lemma {:induction false} CodeSplit(h: Host, ch: Chunk, a: seq<Expr>, b: seq<Expr>, dest: nat, next: nat, pc: nat, k: nat, lp: LoopCtx)
    ensures CodeForSeq(h, ch, a + b, dest, next, pc, k, lp) <==>
              CodeForSeq(h, ch, a, dest, next, pc, k, lp)
              && CodeForSeq(h, ch, b, dest, NextRegSeq(a, next), pc + SizeSeq(a), k + ConstsSeq(a), lp)
  {
    if a == [] {
      assert a + b == b;
    } else {
      assert (a + b)[1..] == a[1..] + b;
      CodeSplit(h, ch, a[1..], b, dest, NextReg(a[0], next), pc + Size(a[0]), k + Consts(a[0]), lp);
    }
  }

  lemma {:induction false} OperandSizesSplit(a: seq<Expr>, b: seq<Expr>)
    ensures SizeOperands(a + b) == SizeOperands(a) + SizeOperands(b) && ConstsSeq(a + b) == ConstsSeq(a) + ConstsSeq(b)
  {
    if a == [] {
      assert a + b == b;
    } else {
      assert (a + b)[1..] == a[1..] + b;
      OperandSizesSplit(a[1..], b);
    }
  }

  lemma {:induction false} OperandBreaksSplit(a: seq<Expr>, b: seq<Expr>, pc: nat)
    ensures BreakSlotsOperands(a + b, pc) == BreakSlotsOperands(a, pc) + BreakSlotsOperands(b, pc + SizeOperands(a))
  {
    if a == [] {
      assert a + b == b;
    } else {
      assert (a + b)[1..] == a[1..] + b;
      var after := pc + Size(a[0]) + 1;
      OperandBreaksSplit(a[1..], b, after);
      var x, y, z := BreakSlots(a[0], pc), BreakSlotsOperands(a[1..], after), BreakSlotsOperands(b, pc + SizeOperands(a));
      assert x + (y + z) == (x + y) + z;
    }
  }

  lemma OperandsSplit(a: seq<Expr>, b: seq<Expr>, pc: nat)
    ensures SizeOperands(a + b) == SizeOperands(a) + SizeOperands(b) && ConstsSeq(a + b) == ConstsSeq(a) + ConstsSeq(b)
    ensures BreakSlotsOperands(a + b, pc) == BreakSlotsOperands(a, pc) + BreakSlotsOperands(b, pc + SizeOperands(a))
  {
    OperandSizesSplit(a, b);
    OperandBreaksSplit(a, b, pc);
  }

  lemma {:induction false} FitsOperandsSplit(a: seq<Expr>, b: seq<Expr>, cur: nat, base: nat, pc: nat, k: nat, depth: nat, inLoop: bool)
    ensures FitsOperands(a + b, cur, base, pc, k, depth, inLoop) <==>
              FitsOperands(a, cur, base, pc, k, depth, inLoop)
              && FitsOperands(b, if a == [] then cur else base, base, pc + SizeOperands(a), k + ConstsSeq(a), depth, inLoop)
  {
    if a == [] {
      assert a + b == b;
    } else {
      assert (a + b)[1..] == a[1..] + b;
      FitsOperandsSplit(a[1..], b, base, base, pc + Size(a[0]) + 1, k + Consts(a[0]), depth, inLoop);
    }
  }

  lemma {:induction false} CodeOperandsSplit(h: Host, ch: Chunk, op: ArithOp, a: seq<Expr>, b: seq<Expr>, dest: nat, cur: nat, base: nat,
                                             pc: nat, k: nat, lp: LoopCtx)
    requires dest < 256
    ensures CodeForOperands(h, ch, op, a + b, dest, cur, base, pc, k, lp) <==>
              CodeForOperands(h, ch, op, a, dest, cur, base, pc, k, lp)
              && CodeForOperands(h, ch, op, b, dest, if a == [] then cur else base, base, pc + SizeOperands(a), k + ConstsSeq(a), lp)
  {
    if a == [] {
      assert a + b == b;
    } else {
      assert (a + b)[1..] == a[1..] + b;
      CodeOperandsSplit(h, ch, op, a[1..], b, dest, base, base, pc + Size(a[0]) + 1, k + Consts(a[0]), lp);
    }
  }

  lemma SeqStep(h: Host, s0: Snap, s1: Snap, s2: Snap, es: seq<Expr>, e: Expr, dest: nat)
    requires EmitsSeq(h, s0, s1, es, dest) && Emits(h, s1, s2, e, dest)
    ensures EmitsSeq(h, s0, s2, es + [e], dest)
  {
    GrowsThen(s0, s1, s2, SizeSeq(es), ConstsSeq(es), BreakSlotsSeq(es, Pc(s0)), Size(e), Consts(e), BreakSlots(e, Pc(s1)));
    StaysSeq(h, s1.ch, s2.ch, es, dest, s0.next, Pc(s0), K(s0), Ctx(s0.loops));
    assert [e][1..] == [] && BreakSlots(e, Pc(s1)) + [] == BreakSlots(e, Pc(s1));
    SeqSplit(es, [e], s0.next, Pc(s0));
    CodeSplit(h, s2.ch, es, [e], dest, s0.next, Pc(s0), K(s0), Ctx(s0.loops));
  }

  /** An operand compiled into the register just allocated and combined into `dest`. */
  lemma OperandPiece(h: Host, s1: Snap, s2: Snap, op: ArithOp, e: Expr, dest: Reg, base: nat)
    requires s1.next < 256 && Emits(h, s1.(next := s1.next + 1), s2, e, s1.next)
    ensures EmitsOperands(h, s1, Plus(s2, BinOp(op, dest, dest, s1.next)).(next := base), op, [e], dest, base)
  {
    var s1', i := s1.(next := s1.next + 1), BinOp(op, dest, dest, s1.next);
    var s3 := Plus(s2, i).(next := base);
    GrowsPlus(s2, i);
    GrowsThen(s1', s2, s3, Size(e), Consts(e), BreakSlots(e, Pc(s1)), 1, 0, []);
    Stays(h, s2.ch, s3.ch, e, s1.next, s1.next + 1, Pc(s1), K(s1), Ctx(s1.loops));
    assert [e][1..] == [] && BreakSlotsOperands([e], Pc(s1)) == BreakSlots(e, Pc(s1)) + [];
    assert CodeForOperands(h, s3.ch, op, [], dest, base, base, Pc(s3), K(s3), Ctx(s1.loops));
  }

  lemma OperandStep(h: Host, s0: Snap, s1: Snap, s3: Snap, op: ArithOp, es: seq<Expr>, e: Expr, dest: Reg, base: nat)
    requires EmitsOperands(h, s0, s1, op, es, dest, base) && EmitsOperands(h, s1, s3, op, [e], dest, base)
    ensures EmitsOperands(h, s0, s3, op, es + [e], dest, base)
  {
    GrowsThen(s0, s1, s3, SizeOperands(es), ConstsSeq(es), BreakSlotsOperands(es, Pc(s0)),
              SizeOperands([e]), ConstsSeq([e]), BreakSlotsOperands([e], Pc(s1)));
    StaysOperands(h, s1.ch, s3.ch, op, es, dest, s0.next, base, Pc(s0), K(s0), Ctx(s0.loops));
    OperandsSplit(es, [e], Pc(s0));
    CodeOperandsSplit(h, s3.ch, op, es, [e], dest, s0.next, base, Pc(s0), K(s0), Ctx(s0.loops));
  }

  lemma SeqNone(h: Host, s: Snap, dest: nat)
    ensures EmitsSeq(h, s, s, [], dest)
  {
    GrowsPlus(s, LoadNull(0));
  }

  lemma OperandsNone(h: Host, s: Snap, op: ArithOp, dest: Reg, base: nat)
    ensures EmitsOperands(h, s, s, op, [], dest, base)
  {
    GrowsPlus(s, LoadNull(0));
  }

  // ---- forms ----

  lemma DoEmits(h: Host, s0: Snap, s1: Snap, es: seq<Expr>, dest: Reg)
    requires EmitsSeq(h, s0, s1, es, dest)
    ensures Emits(h, s0, s1, EDo(es), dest)
  {
    var e := EDo(es);
    OpenSizes(e);
    OpenBreaks(e, Pc(s0));
    OpenCode(h, s1.ch, e, dest, s0.next, Pc(s0), K(s0), Ctx(s0.loops));
  }

  /** One instruction, and at most one constant, which it names. */
  lemma LeafEmits(h: Host, s0: Snap, s1: Snap, e: Expr, dest: Reg)
    requires e.EInt? || e.EFloat? || e.EBool? || e.ENull? || e.EGlobal?
    requires match e
      case EInt(v) =>
        if IsImmediate(v) then s1 == Plus(s0, LoadInt(dest, SBxReadBack(v)))
        else K(s0) <= MAX_CONST && s1 == Plus(PlusConst(s0, h.boxInt(v)), LoadK(dest, K(s0)))
      case EFloat(w) => K(s0) <= MAX_CONST && s1 == Plus(PlusConst(s0, Float(w)), LoadK(dest, K(s0)))
      case EBool(b) => s1 == Plus(s0, LoadBool(dest, if b then 1 else 0))
      case ENull => s1 == Plus(s0, LoadNull(dest))
      case EGlobal(x) => K(s0) <= MAX_CONST && s1 == Plus(PlusConst(s0, SymbolConst(h, x)), GetGlobal(dest, K(s0)))
    ensures Emits(h, s0, s1, e, dest)
  {
    OpenSizes(e);
    OpenBreaks(e, Pc(s0));
    OpenCode(h, s1.ch, e, dest, s0.next, Pc(s0), K(s0), Ctx(s0.loops));
    GrowsPlus(s0, s1.ch.code[Pc(s0)]);
  }

  function PlusConst(s: Snap, v: Value): Snap {
    s.(ch := Chunk(s.ch.code, s.ch.consts + [v]))
  }

  lemma NotEmits(h: Host, s0: Snap, s1: Snap, e: Expr, dest: Reg)
    requires e.ENot? && Emits(h, s0, s1, e.e, dest)
    ensures Emits(h, s0, Plus(s1, Not(dest, dest)), e, dest)
  {
    OpenSizes(e);
    OpenBreaks(e, Pc(s0));
    var s2 := Plus(s1, Not(dest, dest));
    OpenCode(h, s2.ch, e, dest, s0.next, Pc(s0), K(s0), Ctx(s0.loops));
    GrowsPlus(s1, Not(dest, dest));
    GrowsThen(s0, s1, s2, Size(e.e), Consts(e.e), BreakSlots(e.e, Pc(s0)), 1, 0, []);
    assert BreakSlots(e.e, Pc(s0)) + [] == BreakSlots(e.e, Pc(s0));
    Stays(h, s1.ch, s2.ch, e.e, dest, s0.next, Pc(s0), K(s0), Ctx(s0.loops));
  }

  lemma AssignEmits(h: Host, s0: Snap, s1: Snap, e: Expr, dest: Reg)
    requires e.EAssign? && Emits(h, s0, s1, e.e, dest) && K(s1) <= MAX_CONST
    ensures Emits(h, s0, Plus(PlusConst(s1, SymbolConst(h, e.name)), SetGlobal(dest, K(s1))), e, dest)
  {
    OpenSizes(e);
    OpenBreaks(e, Pc(s0));
    var i := SetGlobal(dest, K(s1));
    var s2 := Plus(PlusConst(s1, SymbolConst(h, e.name)), i);
    OpenCode(h, s2.ch, e, dest, s0.next, Pc(s0), K(s0), Ctx(s0.loops));
    GrowsPlus(s1, i);
    GrowsThen(s0, s1, s2, Size(e.e), Consts(e.e), BreakSlots(e.e, Pc(s0)), 1, 1, []);
    assert BreakSlots(e.e, Pc(s0)) + [] == BreakSlots(e.e, Pc(s0));
    Stays(h, s1.ch, s2.ch, e.e, dest, s0.next, Pc(s0), K(s0), Ctx(s0.loops));
  }

  /** `+` or `-` with an immediate. */
  lemma FoldedEmits(h: Host, s0: Snap, s1: Snap, e: Expr, dest: Reg)
    requires e.EArith? && IsFoldable(e.op, e.rest) && Emits(h, s0, s1, e.first, dest)
    ensures Emits(h, s0, Plus(s1, FoldedIns(e.op, dest, SBxReadBack(e.rest[0].v))).(next := s0.next), e, dest)
  {
    OpenSizes(e);
    OpenBreaks(e, Pc(s0));
    var i := FoldedIns(e.op, dest, SBxReadBack(e.rest[0].v));
    var s2 := Plus(s1, i).(next := s0.next);
    OpenCode(h, s2.ch, e, dest, s0.next, Pc(s0), K(s0), Ctx(s0.loops));
    GrowsPlus(s1, i);
    GrowsThen(s0, s1, s2, Size(e.first), Consts(e.first), BreakSlots(e.first, Pc(s0)), 1, 0, []);
    Stays(h, s1.ch, s2.ch, e.first, dest, s0.next, Pc(s0), K(s0), Ctx(s0.loops));
  }

  lemma ArithEmits(h: Host, s0: Snap, s1: Snap, s2: Snap, e: Expr, dest: Reg)
    requires e.EArith? && !IsFoldable(e.op, e.rest) && e.rest != [] && Emits(h, s0, s1, e.first, dest)
    requires EmitsOperands(h, s1, s2, e.op, e.rest, dest, s0.next)
    ensures Emits(h, s0, s2, e, dest)
  {
    OpenSizes(e);
    OpenBreaks(e, Pc(s0));
    OpenCode(h, s2.ch, e, dest, s0.next, Pc(s0), K(s0), Ctx(s0.loops));
    GrowsThen(s0, s1, s2, Size(e.first), Consts(e.first), BreakSlots(e.first, Pc(s0)),
              SizeOperands(e.rest), ConstsSeq(e.rest), BreakSlotsOperands(e.rest, Pc(s1)));
    Stays(h, s1.ch, s2.ch, e.first, dest, s0.next, Pc(s0), K(s0), Ctx(s0.loops));
  }

  /** Both operands of a comparison, each into a register allocated for it. */
  lemma PairEmits(h: Host, s0: Snap, s1: Snap, s2: Snap, e: Expr)
    requires e.ECmp? && s0.next < 256 && Emits(h, s0.(next := s0.next + 1), s1, e.l, s0.next)
    requires s1.next < 256 && Emits(h, s1.(next := s1.next + 1), s2, e.r, s1.next)
    ensures EmitsPair(h, s0, s2, e)
  {
    GrowsThen(s0, s1, s2, Size(e.l), Consts(e.l), BreakSlots(e.l, Pc(s0)), Size(e.r), Consts(e.r), BreakSlots(e.r, Pc(s1)));
    Stays(h, s1.ch, s2.ch, e.l, s0.next, s0.next + 1, Pc(s0), K(s0), Ctx(s0.loops));
  }

  lemma CmpEmits(h: Host, s0: Snap, s1: Snap, e: Expr, dest: Reg)
    requires e.ECmp? && EmitsPair(h, s0, s1, e)
    ensures Emits(h, s0, Plus(s1, Cmp(e.cop, dest, s0.next, NextReg(e.l, s0.next + 1))).(next := s0.next), e, dest)
  {
    OpenSizes(e);
    OpenBreaks(e, Pc(s0));
    var i := Cmp(e.cop, dest, s0.next, NextReg(e.l, s0.next + 1));
    var s2 := Plus(s1, i).(next := s0.next);
    OpenCode(h, s2.ch, e, dest, s0.next, Pc(s0), K(s0), Ctx(s0.loops));
    GrowsPlus(s1, i);
    GrowsThen(s0, s1, s2, Size(e.l) + Size(e.r), Consts(e), BreakSlots(e, Pc(s0)), 1, 0, []);
    StaysPair(h, s1, s2, e, s0.next, Pc(s0), K(s0), Ctx(s0.loops));
  }

  lemma StaysPair(h: Host, s1: Snap, s2: Snap, e: Expr, next: nat, pc: nat, k: nat, lp: LoopCtx)
    requires e.ECmp? && Agree(s1.ch, s2.ch, pc, pc + Size(e.l) + Size(e.r)) && CodeForPair(h, s1.ch, e, next, pc, k, lp)
    ensures CodeForPair(h, s2.ch, e, next, pc, k, lp)
  {
    CarryPair(h, Same(s1.ch, s2.ch, pc, pc + Size(e.l) + Size(e.r), BreakSlots(e, pc), lp), e, next, pc, k);
  }

  lemma FusedCondEmits(h: Host, s0: Snap, s1: Snap, c: Expr, parent: Expr, cd: nat, cn: nat)
    requires c < parent && IsFused(c) && EmitsPair(h, s0, s1, c)
    ensures EmitsCond(h, s0, Plus(Plus(s1, CmpJmp(c.cop, s0.next, NextReg(c.l, s0.next + 1))), Jmp(0)), c, parent, cd, cn)
  {
    OpenSizes(c);
    OpenBreaks(c, Pc(s0));
    var i := CmpJmp(c.cop, s0.next, NextReg(c.l, s0.next + 1));
    var s2, s3 := Plus(s1, i), Plus(Plus(s1, i), Jmp(0));
    GrowsPlus(s1, i);
    GrowsPlus(s2, Jmp(0));
    GrowsThen(s0, s1, s2, Size(c.l) + Size(c.r), Consts(c), BreakSlots(c, Pc(s0)), 1, 0, []);
    assert BreakSlots(c, Pc(s0)) + [] == BreakSlots(c, Pc(s0));
    GrowsThen(s0, s2, s3, Size(c), Consts(c), BreakSlots(c, Pc(s0)), 1, 0, []);
    StaysPair(h, s1, s3, c, s0.next, Pc(s0), K(s0), Ctx(s0.loops));
  }

  lemma PlainCondEmits(h: Host, s0: Snap, s1: Snap, c: Expr, parent: Expr, cd: Reg, cn: nat)
    requires c < parent && !IsFused(c) && Emits(h, s0.(next := cn), s1, c, cd)
    ensures EmitsCond(h, s0, Plus(s1, JmpFalse(cd, 0)), c, parent, cd, cn)
  {
    var s2 := Plus(s1, JmpFalse(cd, 0));
    GrowsPlus(s1, JmpFalse(cd, 0));
    GrowsThen(s0, s1, s2, Size(c), Consts(c), BreakSlots(c, Pc(s0)), 1, 0, []);
    assert BreakSlots(c, Pc(s0)) + [] == BreakSlots(c, Pc(s0));
    Stays(h, s1.ch, s2.ch, c, cd, cn, Pc(s0), K(s0), Ctx(s0.loops));
  }

  /** A piece that ends in a jump, another piece, and the jump patched to lead here. */
  lemma PatchOver(s0: Snap, s1: Snap, s2: Snap, a: nat, b: nat, x: seq<nat>, c: nat, d: nat, y: seq<nat>) returns (s3: Snap)
    requires Grows(s0, s1, a + 1, b, x) && Grows(s1, s2, c, d, y) && IsJump(s1.ch.code[Pc(s0) + a])
    ensures Pc(s0) + a < Pc(s2) && IsJump(s2.ch.code[Pc(s0) + a]) && s3 == Patch(s2, Pc(s0) + a)
    ensures Grows(s0, s3, a + 1 + c, b + d, x + y) && Ctx(s1.loops) == Ctx(s0.loops)
    ensures At(s3.ch, Pc(s0) + a, Retarget(s1.ch.code[Pc(s0) + a], c))
    ensures Agree(s1.ch, s3.ch, Pc(s0), Pc(s0) + a) && Agree(s2.ch, s3.ch, Pc(s1), Pc(s2))
  {
    GrowsThen(s0, s1, s2, a + 1, b, x, c, d, y);
    assert s2.ch.code[Pc(s0) + a] == s1.ch.code[Pc(s0) + a];
    s3 := Patch(s2, Pc(s0) + a);
    GrowsPatch(s0, s2, a + 1 + c, b + d, x + y, Pc(s0) + a);
  }

  /** The same with a jump after the second piece, which the first jump skips. */
  lemma JumpOver(s0: Snap, s1: Snap, s2: Snap, a: nat, b: nat, x: seq<nat>, c: nat, d: nat, y: seq<nat>) returns (s4: Snap)
    requires Grows(s0, s1, a + 1, b, x) && Grows(s1, s2, c, d, y) && IsJump(s1.ch.code[Pc(s0) + a])
    ensures Pc(s0) + a < Pc(s2) && IsJump(Plus(s2, Jmp(0)).ch.code[Pc(s0) + a])
    ensures s4 == Patch(Plus(s2, Jmp(0)), Pc(s0) + a) && Grows(s0, s4, a + 1 + c + 1, b + d, x + y)
    ensures At(s4.ch, Pc(s0) + a, Retarget(s1.ch.code[Pc(s0) + a], c + 1)) && At(s4.ch, Pc(s2), Jmp(0))
    ensures Agree(s1.ch, s4.ch, Pc(s0), Pc(s0) + a) && Agree(s2.ch, s4.ch, Pc(s1), Pc(s2))
  {
    GrowsPlus(s2, Jmp(0));
    GrowsThen(s1, s2, Plus(s2, Jmp(0)), c, d, y, 1, 0, []);
    assert y + [] == y;
    s4 := PatchOver(s0, s1, Plus(s2, Jmp(0)), a, b, x, c + 1, d, y);
  }

  /** `and` and `or`: the left operand, a jump over the right one, the right one. */
  lemma ShortEmits(h: Host, s0: Snap, s1: Snap, s2: Snap, s3: Snap, e: Expr, dest: Reg)
    requires (e.EAnd? || e.EOr?) && Emits(h, s0, s1, e.l, dest)
    requires s2 == Plus(s1, if e.EAnd? then And(dest, 0) else Or(dest, 0)) && Emits(h, s2, s3, e.r, dest)
    ensures Pc(s1) < Pc(s3) && IsJump(s3.ch.code[Pc(s1)]) && Emits(h, s0, Patch(s3, Pc(s1)), e, dest)
  {
    OpenSizes(e);
    OpenBreaks(e, Pc(s0));
    GrowsPlus(s1, s2.ch.code[Pc(s1)]);
    GrowsThen(s0, s1, s2, Size(e.l), Consts(e.l), BreakSlots(e.l, Pc(s0)), 1, 0, []);
    assert BreakSlots(e.l, Pc(s0)) + [] == BreakSlots(e.l, Pc(s0));
    var s4 := PatchOver(s0, s2, s3, Size(e.l), Consts(e.l), BreakSlots(e.l, Pc(s0)), Size(e.r), Consts(e.r), BreakSlots(e.r, Pc(s2)));
    Stays(h, s3.ch, s4.ch, e.r, dest, s1.next, Pc(s2), K(s1), Ctx(s0.loops));
    ShortCode(h, s1.ch, s4.ch, e, dest, s0.next, Pc(s0), K(s0), Ctx(s0.loops));
  }

  lemma ShortCode(h: Host, ch: Chunk, ch': Chunk, e: Expr, dest: Reg, next: nat, pc: nat, k: nat, lp: LoopCtx)
    requires (e.EAnd? || e.EOr?) && Agree(ch, ch', pc, pc + Size(e.l)) && At(ch', pc + Size(e.l), ShortIns(e, dest))
    requires CodeFor(h, ch, e.l, dest, next, pc, k, lp)
    requires CodeFor(h, ch', e.r, dest, NextReg(e.l, next), pc + Size(e.l) + 1, k + Consts(e.l), lp)
    ensures CodeFor(h, ch', e, dest, next, pc, k, lp)
  {
    OpenCode(h, ch', e, dest, next, pc, k, lp);
    Stays(h, ch, ch', e.l, dest, next, pc, k, lp);
  }

  /** `break` leaves a jump for the loop around it to patch. */
  lemma BreakEmits(h: Host, s: Snap, dest: Reg)
    requires s.loops != []
    ensures Emits(h, s, Plus(Plus(s, Jmp(0)), LoadNull(dest)).(loops := AddBreaks(s.loops, [Pc(s)])), EBreak, dest)
  {
    OpenSizes(EBreak);
    OpenBreaks(EBreak, Pc(s));
    var s2 := Plus(Plus(s, Jmp(0)), LoadNull(dest)).(loops := AddBreaks(s.loops, [Pc(s)]));
    OpenCode(h, s2.ch, EBreak, dest, s.next, Pc(s), K(s), Ctx(s.loops));
  }

  lemma ContinueEmits(h: Host, s: Snap, dest: Reg)
    requires s.loops != [] && s.loops[|s.loops| - 1].start <= Pc(s)
    ensures Emits(h, s, Plus(s, LoopTo(Pc(s), s.loops[|s.loops| - 1].start)), EContinue, dest)
  {
    OpenSizes(EContinue);
    OpenBreaks(EContinue, Pc(s));
    var i := LoopTo(Pc(s), s.loops[|s.loops| - 1].start);
    GrowsPlus(s, i);
    OpenCode(h, Plus(s, i).ch, EContinue, dest, s.next, Pc(s), K(s), Ctx(s.loops));
  }

  /** An `if` up to its second branch. */
  predicate HalfIf(h: Host, s0: Snap, s4: Snap, e: Expr, dest: nat, nt: nat)
    requires e.EIf?
  {
    var EIf(c, t, _) := e;
    var pt := Pc(s0) + Size(c) + 1;
    && Grows(s0, s4, Size(c) + 1 + Size(t) + 1, Consts(c) + Consts(t), BreakSlots(c, Pc(s0)) + BreakSlots(t, pt))
    && At(s4.ch, pt + Size(t), Jmp(0)) && nt == NextReg(c, s0.next) && s4.next == NextReg(t, nt)
    && CodeForCond(h, s4.ch, c, e, dest, s0.next, s0.next, Pc(s0), K(s0), Ctx(s0.loops), Size(t) + 1)
    && CodeFor(h, s4.ch, t, dest, nt, pt, K(s0) + Consts(c), Ctx(s0.loops))
  }

  lemma IfHalf(h: Host, s0: Snap, s1: Snap, s2: Snap, e: Expr, dest: Reg) returns (s4: Snap)
    requires e.EIf? && EmitsCond(h, s0, s1, e.cond, e, dest, s0.next) && s1.next == NextReg(e.cond, s0.next)
    requires Emits(h, s1, s2, e.thn, dest)
    ensures Pc(s0) + Size(e.cond) < Pc(s2) && IsJump(Plus(s2, Jmp(0)).ch.code[Pc(s0) + Size(e.cond)])
    ensures s4 == Patch(Plus(s2, Jmp(0)), Pc(s0) + Size(e.cond)) && HalfIf(h, s0, s4, e, dest, s1.next)
  {
    var EIf(c, t, _) := e;
    CondEnd(h, s1.ch, c, e, dest, s0.next, s0.next, Pc(s0), K(s0), Ctx(s0.loops), 0);
    s4 := JumpOver(s0, s1, s2, Size(c), Consts(c), BreakSlots(c, Pc(s0)), Size(t), Consts(t), BreakSlots(t, Pc(s1)));
    CondStays(h, s1.ch, s4.ch, c, e, dest, s0.next, s0.next, Pc(s0), K(s0), Ctx(s0.loops), 0, Size(t) + 1);
    Stays(h, s2.ch, s4.ch, t, dest, s1.next, Pc(s1), K(s1), Ctx(s0.loops));
  }

  lemma CondEnd(h: Host, ch: Chunk, c: Expr, parent: Expr, cd: Reg, cn: nat, temps: nat, pc: nat, k: nat, lp: LoopCtx, skip: nat)
    requires c < parent && CodeForCond(h, ch, c, parent, cd, cn, temps, pc, k, lp, skip)
    ensures At(ch, pc + Size(c), CondJump(c, cd, skip))
  {
    if IsFused(c) { OpenSizes(c); }
  }

  lemma CondStays(h: Host, ch: Chunk, ch': Chunk, c: Expr, parent: Expr, cd: Reg, cn: nat, temps: nat, pc: nat, k: nat,
                  lp: LoopCtx, skip: nat, skip': nat)
    requires c < parent && CodeForCond(h, ch, c, parent, cd, cn, temps, pc, k, lp, skip)
    requires Agree(ch, ch', pc, pc + Size(c)) && At(ch', pc + Size(c), CondJump(c, cd, skip'))
    ensures CodeForCond(h, ch', c, parent, cd, cn, temps, pc, k, lp, skip')
  {
    CondRetarget(h, Same(ch, ch', pc, pc + Size(c), BreakSlots(c, pc), lp), c, parent, cd, cn, temps, pc, k, skip, skip');
  }

  lemma IfEmits(h: Host, s0: Snap, s4: Snap, s5: Snap, e: Expr, dest: Reg, nt: nat) returns (pj: nat)
    requires e.EIf? && HalfIf(h, s0, s4, e, dest, nt) && Emits(h, s4, s5, e.els, dest)
    ensures pj == Pc(s4) - 1 && pj < Pc(s5) && IsJump(s5.ch.code[pj]) && Emits(h, s0, Patch(s5, pj), e, dest)
  {
    OpenSizes(e);
    OpenBreaks(e, Pc(s0));
    var EIf(c, t, f) := e;
    pj := Pc(s0) + Size(c) + 1 + Size(t);
    var s6 := PatchOver(s0, s4, s5, Size(c) + 1 + Size(t), Consts(c) + Consts(t),
                        BreakSlots(c, Pc(s0)) + BreakSlots(t, Pc(s0) + Size(c) + 1), Size(f), Consts(f), BreakSlots(f, Pc(s4)));
    Stays(h, s5.ch, s6.ch, f, dest, s4.next, Pc(s4), K(s4), Ctx(s0.loops));
    IfCode(h, s4.ch, s6.ch, e, dest, s0.next, Pc(s0), K(s0), Ctx(s0.loops));
  }

  /** The code of an `if` whose second jump has been patched. */
  lemma IfCode(h: Host, ch: Chunk, ch': Chunk, e: Expr, dest: Reg, next: nat, pc: nat, k: nat, lp: LoopCtx)
    requires e.EIf? && Agree(ch, ch', pc, pc + Size(e.cond) + 1 + Size(e.thn))
    requires At(ch', pc + Size(e.cond) + 1 + Size(e.thn), Jmp(Size(e.els)))
    requires CodeForCond(h, ch, e.cond, e, dest, next, next, pc, k, lp, Size(e.thn) + 1)
    requires CodeFor(h, ch, e.thn, dest, NextReg(e.cond, next), pc + Size(e.cond) + 1, k + Consts(e.cond), lp)
    requires CodeFor(h, ch', e.els, dest, NextReg(e.thn, NextReg(e.cond, next)), pc + Size(e.cond) + 1 + Size(e.thn) + 1,
                     k + Consts(e.cond) + Consts(e.thn), lp)
    ensures CodeFor(h, ch', e, dest, next, pc, k, lp)
  {
    OpenCode(h, ch', e, dest, next, pc, k, lp);
    var EIf(c, t, f) := e;
    CondEnd(h, ch, c, e, dest, next, next, pc, k, lp, Size(t) + 1);
    CondStays(h, ch, ch', c, e, dest, next, next, pc, k, lp, Size(t) + 1, Size(t) + 1);
    Stays(h, ch, ch', t, dest, NextReg(c, next), pc + Size(c) + 1, k + Consts(c), lp);
  }

  // ---- loops ----

  function Entered(s: Snap): Snap {
    s.(loops := s.loops + [LoopInfo(Pc(s), [])])
  }

  /** The condition and the body of a loop that is still open. */
  predicate LoopParts(h: Host, ch: Chunk, e: Expr, dest: nat, next: nat, pc: nat, k: nat)
    requires e.ELoop?
  {
    && CodeForCond(h, ch, e.cond, e, next, next + 1, next, pc, k, Open(pc), SizeSeq(e.body) + 1)
    && CodeForSeq(h, ch, e.body, dest, LoopBodyReg(e.cond, next), pc + Size(e.cond) + 1, k + Consts(e.cond), Open(pc))
  }

  /** A loop with everything but its `break` jumps in place. */
  predicate OpenLoop(h: Host, s0: Snap, s3: Snap, e: Expr, dest: Reg)
    requires e.ELoop?
  {
    && Grows(Entered(s0), s3, LoopOffset(e.cond, e.body) + 1, Consts(e.cond) + ConstsSeq(e.body),
             LoopBreaks(e.cond, e.body, Pc(s0)))
    && LoopParts(h, s3.ch, e, dest, s0.next, Pc(s0), K(s0))
    && At(s3.ch, Pc(s3) - 2, Loop(SBxReadBack(LoopOffset(e.cond, e.body)))) && At(s3.ch, Pc(s3) - 1, LoadNull(dest))
  }

  /** A piece that ends in a jump, another piece, the instruction `back`, the jump
      patched to lead after that, and the instruction `last`. */
  lemma LoopGrowth(s0: Snap, s1: Snap, s2: Snap, a: nat, b: nat, x: seq<nat>, c: nat, d: nat, y: seq<nat>, back: Ins, last: Ins)
    returns (s3: Snap)
    requires Grows(s0, s1, a + 1, b, x) && Grows(s1, s2, c, d, y) && IsJump(s1.ch.code[Pc(s0) + a])
    ensures Pc(s0) + a < Pc(s2) && IsJump(Plus(s2, back).ch.code[Pc(s0) + a])
    ensures s3 == Plus(Patch(Plus(s2, back), Pc(s0) + a), last) && Grows(s0, s3, a + 1 + c + 2, b + d, x + y)
    ensures At(s3.ch, Pc(s0) + a, Retarget(s1.ch.code[Pc(s0) + a], c + 1)) && At(s3.ch, Pc(s2), back) && At(s3.ch, Pc(s2) + 1, last)
    ensures Agree(s1.ch, s3.ch, Pc(s0), Pc(s0) + a) && Agree(s2.ch, s3.ch, Pc(s1), Pc(s2))
  {
    GrowsPlus(s2, back);
    GrowsThen(s1, s2, Plus(s2, back), c, d, y, 1, 0, []);
    assert y + [] == y;
    var sp := PatchOver(s0, s1, Plus(s2, back), a, b, x, c + 1, d, y);
    s3 := Plus(sp, last);
    GrowsPlus(sp, last);
    GrowsThen(s0, sp, s3, a + 1 + c + 1, b + d, x + y, 1, 0, []);
    assert x + y + [] == x + y;
  }

  /** How the pieces of a loop stand in its code; `s1` and `s2` are the states after
      the condition and after the body. */
  predicate LoopFrame(s0: Snap, s1: Snap, s2: Snap, s3: Snap, c: Expr, body: seq<Expr>, dest: Reg)
    requires s0.next < 256
  {
    && Grows(Entered(s0), s3, LoopOffset(c, body) + 1, Consts(c) + ConstsSeq(body), LoopBreaks(c, body, Pc(s0)))
    && At(s3.ch, Pc(s0) + Size(c), CondJump(c, s0.next, SizeSeq(body) + 1))
    && At(s3.ch, Pc(s3) - 2, Loop(SBxReadBack(LoopOffset(c, body)))) && At(s3.ch, Pc(s3) - 1, LoadNull(dest))
    && Agree(s1.ch, s3.ch, Pc(s0), Pc(s0) + Size(c))
    && Agree(s2.ch, s3.ch, Pc(s0) + Size(c) + 1, Pc(s0) + Size(c) + 1 + SizeSeq(body))
  }

  lemma LoopInstruction(s0: Snap, s2: Snap, c: Expr, body: seq<Expr>)
    requires s0.next < 256 && Pc(s2) == Pc(s0) + Size(c) + 1 + SizeSeq(body)
    ensures LoopTo(Pc(s2), Pc(s0)) == Loop(SBxReadBack(LoopOffset(c, body))) && IsJump(CondJump(c, s0.next, 0))
  {
  }

  lemma LoopFramed(s0: Snap, s1: Snap, s2: Snap, c: Expr, body: seq<Expr>, dest: Reg) returns (s3: Snap)
    requires s0.next < 256 && Grows(Entered(s0), s1, Size(c) + 1, Consts(c), BreakSlots(c, Pc(s0)))
    requires Grows(s1, s2, SizeSeq(body), ConstsSeq(body), BreakSlotsSeq(body, Pc(s1)))
    requires s1.ch.code[Pc(s0) + Size(c)] == CondJump(c, s0.next, 0)
    ensures Pc(s0) + Size(c) < Pc(s2) && IsJump(Plus(s2, LoopTo(Pc(s2), Pc(s0))).ch.code[Pc(s0) + Size(c)])
    ensures s3 == Plus(Patch(Plus(s2, LoopTo(Pc(s2), Pc(s0))), Pc(s0) + Size(c)), LoadNull(dest))
    ensures LoopFrame(s0, s1, s2, s3, c, body, dest)
  {
    var i := LoopTo(Pc(s2), Pc(s0));
    LoopInstruction(s0, s2, c, body);
    s3 := LoopGrowth(Entered(s0), s1, s2, Size(c), Consts(c), BreakSlots(c, Pc(s0)),
                     SizeSeq(body), ConstsSeq(body), BreakSlotsSeq(body, Pc(s1)), i, LoadNull(dest));
  }

  lemma FramedOpens(h: Host, s0: Snap, s1: Snap, s2: Snap, s3: Snap, e: Expr, dest: Reg)
    requires e.ELoop? && s0.next < 256 && LoopFrame(s0, s1, s2, s3, e.cond, e.body, dest)
    requires EmitsCond(h, Entered(s0), s1, e.cond, e, s0.next, s0.next + 1)
    requires s1.next == LoopBodyReg(e.cond, s0.next) && EmitsSeq(h, s1, s2, e.body, dest)
    ensures OpenLoop(h, s0, s3, e, dest)
  {
    LoopPieces(h, s1.ch, s2.ch, s3.ch, e, dest, s0.next, Pc(s0), K(s0));
  }

  /** The loop instruction, the exit jump patched, and the result of the loop. */
  lemma LoopOpens(h: Host, s0: Snap, s1: Snap, s2: Snap, e: Expr, dest: Reg) returns (s3: Snap)
    requires e.ELoop? && s0.next < 256 && EmitsCond(h, Entered(s0), s1, e.cond, e, s0.next, s0.next + 1)
    requires s1.next == LoopBodyReg(e.cond, s0.next) && EmitsSeq(h, s1, s2, e.body, dest)
    ensures Pc(s0) + Size(e.cond) < Pc(s2) && IsJump(Plus(s2, LoopTo(Pc(s2), Pc(s0))).ch.code[Pc(s0) + Size(e.cond)])
    ensures s3 == Plus(Patch(Plus(s2, LoopTo(Pc(s2), Pc(s0))), Pc(s0) + Size(e.cond)), LoadNull(dest))
    ensures OpenLoop(h, s0, s3, e, dest)
  {
    CondEnd(h, s1.ch, e.cond, e, s0.next, s0.next + 1, s0.next, Pc(s0), K(s0), Open(Pc(s0)), 0);
    s3 := LoopFramed(s0, s1, s2, e.cond, e.body, dest);
    FramedOpens(h, s0, s1, s2, s3, e, dest);
  }

  lemma LoopPieces(h: Host, ch1: Chunk, ch2: Chunk, ch: Chunk, e: Expr, dest: Reg, next: nat, pc: nat, k: nat)
    requires e.ELoop? && next < 256
    requires Agree(ch1, ch, pc, pc + Size(e.cond)) && Agree(ch2, ch, pc + Size(e.cond) + 1, pc + Size(e.cond) + 1 + SizeSeq(e.body))
    requires At(ch, pc + Size(e.cond), CondJump(e.cond, next, SizeSeq(e.body) + 1))
    requires CodeForCond(h, ch1, e.cond, e, next, next + 1, next, pc, k, Open(pc), 0)
    requires CodeForSeq(h, ch2, e.body, dest, LoopBodyReg(e.cond, next), pc + Size(e.cond) + 1, k + Consts(e.cond), Open(pc))
    ensures LoopParts(h, ch, e, dest, next, pc, k)
  {
    CondStays(h, ch1, ch, e.cond, e, next, next + 1, next, pc, k, Open(pc), 0, SizeSeq(e.body) + 1);
    StaysSeq(h, ch2, ch, e.body, dest, LoopBodyReg(e.cond, next), pc + Size(e.cond) + 1, k + Consts(e.cond), Open(pc));
  }

  /** The jumps to patch are inside the loop and still jump by zero. */
  lemma LoopBreaksJump(h: Host, s0: Snap, s3: Snap, e: Expr, dest: Reg)
    requires e.ELoop? && s0.next < 256 && OpenLoop(h, s0, s3, e, dest)
    ensures forall i | i in LoopBreaks(e.cond, e.body, Pc(s0)) :: Pc(s0) <= i && At(s3.ch, i, Jmp(0))
  {
    var ELoop(c, body) := e;
    BreaksInside(c, Pc(s0));
    BreaksInsideSeq(body, Pc(s0) + Size(c) + 1);
    BreaksJumpCond(h, s3.ch, c, e, s0.next, s0.next + 1, s0.next, Pc(s0), K(s0), Open(Pc(s0)), SizeSeq(body) + 1);
    BreaksJumpSeq(h, s3.ch, body, dest, LoopBodyReg(c, s0.next), Pc(s0) + Size(c) + 1, K(s0) + Consts(c), Open(Pc(s0)));
  }

  /** All of `slots` now lead to the end of the code. */
  predicate BreaksPatched(ch: Chunk, ch': Chunk, slots: seq<nat>) {
    && |ch'.code| == |ch.code| && ch'.consts == ch.consts
    && forall i :: 0 <= i < |ch.code| ==> ch'.code[i] == if i in slots then Jmp(|ch.code| - i - 1) else ch.code[i]
  }

  lemma LoopEmits(h: Host, s0: Snap, s3: Snap, s4: Snap, e: Expr, dest: Reg)
    requires e.ELoop? && s0.next < 256 && OpenLoop(h, s0, s3, e, dest)
    requires BreaksPatched(s3.ch, s4.ch, LoopBreaks(e.cond, e.body, Pc(s0)))
    requires s4.loops == s0.loops && s4.depth == s0.depth && s4.next == NextRegSeq(e.body, LoopBodyReg(e.cond, s0.next))
    ensures Emits(h, s0, s4, e, dest)
  {
    LoopShape(e, s0.next, Pc(s0));
    LoopGrows(s0, s3, s4, Size(e), Consts(e), e);
    LoopCode(h, s3.ch, s4.ch, e, dest, s0.next, Pc(s0), K(s0), Ctx(s0.loops));
  }

  lemma LoopShape(e: Expr, next: nat, pc: nat)
    requires e.ELoop?
    ensures Size(e) == LoopOffset(e.cond, e.body) + 1 && Consts(e) == Consts(e.cond) + ConstsSeq(e.body)
    ensures NextReg(e, next) == NextRegSeq(e.body, LoopBodyReg(e.cond, next)) && BreakSlots(e, pc) == []
  {
    OpenSizes(e);
    OpenBreaks(e, pc);
  }

  lemma LoopGrows(s0: Snap, s3: Snap, s4: Snap, size: nat, consts: nat, e: Expr)
    requires e.ELoop? && Grows(Entered(s0), s3, size, consts, LoopBreaks(e.cond, e.body, Pc(s0)))
    requires BreaksPatched(s3.ch, s4.ch, LoopBreaks(e.cond, e.body, Pc(s0)))
    requires s4.loops == s0.loops && s4.depth == s0.depth
    ensures Grows(s0, s4, size, consts, [])
  {
    BreaksInside(e.cond, Pc(s0));
    BreaksInsideSeq(e.body, Pc(s0) + Size(e.cond) + 1);
    GrowsPlus(s0, LoadNull(0));
    assert s0.ch.code <= s4.ch.code;
  }

  /** What carries the condition and the body into the closed loop. */
  lemma LoopMove(ch: Chunk, ch': Chunk, c: Expr, body: seq<Expr>, pc: nat) returns (m: Move)
    requires |ch.code| == pc + LoopOffset(c, body) + 1 && BreaksPatched(ch, ch', LoopBreaks(c, body, pc))
    ensures m.ch == ch && m.ch' == ch' && m.lp == Open(pc) && m.lp' == Closed(pc, |ch.code|)
    ensures Covers(m, BreakSlots(c, pc), pc, Size(c))
    ensures Covers(m, BreakSlotsSeq(body, pc + Size(c) + 1), pc + Size(c) + 1, SizeSeq(body))
    ensures forall i :: i == pc + Size(c) || |ch.code| - 2 <= i < |ch.code| ==> ch'.code[i] == ch.code[i]
  {
    var pb := pc + Size(c) + 1;
    BreaksInside(c, pc);
    BreaksInsideSeq(body, pb);
    var slots := LoopBreaks(c, body, pc);
    OwnsSplit(slots, BreakSlots(c, pc), BreakSlotsSeq(body, pb), pc, pb - 1, pb, pb + SizeSeq(body));
    m := Move(ch, ch', pc, pb + SizeSeq(body), slots, Open(pc), Closed(pc, |ch.code|));
  }

  lemma LoopCarried(h: Host, m: Move, e: Expr, dest: Reg, next: nat, pc: nat, k: nat)
    requires e.ELoop? && next < 256 && LoopParts(h, m.ch, e, dest, next, pc, k) && m.lp == Open(pc)
    requires Covers(m, BreakSlots(e.cond, pc), pc, Size(e.cond))
    requires Covers(m, BreakSlotsSeq(e.body, pc + Size(e.cond) + 1), pc + Size(e.cond) + 1, SizeSeq(e.body))
    requires m.ch'.code[pc + Size(e.cond)] == m.ch.code[pc + Size(e.cond)]
    ensures CodeForCond(h, m.ch', e.cond, e, next, next + 1, next, pc, k, m.lp', SizeSeq(e.body) + 1)
    ensures CodeForSeq(h, m.ch', e.body, dest, LoopBodyReg(e.cond, next), pc + Size(e.cond) + 1, k + Consts(e.cond), m.lp')
  {
    CondEnd(h, m.ch, e.cond, e, next, next + 1, next, pc, k, Open(pc), SizeSeq(e.body) + 1);
    CondRetarget(h, m, e.cond, e, next, next + 1, next, pc, k, SizeSeq(e.body) + 1, SizeSeq(e.body) + 1);
    CarrySeq(h, m, e.body, dest, LoopBodyReg(e.cond, next), pc + Size(e.cond) + 1, k + Consts(e.cond));
  }

  lemma LoopCode(h: Host, ch: Chunk, ch': Chunk, e: Expr, dest: Reg, next: nat, pc: nat, k: nat, lp: LoopCtx)
    requires e.ELoop? && next < 256 && |ch.code| == pc + Size(e) == pc + LoopOffset(e.cond, e.body) + 1
    requires BreaksPatched(ch, ch', LoopBreaks(e.cond, e.body, pc)) && LoopParts(h, ch, e, dest, next, pc, k)
    requires At(ch, |ch.code| - 2, Loop(SBxReadBack(LoopOffset(e.cond, e.body)))) && At(ch, |ch.code| - 1, LoadNull(dest))
    ensures CodeFor(h, ch', e, dest, next, pc, k, lp)
  {
    var m := LoopMove(ch, ch', e.cond, e.body, pc);
    LoopCarried(h, m, e, dest, next, pc, k);
    OpenCode(h, ch', e, dest, next, pc, k, lp);
  }
}
