/** Code stays valid when its chunk grows, and when the `break` jumps of the loop
    around it are patched. */
module Patching {
  import opened Semantics
  import opened Bytecode
  import opened Layout

  predicate Inside(slots: seq<nat>, lo: nat, hi: nat) {
    forall i | i in slots :: lo <= i < hi
  }

  /** Of the positions from `lo` to `hi`, `slots` holds those in `mine`. */
  predicate Owns(slots: seq<nat>, mine: seq<nat>, lo: nat, hi: nat) {
    forall i :: lo <= i < hi ==> (i in slots <==> i in mine)
  }

  lemma OwnsSplit(slots: seq<nat>, a: seq<nat>, b: seq<nat>, lo: nat, mid: nat, mid': nat, hi: nat)
    requires Owns(slots, a + b, lo, hi) && lo <= mid <= mid' <= hi
    requires Inside(a, lo, mid) && Inside(b, mid', hi)
    ensures Owns(slots, a, lo, mid) && Owns(slots, b, mid', hi) && Inside(a + b, lo, hi)
    ensures forall i :: mid <= i < mid' ==> i !in slots
  {
  }

  lemma {:induction false} BreaksInside(e: Expr, pc: nat)
    ensures Inside(BreakSlots(e, pc), pc, pc + Size(e))
    decreases e, 1
  {
    OpenSizes(e);
    OpenBreaks(e, pc);
    match e
    case EArith(op, a, rest) =>
      BreaksInside(a, pc);
      if !IsFoldable(op, rest) { BreaksInsideOperands(rest, pc + Size(a)); }
    case ECmp(_, a, b) =>
      BreaksInside(a, pc);
      BreaksInside(b, pc + Size(a));
    case ENot(a) => BreaksInside(a, pc);
    case EAssign(_, a) => BreaksInside(a, pc);
    case EIf(c, t, f) =>
      BreaksInside(c, pc);
      BreaksInside(t, pc + Size(c) + 1);
      BreaksInside(f, pc + Size(c) + 1 + Size(t) + 1);
    case EDo(es) => BreaksInsideSeq(es, pc);
    case EAnd(a, b) =>
      BreaksInside(a, pc);
      BreaksInside(b, pc + Size(a) + 1);
    case EOr(a, b) =>
      BreaksInside(a, pc);
      BreaksInside(b, pc + Size(a) + 1);
    case _ =>
  }

  lemma {:induction false} BreaksInsideOperands(es: seq<Expr>, pc: nat)
    ensures Inside(BreakSlotsOperands(es, pc), pc, pc + SizeOperands(es))
    decreases es, 0
  {
    if es != [] {
      BreaksInside(es[0], pc);
      BreaksInsideOperands(es[1..], pc + Size(es[0]) + 1);
    }
  }

  lemma {:induction false} BreaksInsideSeq(es: seq<Expr>, pc: nat)
    ensures Inside(BreakSlotsSeq(es, pc), pc, pc + SizeSeq(es))
    decreases es, 0
  {
    if es != [] {
      BreaksInside(es[0], pc);
      BreaksInsideSeq(es[1..], pc + Size(es[0]));
    }
  }

  /** The loop around is the same, or it has been closed. */
  predicate Closes(lp: LoopCtx, lp': LoopCtx) {
    lp' == lp || (lp.Open? && lp'.Closed? && lp'.start == lp.start)
  }

  /** From `lo` to `hi` the chunks agree, except that the slots of a loop closed in
      between jump to its exit; the constants have only grown. */
  predicate Carries(ch: Chunk, ch': Chunk, lo: nat, hi: nat, slots: seq<nat>, lp: LoopCtx, lp': LoopCtx) {
    && Closes(lp, lp') && hi <= |ch.code| && hi <= |ch'.code| && ch.consts <= ch'.consts
    && forall i :: lo <= i < hi ==>
         ch'.code[i] == if lp' != lp && i in slots then BreakIns(lp', i) else ch.code[i]
  }

  /** What carries a sub-expression inside [lo, hi) over from `ch` to `ch'`. */
  datatype Move = Move(ch: Chunk, ch': Chunk, lo: nat, hi: nat, slots: seq<nat>, lp: LoopCtx, lp': LoopCtx)

  predicate Sound(m: Move) {
    Carries(m.ch, m.ch', m.lo, m.hi, m.slots, m.lp, m.lp')
  }

  /** The move covers code of the given size, whose own break slots are `mine`. */
  predicate Covers(m: Move, mine: seq<nat>, pc: nat, size: nat) {
    Sound(m) && m.lo <= pc && pc + size <= m.hi && Owns(m.slots, mine, pc, pc + size)
  }

  lemma Kept(m: Move, pc: nat, ins: Ins)
    requires Sound(m) && m.lo <= pc < m.hi && pc !in m.slots && At(m.ch, pc, ins)
    ensures At(m.ch', pc, ins)
  {
  }

  lemma {:induction false} Carry(h: Host, m: Move, e: Expr, dest: nat, next: nat, pc: nat, k: nat)
    requires Covers(m, BreakSlots(e, pc), pc, Size(e)) && CodeFor(h, m.ch, e, dest, next, pc, k, m.lp)
    ensures CodeFor(h, m.ch', e, dest, next, pc, k, m.lp')
    decreases e, 4
  {
    OpenSizes(e);
    OpenBreaks(e, pc);
    OpenCode(h, m.ch, e, dest, next, pc, k, m.lp);
    OpenCode(h, m.ch', e, dest, next, pc, k, m.lp');
    match e
    case EArith(_, _, _) => CarryArith(h, m, e, dest, next, pc, k);
    case ECmp(_, _, _) => CarryCmp(h, m, e, dest, next, pc, k);
    case ENot(_) => CarryUnary(h, m, e, dest, next, pc, k);
    case EAssign(_, _) => CarryUnary(h, m, e, dest, next, pc, k);
    case EIf(_, _, _) => CarryIf(h, m, e, dest, next, pc, k);
    case ELoop(_, _) => CarryLoop(h, m, e, dest, next, pc, k);
    case EDo(es) => CarrySeq(h, m, es, dest, next, pc, k);
    case EAnd(_, _) => CarryShort(h, m, e, dest, next, pc, k);
    case EOr(_, _) => CarryShort(h, m, e, dest, next, pc, k);
    case _ => CarryLeaf(h, m, e, dest, next, pc, k);
  }

  lemma {:induction false} CarryUnary(h: Host, m: Move, e: Expr, dest: Reg, next: nat, pc: nat, k: nat)
    requires (e.ENot? || e.EAssign?) && Covers(m, BreakSlots(e, pc), pc, Size(e)) && CodeForDef(h, m.ch, e, dest, next, pc, k, m.lp)
    ensures CodeForDef(h, m.ch', e, dest, next, pc, k, m.lp')
    decreases e, 1
  {
    OpenSizes(e);
    OpenBreaks(e, pc);
    BreaksInside(e.e, pc);
    Carry(h, m, e.e, dest, next, pc, k);
  }

  lemma CarryLeaf(h: Host, m: Move, e: Expr, dest: Reg, next: nat, pc: nat, k: nat)
    requires e.EInt? || e.EFloat? || e.EBool? || e.ENull? || e.EGlobal? || e.EBreak? || e.EContinue?
    requires Covers(m, BreakSlots(e, pc), pc, Size(e)) && CodeForDef(h, m.ch, e, dest, next, pc, k, m.lp)
    ensures CodeForDef(h, m.ch', e, dest, next, pc, k, m.lp')
  {
    OpenSizes(e);
    OpenBreaks(e, pc);
  }

  lemma ArithCovers(m: Move, e: Expr, pc: nat)
    requires e.EArith? && !IsFoldable(e.op, e.rest) && Covers(m, BreakSlots(e, pc), pc, Size(e))
    requires Inside(BreakSlots(e.first, pc), pc, pc + Size(e.first))
    requires Inside(BreakSlotsOperands(e.rest, pc + Size(e.first)), pc + Size(e.first), pc + Size(e.first) + SizeOperands(e.rest))
    ensures Covers(m, BreakSlots(e.first, pc), pc, Size(e.first))
    ensures Covers(m, BreakSlotsOperands(e.rest, pc + Size(e.first)), pc + Size(e.first), SizeOperands(e.rest))
  {
    OpenSizes(e);
    OpenBreaks(e, pc);
    var mid := pc + Size(e.first);
    OwnsSplit(m.slots, BreakSlots(e.first, pc), BreakSlotsOperands(e.rest, mid), pc, mid, mid, pc + Size(e));
  }

  lemma {:induction false} CarryArith(h: Host, m: Move, e: Expr, dest: Reg, next: nat, pc: nat, k: nat)
    requires e.EArith? && Covers(m, BreakSlots(e, pc), pc, Size(e)) && CodeForArith(h, m.ch, e, dest, next, pc, k, m.lp)
    ensures CodeForArith(h, m.ch', e, dest, next, pc, k, m.lp')
    decreases e, 1
  {
    OpenSizes(e);
    OpenBreaks(e, pc);
    var EArith(op, a, rest) := e;
    BreaksInside(a, pc);
    if IsFoldable(op, rest) {
      Carry(h, m, a, dest, next, pc, k);
    } else {
      var mid := pc + Size(a);
      BreaksInsideOperands(rest, mid);
      ArithCovers(m, e, pc);
      Carry(h, m, a, dest, next, pc, k);
      CarryOperands(h, m, op, rest, dest, NextReg(a, next), next, mid, k + Consts(a));
    }
  }

  lemma {:induction false} CarryCmp(h: Host, m: Move, e: Expr, dest: Reg, next: nat, pc: nat, k: nat)
    requires e.ECmp? && Covers(m, BreakSlots(e, pc), pc, Size(e)) && CodeForCmp(h, m.ch, e, dest, next, pc, k, m.lp)
    ensures CodeForCmp(h, m.ch', e, dest, next, pc, k, m.lp')
    decreases e, 1
  {
    OpenSizes(e);
    OpenBreaks(e, pc);
    BreaksInside(e.l, pc);
    BreaksInside(e.r, pc + Size(e.l));
    CarryPair(h, m, e, next, pc, k);
  }

  /** The operands of a comparison end one instruction before it does. */
  lemma {:induction false} CarryPair(h: Host, m: Move, e: Expr, next: nat, pc: nat, k: nat)
    requires e.ECmp? && Covers(m, BreakSlots(e, pc), pc, Size(e.l) + Size(e.r)) && CodeForPair(h, m.ch, e, next, pc, k, m.lp)
    ensures CodeForPair(h, m.ch', e, next, pc, k, m.lp')
    decreases e, 0
  {
    OpenSizes(e);
    OpenBreaks(e, pc);
    var mid := pc + Size(e.l);
    BreaksInside(e.l, pc);
    BreaksInside(e.r, mid);
    OwnsSplit(m.slots, BreakSlots(e.l, pc), BreakSlots(e.r, mid), pc, mid, mid, mid + Size(e.r));
    Carry(h, m, e.l, next, next + 1, pc, k);
    var rb := NextReg(e.l, next + 1);
    Carry(h, m, e.r, rb, rb + 1, mid, k + Consts(e.l));
  }

  /** The instruction that leaves a condition that does not hold. */
  function CondJump(c: Expr, cd: Reg, skip: int): Ins {
    if IsFused(c) then Jmp(skip) else JmpFalse(cd, skip)
  }

  /** A condition carried over, with another jump at its end. */
  lemma {:induction false} CondRetarget(h: Host, m: Move, c: Expr, parent: Expr, cd: Reg, cn: nat, temps: nat, pc: nat, k: nat,
                                        skip: nat, skip': nat)
    requires c < parent && Covers(m, BreakSlots(c, pc), pc, Size(c))
    requires CodeForCond(h, m.ch, c, parent, cd, cn, temps, pc, k, m.lp, skip)
    requires At(m.ch', pc + Size(c), CondJump(c, cd, skip'))
    ensures CodeForCond(h, m.ch', c, parent, cd, cn, temps, pc, k, m.lp', skip')
    decreases parent, 0
  {
    BreaksInside(c, pc);
    if IsFused(c) {
      OpenSizes(c);
      OpenBreaks(c, pc);
      BreaksInside(c.l, pc);
      BreaksInside(c.r, pc + Size(c.l));
      CarryPair(h, m, c, temps, pc, k);
    } else {
      Carry(h, m, c, cd, cn, pc, k);
    }
  }

  lemma {:induction false} CarryCond(h: Host, m: Move, c: Expr, parent: Expr, cd: nat, cn: nat, temps: nat, pc: nat, k: nat, skip: nat)
    requires c < parent && cd < 256 && Covers(m, BreakSlots(c, pc), pc, Size(c) + 1)
    requires CodeForCond(h, m.ch, c, parent, cd, cn, temps, pc, k, m.lp, skip)
    ensures CodeForCond(h, m.ch', c, parent, cd, cn, temps, pc, k, m.lp', skip)
    decreases parent, 1
  {
    BreaksInside(c, pc);
    if IsFused(c) { OpenSizes(c); }
    Kept(m, pc + Size(c), CondJump(c, cd, skip));
    CondRetarget(h, m, c, parent, cd, cn, temps, pc, k, skip, skip);
  }

  lemma {:induction false} CarryIf(h: Host, m: Move, e: Expr, dest: Reg, next: nat, pc: nat, k: nat)
    requires e.EIf? && Covers(m, BreakSlots(e, pc), pc, Size(e)) && CodeForIf(h, m.ch, e, dest, next, pc, k, m.lp)
    ensures CodeForIf(h, m.ch', e, dest, next, pc, k, m.lp')
    decreases e, 2
  {
    OpenSizes(e);
    OpenBreaks(e, pc);
    var EIf(c, t, f) := e;
    var pt := pc + Size(c) + 1;
    var pf := pt + Size(t) + 1;
    BreaksInside(c, pc);
    BreaksInside(t, pt);
    BreaksInside(f, pf);
    OwnsSplit(m.slots, BreakSlots(c, pc) + BreakSlots(t, pt), BreakSlots(f, pf), pc, pf - 1, pf, pc + Size(e));
    OwnsSplit(m.slots, BreakSlots(c, pc), BreakSlots(t, pt), pc, pt - 1, pt, pf - 1);
    CarryCond(h, m, c, e, dest, next, next, pc, k, Size(t) + 1);
    Carry(h, m, t, dest, NextReg(c, next), pt, k + Consts(c));
    Carry(h, m, f, dest, NextReg(t, NextReg(c, next)), pf, k + Consts(c) + Consts(t));
  }

  lemma {:induction false} CarryShort(h: Host, m: Move, e: Expr, dest: Reg, next: nat, pc: nat, k: nat)
    requires (e.EAnd? || e.EOr?) && Covers(m, BreakSlots(e, pc), pc, Size(e)) && CodeForShort(h, m.ch, e, dest, next, pc, k, m.lp)
    ensures CodeForShort(h, m.ch', e, dest, next, pc, k, m.lp')
    decreases e, 1
  {
    OpenSizes(e);
    OpenBreaks(e, pc);
    var pr := pc + Size(e.l) + 1;
    BreaksInside(e.l, pc);
    BreaksInside(e.r, pr);
    OwnsSplit(m.slots, BreakSlots(e.l, pc), BreakSlots(e.r, pr), pc, pr - 1, pr, pc + Size(e));
    Carry(h, m, e.l, dest, next, pc, k);
    Carry(h, m, e.r, dest, NextReg(e.l, next), pr, k + Consts(e.l));
  }

  /** A loop has no break slot of its surroundings, so its code does not change. */
  lemma {:induction false} CarryLoop(h: Host, m: Move, e: Expr, dest: Reg, next: nat, pc: nat, k: nat)
    requires e.ELoop? && Covers(m, [], pc, Size(e)) && CodeForLoop(h, m.ch, e, dest, next, pc, k)
    ensures CodeForLoop(h, m.ch', e, dest, next, pc, k)
    decreases e, 3
  {
    OpenSizes(e);
    CarryLoopParts(h, m, e, dest, next, pc, k, Closed(pc, pc + Size(e)));
  }

  lemma {:induction false} CarryLoopParts(h: Host, m: Move, e: Expr, dest: Reg, next: nat, pc: nat, k: nat, inner: LoopCtx)
    requires e.ELoop? && Covers(m, [], pc, LoopOffset(e.cond, e.body) + 1) && next < 256
    requires CodeForCond(h, m.ch, e.cond, e, next, next + 1, next, pc, k, inner, SizeSeq(e.body) + 1)
    requires CodeForSeq(h, m.ch, e.body, dest, LoopBodyReg(e.cond, next), pc + Size(e.cond) + 1, k + Consts(e.cond), inner)
    ensures CodeForCond(h, m.ch', e.cond, e, next, next + 1, next, pc, k, inner, SizeSeq(e.body) + 1)
    ensures CodeForSeq(h, m.ch', e.body, dest, LoopBodyReg(e.cond, next), pc + Size(e.cond) + 1, k + Consts(e.cond), inner)
    decreases e, 2
  {
    var ELoop(c, body) := e;
    var pb, size := pc + Size(c) + 1, LoopOffset(c, body) + 1;
    var mc := InnerMove(m, pc, size, inner, pc, pb, BreakSlots(c, pc));
    CarryCond(h, mc, c, e, next, next + 1, next, pc, k, SizeSeq(body) + 1);
    var mb := InnerMove(m, pc, size, inner, pb, pb + SizeSeq(body), BreakSlotsSeq(body, pb));
    CarrySeq(h, mb, body, dest, LoopBodyReg(c, next), pb, k + Consts(c));
  }

  /** Inside such a loop nothing is patched. */
  lemma InnerMove(m: Move, pc: nat, size: nat, inner: LoopCtx, lo: nat, hi: nat, slots: seq<nat>) returns (within: Move)
    requires Covers(m, [], pc, size) && pc <= lo <= hi <= pc + size
    ensures within == Move(m.ch, m.ch', lo, hi, slots, inner, inner) && Covers(within, slots, lo, hi - lo)
  {
    within := Move(m.ch, m.ch', lo, hi, slots, inner, inner);
  }

  lemma {:induction false} CarryOperands(h: Host, m: Move, op: ArithOp, es: seq<Expr>, dest: nat, cur: nat, base: nat, pc: nat, k: nat)
    requires Covers(m, BreakSlotsOperands(es, pc), pc, SizeOperands(es))
    requires CodeForOperands(h, m.ch, op, es, dest, cur, base, pc, k, m.lp)
    ensures CodeForOperands(h, m.ch', op, es, dest, cur, base, pc, k, m.lp')
    decreases es, 0
  {
    if es != [] {
      var mid := pc + Size(es[0]);
      BreaksInside(es[0], pc);
      BreaksInsideOperands(es[1..], mid + 1);
      OwnsSplit(m.slots, BreakSlots(es[0], pc), BreakSlotsOperands(es[1..], mid + 1), pc, mid, mid + 1, pc + SizeOperands(es));
      Carry(h, m, es[0], cur, cur + 1, pc, k);
      Kept(m, mid, BinOp(op, dest, dest, cur));
      CarryOperands(h, m, op, es[1..], dest, base, base, mid + 1, k + Consts(es[0]));
    }
  }

  lemma {:induction false} CarrySeq(h: Host, m: Move, es: seq<Expr>, dest: nat, next: nat, pc: nat, k: nat)
    requires Covers(m, BreakSlotsSeq(es, pc), pc, SizeSeq(es)) && CodeForSeq(h, m.ch, es, dest, next, pc, k, m.lp)
    ensures CodeForSeq(h, m.ch', es, dest, next, pc, k, m.lp')
    decreases es, 0
  {
    if es != [] {
      var mid := pc + Size(es[0]);
      BreaksInside(es[0], pc);
      BreaksInsideSeq(es[1..], mid);
      OwnsSplit(m.slots, BreakSlots(es[0], pc), BreakSlotsSeq(es[1..], mid), pc, mid, mid, pc + SizeSeq(es));
      Carry(h, m, es[0], dest, next, pc, k);
      CarrySeq(h, m, es[1..], dest, NextReg(es[0], next), mid, k + Consts(es[0]));
    }
  }

  // ---- code in a chunk that only grew ----

  predicate Agree(ch: Chunk, ch': Chunk, lo: nat, hi: nat) {
    && hi <= |ch.code| && hi <= |ch'.code| && ch.consts <= ch'.consts
    && forall i :: lo <= i < hi ==> ch'.code[i] == ch.code[i]
  }

  function Same(ch: Chunk, ch': Chunk, lo: nat, hi: nat, slots: seq<nat>, lp: LoopCtx): (m: Move)
    requires lo <= hi && Agree(ch, ch', lo, hi)
    ensures Covers(m, slots, lo, hi - lo)
  {
    Move(ch, ch', lo, hi, slots, lp, lp)
  }

  lemma Stays(h: Host, ch: Chunk, ch': Chunk, e: Expr, dest: nat, next: nat, pc: nat, k: nat, lp: LoopCtx)
    requires Agree(ch, ch', pc, pc + Size(e)) && CodeFor(h, ch, e, dest, next, pc, k, lp)
    ensures CodeFor(h, ch', e, dest, next, pc, k, lp)
  {
    Carry(h, Same(ch, ch', pc, pc + Size(e), BreakSlots(e, pc), lp), e, dest, next, pc, k);
  }

  lemma StaysSeq(h: Host, ch: Chunk, ch': Chunk, es: seq<Expr>, dest: nat, next: nat, pc: nat, k: nat, lp: LoopCtx)
    requires Agree(ch, ch', pc, pc + SizeSeq(es)) && CodeForSeq(h, ch, es, dest, next, pc, k, lp)
    ensures CodeForSeq(h, ch', es, dest, next, pc, k, lp)
  {
    CarrySeq(h, Same(ch, ch', pc, pc + SizeSeq(es), BreakSlotsSeq(es, pc), lp), es, dest, next, pc, k);
  }

  lemma StaysOperands(h: Host, ch: Chunk, ch': Chunk, op: ArithOp, es: seq<Expr>, dest: nat, cur: nat, base: nat, pc: nat, k: nat, lp: LoopCtx)
    requires Agree(ch, ch', pc, pc + SizeOperands(es)) && CodeForOperands(h, ch, op, es, dest, cur, base, pc, k, lp)
    ensures CodeForOperands(h, ch', op, es, dest, cur, base, pc, k, lp)
  {
    CarryOperands(h, Same(ch, ch', pc, pc + SizeOperands(es), BreakSlotsOperands(es, pc), lp), op, es, dest, cur, base, pc, k);
  }

  // ---- break slots hold jumps ----

  predicate Breaks(ch: Chunk, slots: seq<nat>, lp: LoopCtx) {
    forall i | i in slots :: At(ch, i, BreakIns(lp, i))
  }

  lemma {:induction false} BreaksJump(h: Host, ch: Chunk, e: Expr, dest: nat, next: nat, pc: nat, k: nat, lp: LoopCtx)
    requires CodeFor(h, ch, e, dest, next, pc, k, lp)
    ensures Breaks(ch, BreakSlots(e, pc), lp)
    decreases e, 2
  {
    OpenBreaks(e, pc);
    OpenCode(h, ch, e, dest, next, pc, k, lp);
    match e
    case EArith(op, a, rest) =>
      BreaksJump(h, ch, a, dest, next, pc, k, lp);
      if !IsFoldable(op, rest) {
        BreaksJumpOperands(h, ch, op, rest, dest, NextReg(a, next), next, pc + Size(a), k + Consts(a), lp);
      }
    case ECmp(_, _, _) => BreaksJumpPair(h, ch, e, next, pc, k, lp);
    case ENot(a) => BreaksJump(h, ch, a, dest, next, pc, k, lp);
    case EAssign(_, a) => BreaksJump(h, ch, a, dest, next, pc, k, lp);
    case EIf(c, t, f) => BreaksJumpIf(h, ch, e, dest, next, pc, k, lp);
    case EDo(es) => BreaksJumpSeq(h, ch, es, dest, next, pc, k, lp);
    case EAnd(_, _) => BreaksJumpShort(h, ch, e, dest, next, pc, k, lp);
    case EOr(_, _) => BreaksJumpShort(h, ch, e, dest, next, pc, k, lp);
    case _ =>
  }

  lemma {:induction false} BreaksJumpPair(h: Host, ch: Chunk, e: Expr, next: nat, pc: nat, k: nat, lp: LoopCtx)
    requires e.ECmp? && CodeForPair(h, ch, e, next, pc, k, lp)
    ensures Breaks(ch, BreakSlots(e, pc), lp)
    decreases e, 0
  {
    OpenBreaks(e, pc);
    var rb := NextReg(e.l, next + 1);
    BreaksJump(h, ch, e.l, next, next + 1, pc, k, lp);
    BreaksJump(h, ch, e.r, rb, rb + 1, pc + Size(e.l), k + Consts(e.l), lp);
  }

  lemma {:induction false} BreaksJumpCond(h: Host, ch: Chunk, c: Expr, parent: Expr, cd: nat, cn: nat, temps: nat, pc: nat, k: nat,
                                          lp: LoopCtx, skip: nat)
    requires c < parent && CodeForCond(h, ch, c, parent, cd, cn, temps, pc, k, lp, skip)
    ensures Breaks(ch, BreakSlots(c, pc), lp)
    decreases parent, 0
  {
    if IsFused(c) { BreaksJumpPair(h, ch, c, temps, pc, k, lp); } else { BreaksJump(h, ch, c, cd, cn, pc, k, lp); }
  }

  lemma {:induction false} BreaksJumpIf(h: Host, ch: Chunk, e: Expr, dest: Reg, next: nat, pc: nat, k: nat, lp: LoopCtx)
    requires e.EIf? && CodeForIf(h, ch, e, dest, next, pc, k, lp)
    ensures Breaks(ch, BreakSlots(e, pc), lp)
    decreases e, 1
  {
    OpenBreaks(e, pc);
    var EIf(c, t, f) := e;
    var pt := pc + Size(c) + 1;
    BreaksJumpCond(h, ch, c, e, dest, next, next, pc, k, lp, Size(t) + 1);
    BreaksJump(h, ch, t, dest, NextReg(c, next), pt, k + Consts(c), lp);
    BreaksJump(h, ch, f, dest, NextReg(t, NextReg(c, next)), pt + Size(t) + 1, k + Consts(c) + Consts(t), lp);
  }

  lemma {:induction false} BreaksJumpShort(h: Host, ch: Chunk, e: Expr, dest: Reg, next: nat, pc: nat, k: nat, lp: LoopCtx)
    requires (e.EAnd? || e.EOr?) && CodeForShort(h, ch, e, dest, next, pc, k, lp)
    ensures Breaks(ch, BreakSlots(e, pc), lp)
    decreases e, 1
  {
    OpenBreaks(e, pc);
    BreaksJump(h, ch, e.l, dest, next, pc, k, lp);
    BreaksJump(h, ch, e.r, dest, NextReg(e.l, next), pc + Size(e.l) + 1, k + Consts(e.l), lp);
  }

  lemma {:induction false} BreaksJumpOperands(h: Host, ch: Chunk, op: ArithOp, es: seq<Expr>, dest: nat, cur: nat, base: nat,
                                              pc: nat, k: nat, lp: LoopCtx)
    requires CodeForOperands(h, ch, op, es, dest, cur, base, pc, k, lp)
    ensures Breaks(ch, BreakSlotsOperands(es, pc), lp)
    decreases es, 0
  {
    if es != [] {
      BreaksJump(h, ch, es[0], cur, cur + 1, pc, k, lp);
      BreaksJumpOperands(h, ch, op, es[1..], dest, base, base, pc + Size(es[0]) + 1, k + Consts(es[0]), lp);
    }
  }

  lemma {:induction false} BreaksJumpSeq(h: Host, ch: Chunk, es: seq<Expr>, dest: nat, next: nat, pc: nat, k: nat, lp: LoopCtx)
    requires CodeForSeq(h, ch, es, dest, next, pc, k, lp)
    ensures Breaks(ch, BreakSlotsSeq(es, pc), lp)
    decreases es, 0
  {
    if es != [] {
      BreaksJump(h, ch, es[0], dest, next, pc, k, lp);
      BreaksJumpSeq(h, ch, es[1..], dest, NextReg(es[0], next), pc + Size(es[0]), k + Consts(es[0]), lp);
    }
  }
}
