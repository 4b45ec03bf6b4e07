/** The compiler: it appends instruction words, moves `nextReg`, and patches jumps
    as it walks the syntax tree. Every expression of the fragment is compiled into
    the register asked for, so no MOVE is ever emitted. */
module Compiler {
  import opened Wrappers
  import opened Ast
  import opened Semantics
  import opened Bytecode
  import opened Layout
  import opened Patching
  import opened Emission
  import opened Correctness
  import opened Settled
  import opened Trees

  datatype CompileError =
    | NestingTooDeep
    | TooManyRegisters
    | TooManyConstants
    | JumpTooFar
    | BadArguments
    | OutsideLoop
    | NotInFragment

  datatype Compiled<+T> = Done(value: T) | Rejected(why: CompileError)

  // ---- words and the instructions they read as ----

  /** The words of `code` read as `ins`. */
  predicate ReadsAs(code: seq<Code>, ins: seq<Ins>)
    decreases |code|, 2
  {
    ReadsAsSealed(code, ins)
  }

  predicate ReadsAsSealed(code: seq<Code>, ins: seq<Ins>)
    decreases |code|, 1
  {
    ReadsAsDef(code, ins)
  }

  predicate ReadsAsDef(code: seq<Code>, ins: seq<Ins>)
    decreases |code|, 0
  {
    |code| == |ins| && (code != [] ==> ReadsAs(code[1..], ins[1..]) && Decode(code[0]) == ins[0])
  }

  lemma {:induction false} ReadsEach(code: seq<Code>, ins: seq<Ins>)
    ensures ReadsAs(code, ins) <==> |code| == |ins| && forall i :: 0 <= i < |code| ==> Decode(code[i]) == ins[i]
  {
    assert ReadsAsSealed(code, ins) == ReadsAsDef(code, ins);
    if code != [] && |code| == |ins| {
      ReadsEach(code[1..], ins[1..]);
      if ReadsAs(code, ins) {
        forall i | 0 <= i < |code| ensures Decode(code[i]) == ins[i] {
          if i > 0 { assert code[i] == code[1..][i - 1] && ins[i] == ins[1..][i - 1]; }
        }
      }
    }
  }

  lemma ReadsAppend(code: seq<Code>, ins: seq<Ins>, i: Ins)
    requires ReadsAs(code, ins)
    ensures ReadsAs(code + [Encode(i)], ins + [ReadBack(i)])
  {
    ReadsEach(code, ins);
    DecodeEncode(i);
    ReadsEach(code + [Encode(i)], ins + [ReadBack(i)]);
  }

  lemma ReadsPatched(code: seq<Code>, ins: seq<Ins>, offset: nat, sbx: nat)
    requires ReadsAs(code, ins) && offset < |ins| && IsJump(ins[offset]) && sbx <= MAX_JUMP
    ensures offset < |code|
    ensures ReadsAs(code[offset := EncodeAsBx(code[offset].op, code[offset].a, sbx)],
                    ins[offset := Retarget(ins[offset], sbx)])
  {
    ReadsEach(code, ins);
    var w := EncodeAsBx(code[offset].op, code[offset].a, sbx);
    assert DecodeBx(w) == sbx + SBXBIAS;
    ReadsEach(code[offset := w], ins[offset := Retarget(ins[offset], sbx)]);
  }

  /** The operator of a condition whose comparison is fused with its jump. */
  function FusedOp(cond: Node): Option<CmpOp> {
    if cond.List? && |cond.children| == 3 && cond.children[0].Symbol? then
      match HeadOf(cond.children[0].name)
      case HCmp(op) => if IsFusible(op) then Some(op) else None
      case _ => None
    else None
  }

  lemma FusedElab(cond: Node)
    ensures Elab(cond).Some? ==> (IsFused(Elab(cond).value) <==> FusedOp(cond).Some?)
    ensures FusedOp(cond).Some? ==>
              Elab(cond) == match (Elab(cond.children[1]), Elab(cond.children[2]))
                            case (Some(a), Some(b)) => Some(ECmp(FusedOp(cond).value, a, b))
                            case _ => None
  {
    OpenElab(cond);
  }

  // ---- when compilation succeeds ----

  predicate FitsAt(s: Snap, e: Expr) {
    Fits(e, s.next, Pc(s), K(s), s.depth, s.loops != [])
  }

  /** The same for the inside of an expression, whose depth is already counted. */
  predicate FormFits(s: Snap, e: Expr) {
    1 <= s.depth && FitsDef(e, s.next, Pc(s), K(s), s.depth - 1, s.loops != [])
  }

  predicate FitsAll(s: Snap, es: seq<Expr>) {
    FitsSeq(es, s.next, Pc(s), K(s), s.depth, s.loops != [])
  }

  predicate FitsPairAt(s: Snap, l: Expr, r: Expr) {
    FitsPair(ECmp(Lt, l, r), s.next, Pc(s), K(s), s.depth, s.loops != [])
  }

  /** Entering an expression counts one level of nesting. */
  lemma DepthFits(s: Snap, node: Node)
    ensures Elab(node) == ElabDef(node)
    ensures Elab(node).Some? ==>
              (FitsAt(s, Elab(node).value) <==> s.depth < MAX_DEPTH && FormFits(s.(depth := s.depth + 1), Elab(node).value))
  {
    OpenElab(node);
    if Elab(node).Some? { OpenFits(Elab(node).value, s.next, Pc(s), K(s), s.depth, s.loops != []); }
  }

  /** The second operand of a comparison must fit after the first. */
  lemma PairFits(h: Host, s0: Snap, s1: Snap, l: Expr, r: Expr)
    requires s0.next < 255 && Emits(h, s0.(next := s0.next + 1), s1, l, s0.next) && FitsAt(s0.(next := s0.next + 1), l) && s1.next < 255
    ensures FitsPairAt(s0, l, r) <==> FitsAt(s1.(next := s1.next + 1), r)
  {
    var s0', s1' := s0.(next := s0.next + 1), s1.(next := s1.next + 1);
    FitsLater(s0', s1', r, Size(l), Consts(l), BreakSlots(l, Pc(s0)));
  }

  lemma CmpFits(s: Snap, e: Expr)
    requires e.ECmp? && 1 <= s.depth <= MAX_DEPTH
    ensures FormFits(s, e) <==> FitsPairAt(s, e.l, e.r)
  {
    assert FormFits(s, e) <==> FitsPair(e, s.next, Pc(s), K(s), s.depth, s.loops != []);
  }

  lemma ShortFits(s: Snap, e: Expr)
    requires (e.EAnd? || e.EOr?) && 1 <= s.depth <= MAX_DEPTH
    ensures FormFits(s, e) <==>
              && FitsAt(s, e.l) && Size(e.r) <= MAX_JUMP
              && FitsFrom(s, e.r, NextReg(e.l, s.next), Size(e.l) + 1, Consts(e.l))
  {
    assert FormFits(s, e) <==> FitsShort(e, s.next, Pc(s), K(s), s.depth, s.loops != []);
  }

  /** `e` fits after code of the given size that adds the given constants. */
  predicate FitsFrom(s: Snap, e: Expr, next: nat, size: nat, consts: nat) {
    Fits(e, next, Pc(s) + size, K(s) + consts, s.depth, s.loops != [])
  }

  lemma FitsLater(s: Snap, s': Snap, e: Expr, size: nat, consts: nat, slots: seq<nat>)
    requires Grows(s, s', size, consts, slots)
    ensures FitsAt(s', e) <==> FitsFrom(s, e, s'.next, size, consts)
  {
    assert (s'.loops != []) == (s.loops != []);
  }

  /** The same once the left operand and its jump stand. */
  lemma ShortNext(h: Host, s0: Snap, s1: Snap, e: Expr, dest: Reg, jump: Ins)
    requires (e.EAnd? || e.EOr?) && 1 <= s0.depth <= MAX_DEPTH && Emits(h, s0, s1, e.l, dest)
    ensures FormFits(s0, e) <==> FitsAt(s0, e.l) && Size(e.r) <= MAX_JUMP && FitsAt(Plus(s1, jump), e.r)
  {
    ShortFits(s0, e);
    GrowsPlus(s1, jump);
    FitsLater(s1, Plus(s1, jump), e.r, 1, 0, []);
    FitsLater(s0, s1, e.r, Size(e.l), Consts(e.l), BreakSlots(e.l, Pc(s0)));
  }

  predicate CondFits(s: Snap, c: Expr) {
    if IsFused(c) then FitsPairAt(s, c.l, c.r) else FitsAt(s, c)
  }

  lemma IfFits(s: Snap, e: Expr)
    requires e.EIf? && 1 <= s.depth <= MAX_DEPTH
    ensures var EIf(c, t, f) := e;
            var nt := NextReg(c, s.next);
            FormFits(s, e) <==>
              && CondFits(s, c)
              && FitsFrom(s, t, nt, Size(c) + 1, Consts(c)) && Size(t) + 1 <= MAX_JUMP
              && FitsFrom(s, f, NextReg(t, nt), Size(c) + 1 + Size(t) + 1, Consts(c) + Consts(t)) && Size(f) <= MAX_JUMP
  {
    var c := e.cond;
    assert FormFits(s, e) <==> FitsIf(e, s.next, Pc(s), K(s), s.depth, s.loops != []);
    if IsFused(c) {
      assert FitsPair(c, s.next, Pc(s), K(s), s.depth, s.loops != []) == FitsPairAt(s, c.l, c.r);
    }
  }

  /** The same once the condition stands: the first branch has to fit next. */
  lemma IfNext(h: Host, s0: Snap, s1: Snap, e: Expr, dest: nat)
    requires e.EIf? && EmitsCond(h, s0, s1, e.cond, e, dest, s0.next) && s1.next == NextReg(e.cond, s0.next)
    requires 1 <= s0.depth <= MAX_DEPTH
    ensures FormFits(s0, e) ==> FitsAt(s1, e.thn) && Size(e.thn) + 1 <= MAX_JUMP
  {
    IfFits(s0, e);
    FitsLater(s0, s1, e.thn, Size(e.cond) + 1, Consts(e.cond), BreakSlots(e.cond, Pc(s0)));
  }

  /** And once the first branch stands with both jumps: only the second branch is left. */
  lemma IfMiddle(h: Host, s0: Snap, s1: Snap, s2: Snap, e: Expr, dest: Reg) returns (s4: Snap)
    requires e.EIf? && EmitsCond(h, s0, s1, e.cond, e, dest, s0.next) && s1.next == NextReg(e.cond, s0.next)
    requires Emits(h, s1, s2, e.thn, dest)
    requires 1 <= s0.depth <= MAX_DEPTH && CondFits(s0, e.cond) && FitsAt(s1, e.thn)
    ensures Pc(s0) + Size(e.cond) < Pc(s2) && IsJump(Plus(s2, Jmp(0)).ch.code[Pc(s0) + Size(e.cond)])
    ensures s4 == Patch(Plus(s2, Jmp(0)), Pc(s0) + Size(e.cond)) && HalfIf(h, s0, s4, e, dest, s1.next)
    ensures s4.depth < MAX_DEPTH
    ensures FormFits(s0, e) <==> Size(e.thn) + 1 <= MAX_JUMP && FitsAt(s4, e.els) && Size(e.els) <= MAX_JUMP
  {
    s4 := IfHalf(h, s0, s1, s2, e, dest);
    OpenFits(e.thn, s1.next, Pc(s1), K(s1), s1.depth, s1.loops != []);
    IfFits(s0, e);
    FitsLater(s0, s1, e.thn, Size(e.cond) + 1, Consts(e.cond), BreakSlots(e.cond, Pc(s0)));
    FitsLater(s0, s4, e.els, Size(e.cond) + 1 + Size(e.thn) + 1, Consts(e.cond) + Consts(e.thn),
              BreakSlots(e.cond, Pc(s0)) + BreakSlots(e.thn, Pc(s0) + Size(e.cond) + 1));
  }

  predicate LoopCondFits(s: Snap, c: Expr) {
    if IsFused(c) then FitsPairAt(s, c.l, c.r) else s.next < 255 && FitsAt(s.(next := s.next + 1), c)
  }

  lemma LoopFits(s: Snap, e: Expr)
    requires e.ELoop? && 1 <= s.depth <= MAX_DEPTH
    ensures FormFits(s, e) <==>
              && LoopCondFits(Entered(s), e.cond)
              && FitsSeq(e.body, LoopBodyReg(e.cond, s.next), Pc(s) + Size(e.cond) + 1, K(s) + Consts(e.cond), s.depth, true)
              && SizeSeq(e.body) + 1 <= MAX_JUMP
              && BreaksReach(LoopBreaks(e.cond, e.body, Pc(s)), Pc(s) + LoopOffset(e.cond, e.body) + 1)
  {
    var c := e.cond;
    assert FormFits(s, e) <==> FitsLoop(e, s.next, Pc(s), K(s), s.depth);
    if IsFused(c) {
      assert FitsPair(c, s.next, Pc(s), K(s), s.depth, true) == FitsPairAt(Entered(s), c.l, c.r);
    }
  }

  /** Once the condition of a loop stands, its body has to fit. */
  lemma LoopNext(h: Host, s0: Snap, s1: Snap, e: Expr)
    requires e.ELoop? && EmitsCond(h, Entered(s0), s1, e.cond, e, s0.next, s0.next + 1) && s1.next == LoopBodyReg(e.cond, s0.next)
    ensures FitsAll(s1, e.body) <==>
              FitsSeq(e.body, s1.next, Pc(s0) + Size(e.cond) + 1, K(s0) + Consts(e.cond), s0.depth, true)
  {
    assert s1.loops != [];
  }

  /** After `es` compiled, the rest of the sequence fits exactly when all of it does. */
  lemma SeqFits(s0: Snap, s1: Snap, es: seq<Expr>, rest: seq<Expr>)
    requires Grows(s0, s1, SizeSeq(es), ConstsSeq(es), BreakSlotsSeq(es, Pc(s0))) && s1.next == NextRegSeq(es, s0.next)
    requires FitsAll(s0, es)
    ensures FitsAll(s0, es + rest) <==> FitsAll(s1, rest)
  {
    FitsSplit(es, rest, s0.next, Pc(s0), K(s0), s0.depth, s0.loops != []);
    assert (s1.loops != []) == (s0.loops != []);
  }

  lemma FirstFits(s: Snap, es: seq<Expr>)
    requires es != [] && FitsAll(s, es)
    ensures FitsAt(s, es[0])
  {
  }

  lemma OneFits(s: Snap, e: Expr)
    ensures FitsAll(s, [e]) <==> FitsAt(s, e)
  {
    assert [e][1..] == [] && FitsSeq([], NextReg(e, s.next), Pc(s) + Size(e), K(s) + Consts(e), s.depth, s.loops != []);
  }

  lemma ElabPrefix(nodes: seq<Node>, i: nat, es: seq<Expr>) returns (rest: seq<Expr>)
    requires i < |nodes| && |es| == i && forall j :: 0 <= j < i ==> Elab(nodes[j]) == Some(es[j])
    requires ElabAll(nodes).Some?
    ensures ElabAll(nodes).value == es + rest && rest != [] && Elab(nodes[i]) == Some(rest[0])
  {
    rest := ElabAll(nodes).value[i..];
  }

  /** An expression that cannot be compiled keeps its sequence from being compiled. */
  lemma SeqRejected(nodes: seq<Node>, i: nat, s0: Snap, s1: Snap, es: seq<Expr>)
    requires i < |nodes| && |es| == i && forall j :: 0 <= j < i ==> Elab(nodes[j]) == Some(es[j])
    requires Grows(s0, s1, SizeSeq(es), ConstsSeq(es), BreakSlotsSeq(es, Pc(s0))) && s1.next == NextRegSeq(es, s0.next)
    requires FitsAll(s0, es) && (Elab(nodes[i]).None? || !FitsAt(s1, Elab(nodes[i]).value))
    ensures ElabAll(nodes).None? || !FitsAll(s0, ElabAll(nodes).value)
  {
    if ElabAll(nodes).Some? && FitsAll(s0, ElabAll(nodes).value) {
      var rest := ElabPrefix(nodes, i, es);
      SeqFits(s0, s1, es, rest);
      FirstFits(s1, rest);
    }
  }

  // The same for the operands of an arithmetic chain.

  predicate FitsOperandsAt(s: Snap, es: seq<Expr>, base: nat) {
    FitsOperands(es, s.next, base, Pc(s), K(s), s.depth, s.loops != [])
  }

  lemma ShallowerEmits(h: Host, s0: Snap, s1: Snap, e: Expr, dest: Reg)
    requires s1.depth > 0 && Emits(h, s0.(depth := s0.depth + 1), s1, e, dest)
    ensures Emits(h, s0, s1.(depth := s1.depth - 1), e, dest)
  {
  }

  lemma OperandsFit(s0: Snap, s1: Snap, es: seq<Expr>, rest: seq<Expr>, base: nat)
    requires Grows(s0, s1, SizeOperands(es), ConstsSeq(es), BreakSlotsOperands(es, Pc(s0)))
    requires s1.next == (if es == [] then s0.next else base) && FitsOperandsAt(s0, es, base)
    ensures FitsOperandsAt(s0, es + rest, base) <==> FitsOperandsAt(s1, rest, base)
  {
    FitsOperandsSplit(es, rest, s0.next, base, Pc(s0), K(s0), s0.depth, s0.loops != []);
    assert (s1.loops != []) == (s0.loops != []);
  }

  lemma FirstOperandFits(s: Snap, es: seq<Expr>, base: nat)
    requires es != [] && FitsOperandsAt(s, es, base)
    ensures s.next < 255 && FitsAt(s.(next := s.next + 1), es[0])
  {
  }

  lemma OneOperandFits(s: Snap, e: Expr, base: nat)
    requires s.next < 255 && FitsAt(s.(next := s.next + 1), e)
    ensures FitsOperandsAt(s, [e], base)
  {
    assert [e][1..] == [];
  }

  lemma OperandAdded(h: Host, s0: Snap, s1: Snap, s2: Snap, op: ArithOp, es: seq<Expr>, e: Expr, dest: Reg, base: nat)
    requires EmitsOperands(h, s0, s1, op, es, dest, base) && EmitsOperands(h, s1, s2, op, [e], dest, base)
    requires FitsOperandsAt(s0, es, base) && s1.next < 255 && FitsAt(s1.(next := s1.next + 1), e)
    ensures EmitsOperands(h, s0, s2, op, es + [e], dest, base) && FitsOperandsAt(s0, es + [e], base)
  {
    OperandStep(h, s0, s1, s2, op, es, e, dest, base);
    OperandsFit(s0, s1, es, [e], base);
    OneOperandFits(s1, e, base);
  }

  lemma OperandRejected(nodes: seq<Node>, i: nat, s0: Snap, s1: Snap, es: seq<Expr>, base: nat)
    requires i < |nodes| && |es| == i && forall j :: 0 <= j < i ==> Elab(nodes[j]) == Some(es[j])
    requires Grows(s0, s1, SizeOperands(es), ConstsSeq(es), BreakSlotsOperands(es, Pc(s0)))
    requires s1.next == (if es == [] then s0.next else base) && FitsOperandsAt(s0, es, base)
    requires s1.next >= 255 || Elab(nodes[i]).None? || !FitsAt(s1.(next := s1.next + 1), Elab(nodes[i]).value)
    ensures ElabAll(nodes).None? || !FitsOperandsAt(s0, ElabAll(nodes).value, base)
  {
    if ElabAll(nodes).Some? && FitsOperandsAt(s0, ElabAll(nodes).value, base) {
      var rest := ElabPrefix(nodes, i, es);
      OperandsFit(s0, s1, es, rest, base);
      FirstOperandFits(s1, rest, base);
    }
  }

  lemma ArithFits(h: Host, s0: Snap, s1: Snap, e: Expr, dest: nat)
    requires e.EArith? && 1 <= s0.depth <= MAX_DEPTH && Emits(h, s0, s1, e.first, dest) && FitsAt(s0, e.first)
    ensures FormFits(s0, e) <==> IsFoldable(e.op, e.rest) || FitsOperandsAt(s1, e.rest, s0.next)
  {
    assert FormFits(s0, e) <==> FitsArith(e, s0.next, Pc(s0), K(s0), s0.depth, s0.loops != []);
    assert (s1.loops != []) == (s0.loops != []);
  }

  lemma ArithFirstFits(s: Snap, e: Expr)
    requires e.EArith? && 1 <= s.depth <= MAX_DEPTH && FormFits(s, e)
    ensures FitsAt(s, e.first)
  {
    assert FitsArith(e, s.next, Pc(s), K(s), s.depth, s.loops != []);
  }

  /** The test the compiler makes on the tree to use an immediate. */
  predicate FoldableNode(op: ArithOp, nodes: seq<Node>) {
    |nodes| == 1 && nodes[0].IntLiteral? && -32768 <= nodes[0].intVal <= 32767 && (op == Add || op == Sub)
  }

  lemma LiteralElab(n: Node)
    ensures Elab(n).Some? ==> (n.IntLiteral? <==> Elab(n).value.EInt?)
    ensures n.IntLiteral? ==> Elab(n) == Some(EInt(n.intVal))
  {
    OpenElab(n);
  }

  lemma FoldableElab(op: ArithOp, nodes: seq<Node>)
    ensures FoldableNode(op, nodes) ==> ElabAll(nodes) == Some([EInt(nodes[0].intVal)])
    ensures ElabAll(nodes).Some? ==> (FoldableNode(op, nodes) <==> IsFoldable(op, ElabAll(nodes).value))
  {
    if |nodes| == 1 {
      LiteralElab(nodes[0]);
      if FoldableNode(op, nodes) { AllElaborated(nodes, [EInt(nodes[0].intVal)]); }
    }
  }

  lemma AllElaborated(nodes: seq<Node>, es: seq<Expr>)
    requires |es| == |nodes| && forall j :: 0 <= j < |nodes| ==> Elab(nodes[j]) == Some(es[j])
    ensures ElabAll(nodes) == Some(es)
  {
    assert ElabAll(nodes).value == es;
  }

  /** What a node stands for; `null` outside the fragment. */
  function Elaborated(n: Node): Expr {
    if Elab(n).Some? then Elab(n).value else ENull
  }

  function ElseOf(node: Node): Node
    requires node.List?
  {
    if |node.children| > 3 then node.children[3] else NullLiteral
  }

  function ShortExpr(isAnd: bool, l: Expr, r: Expr): Expr {
    if isAnd then EAnd(l, r) else EOr(l, r)
  }

  // ---- the compiler ----

  class CompilerState {
    const host: Host
    var code: seq<Code>
    var constants: seq<Value>
    var nextReg: nat
    var compileDepth: nat
    var loops: seq<LoopInfo>
    ghost var ins: seq<Ins>  // what `code` reads as

    constructor (h: Host)
      ensures Valid() && host == h && S() == Snap(Chunk([], []), 0, 0, [])
    {
      host := h;
      code, constants, nextReg, compileDepth, loops, ins := [], [], 0, 0, [], [];
      new;
      ReadsEach(code, ins);
    }

    ghost predicate Valid()
      reads this
    {
      && ReadsAs(code, ins) && nextReg <= 255
      && (loops != [] ==> loops[|loops| - 1].start <= |ins|)
    }

    ghost function S(): Snap
      reads this
    {
      Snap(Chunk(ins, constants), nextReg, compileDepth, loops)
    }

    method AllocReg() returns (r: Compiled<Reg>)
      requires Valid()
      modifies this`nextReg
      ensures r.Done? <==> old(nextReg) < 255
      ensures r.Done? ==> Valid() && r.value == old(nextReg) && nextReg == old(nextReg) + 1
    {
      if nextReg >= 255 { return Rejected(TooManyRegisters); }
      r := Done(nextReg);
      nextReg := nextReg + 1;
    }

    method FreeReg()
      requires Valid()
      modifies this`nextReg
      ensures Valid() && nextReg == if old(nextReg) > 0 then old(nextReg) - 1 else 0
    {
      if nextReg > 0 { nextReg := nextReg - 1; }
    }

    method FreeRegsTo(r: nat)
      requires Valid() && r <= 255
      modifies this`nextReg
      ensures Valid() && nextReg == r
    {
      nextReg := r;
    }

    method Emit(i: Ins)
      requires Valid()
      modifies this`code, this`ins
      ensures Valid() && S() == Plus(old(S()), ReadBack(i))
    {
      ReadsAppend(code, ins, i);
      code := code + [Encode(i)];
      ins := ins + [ReadBack(i)];
    }

    /** The constant is added before the limit is checked. */
    method AddConstIdx(v: Value) returns (r: Compiled<Index16>)
      requires Valid()
      modifies this`constants
      ensures Valid() && S() == PlusConst(old(S()), v)
      ensures r.Done? <==> |old(constants)| <= MAX_CONST
      ensures r.Done? ==> r.value == |old(constants)|
    {
      constants := constants + [v];
      var idx := |constants| - 1;
      if idx > 65535 { return Rejected(TooManyConstants); }
      r := Done(idx);
    }

    method EmitJump(i: Ins) returns (offset: nat)
      requires Valid() && IsJump(i) && i.sbx == 0
      modifies this`code, this`ins
      ensures Valid() && S() == Plus(old(S()), i) && offset == Pc(old(S()))
    {
      ReadsEach(code, ins);
      offset := |code|;
      Emit(i);
    }

    /** The jump back to the start of a loop; its distance is not checked. */
    method EmitLoop(start: nat)
      requires Valid() && start <= |ins|
      modifies this`code, this`ins
      ensures Valid() && S() == Plus(old(S()), LoopTo(Pc(old(S())), start))
    {
      ReadsEach(code, ins);
      var loopOffset := |code| - start + 1;
      Emit(Loop(loopOffset));
    }

    /** A constant of its own and the instruction that loads it. */
    method EmitConst(v: Value, dest: Reg) returns (r: Compiled<Reg>)
      requires Valid()
      modifies this`code, this`ins, this`constants
      ensures r.Done? <==> |old(constants)| <= MAX_CONST
      ensures r.Done? ==> Valid() && r.value == dest
      ensures r.Done? ==> S() == Plus(PlusConst(old(S()), v), LoadK(dest, K(old(S()))))
    {
      var idx := AddConstIdx(v);
      if idx.Rejected? { return Rejected(idx.why); }
      Emit(LoadK(dest, idx.value));
      r := Done(dest);
    }

    /** Makes the jump at `offset` lead to the end of the code. */
    method PatchJump(offset: nat) returns (r: Compiled<()>)
      requires Valid() && offset < |ins| && IsJump(ins[offset])
      modifies this`code, this`ins
      ensures r.Done? <==> |old(ins)| - offset - 1 <= MAX_JUMP
      ensures r.Done? ==> Valid() && S() == Patch(old(S()), offset)
    {
      ReadsEach(code, ins);
      var jump := |code| - offset - 1;
      if jump < -32767 || jump > 32767 { return Rejected(JumpTooFar); }
      ReadsPatched(code, ins, offset, jump);
      code := code[offset := EncodeAsBx(code[offset].op, code[offset].a, jump)];
      ins := ins[offset := Retarget(ins[offset], jump)];
      r := Done(());
    }

    method CompileExpr(node: Node, dest: Reg) returns (r: Compiled<Reg>)
      requires Valid() && dest < nextReg
      modifies this
      ensures r.Done? <==> Elab(node).Some? && FitsAt(old(S()), Elab(node).value)
      ensures r.Done? ==> Valid() && r.value == dest && Emits(host, old(S()), S(), Elab(node).value, dest)
      decreases node, 5
    {
      ghost var s0 := S();
      DepthFits(s0, node);
      compileDepth := compileDepth + 1;
      if compileDepth > 512 { return Rejected(NestingTooDeep); }
      r := CompileNode(node, dest);
      if r.Done? {
        ShallowerEmits(host, s0, S(), ElabDef(node).value, dest);
        compileDepth := compileDepth - 1;  // an error abandons the compilation
      }
    }

    method CompileNode(node: Node, dest: Reg) returns (r: Compiled<Reg>)
      requires Valid() && dest < nextReg && 1 <= compileDepth <= MAX_DEPTH
      modifies this
      ensures r.Done? <==> ElabDef(node).Some? && FormFits(old(S()), ElabDef(node).value)
      ensures r.Done? ==> Valid() && r.value == dest && Emits(host, old(S()), S(), ElabDef(node).value, dest)
      decreases node, 4, 1
    {
      if node.List? { r := CompileList(node, dest); } else { r := CompileAtom(node, dest); }
    }

    method CompileAtom(node: Node, dest: Reg) returns (r: Compiled<Reg>)
      requires Valid() && dest < nextReg && !node.List? && 1 <= compileDepth <= MAX_DEPTH
      modifies this
      ensures r.Done? <==> ElabDef(node).Some? && FormFits(old(S()), ElabDef(node).value)
      ensures r.Done? ==> Valid() && r.value == dest && Emits(host, old(S()), S(), ElabDef(node).value, dest)
      decreases node, 3
    {
      ghost var s0 := S();
      r := Done(dest);
      match node {
        case IntLiteral(v) =>
          if v >= -32768 && v <= 32767 {
            Emit(LoadInt(dest, v));
          } else {
            r := EmitConst(host.boxInt(v), dest);
            if r.Rejected? { return; }
          }
          LeafEmits(host, s0, S(), EInt(v), dest);
        case FloatLiteral(w) =>
          if w >= 0x1_0000_0000_0000_0000 { return Rejected(NotInFragment); }
          r := EmitConst(Float(w), dest);
          if r.Rejected? { return; }
          LeafEmits(host, s0, S(), EFloat(w), dest);
        case BoolLiteral(b) =>
          Emit(LoadBool(dest, if b then 1 else 0));
          LeafEmits(host, s0, S(), EBool(b), dest);
        case NullLiteral =>
          Emit(LoadNull(dest));
          LeafEmits(host, s0, S(), ENull, dest);
        case Symbol(name) =>
          var idx := AddConstIdx(SymbolConst(host, name));
          if idx.Rejected? { return Rejected(idx.why); }
          Emit(GetGlobal(dest, idx.value));
          LeafEmits(host, s0, S(), EGlobal(name), dest);
        case _ => r := Rejected(NotInFragment);
      }
    }

    method CompileList(node: Node, dest: Reg) returns (r: Compiled<Reg>)
      requires Valid() && dest < nextReg && node.List? && 1 <= compileDepth <= MAX_DEPTH
      modifies this
      ensures r.Done? <==> ElabDef(node).Some? && FormFits(old(S()), ElabDef(node).value)
      ensures r.Done? ==> Valid() && r.value == dest && Emits(host, old(S()), S(), ElabDef(node).value, dest)
      decreases node, 4, 0
    {
      if node.children == [] {
        ghost var s0 := S();
        Emit(LoadNull(dest));
        LeafEmits(host, s0, S(), ENull, dest);
        return Done(dest);
      }
      if !node.children[0].Symbol? { return Rejected(NotInFragment); }
      r := CompileForm(HeadOf(node.children[0].name), node, dest);
    }

    method CompileForm(hd: Head, node: Node, dest: Reg) returns (r: Compiled<Reg>)
      requires Valid() && dest < nextReg && node.List? && node.children != [] && 1 <= compileDepth <= MAX_DEPTH
      modifies this
      ensures r.Done? <==> ElabForm(hd, node).Some? && FormFits(old(S()), ElabForm(hd, node).value)
      ensures r.Done? ==> Valid() && r.value == dest && Emits(host, old(S()), S(), ElabForm(hd, node).value, dest)
      decreases node, 3
    {
      match hd {
        case HArith(op) => r := CompileArith(op, node, dest);
        case HCmp(op) => r := CompileCmp(op, node, dest);
        case HNot => r := CompileNot(node, dest);
        case HAssign => r := CompileAssign(node, dest);
        case HIf => r := CompileIf(node, dest);
        case HLoop =>
          if |node.children| < 2 { return Rejected(BadArguments); }
          var cond, body := node.children[1], node.children[2..];
          r := CompileLoop(cond, body, node, dest, ELoop(Elaborated(cond), if ElabAll(body).Some? then ElabAll(body).value else []));
        case HDo => r := CompileDo(node, dest);
        case HAnd =>
          if |node.children| < 3 { return Rejected(BadArguments); }
          r := CompileShort(true, node.children[1], node.children[2], node, dest);
        case HOr =>
          if |node.children| < 3 { return Rejected(BadArguments); }
          r := CompileShort(false, node.children[1], node.children[2], node, dest);
        case HBreak => r := CompileBreak(node, dest);
        case HContinue => r := CompileContinue(node, dest);
        case HOther => r := Rejected(NotInFragment);
      }
    }

    method CompileNot(node: Node, dest: Reg) returns (r: Compiled<Reg>)
      requires Valid() && dest < nextReg && node.List? && node.children != [] && 1 <= compileDepth <= MAX_DEPTH
      modifies this
      ensures r.Done? <==> ElabForm(HNot, node).Some? && FormFits(old(S()), ElabForm(HNot, node).value)
      ensures r.Done? ==> Valid() && r.value == dest && Emits(host, old(S()), S(), ElabForm(HNot, node).value, dest)
      decreases node, 1
    {
      if |node.children| < 2 { return Rejected(BadArguments); }
      ghost var s0 := S();
      r := CompileExpr(node.children[1], dest);
      if r.Rejected? { return; }
      ghost var s1 := S();
      Emit(Not(dest, r.value));
      NotEmits(host, s0, s1, ENot(Elab(node.children[1]).value), dest);
      r := Done(dest);
    }

    method CompileAssign(node: Node, dest: Reg) returns (r: Compiled<Reg>)
      requires Valid() && dest < nextReg && node.List? && node.children != [] && 1 <= compileDepth <= MAX_DEPTH
      modifies this
      ensures r.Done? <==> ElabForm(HAssign, node).Some? && FormFits(old(S()), ElabForm(HAssign, node).value)
      ensures r.Done? ==> Valid() && r.value == dest && Emits(host, old(S()), S(), ElabForm(HAssign, node).value, dest)
      decreases node, 1
    {
      if |node.children| < 3 { return Rejected(BadArguments); }
      if !node.children[1].Symbol? { return Rejected(NotInFragment); }
      ghost var s0 := S();
      r := CompileExpr(node.children[2], dest);
      if r.Rejected? { return; }
      ghost var s1 := S();
      var idx := AddConstIdx(SymbolConst(host, node.children[1].name));
      if idx.Rejected? { return Rejected(idx.why); }
      Emit(SetGlobal(dest, idx.value));
      AssignEmits(host, s0, s1, EAssign(node.children[1].name, Elab(node.children[2]).value), dest);
      r := Done(dest);
    }

    method CompileBreak(node: Node, dest: Reg) returns (r: Compiled<Reg>)
      requires Valid() && dest < nextReg && node.List? && node.children != [] && 1 <= compileDepth <= MAX_DEPTH
      modifies this
      ensures r.Done? <==> ElabForm(HBreak, node).Some? && FormFits(old(S()), ElabForm(HBreak, node).value)
      ensures r.Done? ==> Valid() && r.value == dest && Emits(host, old(S()), S(), ElabForm(HBreak, node).value, dest)
      decreases node, 1
    {
      if loops == [] { return Rejected(OutsideLoop); }
      ghost var s0 := S();
      var br := EmitJump(Jmp(0));
      var last := loops[|loops| - 1];
      loops := loops[|loops| - 1 := last.(breaks := last.breaks + [br])];
      Emit(LoadNull(dest));
      BreakEmits(host, s0, dest);
      r := Done(dest);
    }

    method CompileContinue(node: Node, dest: Reg) returns (r: Compiled<Reg>)
      requires Valid() && dest < nextReg && node.List? && node.children != [] && 1 <= compileDepth <= MAX_DEPTH
      modifies this
      ensures r.Done? <==> ElabForm(HContinue, node).Some? && FormFits(old(S()), ElabForm(HContinue, node).value)
      ensures r.Done? ==> Valid() && r.value == dest && Emits(host, old(S()), S(), ElabForm(HContinue, node).value, dest)
      decreases node, 1
    {
      if loops == [] { return Rejected(OutsideLoop); }
      ghost var s0 := S();
      EmitLoop(loops[|loops| - 1].start);
      ContinueEmits(host, s0, dest);
      r := Done(dest);
    }

    method CompileDo(node: Node, dest: Reg) returns (r: Compiled<Reg>)
      requires Valid() && dest < nextReg && node.List? && node.children != [] && 1 <= compileDepth <= MAX_DEPTH
      modifies this
      ensures r.Done? <==> ElabForm(HDo, node).Some? && FormFits(old(S()), ElabForm(HDo, node).value)
      ensures r.Done? ==> Valid() && r.value == dest && Emits(host, old(S()), S(), ElabForm(HDo, node).value, dest)
      decreases node, 1
    {
      ghost var s0 := S();
      if |node.children| <= 1 {
        Emit(LoadNull(dest));
        LeafEmits(host, s0, S(), ENull, dest);
        return Done(dest);
      }
      r := CompileSeq(node.children[1..], dest);
      if r.Done? { DoEmits(host, s0, S(), ElabAll(node.children[1..]).value, dest); }
    }

    /** The expressions of a body, each into the same register. */
    method CompileSeq(nodes: seq<Node>, dest: Reg) returns (r: Compiled<Reg>)
      requires Valid() && dest < nextReg
      modifies this
      ensures r.Done? <==> ElabAll(nodes).Some? && FitsAll(old(S()), ElabAll(nodes).value)
      ensures r.Done? ==> Valid() && r.value == dest && EmitsSeq(host, old(S()), S(), ElabAll(nodes).value, dest)
      decreases nodes, 0
    {
      ghost var s0 := S();
      ghost var es: seq<Expr> := [];
      var i := 0;
      SeqNone(host, s0, dest);
      while i < |nodes|
        invariant 0 <= i <= |nodes| && |es| == i && forall j :: 0 <= j < i ==> Elab(nodes[j]) == Some(es[j])
        invariant Valid() && dest < nextReg && EmitsSeq(host, s0, S(), es, dest) && FitsAll(s0, es)
      {
        ghost var s1 := S();
        r := CompileExpr(nodes[i], dest);
        if r.Rejected? {
          SeqRejected(nodes, i, s0, s1, es);
          return;
        }
        ghost var e := Elab(nodes[i]).value;
        SeqStep(host, s0, s1, S(), es, e, dest);
        SeqFits(s0, s1, es, [e]);
        OneFits(s1, e);
        es := es + [e];
        i := i + 1;
      }
      AllElaborated(nodes, es);
      r := Done(dest);
    }

    /** The right operand of `and` or `or`; patches the jump over it. */
    method CompileRight(right: Node, parent: Node, dest: Reg, endJump: nat, ghost s0: Snap, ghost s1: Snap, ghost e: Expr)
      returns (r: Compiled<Reg>)
      requires Valid() && dest < nextReg && right < parent && (e.EAnd? || e.EOr?) && Emits(host, s0, s1, e.l, dest)
      requires e.r == Elaborated(right) && endJump == Pc(s1)
      requires S() == Plus(s1, if e.EAnd? then And(dest, 0) else Or(dest, 0))
      modifies this
      ensures r.Done? <==> Elab(right).Some? && FitsAt(old(S()), e.r) && Size(e.r) <= MAX_JUMP
      ensures r.Done? ==> Valid() && r.value == dest && Emits(host, s0, S(), e, dest)
      decreases parent, 0
    {
      ghost var s2 := S();
      r := CompileExpr(right, dest);
      if r.Done? {
        ShortEmits(host, s0, s1, s2, S(), e, dest);
        var p := PatchJump(endJump);
        if p.Rejected? { r := Rejected(p.why); }
      }
    }

    method CompileShort(isAnd: bool, left: Node, right: Node, parent: Node, dest: Reg) returns (r: Compiled<Reg>)
      requires Valid() && dest < nextReg && 1 <= compileDepth <= MAX_DEPTH && left < parent && right < parent
      modifies this
      ensures r.Done? <==> Elab(left).Some? && Elab(right).Some?
                           && FormFits(old(S()), ShortExpr(isAnd, Elab(left).value, Elab(right).value))
      ensures r.Done? ==> Valid() && r.value == dest
      ensures r.Done? ==> Emits(host, old(S()), S(), ShortExpr(isAnd, Elab(left).value, Elab(right).value), dest)
      decreases parent, 1
    {
      ghost var s0 := S();
      ghost var e := ShortExpr(isAnd, Elaborated(left), Elaborated(right));
      ShortFits(s0, e);
      r := CompileExpr(left, dest);
      if r.Done? {
        ghost var s1 := S();
        var endJump := EmitJump(if isAnd then And(dest, 0) else Or(dest, 0));
        ShortNext(host, s0, s1, e, dest, ins[endJump]);
        r := CompileRight(right, parent, dest, endJump, s0, s1, e);
      }
    }

    /** Both operands of a comparison, each in a register allocated for it. */
    method CompilePair(ghost op: CmpOp, left: Node, right: Node, parent: Node) returns (r: Compiled<(Reg, Reg)>)
      requires Valid() && 1 <= compileDepth <= MAX_DEPTH && left < parent && right < parent
      modifies this
      ensures r.Done? <==> Elab(left).Some? && Elab(right).Some? && FitsPairAt(old(S()), Elab(left).value, Elab(right).value)
      ensures r.Done? ==> Valid() && r.value == (old(nextReg), NextReg(Elab(left).value, old(nextReg) + 1))
      ensures r.Done? ==> EmitsPair(host, old(S()), S(), ECmp(op, Elab(left).value, Elab(right).value))
      decreases parent, 0, 0
    {
      ghost var s0 := S();
      var ra := AllocReg();
      if ra.Rejected? { return Rejected(ra.why); }
      ra := CompileExpr(left, ra.value);
      if ra.Done? {
        var rb := CompileSecond(op, Elab(left).value, right, s0, S());
        r := if rb.Done? then Done((ra.value, rb.value)) else Rejected(rb.why);
      } else {
        r := Rejected(ra.why);
      }
    }

    method CompileSecond(ghost op: CmpOp, ghost l: Expr, right: Node, ghost s0: Snap, ghost s1: Snap) returns (r: Compiled<Reg>)
      requires Valid() && S() == s1 && s0.next < 255 && FitsAt(s0.(next := s0.next + 1), l)
      requires Emits(host, s0.(next := s0.next + 1), s1, l, s0.next)
      modifies this
      ensures r.Done? <==> Elab(right).Some? && FitsPairAt(s0, l, Elab(right).value)
      ensures r.Done? ==> Valid() && r.value == s1.next && EmitsPair(host, s0, S(), ECmp(op, l, Elab(right).value))
      decreases right, 6
    {
      ghost var rt := Elaborated(right);
      r := AllocReg();
      if r.Rejected? { return; }
      PairFits(host, s0, s1, l, rt);
      ghost var entered := S();
      r := CompileExpr(right, r.value);
      if r.Rejected? { return; }
      assert Emits(host, entered, S(), rt, s1.next);
      PairEmits(host, s0, s1, S(), ECmp(op, l, rt));
    }

    method CompileCmp(op: CmpOp, node: Node, dest: Reg) returns (r: Compiled<Reg>)
      requires Valid() && dest < nextReg && node.List? && node.children != [] && 1 <= compileDepth <= MAX_DEPTH
      modifies this
      ensures r.Done? <==> ElabForm(HCmp(op), node).Some? && FormFits(old(S()), ElabForm(HCmp(op), node).value)
      ensures r.Done? ==> Valid() && r.value == dest && Emits(host, old(S()), S(), ElabForm(HCmp(op), node).value, dest)
      decreases node, 1
    {
      if |node.children| != 3 { return Rejected(BadArguments); }
      ghost var s0, e := S(), ElabForm(HCmp(op), node);
      if e.Some? { CmpFits(s0, e.value); }
      var savedNext := nextReg;
      var regs := CompilePair(op, node.children[1], node.children[2], node);
      if regs.Rejected? { return Rejected(regs.why); }
      ghost var s1 := S();
      Emit(Cmp(op, dest, regs.value.0, regs.value.1));
      FreeRegsTo(savedNext);
      CmpEmits(host, s0, s1, e.value, dest);
      r := Done(dest);
    }

    /** A fused comparison and the jump taken when it fails; returns the jump. */
    method CompileFused(op: CmpOp, cond: Node, parent: Node, ghost c: Expr, ghost p: Expr, ghost cd: nat, ghost cn: nat)
      returns (r: Compiled<nat>)
      requires Valid() && 1 <= compileDepth <= MAX_DEPTH && cond < parent && FusedOp(cond) == Some(op)
      requires c.ECmp? && c < p && (Elab(cond).Some? ==> Elab(cond).value == c)
      modifies this
      ensures r.Done? <==> Elab(cond).Some? && FitsPairAt(old(S()), c.l, c.r)
      ensures r.Done? ==> Valid() && r.value == Pc(old(S())) + Size(c) && EmitsCond(host, old(S()), S(), c, p, cd, cn)
      ensures r.Done? ==> nextReg == NextReg(c.r, NextReg(c.l, old(nextReg) + 1) + 1)
      decreases parent, 0, 1
    {
      FusedElab(cond);
      ghost var s0 := S();
      var regs := CompilePair(op, cond.children[1], cond.children[2], parent);
      if regs.Rejected? { return Rejected(regs.why); }
      ghost var s1 := S();
      Emit(CmpJmp(op, regs.value.0, regs.value.1));
      var jump := EmitJump(Jmp(0));
      FusedCondEmits(host, s0, s1, c, p, cd, cn);
      OpenSizes(c);
      r := Done(jump);
    }
 
    /** The condition of an `if`, with the jump taken when it fails; returns the jump. */
    method CompileIfCond(cond: Node, parent: Node, dest: Reg, ghost c: Expr, ghost p: Expr) returns (r: Compiled<nat>)
      requires Valid() && dest < nextReg && 1 <= compileDepth <= MAX_DEPTH && cond < parent
      requires c < p && (Elab(cond).Some? ==> Elab(cond).value == c)
      modifies this
      ensures r.Done? <==> Elab(cond).Some? && CondFits(old(S()), c)
      ensures r.Done? ==> Valid() && r.value == Pc(old(S())) + Size(c) && nextReg == NextReg(c, old(nextReg))
      ensures r.Done? ==> EmitsCond(host, old(S()), S(), c, p, dest, old(nextReg))
      decreases parent, 1
    {
      FusedElab(cond);
      ghost var s0 := S();
      var fop := FusedOp(cond);
      if fop.Some? {
        var saveReg := nextReg;
        r := CompileFused(fop.value, cond, parent, if c.ECmp? then c else ECmp(Lt, ENull, ENull),
                          if c.ECmp? then p else ENot(ECmp(Lt, ENull, ENull)), dest, saveReg);
        if r.Rejected? { return; }
        FreeRegsTo(saveReg);
        OpenSizes(c);
      } else {
        var condReg := CompileExpr(cond, dest);
        if condReg.Rejected? { return Rejected(condReg.why); }
        ghost var s1 := S();
        var jump := EmitJump(JmpFalse(condReg.value, 0));
        PlainCondEmits(host, s0, s1, c, p, dest, s0.next);
        r := Done(jump);
      }
    }
 
    method CompileElseBranch(node: Node, dest: Reg) returns (r: Compiled<Reg>)
      requires Valid() && dest < nextReg && node.List? && |node.children| >= 3 && 1 <= compileDepth < MAX_DEPTH
      modifies this
      ensures r.Done? <==> Elab(ElseOf(node)).Some? && FitsAt(old(S()), Elaborated(ElseOf(node)))
      ensures r.Done? ==> Valid() && r.value == dest && Emits(host, old(S()), S(), Elaborated(ElseOf(node)), dest)
      decreases node, 0, 0
    {
      ghost var s4 := S();
      DepthFits(s4, NullLiteral);
      if |node.children| > 3 {
        r := CompileExpr(node.children[3], dest);
      } else {
        Emit(LoadNull(dest));
        LeafEmits(host, s4, S(), ENull, dest);
        r := Done(dest);
      }
    }

    /** The second branch of an `if`, or `null` when it is missing; patches the jump
        that skips it. */
    method CompileElse(node: Node, dest: Reg, endJump: nat, ghost s0: Snap, ghost s4: Snap, ghost e: Expr, ghost nt: nat)
      returns (r: Compiled<Reg>)
      requires Valid() && dest < nextReg && node.List? && |node.children| >= 3 && 1 <= compileDepth < MAX_DEPTH
      requires e.EIf? && e.els == Elaborated(ElseOf(node)) && S() == s4 && HalfIf(host, s0, s4, e, dest, nt) && endJump == |ins| - 1
      modifies this
      ensures r.Done? <==> Elab(ElseOf(node)).Some? && FitsAt(old(S()), e.els) && Size(e.els) <= MAX_JUMP
      ensures r.Done? ==> Valid() && r.value == dest && Emits(host, s0, S(), e, dest)
      decreases node, 0, 1
    {
      r := CompileElseBranch(node, dest);
      if r.Done? {
        ghost var pj := IfEmits(host, s0, s4, S(), e, dest, nt);
        var p := PatchJump(endJump);
        if p.Rejected? { r := Rejected(p.why); }
      }
    }

    /** Both branches of an `if`, after its condition; patches the jump of the
        condition and the one that skips the second branch. */
    method CompileBranches(node: Node, dest: Reg, elseJump: nat, ghost s0: Snap, ghost s1: Snap, ghost e: Expr)
      returns (r: Compiled<Reg>)
      requires Valid() && dest < nextReg && node.List? && |node.children| >= 3 && 1 <= compileDepth <= MAX_DEPTH
      requires e.EIf? && e.thn == Elaborated(node.children[2]) && e.els == Elaborated(ElseOf(node))
      requires elseJump == Pc(s0) + Size(e.cond) && s0.depth == compileDepth
      requires S() == s1 && EmitsCond(host, s0, s1, e.cond, e, dest, s0.next) && s1.next == NextReg(e.cond, s0.next)
      requires CondFits(s0, e.cond)
      modifies this
      ensures r.Done? <==> Elab(node.children[2]).Some? && Elab(ElseOf(node)).Some? && FormFits(s0, e)
      ensures r.Done? ==> Valid() && r.value == dest && Emits(host, s0, S(), e, dest)
      decreases node, 1
    {
      IfNext(host, s0, s1, e, dest);
      r := CompileExpr(node.children[2], dest);
      if r.Done? {
        ghost var s2 := S();
        var endJump := EmitJump(Jmp(0));
        ghost var s4 := IfMiddle(host, s0, s1, s2, e, dest);
        var p := PatchJump(elseJump);
        if p.Done? {
          r := CompileElse(node, dest, endJump, s0, s4, e, s1.next);
        } else {
          r := Rejected(p.why);
        }
      }
    }

    method CompileIf(node: Node, dest: Reg) returns (r: Compiled<Reg>)
      requires Valid() && dest < nextReg && node.List? && node.children != [] && 1 <= compileDepth <= MAX_DEPTH
      modifies this
      ensures r.Done? <==> ElabForm(HIf, node).Some? && FormFits(old(S()), ElabForm(HIf, node).value)
      ensures r.Done? ==> Valid() && r.value == dest && Emits(host, old(S()), S(), ElabForm(HIf, node).value, dest)
      decreases node, 2
    {
      if |node.children| < 3 { return Rejected(BadArguments); }
      ghost var s0 := S();
      ghost var e := EIf(Elaborated(node.children[1]), Elaborated(node.children[2]), Elaborated(ElseOf(node)));
      DepthFits(s0, NullLiteral);
      IfFits(s0, e);
      var elseJump := CompileIfCond(node.children[1], node, dest, e.cond, e);
      if elseJump.Rejected? { return Rejected(elseJump.why); }
      r := CompileBranches(node, dest, elseJump.value, s0, S(), e);
    }
 
    /** The operands of an arithmetic chain from the second on, each into a fresh
        register and combined with what is in `dest`. */
    method CompileOperands(op: ArithOp, nodes: seq<Node>, dest: Reg, savedNext: nat) returns (r: Compiled<Reg>)
      requires Valid() && dest < savedNext <= nextReg
      modifies this
      ensures r.Done? <==> ElabAll(nodes).Some? && FitsOperandsAt(old(S()), ElabAll(nodes).value, savedNext)
      ensures r.Done? ==> Valid() && r.value == dest
      ensures r.Done? ==> EmitsOperands(host, old(S()), S(), op, ElabAll(nodes).value, dest, savedNext)
      decreases nodes, 0
    {
      ghost var s0 := S();
      ghost var es: seq<Expr> := [];
      var i := 0;
      OperandsNone(host, s0, op, dest, savedNext);
      while i < |nodes|
        invariant 0 <= i <= |nodes| && |es| == i && forall j :: 0 <= j < i ==> Elab(nodes[j]) == Some(es[j])
        invariant Valid() && dest < savedNext <= nextReg
        invariant EmitsOperands(host, s0, S(), op, es, dest, savedNext) && FitsOperandsAt(s0, es, savedNext)
      {
        ghost var s1 := S();
        r := CompileOperand(op, nodes[i], dest, savedNext);
        if r.Rejected? {
          OperandRejected(nodes, i, s0, s1, es, savedNext);
          return;
        }
        ghost var e := Elab(nodes[i]).value;
        OperandAdded(host, s0, s1, S(), op, es, e, dest, savedNext);
        es := es + [e];
        i := i + 1;
      }
      AllElaborated(nodes, es);
      r := Done(dest);
    }

    method CompileOperand(op: ArithOp, node: Node, dest: Reg, savedNext: nat) returns (r: Compiled<Reg>)
      requires Valid() && dest < savedNext <= nextReg
      modifies this
      ensures r.Done? <==> Elab(node).Some? && old(nextReg) < 255 && FitsAt(old(S()).(next := old(nextReg) + 1), Elab(node).value)
      ensures r.Done? ==> Valid() && r.value == dest && nextReg == savedNext
      ensures r.Done? ==> EmitsOperands(host, old(S()), S(), op, [Elab(node).value], dest, savedNext)
      decreases node, 6
    {
      ghost var s1 := S();
      r := AllocReg();
      if r.Rejected? { return; }
      r := CompileExpr(node, r.value);
      if r.Rejected? { return; }
      ghost var e := Elab(node).value;
      ApplyOperand(op, dest, r.value, savedNext, s1, e);
      r := Done(dest);
    }

    method ApplyOperand(op: ArithOp, dest: Reg, operand: Reg, savedNext: nat, ghost s1: Snap, ghost e: Expr)
      requires Valid() && dest < savedNext <= s1.next < 256 && operand == s1.next
      requires Emits(host, s1.(next := s1.next + 1), S(), e, operand)
      modifies this
      ensures Valid() && nextReg == savedNext && EmitsOperands(host, s1, S(), op, [e], dest, savedNext)
    {
      ghost var s2 := S();
      Emit(BinOp(op, dest, dest, operand));
      FreeRegsTo(if savedNext > dest + 1 then savedNext else dest + 1);
      OperandPiece(host, s1, s2, op, e, dest, savedNext);
    }

    /** An immediate operand is tried only for a chain of two, so its test stands
        outside the loop over the operands. */
    method CompileArith(op: ArithOp, node: Node, dest: Reg) returns (r: Compiled<Reg>)
      requires Valid() && dest < nextReg && node.List? && node.children != [] && 1 <= compileDepth <= MAX_DEPTH
      modifies this
      ensures r.Done? <==> ElabForm(HArith(op), node).Some? && FormFits(old(S()), ElabForm(HArith(op), node).value)
      ensures r.Done? ==> Valid() && r.value == dest && Emits(host, old(S()), S(), ElabForm(HArith(op), node).value, dest)
      decreases node, 2
    {
      if |node.children| < 3 { return Rejected(BadArguments); }
      var first, others, savedNext := node.children[1], node.children[2..], nextReg;
      ghost var s0, e := S(), ElabForm(HArith(op), node);
      if e.Some? && FormFits(s0, e.value) { ArithFirstFits(s0, e.value); }
      r := CompileExpr(first, dest);
      if r.Done? {
        r := CompileRest(op, Elab(first).value, others, dest, savedNext, s0, S());
      }
    }

    method CompileRest(op: ArithOp, ghost first: Expr, others: seq<Node>, dest: Reg, savedNext: nat, ghost s0: Snap, ghost s1: Snap)
      returns (r: Compiled<Reg>)
      requires Valid() && dest < savedNext == s0.next <= nextReg && 1 <= s0.depth <= MAX_DEPTH && others != []
      requires S() == s1 && FitsAt(s0, first) && Emits(host, s0, s1, first, dest)
      modifies this
      ensures r.Done? <==> ElabAll(others).Some? && FormFits(s0, EArith(op, first, ElabAll(others).value))
      ensures r.Done? ==> Valid() && r.value == dest && Emits(host, s0, S(), EArith(op, first, ElabAll(others).value), dest)
      decreases others, 1
    {
      ghost var e := EArith(op, first, if ElabAll(others).Some? then ElabAll(others).value else []);
      FoldableElab(op, others);
      ArithFits(host, s0, s1, e, dest);
      if FoldableNode(op, others) {
        ApplyImmediate(op, others[0].intVal, dest, savedNext, s0, s1, e);
        r := Done(dest);
      } else {
        r := CompileOperands(op, others, dest, savedNext);
        if r.Done? { ArithEmits(host, s0, s1, S(), e, dest); }
      }
    }

    method ApplyImmediate(op: ArithOp, imm: int, dest: Reg, savedNext: nat, ghost s0: Snap, ghost s1: Snap, ghost e: Expr)
      requires Valid() && dest < savedNext == s0.next <= 255 && S() == s1
      requires e.EArith? && e.op == op && IsFoldable(op, e.rest) && e.rest[0].v == imm && Emits(host, s0, s1, e.first, dest)
      modifies this
      ensures Valid() && Emits(host, s0, S(), e, dest)
    {
      Emit(if op == Add then AddI(dest, imm) else SubI(dest, imm));
      FreeRegsTo(if savedNext > dest + 1 then savedNext else dest + 1);
      FoldedEmits(host, s0, s1, e, dest);
    }

    /** The condition of a loop, entered already, with the jump that leaves it. A
        fused comparison keeps its two registers allocated. */
    method CompileLoopCond(cond: Node, parent: Node, ghost s0: Snap, ghost c: Expr, ghost p: Expr) returns (r: Compiled<nat>)
      requires Valid() && S() == s0 && 1 <= compileDepth <= MAX_DEPTH && cond < parent
      requires c < p && (Elab(cond).Some? ==> Elab(cond).value == c)
      modifies this
      ensures r.Done? <==> Elab(cond).Some? && LoopCondFits(s0, c)
      ensures r.Done? ==> Valid() && r.value == Pc(s0) + Size(c) && nextReg == LoopBodyReg(c, s0.next)
      ensures r.Done? ==> EmitsCond(host, s0, S(), c, p, s0.next, s0.next + 1)
      decreases parent, 1
    {
      FusedElab(cond);
      var fop := FusedOp(cond);
      if fop.Some? {
        r := CompileFused(fop.value, cond, parent, if c.ECmp? then c else ECmp(Lt, ENull, ENull),
                          if c.ECmp? then p else ENot(ECmp(Lt, ENull, ENull)), nextReg, nextReg + 1);
      } else {
        var condReg := AllocReg();
        if condReg.Rejected? { return Rejected(condReg.why); }
        condReg := CompileExpr(cond, condReg.value);
        if condReg.Rejected? { return Rejected(condReg.why); }
        ghost var s1 := S();
        var jump := EmitJump(JmpFalse(condReg.value, 0));
        FreeReg();
        PlainCondEmits(host, s0, s1, c, p, condReg.value, s0.next + 1);
        r := Done(jump);
      }
    }

    method EnterLoop()
      requires Valid()
      modifies this`loops
      ensures Valid() && S() == Entered(old(S()))
    {
      ReadsEach(code, ins);
      loops := loops + [LoopInfo(|code|, [])];
    }

    method CompileLoop(cond: Node, body: seq<Node>, parent: Node, dest: Reg, ghost e: Expr) returns (r: Compiled<Reg>)
      requires Valid() && dest < nextReg && 1 <= compileDepth <= MAX_DEPTH
      requires parent.List? && |parent.children| >= 2 && cond == parent.children[1] && body == parent.children[2..]
      requires e == ELoop(Elaborated(cond), if ElabAll(body).Some? then ElabAll(body).value else [])
      modifies this
      ensures r.Done? <==> Elab(cond).Some? && ElabAll(body).Some? && FormFits(old(S()), e)
      ensures r.Done? ==> Valid() && r.value == dest && Emits(host, old(S()), S(), e, dest)
      decreases parent, 2
    {
      ghost var s0 := S();
      EnterLoop();
      var exitJump := CompileLoopCond(cond, parent, Entered(s0), e.cond, e);
      if exitJump.Done? {
        r := CompileBody(body, dest, exitJump.value, s0, S(), e);
      } else {
        r := Rejected(exitJump.why);
      }
      LoopFits(s0, e);
    }

    method CompileBody(body: seq<Node>, dest: Reg, exitJump: nat, ghost s0: Snap, ghost s1: Snap, ghost e: Expr)
      returns (r: Compiled<Reg>)
      requires Valid() && dest < s0.next <= nextReg && s0.next < 256 && e.ELoop? && exitJump == Pc(s0) + Size(e.cond)
      requires e.body == if ElabAll(body).Some? then ElabAll(body).value else []
      requires S() == s1 && EmitsCond(host, Entered(s0), s1, e.cond, e, s0.next, s0.next + 1) && s1.next == LoopBodyReg(e.cond, s0.next)
      requires s0.loops != [] ==> s0.loops[|s0.loops| - 1].start <= Pc(s0)
      modifies this
      ensures r.Done? <==> ElabAll(body).Some?
                           && FitsSeq(e.body, LoopBodyReg(e.cond, s0.next), Pc(s0) + Size(e.cond) + 1, K(s0) + Consts(e.cond), s0.depth, true)
                           && SizeSeq(e.body) + 1 <= MAX_JUMP
                           && BreaksReach(LoopBreaks(e.cond, e.body, Pc(s0)), Pc(s0) + LoopOffset(e.cond, e.body) + 1)
      ensures r.Done? ==> Valid() && r.value == dest && Emits(host, s0, S(), e, dest)
      decreases body, 1
    {
      LoopNext(host, s0, s1, e);
      r := CompileSeq(body, dest);
      if r.Done? {
        r := CloseLoop(dest, exitJump, s0, s1, S(), e);
      }
    }

    /** The jump back, the exit jump patched, and the result of the loop. */
    method CloseLoop(dest: Reg, exitJump: nat, ghost s0: Snap, ghost s1: Snap, ghost s2: Snap, ghost e: Expr)
      returns (r: Compiled<Reg>)
      requires Valid() && dest < s0.next < 256 && e.ELoop? && exitJump == Pc(s0) + Size(e.cond)
      requires EmitsCond(host, Entered(s0), s1, e.cond, e, s0.next, s0.next + 1) && s1.next == LoopBodyReg(e.cond, s0.next)
      requires S() == s2 && EmitsSeq(host, s1, s2, e.body, dest)
      requires s0.loops != [] ==> s0.loops[|s0.loops| - 1].start <= Pc(s0)
      modifies this
      ensures r.Done? <==> SizeSeq(e.body) + 1 <= MAX_JUMP
                           && BreaksReach(LoopBreaks(e.cond, e.body, Pc(s0)), Pc(s0) + LoopOffset(e.cond, e.body) + 1)
      ensures r.Done? ==> Valid() && r.value == dest && Emits(host, s0, S(), e, dest)
    {
      ghost var s3 := LoopOpens(host, s0, s1, s2, e, dest);
      r := FinishLoop(dest, exitJump, s0, s2, s3, e);
    }

    method FinishLoop(dest: Reg, exitJump: nat, ghost s0: Snap, ghost s2: Snap, ghost s3: Snap, ghost e: Expr)
      returns (r: Compiled<Reg>)
      requires Valid() && dest < s0.next < 256 && e.ELoop? && exitJump == Pc(s0) + Size(e.cond) && S() == s2
      requires s2.loops != [] && s2.loops[|s2.loops| - 1].start == Pc(s0) <= exitJump < Pc(s2)
      requires Pc(s2) == exitJump + 1 + SizeSeq(e.body) && s2.next == NextRegSeq(e.body, LoopBodyReg(e.cond, s0.next))
      requires IsJump(Plus(s2, LoopTo(Pc(s2), Pc(s0))).ch.code[exitJump]) && OpenLoop(host, s0, s3, e, dest)
      requires s3 == Plus(Patch(Plus(s2, LoopTo(Pc(s2), Pc(s0))), exitJump), LoadNull(dest))
      requires s0.loops != [] ==> s0.loops[|s0.loops| - 1].start <= Pc(s0)
      modifies this
      ensures r.Done? <==> SizeSeq(e.body) + 1 <= MAX_JUMP
                           && BreaksReach(LoopBreaks(e.cond, e.body, Pc(s0)), Pc(s0) + LoopOffset(e.cond, e.body) + 1)
      ensures r.Done? ==> Valid() && r.value == dest && Emits(host, s0, S(), e, dest)
    {
      EmitLoop(loops[|loops| - 1].start);
      var p := PatchJump(exitJump);
      if p.Done? {
        Emit(LoadNull(dest));
        r := EndLoop(dest, s0, s3, e);
      } else {
        r := Rejected(p.why);
      }
    }

    /** The `break` jumps patched to lead past the loop, which is left. */
    method EndLoop(dest: Reg, ghost s0: Snap, ghost s3: Snap, ghost e: Expr) returns (r: Compiled<Reg>)
      requires Valid() && dest < s0.next < 256 && e.ELoop? && S() == s3 && OpenLoop(host, s0, s3, e, dest)
      requires nextReg == NextRegSeq(e.body, LoopBodyReg(e.cond, s0.next))
      requires s0.loops != [] ==> s0.loops[|s0.loops| - 1].start <= Pc(s0)
      modifies this
      ensures r.Done? <==> BreaksReach(LoopBreaks(e.cond, e.body, Pc(s0)), Pc(s0) + LoopOffset(e.cond, e.body) + 1)
      ensures r.Done? ==> Valid() && r.value == dest && Emits(host, s0, S(), e, dest)
    {
      LoopBreaksJump(host, s0, s3, e, dest);
      var last := loops[|loops| - 1];
      assert last.breaks == LoopBreaks(e.cond, e.body, Pc(s0)) && loops[..|loops| - 1] == s0.loops;
      var p := PatchBreaks(last.breaks);
      if p.Rejected? { return Rejected(p.why); }
      loops := loops[..|loops| - 1];
      LoopEmits(host, s0, s3, S(), e, dest);
      r := Done(dest);
    }

    method PatchBreaks(breaks: seq<nat>) returns (r: Compiled<()>)
      requires Valid() && forall br | br in breaks :: br < |ins| && ins[br] == Jmp(0)
      modifies this`code, this`ins
      ensures r.Done? <==> BreaksReach(breaks, |old(ins)|)
      ensures r.Done? ==> Valid() && BreaksPatched(old(S()).ch, S().ch, breaks)
    {
      r := Done(());
      for i := 0 to |breaks|
        invariant Valid() && |ins| == |old(ins)| && forall k :: 0 <= k < i ==> |ins| - breaks[k] - 1 <= MAX_JUMP
        invariant forall k :: 0 <= k < |ins| ==> ins[k] == if k in breaks[..i] then Jmp(|ins| - k - 1) else old(ins)[k]
      {
        assert breaks[i] in breaks;
        r := PatchJump(breaks[i]);
        if r.Rejected? { return; }
        assert breaks[..i + 1] == breaks[..i] + [breaks[i]];
      }
      assert breaks[..|breaks|] == breaks;
      r := Done(());
    }
  }

  // ---- whole programs ----

  /** A compiled chunk: its instruction words and its constants. */
  datatype Program = Program(code: seq<Code>, consts: seq<Value>)

  function Decoded(p: Program): Chunk {
    Chunk(seq(|p.code|, i requires 0 <= i < |p.code| => Decode(p.code[i])), p.consts)
  }

  predicate ProgramFits(prog: seq<Expr>) {
    FitsSeq(prog, RESULT_REG + 1, 0, 0, 0, false)
  }

  lemma EmitsProgram(h: Host, s0: Snap, s1: Snap, prog: seq<Expr>)
    requires s0 == Snap(Chunk([], []), RESULT_REG + 1, 0, []) && EmitsSeq(h, s0, s1, prog, RESULT_REG)
    ensures ProgramCode(h, Plus(s1, Return(RESULT_REG)).ch, prog)
  {
    StaysSeq(h, s1.ch, Plus(s1, Return(RESULT_REG)).ch, prog, RESULT_REG, RESULT_REG + 1, 0, 0, NoLoop);
  }

  lemma EmptyProgram(h: Host, s0: Snap)
    requires s0 == Snap(Chunk([], []), RESULT_REG + 1, 0, [])
    ensures ProgramFits([ENull]) && EmitsSeq(h, s0, Plus(s0, LoadNull(RESULT_REG)), [ENull], RESULT_REG)
  {
    var s1 := Plus(s0, LoadNull(RESULT_REG));
    OpenFits(ENull, s0.next, 0, 0, 0, false);
    OneFits(s0, ENull);
    LeafEmits(h, s0, s1, ENull, RESULT_REG);
    SeqNone(h, s0, RESULT_REG);
    SeqStep(h, s0, s0, s1, [], ENull, RESULT_REG);
    assert [] + [ENull] == [ENull];
  }

  method CompileChunk(h: Host, nodes: seq<Node>) returns (r: Compiled<Program>)
    ensures r.Done? <==> ElabProgram(nodes).Some? && ProgramFits(ElabProgram(nodes).value)
    ensures r.Done? ==> ProgramCode(h, Decoded(r.value), ElabProgram(nodes).value)
  {
    var cs := new CompilerState(h);
    var reserved := cs.AllocReg();
    var resultReg := cs.AllocReg();
    ghost var s0 := cs.S();
    if nodes == [] {
      cs.Emit(LoadNull(RESULT_REG));
      EmptyProgram(h, s0);
    } else {
      var last := cs.CompileSeq(nodes, RESULT_REG);
      if last.Rejected? { return Rejected(last.why); }
    }
    EmitsProgram(h, s0, cs.S(), ElabProgram(nodes).value);
    cs.Emit(Return(RESULT_REG));
    ReadsEach(cs.code, cs.ins);
    r := Done(Program(cs.code, cs.constants));
    assert Decoded(r.value) == cs.S().ch;
  }

  /** Compiles a program. It succeeds exactly when the program lies in the fragment
      and keeps within the limits, and then the chunk is the program's code. The
      chunk does what the trees mean if the program keeps clear of the four
      flaws and its immediate operands act as values: no jump back is too long, no
      literal is -32768, no sum with an immediate is computed in the last register,
      and no value of a broken loop is used. */
  method Compile(h: Host, nodes: seq<Node>) returns (r: Compiled<Program>)
    ensures r.Done? <==> ElabProgram(nodes).Some? && ProgramFits(ElabProgram(nodes).value)
    ensures r.Done? ==> ProgramCode(h, Decoded(r.value), ElabProgram(nodes).value)
    ensures ElabProgram(nodes).Some? <==> forall n | n in nodes :: InFragment(n)
    ensures r.Done? ==>
      var prog := ElabProgram(nodes).value;
      var asWritten := AllLoopsFit(prog) && !AnyMinLiteral(prog) && NoLateAddSeq(prog, RESULT_REG, RESULT_REG + 1)
                       && AllSettled(prog) && FoldsAgree(h, AllFolds(prog));
      asWritten ==> Implements(h, Decoded(r.value), nodes, LastDefinite(prog))
  {
    r := CompileChunk(h, nodes);
    ElabProgramMeans(h, 0, nodes, map[]);
    if r.Done? && AsWritten(h, ElabProgram(nodes).value) { ChunkImplements(h, Decoded(r.value), nodes); }
  }
}
