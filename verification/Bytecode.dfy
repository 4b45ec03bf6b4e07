/** 32-bit instruction words, their encoding, and the machine that runs a chunk. */
module Bytecode {
  import opened Semantics

  // ---- instructions ----

  type Reg = n: nat | n < 256
  type Index16 = n: nat | n < 0x1_0000

  /** The instructions the fragment uses, by what they do. */
  datatype Ins =
    | LoadK(a: Reg, bx: Index16)
    | LoadNull(a: Reg)
    | LoadBool(a: Reg, b: Reg)
    | LoadInt(a: Reg, sbx: int)
    | BinOp(op: ArithOp, a: Reg, b: Reg, c: Reg)
    | AddI(a: Reg, sbx: int)
    | SubI(a: Reg, sbx: int)
    | Cmp(cop: CmpOp, a: Reg, b: Reg, c: Reg)
    | CmpJmp(cop: CmpOp, a: Reg, b: Reg)
    | Not(a: Reg, b: Reg)
    | GetGlobal(a: Reg, bx: Index16)
    | SetGlobal(a: Reg, bx: Index16)
    | Jmp(sbx: int)
    | JmpFalse(a: Reg, sbx: int)
    | Loop(sbx: int)
    | And(a: Reg, sbx: int)
    | Or(a: Reg, sbx: int)
    | Return(a: Reg)
    | Unmodelled

  predicate IsFusible(op: CmpOp) {
    op.Lt? || op.Lte? || op.Gt? || op.Gte?
  }

  // ---- encoding ----

  const SBXBIAS := 32767

  /** A 32-bit instruction word by its four bytes, lowest first: opcode, A, and
      either B and C or the two halves of a 16-bit operand. */
  datatype Code = Code(op: Reg, a: Reg, b: Reg, c: Reg)

  function EncodeABC(op: Reg, a: Reg, b: Reg, c: Reg): Code {
    Code(op, a, b, c)
  }

  function EncodeABx(op: Reg, a: Reg, bx: Index16): Code {
    Code(op, a, bx % 0x100, bx / 0x100)
  }

  /** The cast to `uint16_t` keeps the biased offset modulo 65536. */
  function EncodeAsBx(op: Reg, a: Reg, sbx: int): Code {
    EncodeABx(op, a, (sbx + SBXBIAS) % 0x1_0000)
  }

  function DecodeBx(w: Code): Index16 {
    w.b + 0x100 * w.c
  }

  function ArithOpcode(op: ArithOp): Reg {
    match op
    case Add => 4 case Sub => 7 case Mul => 9 case Div => 10
    case Mod => 11 case BAnd => 12 case BOr => 13 case BXor => 14
  }

  function CmpOpcode(op: CmpOp): Reg {
    match op
    case Eq => 18 case Neq => 19 case Lt => 20
    case Gt => 21 case Lte => 22 case Gte => 23
  }

  /** Only the four orderings have a fused compare-and-jump. */
  function FusedOpcode(op: CmpOp): Reg {
    match op
    case Lt => 24 case Lte => 25 case Gt => 26 case Gte => 27
    case _ => 255
  }

  const OP_JMP: Reg := 36

  /** The word of an instruction. */
  function Encode(i: Ins): Code {
    match i
    case LoadK(a, bx) => EncodeABx(0, a, bx)
    case LoadNull(a) => EncodeABC(1, a, 0, 0)
    case LoadBool(a, b) => EncodeABC(2, a, b, 0)
    case LoadInt(a, sbx) => EncodeAsBx(3, a, sbx)
    case BinOp(op, a, b, c) => EncodeABC(ArithOpcode(op), a, b, c)
    case AddI(a, sbx) => EncodeAsBx(6, a, sbx)
    case SubI(a, sbx) => EncodeAsBx(8, a, sbx)
    case Cmp(op, a, b, c) => EncodeABC(CmpOpcode(op), a, b, c)
    case CmpJmp(op, a, b) => EncodeABC(FusedOpcode(op), a, b, 0)
    case Not(a, b) => EncodeABC(28, a, b, 0)
    case GetGlobal(a, bx) => EncodeABx(30, a, bx)
    case SetGlobal(a, bx) => EncodeABx(31, a, bx)
    case Jmp(sbx) => EncodeAsBx(OP_JMP, 0, sbx)
    case JmpFalse(a, sbx) => EncodeAsBx(37, a, sbx)
    case Loop(sbx) => EncodeAsBx(39, 0, sbx)
    case And(a, sbx) => EncodeAsBx(40, a, sbx)
    case Or(a, sbx) => EncodeAsBx(41, a, sbx)
    case Return(a) => EncodeABC(45, a, 0, 0)
    case Unmodelled => EncodeABC(255, 0, 0, 0)
  }

  /** The instruction a word holds, read in the format its opcode uses. */
  function Decode(w: Code): Ins {
    var Code(op, a, b, c) := w;
    var bx := DecodeBx(w);
    var sbx := bx - SBXBIAS;
    if op == 0 then LoadK(a, bx)
    else if op == 1 then LoadNull(a)
    else if op == 2 then LoadBool(a, b)
    else if op == 3 then LoadInt(a, sbx)
    else if op == 4 then BinOp(Add, a, b, c)
    else if op == 6 then AddI(a, sbx)
    else if op == 7 then BinOp(Sub, a, b, c)
    else if op == 8 then SubI(a, sbx)
    else if op == 9 then BinOp(Mul, a, b, c)
    else if op == 10 then BinOp(Div, a, b, c)
    else if op == 11 then BinOp(Mod, a, b, c)
    else if op == 12 then BinOp(BAnd, a, b, c)
    else if op == 13 then BinOp(BOr, a, b, c)
    else if op == 14 then BinOp(BXor, a, b, c)
    else if op == 18 then Cmp(Eq, a, b, c)
    else if op == 19 then Cmp(Neq, a, b, c)
    else if op == 20 then Cmp(Lt, a, b, c)
    else if op == 21 then Cmp(Gt, a, b, c)
    else if op == 22 then Cmp(Lte, a, b, c)
    else if op == 23 then Cmp(Gte, a, b, c)
    else if op == 24 then CmpJmp(Lt, a, b)
    else if op == 25 then CmpJmp(Lte, a, b)
    else if op == 26 then CmpJmp(Gt, a, b)
    else if op == 27 then CmpJmp(Gte, a, b)
    else if op == 28 then Not(a, b)
    else if op == 30 then GetGlobal(a, bx)
    else if op == 31 then SetGlobal(a, bx)
    else if op == 36 then Jmp(sbx)
    else if op == 37 then JmpFalse(a, sbx)
    else if op == 39 then Loop(sbx)
    else if op == 40 then And(a, sbx)
    else if op == 41 then Or(a, sbx)
    else if op == 45 then Return(a)
    else Unmodelled
  }

  /** The first byte is the number the opcode has in the enumeration. */
  lemma OpcodeNumbers(a: Reg, b: Reg, c: Reg, bx: Index16, sbx: int)
    ensures Encode(LoadK(a, bx)).op == 0 && Encode(LoadNull(a)).op == 1 && Encode(LoadBool(a, b)).op == 2 && Encode(LoadInt(a, sbx)).op == 3
    ensures Encode(BinOp(Add, a, b, c)).op == 4 && Encode(AddI(a, sbx)).op == 6
    ensures Encode(BinOp(Sub, a, b, c)).op == 7 && Encode(SubI(a, sbx)).op == 8
    ensures Encode(BinOp(Mul, a, b, c)).op == 9 && Encode(BinOp(Div, a, b, c)).op == 10 && Encode(BinOp(Mod, a, b, c)).op == 11
    ensures Encode(BinOp(BAnd, a, b, c)).op == 12 && Encode(BinOp(BOr, a, b, c)).op == 13 && Encode(BinOp(BXor, a, b, c)).op == 14
    ensures Encode(Cmp(Eq, a, b, c)).op == 18 && Encode(Cmp(Neq, a, b, c)).op == 19
    ensures Encode(Cmp(Lt, a, b, c)).op == 20 && Encode(Cmp(Gt, a, b, c)).op == 21
    ensures Encode(Cmp(Lte, a, b, c)).op == 22 && Encode(Cmp(Gte, a, b, c)).op == 23
    ensures Encode(CmpJmp(Lt, a, b)).op == 24 && Encode(CmpJmp(Lte, a, b)).op == 25
    ensures Encode(CmpJmp(Gt, a, b)).op == 26 && Encode(CmpJmp(Gte, a, b)).op == 27
    ensures Encode(Not(a, b)).op == 28 && Encode(GetGlobal(a, bx)).op == 30 && Encode(SetGlobal(a, bx)).op == 31
    ensures Encode(Jmp(sbx)).op == 36 && Encode(JmpFalse(a, sbx)).op == 37 && Encode(Loop(sbx)).op == 39
    ensures Encode(And(a, sbx)).op == 40 && Encode(Or(a, sbx)).op == 41 && Encode(Return(a)).op == 45
  {
  }

  /** What a signed operand reads as after encoding. */
  function SBxReadBack(sbx: int): int {
    (sbx + SBXBIAS) % 0x1_0000 - SBXBIAS
  }

  /** An instruction as the machine will see it. */
  function ReadBack(i: Ins): Ins {
    match i
    case LoadInt(a, sbx) => LoadInt(a, SBxReadBack(sbx))
    case AddI(a, sbx) => AddI(a, SBxReadBack(sbx))
    case SubI(a, sbx) => SubI(a, SBxReadBack(sbx))
    case Jmp(sbx) => Jmp(SBxReadBack(sbx))
    case JmpFalse(a, sbx) => JmpFalse(a, SBxReadBack(sbx))
    case Loop(sbx) => Loop(SBxReadBack(sbx))
    case And(a, sbx) => And(a, SBxReadBack(sbx))
    case Or(a, sbx) => Or(a, SBxReadBack(sbx))
    case CmpJmp(op, _, _) => if IsFusible(op) then i else Unmodelled
    case _ => i
  }

  predicate HasSigned(i: Ins) {
    i.LoadInt? || i.AddI? || i.SubI? || i.Jmp? || i.JmpFalse? || i.Loop? || i.And? || i.Or?
  }

  lemma DecodeSigned(i: Ins)
    requires HasSigned(i)
    ensures Decode(Encode(i)) == ReadBack(i)
  {
  }

  predicate HasWide(i: Ins) {
    i.LoadK? || i.GetGlobal? || i.SetGlobal?
  }

  lemma DecodeWide(i: Ins)
    requires HasWide(i)
    ensures Decode(Encode(i)) == ReadBack(i)
  {
  }

  lemma DecodeRegisters(i: Ins)
    requires !HasSigned(i) && !HasWide(i)
    ensures Decode(Encode(i)) == ReadBack(i)
  {
  }

  /** Decoding an encoded instruction gives it back up to the width of its signed
      operand. */
  lemma DecodeEncode(i: Ins)
    ensures Decode(Encode(i)) == ReadBack(i)
  {
    if HasSigned(i) {
      DecodeSigned(i);
    } else if HasWide(i) {
      DecodeWide(i);
    } else {
      DecodeRegisters(i);
    }
  }

  /** A signed operand survives encoding exactly on -32767..32768. */
  lemma SBxRoundTrip(a: Reg, sbx: int)
    ensures Decode(Encode(LoadInt(a, sbx))) == LoadInt(a, sbx) <==> -32767 <= sbx <= 32768
    ensures Decode(Encode(Loop(sbx))) == Loop(sbx) <==> -32767 <= sbx <= 32768
  {
    DecodeEncode(LoadInt(a, sbx));
    DecodeEncode(Loop(sbx));
  }

  /** On the literals the compiler loads as immediates, reading back is what
      `ReadLiteral` says. */
  lemma ImmediateReadBack(v: int)
    requires IsImmediate(v)
    ensures SBxReadBack(v) == ReadLiteral(Encoded, v)
  {
  }

  // ---- the machine ----

  /** A chunk as the machine reads it: decoded instructions and constants. A
      symbol constant is the integer id of its name. */
  datatype Chunk = Chunk(code: seq<Ins>, consts: seq<Value>)

  datatype Machine = Machine(h: Host, ch: Chunk)

  datatype Vm = Vm(pc: int, regs: seq<Value>, globals: Globals)

  datatype Status =
    | Running(st: Vm)
    | Returned(v: Value, globals: Globals)
    | Failed(e: RuntimeError, globals: Globals)
    | Wild  // outside the chunk, or not modelled

  const REGISTERS := 256

  function SetReg(st: Vm, a: Reg, v: Value): Status
    requires |st.regs| == REGISTERS
  {
    Running(Vm(st.pc + 1, st.regs[a := v], st.globals))
  }

  function SetResult(st: Vm, a: Reg, r: Computed): Status
    requires |st.regs| == REGISTERS
  {
    match r
    case Ok(v) => SetReg(st, a, v)
    case Error(e) => Failed(e, st.globals)
  }

  function Goto(st: Vm, target: int): Status {
    Running(Vm(target, st.regs, st.globals))
  }

  /** ADDI on a value that is not an integer loads the immediate into the next
      register and calls the addition; after register 253 there is none it would
      use, and the immediate replaces the value. SUBI looks at no type. */
  function AddImmediate(m: Machine, st: Vm, a: Reg, imm: int): (s: Status)
    requires |st.regs| == REGISTERS
    ensures s.Running? ==> |s.st.regs| == REGISTERS
  {
    if st.regs[a].Int? then SetResult(st, a, m.h.immediate(Add, st.regs[a], imm))
    else
      var regs := st.regs[Scratch(a) := Int(imm)];
      SetResult(st.(regs := regs), a, m.h.arith(Add, regs[a], regs[Scratch(a)]))
  }

  function Scratch(a: nat): (r: nat)
    ensures a < 255 ==> r < 255
    ensures a < 256 ==> r < 256
  {
    if a + 1 < 255 then a + 1 else a
  }

  /** A fused comparison skips the jump after it when it holds. */
  function Perform(m: Machine, st: Vm, i: Ins): (s: Status)
    requires |st.regs| == REGISTERS
    ensures s.Running? ==> |s.st.regs| == REGISTERS
  {
    match i
    case LoadK(a, bx) => if bx < |m.ch.consts| then SetReg(st, a, m.ch.consts[bx]) else Wild
    case LoadNull(a) => SetReg(st, a, Null)
    case LoadBool(a, b) => SetReg(st, a, Bool(b != 0))
    case LoadInt(a, sbx) => SetReg(st, a, Int(sbx))
    case BinOp(op, a, b, c) => SetResult(st, a, m.h.arith(op, st.regs[b], st.regs[c]))
    case AddI(a, sbx) => AddImmediate(m, st, a, sbx)
    case SubI(a, sbx) => SetResult(st, a, m.h.immediate(Sub, st.regs[a], sbx))
    case Cmp(op, a, b, c) => SetReg(st, a, Bool(m.h.compare(op, st.regs[b], st.regs[c])))
    case CmpJmp(op, a, b) => Goto(st, if m.h.compare(op, st.regs[a], st.regs[b]) then st.pc + 2 else st.pc + 1)
    case Not(a, b) => SetReg(st, a, Bool(Falsy(st.regs[b])))
    case GetGlobal(a, bx) =>
      if bx >= |m.ch.consts| || !m.ch.consts[bx].Int? || m.ch.consts[bx].n < 0 then Wild
      else if m.ch.consts[bx].n in st.globals then SetReg(st, a, st.globals[m.ch.consts[bx].n])
      else Failed(UndefinedVariable, st.globals)
    case SetGlobal(a, bx) =>
      if bx >= |m.ch.consts| || !m.ch.consts[bx].Int? || m.ch.consts[bx].n < 0 then Wild
      else Running(Vm(st.pc + 1, st.regs, st.globals[m.ch.consts[bx].n := st.regs[a]]))
    case Jmp(sbx) => Goto(st, st.pc + 1 + sbx)
    case JmpFalse(a, sbx) => Goto(st, if Falsy(st.regs[a]) then st.pc + 1 + sbx else st.pc + 1)
    case Loop(sbx) => Goto(st, st.pc + 1 - sbx)
    case And(a, sbx) => Goto(st, if Falsy(st.regs[a]) then st.pc + 1 + sbx else st.pc + 1)
    case Or(a, sbx) => Goto(st, if Falsy(st.regs[a]) then st.pc + 1 else st.pc + 1 + sbx)
    case Return(a) => Returned(st.regs[a], st.globals)
    case Unmodelled => Wild
  }

  function Step(m: Machine, s: Status): (r: Status)
    requires s.Running? ==> |s.st.regs| == REGISTERS
    ensures r.Running? ==> |r.st.regs| == REGISTERS
  {
    if !s.Running? then s
    else if 0 <= s.st.pc < |m.ch.code| then Perform(m, s.st, m.ch.code[s.st.pc])
    else Wild
  }

  /** The status after `n` steps; a machine that has stopped stays as it is. As in
      `Layout`, the forwarding layers keep the definition from being unfolded
      everywhere. */
  function Run(m: Machine, s: Status, n: nat): (r: Status)
    requires s.Running? ==> |s.st.regs| == REGISTERS
    ensures r.Running? ==> |r.st.regs| == REGISTERS
    decreases n, 2
  {
    RunSealed(m, s, n)
  }

  function RunSealed(m: Machine, s: Status, n: nat): (r: Status)
    requires s.Running? ==> |s.st.regs| == REGISTERS
    ensures r.Running? ==> |r.st.regs| == REGISTERS
    decreases n, 1
  {
    RunDef(m, s, n)
  }

  function RunDef(m: Machine, s: Status, n: nat): (r: Status)
    requires s.Running? ==> |s.st.regs| == REGISTERS
    ensures r.Running? ==> |r.st.regs| == REGISTERS
    decreases n, 0
  {
    if n == 0 then s else Step(m, Run(m, s, n - 1))
  }

  lemma OpenRun(m: Machine, s: Status, n: nat)
    requires s.Running? ==> |s.st.regs| == REGISTERS
    ensures Run(m, s, n) == if n == 0 then s else Step(m, Run(m, s, n - 1))
  {
    assert RunSealed(m, s, n) == RunDef(m, s, n);
  }

  lemma {:induction false} RunSplit(m: Machine, s: Status, a: nat, b: nat)
    requires s.Running? ==> |s.st.regs| == REGISTERS
    ensures Run(m, s, a + b) == Run(m, Run(m, s, a), b)
  {
    OpenRun(m, s, a + b);
    OpenRun(m, Run(m, s, a), b);
    if b > 0 {
      RunSplit(m, s, a, b - 1);
    }
  }

  /** A stopped machine does not move, so two runs that both stop agree. */
  lemma {:induction false} StoppedStays(m: Machine, s: Status, a: nat, b: nat)
    requires s.Running? ==> |s.st.regs| == REGISTERS
    requires a <= b && !Run(m, s, a).Running?
    ensures Run(m, s, b) == Run(m, s, a)
  {
    OpenRun(m, s, b);
    if a < b {
      StoppedStays(m, s, a, b - 1);
    }
  }
}
