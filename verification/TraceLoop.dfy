/** What a compiled loop trace does, with and without the entries the pass eliminated. */
module TraceLoop {
  import opened NanBox
  import opened Bytecode
  import opened TraceDse

  // ---- the compiled trace ----

  type Registers = s: seq<Word> | |s| == REGISTERS witness seq(REGISTERS, _ => 0)

  /** A name for everything outside the registers: heap, globals, captures, errors. */
  type World = int

  datatype Config = Config(regs: Registers, world: World)

  datatype Helped = Gives(v: Word, world: World) | Fails(world: World)

  /** What the trace's code leaves to the runtime: whether a word is falsy, which for
      objects looks at the heap; the registers a new closure captures; and what a helper
      makes of an entry, of the words of its operands and of the world. */
  datatype Env = Env(falsy: Word -> bool, captured: Entry -> seq<Reg>, helper: (Entry, seq<Word>, World) -> Helped)

  function Immediate(e: Entry): int {
    DecodeBx(e.inst) - SBXBIAS
  }

  function BoolWord(b: bool): Word {
    if b then TAG_BOOL + 1 else TAG_BOOL
  }

  predicate Compares(op: Reg, x: int, y: int) {
    if op == EQ then x == y
    else if op == NEQ then x != y
    else if op == LT || op == LTJMP then x < y
    else if op == GT || op == GTJMP then x > y
    else if op == LTE || op == LEJMP then x <= y
    else x >= y
  }

  /** A LOADK or ADDK names a constant of its chunk. */
  predicate Compilable(e: Entry) {
    && (e.inst.op == LOADK ==> DecodeBx(e.inst) < |e.consts|)
    && (e.inst.op == ADDK ==> e.inst.c < |e.consts| && IsInt(e.consts[e.inst.c]))
  }

  /** Fused comparisons leave the trace when they do not hold. */
  predicate IsFused(op: Reg) {
    LTJMP <= op <= GEJMP
  }

  predicate IsJump(op: Reg) {
    op == JMPFALSE || op == JMPTRUE
  }

  /** Entries whose code computes a word and stores it; NOT calls a helper for that which
      cannot fail. A RETURN outside of an inlined callee has no code. */
  predicate IsInline(e: Entry) {
    var op := e.inst.op;
    || op <= MUL || EQ <= op <= GTE || op == NOT || op == MOVE
    || (op == RETURN && e.regBase > 0)
  }

  /** Entries whose code calls a helper that may fail and stores its result. */
  predicate IsFetch(op: Reg) {
    || op == DIV || op == GETGLOBAL || op == ENVGET || op == GETCAPTURE || op == CLOSURE || op == TABLE
    || op == GETFIELD || op == GETINDEX || op == LENGTH || op == MCALL
  }

  /** Entries whose code calls a helper that may fail and has no result. */
  predicate IsEffect(op: Reg) {
    op == SETGLOBAL || op == ENVSET || op == SETCAPTURE || op == SETFIELD || op == SETINDEX
  }

  /** No code is emitted for anything else: not for MOD, the bitwise operations and
      shifts, which the pass takes to write A, nor for CALL, JMP, AND and OR. */
  predicate HasCode(e: Entry) {
    IsInline(e) || IsFetch(e.inst.op) || IsEffect(e.inst.op) || IsFused(e.inst.op) || IsJump(e.inst.op)
  }

  /** The register an entry's code stores to: a RETURN moves its register to where
      the callee stood, the first of its frame. */
  function Target(e: Entry): Reg {
    if e.inst.op == RETURN then e.regBase else RegA(e)
  }

  predicate Stores(e: Entry) {
    IsInline(e) || IsFetch(e.inst.op)
  }

  /** The word an inline entry stores. */
  function Result(env: Env, e: Entry, regs: Registers): Word
    requires Compilable(e) && IsInline(e)
  {
    var op, a, b, c := e.inst.op, regs[RegA(e)], regs[RegB(e)], regs[RegC(e)];
    if op == LOADK then e.consts[DecodeBx(e.inst)]
    else if op == LOADNULL then TAG_NULL
    else if op == LOADBOOL then BoolWord(RegB(e) != 0)
    else if op == LOADINT then TAG_INT + Immediate(e) % TWO_48
    else if op == ADD then EmitAdd(b, c)
    else if op == SUB then EmitSub(b, c)
    else if op == MUL then TAG_INT + (IntVal(b) * IntVal(c)) % TWO_48
    else if op == ADDI then EmitAddi(a, Immediate(e))
    else if op == SUBI then EmitSubi(a, Immediate(e))
    else if op == ADDK then TAG_INT + (IntVal(b) + IntVal(e.consts[e.inst.c])) % TWO_48
    else if op == MOVE then b
    else if op == RETURN then a
    else if op == NOT then BoolWord(env.falsy(b))
    else BoolWord(Compares(op, IntVal(b), IntVal(c)))
  }

  /** The registers from `lo` to `hi`. */
  function Span(lo: nat, hi: int): (rs: seq<Reg>)
    ensures forall r: Reg :: r in rs <==> lo <= r <= hi
    decreases 256 - lo
  {
    if lo > hi || lo > 255 then [] else [lo] + Span(lo + 1, hi)
  }

  /** The registers an instruction reads. Captures and the environment are found through
      register 0; a method call reads its receiver and arguments, at least two. */
  function Operands(env: Env, e: Entry): seq<Reg> {
    var op, a, b, c := e.inst.op, RegA(e), RegB(e), RegC(e);
    if IsBinary(op) || op == GETINDEX then [b, c]
    else if op == ADDI || op == SUBI || IsJump(op) || op == SETGLOBAL || op == RETURN || op == AND || op == OR then [a]
    else if op == ADDK || op == MOVE || op == NOT || op == BNOT || op == LENGTH || op == GETFIELD then [b]
    else if IsFused(op) || op == SETFIELD then [a, b]
    else if op == SETINDEX then [a, b, c]
    else if op == ENVGET || op == GETCAPTURE then [0]
    else if op == ENVSET || op == SETCAPTURE then [a, 0]
    else if op == CLOSURE then env.captured(e)
    else if op == TABLE then Span(a + 1, a + 2 * e.inst.b)
    else if op == CALL then Span(a, a + e.inst.b)
    else if op == MCALL then Span(a, a + if e.inst.b < 2 then 2 else e.inst.b)
    else []
  }

  /** The registers an entry's code loads. */
  function Loads(env: Env, e: Entry): seq<Reg> {
    if HasCode(e) then Operands(env, e) else []
  }

  function Words(rs: seq<Reg>, regs: Registers): (ws: seq<Word>)
    ensures |ws| == |rs| && forall i :: 0 <= i < |rs| ==> ws[i] == regs[rs[i]]
  {
    if rs == [] then [] else [regs[rs[0]]] + Words(rs[1..], regs)
  }

  predicate GuardHolds(e: Entry, regs: Registers)
    requires IsFused(e.inst.op) || IsJump(e.inst.op)
  {
    if IsFused(e.inst.op) then Compares(e.inst.op, IntVal(regs[RegA(e)]), IntVal(regs[RegB(e)]))
    else if (e.inst.op == JMPFALSE) == e.taken then IsFalsy(regs[RegA(e)])
    else !IsFalsy(regs[RegA(e)])
  }

  /** What a conditional jump compares a word with. */
  predicate IsFalsy(w: Word) {
    w == TAG_NULL || w == TAG_BOOL || w == TAG_INT
  }

  /** Comparisons and guards by the numbers of their opcodes: which order each tests, and
      which way each leaves the trace. */
  lemma GuardsByNumber(env: Env, e: Entry, regs: Registers)
    requires Compilable(e)
    ensures var op, a, b, c := e.inst.op, regs[RegA(e)], regs[RegB(e)], regs[RegC(e)];
      && (op == 18 ==> Result(env, e, regs) == BoolWord(IntVal(b) == IntVal(c)))
      && (op == 19 ==> Result(env, e, regs) == BoolWord(IntVal(b) != IntVal(c)))
      && (op == 20 ==> Result(env, e, regs) == BoolWord(IntVal(b) < IntVal(c)))
      && (op == 21 ==> Result(env, e, regs) == BoolWord(IntVal(c) < IntVal(b)))
      && (op == 22 ==> Result(env, e, regs) == BoolWord(!(IntVal(c) < IntVal(b))))
      && (op == 23 ==> Result(env, e, regs) == BoolWord(!(IntVal(b) < IntVal(c))))
      && (op == 24 ==> (GuardHolds(e, regs) <==> IntVal(a) < IntVal(b)))
      && (op == 25 ==> (GuardHolds(e, regs) <==> !(IntVal(b) < IntVal(a))))
      && (op == 26 ==> (GuardHolds(e, regs) <==> IntVal(b) < IntVal(a)))
      && (op == 27 ==> (GuardHolds(e, regs) <==> !(IntVal(a) < IntVal(b))))
      && (op == 37 ==> (GuardHolds(e, regs) <==> (e.taken <==> a in {TAG_NULL, TAG_BOOL, TAG_INT})))
      && (op == 38 ==> (GuardHolds(e, regs) <==> (e.taken <==> a !in {TAG_NULL, TAG_BOOL, TAG_INT})))
  {
  }

  datatype Effect = Next(m: Config) | Leaves(failed: bool, m: Config)

  /** What one entry does: it goes on to the next one, leaves the trace at a guard, or
      leaves it with an error. */
  function Exec(env: Env, e: Entry, m: Config): Effect
    requires Live(e) ==> Compilable(e)
  {
    if !Live(e) || !HasCode(e) then Next(m)
    else if IsInline(e) then Next(m.(regs := m.regs[Target(e) := Result(env, e, m.regs)]))
    else if IsFused(e.inst.op) || IsJump(e.inst.op) then (if GuardHolds(e, m.regs) then Next(m) else Leaves(false, m))
    else match env.helper(e, Words(Loads(env, e), m.regs), m.world)
      case Fails(w) => Leaves(true, m.(world := w))
      case Gives(v, w) => Next(Config(if IsFetch(e.inst.op) then m.regs[RegA(e) := v] else m.regs, w))
  }

  predicate AllCompilable(es: seq<Entry>) {
    forall k :: 0 <= k < |es| && Live(es[k]) ==> Compilable(es[k])
  }

  datatype Outcome = Looping(m: Config) | Left(round: nat, entry: nat, failed: bool, m: Config)

  /** Entries from `k` on. */
  function Round(env: Env, es: seq<Entry>, k: nat, round: nat, m: Config): Outcome
    requires k <= |es| && AllCompilable(es)
    decreases |es| - k
  {
    if k == |es| then Looping(m)
    else match Exec(env, es[k], m)
      case Leaves(failed, m') => Left(round, k, failed, m')
      case Next(m') => Round(env, es, k + 1, round, m')
  }

  /** The compiled loop after `n` trips round the trace, or where it left. */
  function Trips(env: Env, es: seq<Entry>, n: nat, m: Config): Outcome
    requires AllCompilable(es)
  {
    if n == 0 then Looping(m)
    else match Trips(env, es, n - 1, m)
      case Left(round, entry, failed, m') => Left(round, entry, failed, m')
      case Looping(m') => Round(env, es, 0, n - 1, m')
  }

  // ---- what the pass is told ----

  predicate ReportsAll(env: Env, e: Entry) {
    forall r: Reg :: r in Operands(env, e) ==> Reports(e, r)
  }

  /** Which entries the pass understands, of all there are: those that do not read
      register 255, except that it takes MOVE, NOT, BNOT and LENGTH to read what they
      write, overlooks register 0 as the way to captures and environment, every capture
      of a new closure, and what method calls, AND and OR read, and that it adds the
      frame to the counts of TABLE and CALL, which must not wrap round. */
  lemma UnderstoodEntries(env: Env, e: Entry)
    requires Live(e)
    ensures ReportsAll(env, e) <==>
      var op, a, b := e.inst.op, RegA(e), RegB(e);
      && 255 !in Operands(env, e)
      && (op in {MOVE, NOT, BNOT, LENGTH} ==> a == b)
      && (op in {ENVSET, SETCAPTURE} ==> a == 0)
      && op !in {ENVGET, GETCAPTURE, MCALL, AND, OR}
      && (op == CLOSURE ==> env.captured(e) == [])
      && (op == CALL || (op == TABLE && e.inst.b > 0 && a < 255) ==> e.inst.b + e.regBase < 256)
  {
    var op, rs := e.inst.op, Operands(env, e);
    if op == CLOSURE {
      if rs != [] { assert rs[0] in rs && !Reports(e, rs[0]); }
    } else if op == CALL || op == TABLE {
      CountsWrap(env, e);
    } else if op == MCALL {
      assert RegA(e) in rs && !Reports(e, RegA(e));
    } else if rs != [] {
      assert rs[0] in rs && rs[|rs| - 1] in rs;
    }
  }

  lemma CountsWrap(env: Env, e: Entry)
    requires Live(e) && (e.inst.op == CALL || e.inst.op == TABLE)
    ensures ReportsAll(env, e) <==>
      255 !in Operands(env, e) && (e.inst.op == CALL || (e.inst.b > 0 && RegA(e) < 255) ==> e.inst.b + e.regBase < 256)
  {
    RebasedCount(e.inst.b, e.regBase);
    var a: int, b: int, counted: int := RegA(e), e.inst.b, RegB(e);
    if e.inst.op == CALL {
      SpansWithin(a, a + b, a + counted);
    } else {
      SpansWithin(a + 1, a + 2 * b, a + 2 * counted);
    }
  }

  lemma RebasedCount(b: Reg, base: Reg)
    ensures Rebase(b, base) == if b + base < 256 then b + base else b + base - 256
  {
  }

  /** The registers up to 254 of one range lie in another exactly if it reaches as far. */
  lemma SpansWithin(lo: nat, hi: int, hi2: int)
    ensures (forall r: Reg :: r in Span(lo, hi) ==> r < 255 && lo <= r <= hi2) <==> 255 !in Span(lo, hi) && (lo <= hi && lo <= 255 ==> hi <= hi2)
  {
    if lo <= hi && lo <= 255 {
      if hi <= 255 { assert hi in Span(lo, hi); } else { assert 255 in Span(lo, hi); }
    }
  }

  /** Nor does it report anything else, but for those four and the two counts. */
  lemma NothingElseReported(env: Env, e: Entry, r: Reg)
    requires Reports(e, r) && e.inst.op !in {MOVE, NOT, BNOT, LENGTH} && (e.inst.op in {TABLE, CALL} ==> e.regBase == 0)
    ensures r in Operands(env, e)
  {
  }

  // ---- the pass keeps the loop's behaviour ----

  /** The pass sees no entry write the register. */
  predicate NeverWritten(es: seq<Entry>, r: Reg) {
    NoWriteIn(es, r, 0, |es|)
  }

  /** Every register an entry's code loads is reported or never written in the trace, and
      what the pass takes to write its register has code that does. */
  predicate Eligible(env: Env, es: seq<Entry>) {
    && AllCompilable(es)
    && forall k :: 0 <= k < |es| && Live(es[k]) ==>
         && (forall r :: r in Loads(env, es[k]) ==> Reports(es[k], r) || NeverWritten(es, r))
         && (WritesA(es[k].inst.op) ==> HasCode(es[k]))
  }

  /** Among the operations the pass takes to write, code is missing for seven. */
  lemma WritesWithoutCode(e: Entry)
    requires WritesA(e.inst.op)
    ensures !HasCode(e) <==> e.inst.op in {MOD, BAND, BOR, BXOR, BNOT, SHL, SHR}
    ensures HasCode(e) ==> Stores(e) && Target(e) == RegA(e)
  {
  }

  /** Register `r` may hold a different word before entry `k` when its last
      store was dropped and its overwriting entry is still ahead. */
  ghost predicate Stale(es: seq<Entry>, k: nat, r: Reg) {
    exists i: nat, j: nat :: StaleBetween(es, i, k, j, r)
  }

  predicate StaleBetween(es: seq<Entry>, i: nat, k: nat, j: nat, r: Reg) {
    i < k <= j < |es| && RegA(es[i]) == r && Live(es[i]) && WritesA(es[i].inst.op) && Droppable(es[i].inst.op) && Overwrites(es, i, j)
  }

  ghost predicate InStep(es: seq<Entry>, k: nat, m1: Config, m2: Config) {
    m1.world == m2.world && forall r: Reg :: m1.regs[r] == m2.regs[r] || Stale(es, k, r)
  }

  /** A stale register is neither reported here nor one the trace never writes. */
  lemma StaleIsUnread(es: seq<Entry>, k: nat, r: Reg)
    requires k < |es| && Stale(es, k, r)
    ensures !Reports(es[k], r) && !NeverWritten(es, r)
  {
    var i: nat, j: nat :| StaleBetween(es, i, k, j, r);
    assert NoReadIn(es, r, i + 1, j + 1) && Writes(es[j], r);
  }

  /** Within step means with the same operands. */
  lemma LoadsAgree(env: Env, es: seq<Entry>, k: nat, m1: Config, m2: Config)
    requires Eligible(env, es) && k < |es| && Live(es[k]) && InStep(es, k, m1, m2)
    ensures forall r :: r in Loads(env, es[k]) ==> m1.regs[r] == m2.regs[r]
  {
    forall r | r in Loads(env, es[k]) ensures m1.regs[r] == m2.regs[r] {
      if Stale(es, k, r) { StaleIsUnread(es, k, r); }
    }
  }

  lemma WordsAgree(rs: seq<Reg>, regs1: Registers, regs2: Registers)
    requires forall r :: r in rs ==> regs1[r] == regs2[r]
    ensures Words(rs, regs1) == Words(rs, regs2)
  {
  }

  lemma ResultNeedsLoads(env: Env, e: Entry, regs1: Registers, regs2: Registers)
    requires Compilable(e) && IsInline(e) && forall r :: r in Operands(env, e) ==> regs1[r] == regs2[r]
    ensures Result(env, e, regs1) == Result(env, e, regs2)
  {
  }

  lemma GuardNeedsLoads(env: Env, e: Entry, regs1: Registers, regs2: Registers)
    requires (IsFused(e.inst.op) || IsJump(e.inst.op)) && forall r :: r in Operands(env, e) ==> regs1[r] == regs2[r]
    ensures GuardHolds(e, regs1) == GuardHolds(e, regs2)
  {
    assert RegA(e) in Operands(env, e);
  }

  /** The same operands and the same world have the same effect. */
  predicate SameEffect(e: Entry, m1: Config, m2: Config, f1: Effect, f2: Effect) {
    && f1.Leaves? == f2.Leaves? && f1.m.world == f2.m.world
    && (f1.Leaves? ==> f1.failed == f2.failed && f1.m.regs == m1.regs && f2.m.regs == m2.regs)
    && (f1.Next? && !Stores(e) ==> f1.m.regs == m1.regs && f2.m.regs == m2.regs)
    && (f1.Next? && Stores(e) ==> f1.m.regs == m1.regs[Target(e) := f1.m.regs[Target(e)]] && f2.m.regs == m2.regs[Target(e) := f1.m.regs[Target(e)]])
  }

  lemma EffectNeedsLoads(env: Env, e: Entry, m1: Config, m2: Config)
    requires Live(e) && Compilable(e) && m1.world == m2.world
    requires forall r :: r in Loads(env, e) ==> m1.regs[r] == m2.regs[r]
    ensures SameEffect(e, m1, m2, Exec(env, e, m1), Exec(env, e, m2))
  {
    if HasCode(e) {
      if IsInline(e) {
        ResultNeedsLoads(env, e, m1.regs, m2.regs);
      } else if IsFused(e.inst.op) || IsJump(e.inst.op) {
        GuardNeedsLoads(env, e, m1.regs, m2.regs);
      } else {
        WordsAgree(Loads(env, e), m1.regs, m2.regs);
      }
    }
  }

  /** What is dropped could neither fail, nor leave the trace, nor touch anything but its
      register. */
  lemma DroppedIsPure(env: Env, es: seq<Entry>, es2: seq<Entry>, i: nat, m: Config)
    requires Flagged(es, es2, |es|) && AllCompilable(es) && i < |es| && Live(es[i]) && !Live(es2[i])
    ensures Exec(env, es[i], m).Next?
    ensures var t := Exec(env, es[i], m).m; t.world == m.world && t.regs == m.regs[RegA(es[i]) := t.regs[RegA(es[i])]]
  {
  }

  /** A register the entry does not write stays stale; the one it writes is in
      step again if the entry is kept. */
  lemma StaleNext(es: seq<Entry>, k: nat, r: Reg)
    requires k < |es| && Stale(es, k, r) && !Writes(es[k], r)
    ensures Stale(es, k + 1, r)
  {
    var i: nat, j: nat :| StaleBetween(es, i, k, j, r);
    assert j != k;
    assert StaleBetween(es, i, k + 1, j, r);
  }

  lemma DroppedNext(env: Env, es: seq<Entry>, es2: seq<Entry>, k: nat, m1: Config, m2: Config)
    requires Eligible(env, es) && Flagged(es, es2, |es|) && k < |es| && InStep(es, k, m1, m2) && Live(es[k]) && !Live(es2[k])
    ensures Exec(env, es[k], m1).Next? && InStep(es, k + 1, Exec(env, es[k], m1).m, m2)
  {
    DroppedIsPure(env, es, es2, k, m1);
    var j :| k < j < |es| && Overwrites(es, k, j);
    assert StaleBetween(es, k, k + 1, j, RegA(es[k]));
    forall r: Reg | m1.regs[r] != m2.regs[r] && r != RegA(es[k]) ensures Stale(es, k + 1, r) { StaleNext(es, k, r); }
  }

  lemma KeptNext(env: Env, es: seq<Entry>, k: nat, m1: Config, m2: Config)
    requires Eligible(env, es) && k < |es| && InStep(es, k, m1, m2) && Live(es[k])
    ensures var f1, f2 := Exec(env, es[k], m1), Exec(env, es[k], m2);
      && f1.Leaves? == f2.Leaves? && (f1.Leaves? ==> f1.failed == f2.failed)
      && InStep(es, if f1.Leaves? then k else k + 1, f1.m, f2.m)
  {
    var e := es[k];
    LoadsAgree(env, es, k, m1, m2);
    EffectNeedsLoads(env, e, m1, m2);
    var f1, f2 := Exec(env, e, m1), Exec(env, e, m2);
    if WritesA(e.inst.op) { WritesWithoutCode(e); }
    if f1.Next? {
      forall r: Reg | f1.m.regs[r] != f2.m.regs[r] ensures Stale(es, k + 1, r) { StaleNext(es, k, r); }
    }
  }

  lemma IdleNext(env: Env, es: seq<Entry>, k: nat, m1: Config, m2: Config)
    requires k < |es| && InStep(es, k, m1, m2) && !Live(es[k])
    ensures InStep(es, k + 1, m1, m2)
  {
    forall r: Reg | m1.regs[r] != m2.regs[r] ensures Stale(es, k + 1, r) { StaleNext(es, k, r); }
  }

  /** The same ending: the same place, the same error, the same world and the same
      registers, but for those that are stale where the trace was left. */
  ghost predicate SameOutcome(es: seq<Entry>, o1: Outcome, o2: Outcome) {
    match (o1, o2)
    case (Looping(m1), Looping(m2)) => m1 == m2
    case (Left(round1, k1, failed1, m1), Left(round2, k2, failed2, m2)) =>
      round1 == round2 && k1 == k2 && failed1 == failed2 && InStep(es, k1, m1, m2)
    case _ => false
  }

  lemma {:induction false} RoundKeepsPace(env: Env, es: seq<Entry>, es2: seq<Entry>, k: nat, round: nat, m1: Config, m2: Config)
    requires Eligible(env, es) && Flagged(es, es2, |es|) && AllCompilable(es2) && k <= |es| && InStep(es, k, m1, m2)
    ensures SameOutcome(es, Round(env, es, k, round, m1), Round(env, es2, k, round, m2))
    decreases |es| - k
  {
    if k == |es| {
      assert forall r: Reg :: !Stale(es, k, r);
      assert m1.regs == m2.regs;
    } else if !Live(es[k]) {
      IdleNext(env, es, k, m1, m2);
      RoundKeepsPace(env, es, es2, k + 1, round, m1, m2);
    } else if !Live(es2[k]) {
      DroppedNext(env, es, es2, k, m1, m2);
      RoundKeepsPace(env, es, es2, k + 1, round, Exec(env, es[k], m1).m, m2);
    } else {
      KeptNext(env, es, k, m1, m2);
      assert es2[k] == es[k];
      if Exec(env, es[k], m1).Next? {
        RoundKeepsPace(env, es, es2, k + 1, round, Exec(env, es[k], m1).m, Exec(env, es[k], m2).m);
      }
    }
  }

  /** A trace stays eligible when the pass flags some of its entries. */
  lemma EligibleStays(env: Env, es: seq<Entry>, es2: seq<Entry>)
    requires Eligible(env, es) && Flagged(es, es2, |es|)
    ensures Eligible(env, es2)
  {
    forall r: Reg | NeverWritten(es, r) ensures NeverWritten(es2, r) {
      forall k | 0 <= k < |es2| ensures !Writes(es2[k], r) { assert !Writes(es[k], r); }
    }
    forall k | 0 <= k < |es2| && Live(es2[k])
      ensures Compilable(es2[k]) && (WritesA(es2[k].inst.op) ==> HasCode(es2[k]))
      ensures forall r :: r in Loads(env, es2[k]) ==> Reports(es2[k], r) || NeverWritten(es2, r)
    {
      assert es2[k] == es[k];
    }
  }

  /** One pass, whatever guards, calls and helpers the trace holds: the compiled loop goes
      round as often, leaves at the same entry for the same reason, and with the same
      registers, but for those whose last store was dropped and that were to be written
      again later in the round. */
  lemma {:induction false} PassKeepsLoop(env: Env, es: seq<Entry>, es2: seq<Entry>, n: nat, m: Config)
    requires Eligible(env, es) && Flagged(es, es2, |es|)
    ensures AllCompilable(es2) && SameOutcome(es, Trips(env, es, n, m), Trips(env, es2, n, m))
  {
    EligibleStays(env, es, es2);
    if n > 0 {
      PassKeepsLoop(env, es, es2, n - 1, m);
      var before := Trips(env, es, n - 1, m);
      if before.Looping? { RoundKeepsPace(env, es, es2, 0, n - 1, before.m, before.m); }
    }
  }

  /** So nothing differs when the trace is left at its first entry, as a loop's condition
      does, or anywhere else where no dropped store is still to be made up for. */
  lemma PassKeepsRegisters(env: Env, es: seq<Entry>, es2: seq<Entry>, n: nat, m: Config)
    requires Eligible(env, es) && Flagged(es, es2, |es|)
    ensures AllCompilable(es2)
    ensures var o := Trips(env, es, n, m);
      (o.Left? && o.entry > 0 ==> forall r: Reg :: !Stale(es, o.entry, r)) ==> o == Trips(env, es2, n, m)
  {
    PassKeepsLoop(env, es, es2, n, m);
    var o := Trips(env, es, n, m);
    if o.Left? && (o.entry > 0 ==> forall r: Reg :: !Stale(es, o.entry, r)) {
      assert forall r: Reg :: !Stale(es, o.entry, r);
      assert o.m.regs == Trips(env, es2, n, m).m.regs;
    }
  }

  /** Both passes, as `optimizeTrace` runs them. */
  lemma OptimizeKeepsLoop(env: Env, es: seq<Entry>, once: seq<Entry>, twice: seq<Entry>, n: nat, m: Config)
    requires Eligible(env, es) && Flagged(es, once, |es|) && Flagged(once, twice, |once|)
    ensures AllCompilable(once) && AllCompilable(twice)
    ensures SameOutcome(es, Trips(env, es, n, m), Trips(env, once, n, m))
    ensures SameOutcome(once, Trips(env, once, n, m), Trips(env, twice, n, m))
  {
    EligibleStays(env, es, once);
    PassKeepsLoop(env, es, once, n, m);
    PassKeepsLoop(env, once, twice, n, m);
  }
}
