/** Traces on which dead-store elimination changes what the compiled loop does. */
module TraceFlaws {
  import opened NanBox
  import opened Bytecode
  import opened TraceDse
  import opened TraceLoop

  function Make(op: Reg, a: Reg, b: Reg, c: Reg, regBase: Reg): Entry {
    Entry(Code(op, a, b, c), [], regBase, false, false)
  }

  function LoadInt7(a: Reg, regBase: Reg): Entry {
    Make(LOADINT, a, 6, 0x80, regBase)
  }

  function LoadInt8(a: Reg, regBase: Reg): Entry {
    Make(LOADINT, a, 7, 0x80, regBase)
  }

  const SEVEN: Word := TAG_INT + 7

  /** A guard that always holds. */
  function Pass(): Entry {
    Make(LEJMP, 5, 5, 0, 0)
  }

  /** A loop that loads 7 into register 1, runs `middle`, and loads 8 into register 1. */
  function Reload(middle: Entry): seq<Entry> {
    [Pass(), LoadInt7(1, 0), middle, LoadInt8(1, 0)]
  }

  /** What it leaves when `middle` is run on the word that register 1 holds. */
  function Reloaded(env: Env, middle: Entry, start: Config, held: Word): Outcome
    requires Live(middle) && Compilable(middle)
  {
    match Exec(env, middle, start.(regs := start.regs[1 := held]))
    case Leaves(failed, m) => Left(0, 2, failed, m)
    case Next(m) => Looping(m.(regs := m.regs[1 := TAG_INT + 8]))
  }

  /** `es` is that loop, with or without its first load. */
  predicate IsReload(es: seq<Entry>, middle: Entry) {
    |es| == 4 && es[0] == Pass() && es[1].(eliminated := false) == LoadInt7(1, 0) && es[2] == middle && es[3] == LoadInt8(1, 0)
  }

  lemma ReloadRound(env: Env, es: seq<Entry>, middle: Entry, start: Config)
    requires Live(middle) && Compilable(middle) && IsReload(es, middle)
    ensures AllCompilable(es)
    ensures Trips(env, es, 1, start) == Reloaded(env, middle, start, if es[1].eliminated then start.regs[1] else SEVEN)
  {
    var held := if es[1].eliminated then start.regs[1] else SEVEN;
    assert start.regs[1 := start.regs[1]] == start.regs;
    assert Exec(env, es[0], start) == Next(start);
    assert Exec(env, es[1], start) == Next(start.(regs := start.regs[1 := held]));
    ReloadEnds(env, es, middle, start, held);
    assert Round(env, es, 0, 0, start) == Round(env, es, 1, 0, start);
    assert Trips(env, es, 0, start) == Looping(start);
  }

  lemma ReloadEnds(env: Env, es: seq<Entry>, middle: Entry, start: Config, held: Word)
    requires Live(middle) && Compilable(middle) && IsReload(es, middle)
    ensures AllCompilable(es)
    ensures Round(env, es, 2, 0, start.(regs := start.regs[1 := held])) == Reloaded(env, middle, start, held)
  {
    var f := Exec(env, middle, start.(regs := start.regs[1 := held]));
    if f.Next? {
      var end := f.m.(regs := f.m.regs[1 := TAG_INT + 8]);
      assert Exec(env, es[3], f.m) == Next(end);
      assert Round(env, es, 4, 0, end) == Looping(end);
      assert Round(env, es, 3, 0, f.m) == Looping(end);
    }
  }

  /** If `middle` is not reported to read register 1, nor writes it, the load of 7 is
      dropped; if it is reported to, nothing is. */
  lemma ReloadFlagged(middle: Entry, es2: seq<Entry>)
    requires Live(middle) && RegA(middle) != 1 && Flagged(Reload(middle), es2, 4)
    ensures IsReload(es2, middle) && (es2[1].eliminated <==> !Reports(middle, 1))
  {
    var es := Reload(middle);
    assert !Reports(es[3], 1);
    if !Reports(middle, 1) {
      assert Overwrites(es, 1, 3);
      assert DeadBy(es, 1, 4);
    } else {
      assert es[2] == middle && !Writes(es[2], 1) && !NoReadIn(es, 1, 2, 4);
      assert forall j | 1 < j < 4 :: !Overwrites(es, 1, j);
    }
    assert !DeadBy(es, 0, 4) && !DeadBy(es, 3, 4);
    assert !DeadBy(es, 2, 4) by {
      assert forall j | 2 < j < 4 :: !Overwrites(es, 2, j);
    }
  }

  /** A trip round the loop before and after the pass, `middle` not reported to read
      register 1. */
  lemma Overlooked(env: Env, middle: Entry, es2: seq<Entry>, start: Config)
    requires Live(middle) && Compilable(middle) && RegA(middle) != 1 && !Reports(middle, 1) && Flagged(Reload(middle), es2, 4)
    ensures AllCompilable(Reload(middle)) && AllCompilable(es2)
    ensures Trips(env, Reload(middle), 1, start) == Reloaded(env, middle, start, SEVEN)
    ensures Trips(env, es2, 1, start) == Reloaded(env, middle, start, start.regs[1])
  {
    ReloadFlagged(middle, es2);
    ReloadRound(env, Reload(middle), middle, start);
    ReloadRound(env, es2, middle, start);
  }

  /** A MOVE between the loads copies the wrong word, unless register 1 held 7 anyway. */
  lemma MoveIsOverlooked(env: Env, es2: seq<Entry>, start: Config)
    requires Flagged(Reload(Make(MOVE, 2, 1, 0, 0)), es2, 4)
    ensures AllCompilable(Reload(Make(MOVE, 2, 1, 0, 0))) && AllCompilable(es2)
    ensures Trips(env, Reload(Make(MOVE, 2, 1, 0, 0)), 1, start) == Trips(env, es2, 1, start) <==> start.regs[1] == SEVEN
  {
    Overlooked(env, Make(MOVE, 2, 1, 0, 0), es2, start);
    assert Reloaded(env, Make(MOVE, 2, 1, 0, 0), start, start.regs[1]).m.regs[2] == start.regs[1];
    assert Reloaded(env, Make(MOVE, 2, 1, 0, 0), start, SEVEN).m.regs[2] == SEVEN;
  }

  /** A NOT between them negates the wrong word. */
  lemma NotIsOverlooked(env: Env, es2: seq<Entry>, start: Config)
    requires Flagged(Reload(Make(NOT, 2, 1, 0, 0)), es2, 4)
    ensures AllCompilable(Reload(Make(NOT, 2, 1, 0, 0))) && AllCompilable(es2)
    ensures Trips(env, Reload(Make(NOT, 2, 1, 0, 0)), 1, start) == Trips(env, es2, 1, start) <==> env.falsy(start.regs[1]) == env.falsy(SEVEN)
  {
    var middle := Make(NOT, 2, 1, 0, 0);
    Overlooked(env, middle, es2, start);
    var before, after := Reloaded(env, middle, start, SEVEN), Reloaded(env, middle, start, start.regs[1]);
    assert before.m.regs[2] == BoolWord(env.falsy(SEVEN)) && after.m.regs[2] == BoolWord(env.falsy(start.regs[1]));
    if env.falsy(start.regs[1]) == env.falsy(SEVEN) { assert before.m.regs == after.m.regs; }
  }

  function MeasureRegister1(): Entry {
    Make(LENGTH, 2, 1, 0, 0)
  }

  lemma LengthRuns(env: Env, start: Config, held: Word)
    ensures Reloaded(env, MeasureRegister1(), start, held).Left? <==> env.helper(MeasureRegister1(), [held], start.world).Fails?
  {
    var regs := start.regs[1 := held];
    assert Loads(env, MeasureRegister1()) == [1];
    assert Words([1], regs) == [held];
  }

  /** A LENGTH between them measures the wrong word: of 7 it fails, but the trace goes on
      with the length of whatever register 1 held. */
  lemma LengthIsOverlooked(env: Env, es2: seq<Entry>, start: Config)
    requires Flagged(Reload(MeasureRegister1()), es2, 4)
    requires env.helper(MeasureRegister1(), [SEVEN], start.world).Fails?
    requires env.helper(MeasureRegister1(), [start.regs[1]], start.world).Gives?
    ensures AllCompilable(Reload(MeasureRegister1())) && AllCompilable(es2)
    ensures Trips(env, Reload(MeasureRegister1()), 1, start).Left? && Trips(env, es2, 1, start).Looping?
  {
    Overlooked(env, MeasureRegister1(), es2, start);
    LengthRuns(env, start, SEVEN);
    LengthRuns(env, start, start.regs[1]);
  }

  /** A guard between them leaves with register 1 never loaded. */
  lemma LateGuardSeesStaleRegister(env: Env, es2: seq<Entry>, start: Config)
    requires Flagged(Reload(Make(LTJMP, 5, 5, 0, 0)), es2, 4)
    ensures AllCompilable(Reload(Make(LTJMP, 5, 5, 0, 0))) && AllCompilable(es2)
    ensures Trips(env, Reload(Make(LTJMP, 5, 5, 0, 0)), 1, start) == Trips(env, es2, 1, start) <==> start.regs[1] == SEVEN
  {
    var middle := Make(LTJMP, 5, 5, 0, 0);
    Overlooked(env, middle, es2, start);
    assert Reloaded(env, middle, start, SEVEN).m.regs[1] == SEVEN;
    assert Reloaded(env, middle, start, start.regs[1]).m.regs[1] == start.regs[1];
  }

  /** A division between them is not overlooked: the load is kept. */
  lemma DivisionIsSeen(es2: seq<Entry>)
    requires Flagged(Reload(Make(DIV, 2, 3, 1, 0)), es2, 4)
    ensures es2 == Reload(Make(DIV, 2, 3, 1, 0))
  {
    ReloadFlagged(Make(DIV, 2, 3, 1, 0), es2);
  }

  // ---- operations without code ----

  /** A loop that loads 7 into register 1 and then computes a remainder into it. */
  function LoadThenMod(): seq<Entry> {
    [Pass(), LoadInt7(1, 0), Make(MOD, 1, 2, 3, 0)]
  }

  /** MOD has no code in a compiled trace, so register 1 keeps the 7; the pass takes MOD to
      overwrite it and drops the load as well, so that the register keeps what it held. */
  lemma ModIsNotCompiled(env: Env, es2: seq<Entry>, start: Config)
    requires Flagged(LoadThenMod(), es2, 3)
    ensures AllCompilable(LoadThenMod()) && AllCompilable(es2)
    ensures Trips(env, LoadThenMod(), 1, start) == Looping(start.(regs := start.regs[1 := SEVEN]))
    ensures Trips(env, es2, 1, start) == Looping(start)
  {
    var es := LoadThenMod();
    assert Overwrites(es, 1, 2);
    assert DeadBy(es, 1, 3) && !DeadBy(es, 0, 3) && !DeadBy(es, 2, 3);
    ThreeRound(env, es, start);
    ThreeRound(env, es2, start);
  }

  lemma ThreeRound(env: Env, es: seq<Entry>, start: Config)
    requires |es| == 3 && es[0] == Pass() && es[1].(eliminated := false) == LoadInt7(1, 0) && es[2] == Make(MOD, 1, 2, 3, 0)
    ensures AllCompilable(es)
    ensures Trips(env, es, 1, start) == Looping(if es[1].eliminated then start else start.(regs := start.regs[1 := SEVEN]))
  {
    var m1 := if es[1].eliminated then start else start.(regs := start.regs[1 := SEVEN]);
    assert Round(env, es, 3, 0, m1) == Looping(m1);
    assert Round(env, es, 2, 0, m1) == Looping(m1);
    assert Round(env, es, 1, 0, start) == Looping(m1);
    assert Exec(env, es[0], start) == Next(start);
    assert Round(env, es, 0, 0, start) == Looping(m1);
    assert Trips(env, es, 0, start) == Looping(start);
  }

  // ---- register 255 ----

  /** A loop that calls what register 4 holds, with the callee's frame at 250. The
      callee loads 7 into its register 5, subtracts its register 3 from that, loads
      8 into register 5, and returns the difference. */
  function HighCall(): seq<Entry> {
    [Pass(), Make(MOVE, 250, 4, 0, 0), Make(CALL, 250, 0, 1, 0),
     LoadInt7(5, 250), Make(SUB, 2, 5, 3, 250), LoadInt8(5, 250), Make(RETURN, 2, 0, 0, 250)]
  }

  /** `es` is that trace, but for stores that may have been dropped. */
  predicate LikeHighCall(es: seq<Entry>) {
    && |es| == 7 && es[0] == HighCall()[0] && es[4] == HighCall()[4] && es[6] == HighCall()[6]
    && es[1].(eliminated := false) == HighCall()[1] && es[2] == HighCall()[2]
    && es[3].(eliminated := false) == HighCall()[3] && es[5].(eliminated := false) == HighCall()[5]
  }

  /** The registers after one entry that cannot leave the trace. */
  function After(env: Env, e: Entry, m: Config): Config
    requires Live(e) ==> Compilable(e)
  {
    Exec(env, e, m).m
  }

  lemma HighCallCompiles(es: seq<Entry>)
    requires LikeHighCall(es)
    ensures AllCompilable(es)
  {
  }

  /** The machine when the callee has run up to its subtraction, and at the end. */
  function BeforeSub(env: Env, es: seq<Entry>, start: Config): Config
    requires LikeHighCall(es)
  {
    After(env, es[3], After(env, es[1], start))
  }

  function AfterSub(env: Env, es: seq<Entry>, m: Config): Config
    requires LikeHighCall(es)
  {
    After(env, es[6], After(env, es[5], After(env, es[4], m)))
  }

  lemma HighCallRound(env: Env, es: seq<Entry>, start: Config)
    requires LikeHighCall(es)
    ensures AllCompilable(es) && Trips(env, es, 1, start) == Looping(AfterSub(env, es, BeforeSub(env, es, start)))
  {
    HighCallCompiles(es);
    var r1 := After(env, es[1], start);
    var r3 := BeforeSub(env, es, start);
    var r4 := After(env, es[4], r3);
    var r5 := After(env, es[5], r4);
    var r6 := AfterSub(env, es, r3);
    assert Round(env, es, 7, 0, r6) == Looping(r6);
    assert Round(env, es, 6, 0, r5) == Looping(r6);
    assert Round(env, es, 5, 0, r4) == Looping(r6);
    assert Round(env, es, 4, 0, r3) == Looping(r6);
    assert Round(env, es, 3, 0, r1) == Looping(r6);
    assert Round(env, es, 2, 0, r1) == Looping(r6);
    assert Round(env, es, 1, 0, start) == Looping(r6);
    assert Round(env, es, 0, 0, start) == Looping(r6);
    assert Trips(env, es, 0, start) == Looping(start);
  }

  lemma BeforeSubHolds(env: Env, es: seq<Entry>, start: Config)
    requires LikeHighCall(es)
    ensures BeforeSub(env, es, start).regs[255] == if es[3].eliminated then start.regs[255] else SEVEN
    ensures BeforeSub(env, es, start).regs[253] == start.regs[253]
  {
  }

  lemma AfterSubHolds(env: Env, es: seq<Entry>, m: Config)
    requires LikeHighCall(es)
    ensures AfterSub(env, es, m).regs[250] == EmitSub(m.regs[255], m.regs[253])
  {
  }

  lemma HighLoadDropped(es2: seq<Entry>)
    requires Flagged(HighCall(), es2, 7)
    ensures LikeHighCall(es2) && es2[3].eliminated
  {
    assert Overwrites(HighCall(), 3, 5);
    assert DeadBy(HighCall(), 3, 7);
    assert !DeadBy(HighCall(), 4, 7);
  }

  lemma SubTells()
    ensures EmitSub(SEVEN, 0) != EmitSub(0, 0)
  {
  }

  /** No read of register 255 is ever seen. */
  lemma Register255IsOverlooked(env: Env, es2: seq<Entry>, start: Config)
    requires Flagged(HighCall(), es2, 7) && start.regs[253] == start.regs[255] == 0
    ensures AllCompilable(HighCall()) && AllCompilable(es2)
    ensures Trips(env, HighCall(), 1, start) != Trips(env, es2, 1, start)
  {
    HighLoadDropped(es2);
    HighCallDiffers(env, HighCall(), es2, start);
  }

  lemma HighCallDiffers(env: Env, es: seq<Entry>, es2: seq<Entry>, start: Config)
    requires LikeHighCall(es) && LikeHighCall(es2) && !es[3].eliminated && es2[3].eliminated
    requires start.regs[253] == start.regs[255] == 0
    ensures AllCompilable(es) && AllCompilable(es2) && Trips(env, es, 1, start) != Trips(env, es2, 1, start)
  {
    HighCallRound(env, es, start);
    HighCallRound(env, es2, start);
    BeforeSubHolds(env, es, start);
    BeforeSubHolds(env, es2, start);
    AfterSubHolds(env, es, BeforeSub(env, es, start));
    AfterSubHolds(env, es2, BeforeSub(env, es2, start));
    SubTells();
  }
}
