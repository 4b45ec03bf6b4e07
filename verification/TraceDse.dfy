/** Dead-store elimination on a recorded loop trace. */
module TraceDse {
  import opened NanBox
  import opened Bytecode

  // ---- traces ----

  /** A recorded instruction. The registers it names are relative to `regBase`,
      the frame of an inlined callee; `consts` are its own chunk's constants, and
      `taken` says which way a conditional jump went. */
  datatype Entry = Entry(inst: Code, consts: seq<Word>, regBase: Reg, taken: bool, eliminated: bool)

  function Rebase(r: Reg, base: Reg): Reg {
    (r + base) % 0x100
  }

  function RegA(e: Entry): Reg {
    Rebase(e.inst.a, e.regBase)
  }

  function RegB(e: Entry): Reg {
    Rebase(e.inst.b, e.regBase)
  }

  function RegC(e: Entry): Reg {
    Rebase(e.inst.c, e.regBase)
  }

  const LOADK := 0
  const LOADNULL := 1
  const LOADBOOL := 2
  const LOADINT := 3
  const ADD := 4
  const ADDK := 5
  const ADDI := 6
  const SUB := 7
  const SUBI := 8
  const MUL := 9
  const DIV := 10
  const MOD := 11
  const BAND := 12
  const BOR := 13
  const BXOR := 14
  const BNOT := 15
  const SHL := 16
  const SHR := 17
  const EQ := 18
  const NEQ := 19
  const LT := 20
  const GT := 21
  const LTE := 22
  const GTE := 23
  const LTJMP := 24
  const LEJMP := 25
  const GTJMP := 26
  const GEJMP := 27
  const NOT := 28
  const MOVE := 29
  const GETGLOBAL := 30
  const SETGLOBAL := 31
  const ENVGET := 32
  const ENVSET := 33
  const GETCAPTURE := 34
  const SETCAPTURE := 35
  const JMPFALSE := 37
  const JMPTRUE := 38
  const AND := 40
  const OR := 41
  const CLOSURE := 42
  const CALL := 43
  const RETURN := 45
  const TABLE := 47
  const GETFIELD := 50
  const SETFIELD := 51
  const GETINDEX := 52
  const SETINDEX := 53
  const MCALL := 54
  const LENGTH := 57

  predicate IsLoad(op: Reg) {
    op == LOADK || op == LOADNULL || op == LOADBOOL || op == LOADINT
  }

  /** Operations on B and C with the result in A. */
  predicate IsBinary(op: Reg) {
    || op == ADD || op == SUB || op == MUL || op == DIV || op == MOD
    || op == BAND || op == BOR || op == BXOR || op == SHL || op == SHR || EQ <= op <= GTE
  }

  predicate WritesA(op: Reg) {
    || IsLoad(op) || IsBinary(op) || op == ADDK || op == ADDI || op == SUBI || op == BNOT || op == NOT || op == MOVE
    || op == GETGLOBAL || op == ENVGET || op == GETCAPTURE || op == GETFIELD || op == GETINDEX || op == LENGTH
    || op == TABLE || op == CLOSURE
  }

  predicate ReadsReg(op: Reg, a: Reg, b: Reg, c: Reg, reg: Reg) {
    if IsBinary(op) then reg == b || reg == c
    else if op == ADDI || op == SUBI || op == NOT || op == BNOT || op == MOVE then reg == a
    else if op == LENGTH || op == SETGLOBAL || op == ENVSET || op == SETCAPTURE then reg == a
    else if op == ADDK || op == GETFIELD then reg == b
    else if op == SETFIELD then reg == a || reg == b
    else if op == GETINDEX then reg == b || reg == c
    else if op == SETINDEX then reg == a || reg == b || reg == c
    else if op == JMPFALSE || op == JMPTRUE then reg == a
    else if LTJMP <= op <= GEJMP then reg == a || reg == b
    else if op == CALL then a <= reg <= a + b
    else if op == TABLE then a + 1 <= reg <= a + 2 * b
    else op == RETURN && reg == a
  }

  /** The operations whose dead results are dropped. */
  predicate Droppable(op: Reg) {
    || op == LOADINT || op == LOADK || op == LOADNULL || op == LOADBOOL || op == MOVE
    || op == ADD || op == SUB || op == MUL || op == ADDI || op == SUBI || op == ADDK
  }

  /** The three predicates by the numbers of the opcodes. */
  lemma ByNumber(op: Reg, a: Reg, b: Reg, c: Reg, r: Reg)
    ensures WritesA(op) <==> op <= 23 || op in {28, 29, 30, 32, 34, 42, 47, 50, 52, 57}
    ensures Droppable(op) <==> op <= 9 || op == 29
    ensures op in {4, 7, 9, 10, 11, 12, 13, 14, 16, 17, 18, 19, 20, 21, 22, 23, 52} ==> (ReadsReg(op, a, b, c, r) <==> r == b || r == c)
    ensures op in {6, 8, 15, 28, 29, 31, 33, 35, 37, 38, 45, 57} ==> (ReadsReg(op, a, b, c, r) <==> r == a)
    ensures op in {5, 50} ==> (ReadsReg(op, a, b, c, r) <==> r == b)
    ensures op in {24, 25, 26, 27, 51} ==> (ReadsReg(op, a, b, c, r) <==> r == a || r == b)
    ensures op == 53 ==> (ReadsReg(op, a, b, c, r) <==> r == a || r == b || r == c)
    ensures op == 43 ==> (ReadsReg(op, a, b, c, r) <==> a <= r <= a + b)
    ensures op == 47 ==> (ReadsReg(op, a, b, c, r) <==> a < r <= a + 2 * b)
    ensures op in {0, 1, 2, 3, 30, 32, 34, 36, 39, 40, 41, 42, 44, 46, 48, 49, 54, 55, 56} || op > 57 ==> !ReadsReg(op, a, b, c, r)
  {
  }

  // ---- the pass ----

  predicate Live(e: Entry) {
    !e.eliminated
  }

  predicate Writes(e: Entry, r: Reg) {
    Live(e) && WritesA(e.inst.op) && RegA(e) == r
  }

  /** The pass asks about registers 0 to 254 only. */
  predicate Reports(e: Entry, r: Reg) {
    Live(e) && r < 255 && ReadsReg(e.inst.op, RegA(e), RegB(e), RegC(e), r)
  }

  predicate NoReadIn(es: seq<Entry>, r: Reg, lo: nat, hi: nat) {
    forall k :: lo <= k < hi && k < |es| ==> !Reports(es[k], r)
  }

  predicate NoWriteIn(es: seq<Entry>, r: Reg, lo: nat, hi: nat) {
    forall k :: lo <= k < hi && k < |es| ==> !Writes(es[k], r)
  }

  /** Entry `j` is the next to write what `i` wrote, and no entry from after `i`
      up to and including `j` is reported to read it. */
  predicate Overwrites(es: seq<Entry>, i: nat, j: nat) {
    && i < j < |es|
    && Writes(es[j], RegA(es[i]))
    && NoWriteIn(es, RegA(es[i]), i + 1, j)
    && NoReadIn(es, RegA(es[i]), i + 1, j + 1)
  }

  predicate DeadBy(es: seq<Entry>, i: nat, limit: nat) {
    && i < |es|
    && Live(es[i]) && WritesA(es[i].inst.op) && Droppable(es[i].inst.op)
    && exists j :: i < j < limit && Overwrites(es, i, j)
  }

  predicate Dead(es: seq<Entry>, i: nat) {
    DeadBy(es, i, |es|)
  }

  /** `es2` is `es` with the entries dead before `limit` flagged, and nothing
      else changed. */
  predicate Flagged(es: seq<Entry>, es2: seq<Entry>, limit: nat) {
    && |es2| == |es|
    && forall i :: 0 <= i < |es| ==> es2[i] == es[i].(eliminated := es[i].eliminated || DeadBy(es, i, limit))
  }

  /** For one register: its latest writer before `i`, and whether it has been
      reported read since. */
  predicate TracksReg(es: seq<Entry>, i: nat, lastWrite: map<Reg, nat>, readRegs: set<Reg>, r: Reg) {
    if r in lastWrite then
      && lastWrite[r] < i <= |es| && Writes(es[lastWrite[r]], r) && NoWriteIn(es, r, lastWrite[r] + 1, i)
      && (r in readRegs <==> !NoReadIn(es, r, lastWrite[r] + 1, i))
    else
      NoWriteIn(es, r, 0, i)
  }

  ghost predicate Tracks(es: seq<Entry>, i: nat, lastWrite: map<Reg, nat>, readRegs: set<Reg>) {
    forall r: Reg :: TracksReg(es, i, lastWrite, readRegs, r)
  }

  lemma ExtendNoRead(es: seq<Entry>, r: Reg, lo: nat, i: nat)
    requires lo <= i < |es|
    ensures NoReadIn(es, r, lo, i + 1) <==> NoReadIn(es, r, lo, i) && !Reports(es[i], r)
  {
  }

  lemma ExtendNoWrite(es: seq<Entry>, r: Reg, lo: nat, i: nat)
    requires lo <= i < |es|
    ensures NoWriteIn(es, r, lo, i + 1) <==> NoWriteIn(es, r, lo, i) && !Writes(es[i], r)
  {
  }

  /** Entry `i` itself, after its reads are noted and its write is recorded. */
  lemma TracksWritten(es: seq<Entry>, i: nat, lastWrite: map<Reg, nat>, noted: set<Reg>, r: Reg)
    requires i < |es| && Writes(es[i], r)
    ensures TracksReg(es, i + 1, lastWrite[r := i], noted - {r}, r)
  {
  }

  lemma TracksOthers(es: seq<Entry>, i: nat, lastWrite: map<Reg, nat>, readRegs: set<Reg>, noted: set<Reg>, r: Reg)
    requires TracksReg(es, i, lastWrite, readRegs, r) && i < |es| && !Writes(es[i], r)
    requires r in noted <==> r in readRegs || Reports(es[i], r)
    ensures TracksReg(es, i + 1, lastWrite, noted, r)
  {
    if r in lastWrite {
      ExtendNoRead(es, r, lastWrite[r] + 1, i);
      ExtendNoWrite(es, r, lastWrite[r] + 1, i);
    } else {
      ExtendNoWrite(es, r, 0, i);
    }
  }

  ghost predicate Notes(e: Entry, readRegs: set<Reg>, noted: set<Reg>) {
    forall r: Reg :: r in noted <==> r in readRegs || Reports(e, r)
  }

  /** Noting the reads of entry `i` and then its write. */
  lemma TracksNext(es: seq<Entry>, i: nat, lastWrite: map<Reg, nat>, readRegs: set<Reg>, noted: set<Reg>)
    requires Tracks(es, i, lastWrite, readRegs) && i < |es| && Notes(es[i], readRegs, noted)
    ensures if Writes(es[i], RegA(es[i]))
      then Tracks(es, i + 1, lastWrite[RegA(es[i]) := i], noted - {RegA(es[i])})
      else Tracks(es, i + 1, lastWrite, noted)
  {
    var a, next := RegA(es[i]), i + 1;
    var lastWrite2 := if Writes(es[i], a) then lastWrite[a := i] else lastWrite;
    var readRegs2 := if Writes(es[i], a) then noted - {a} else noted;
    forall r: Reg
      ensures TracksReg(es, next, lastWrite2, readRegs2, r)
    {
      if Writes(es[i], r) {
        TracksWritten(es, i, lastWrite, noted, r);
      } else {
        TracksOthers(es, i, lastWrite, readRegs, noted, r);
      }
    }
  }

  /** Which entry the write at `i` makes dead. */
  lemma DeadAtNext(es: seq<Entry>, i: nat, lastWrite: map<Reg, nat>, readRegs: set<Reg>, noted: set<Reg>, p: nat)
    requires Tracks(es, i, lastWrite, readRegs) && p < i < |es|
    requires Notes(es[i], readRegs, noted)
    ensures Live(es[p]) && WritesA(es[p].inst.op) ==>
      (Overwrites(es, p, i) <==>
       && Writes(es[i], RegA(es[p])) && RegA(es[p]) in lastWrite && lastWrite[RegA(es[p])] == p
       && RegA(es[p]) !in noted)
  {
    var r := RegA(es[p]);
    if Live(es[p]) && WritesA(es[p].inst.op) {
      assert Writes(es[p], r);
      ExtendNoRead(es, r, p + 1, i);
      assert TracksReg(es, i, lastWrite, readRegs, r);
      if r in lastWrite && lastWrite[r] != p {
        assert lastWrite[r] > p;
      }
    }
  }

  lemma DeadByNext(es: seq<Entry>, p: nat, i: nat)
    requires p < |es|
    ensures DeadBy(es, p, i + 1) <==> DeadBy(es, p, i) || (DeadBy(es, p, i + 1) && Overwrites(es, p, i))
    ensures Live(es[p]) && WritesA(es[p].inst.op) && Droppable(es[p].inst.op) && Overwrites(es, p, i) ==> DeadBy(es, p, i + 1)
  {
  }

  /** One write either flags the previous writer of its register or nothing. */
  lemma FlaggedNext(es: seq<Entry>, es1: seq<Entry>, es2: seq<Entry>, i: nat,
                    lastWrite: map<Reg, nat>, readRegs: set<Reg>, noted: set<Reg>)
    requires Tracks(es, i, lastWrite, readRegs) && i < |es| && Notes(es[i], readRegs, noted)
    requires Flagged(es, es1, i)
    requires var r := RegA(es[i]);
      assert TracksReg(es, i, lastWrite, readRegs, r);
      if Writes(es[i], r) && r in lastWrite && r !in noted && Droppable(es[lastWrite[r]].inst.op)
      then es2 == es1[lastWrite[r] := es1[lastWrite[r]].(eliminated := true)]
      else es2 == es1
    ensures Flagged(es, es2, i + 1)
  {
    var r := RegA(es[i]);
    forall p | 0 <= p < |es|
      ensures es2[p] == es[p].(eliminated := es[p].eliminated || DeadBy(es, p, i + 1))
    {
      DeadByNext(es, p, i);
      if p < i {
        DeadAtNext(es, i, lastWrite, readRegs, noted, p);
      }
    }
  }

  class Trace {
    var entries: seq<Entry>

    constructor (es: seq<Entry>)
      ensures entries == es
    {
      entries := es;
    }

    /** Flags exactly the droppable stores whose register is written again with
        no reported read in between. */
    method EliminateDeadStores()
      modifies this
      ensures Flagged(old(entries), entries, |old(entries)|)
    {
      ghost var es := entries;
      var lastWrite: map<Reg, nat> := map[];
      var readRegs: set<Reg> := {};
      var i := 0;
      while i < |entries|
        invariant i <= |es| && Flagged(es, entries, i)
        invariant Tracks(es, i, lastWrite, readRegs)
      {
        lastWrite, readRegs := Visit(i, lastWrite, readRegs, es);
        i := i + 1;
      }
    }

    /** One turn of the loop above; `es` are the entries it started from. */
    method Visit(i: nat, lastWrite: map<Reg, nat>, readRegs: set<Reg>, ghost es: seq<Entry>)
      returns (lastWrite2: map<Reg, nat>, readRegs2: set<Reg>)
      requires i < |es| && Flagged(es, entries, i) && Tracks(es, i, lastWrite, readRegs)
      modifies this
      ensures Flagged(es, entries, i + 1) && Tracks(es, i + 1, lastWrite2, readRegs2)
    {
      ghost var es1 := entries;
      var e := entries[i];
      ghost var noted := readRegs;
      var a := RegA(e);
      assert TracksReg(es, i, lastWrite, readRegs, a);
      lastWrite2, readRegs2 := lastWrite, readRegs;
      if !e.eliminated {
        readRegs2 := NoteReads(e, readRegs);
        noted := readRegs2;
        if WritesA(e.inst.op) {
          if a in lastWrite && a !in readRegs2 {
            var prev := lastWrite[a];
            if Droppable(entries[prev].inst.op) {
              entries := entries[prev := entries[prev].(eliminated := true)];
            }
          }
          lastWrite2 := lastWrite[a := i];
          readRegs2 := readRegs2 - {a};
        }
      }
      FlaggedNext(es, es1, entries, i, lastWrite, readRegs, noted);
      TracksNext(es, i, lastWrite, readRegs, noted);
    }

    /** Allocation sinking runs between the two passes; on a trace without TABLE
        entries it has nothing to sink. */
    method Optimize()
      modifies this
      ensures exists once: seq<Entry> ::
        && Flagged(old(entries), once, |old(entries)|)
        && Flagged(once, entries, |once|)
    {
      EliminateDeadStores();
      ghost var once := entries;
      EliminateDeadStores();
      assert Flagged(old(entries), once, |old(entries)|) && Flagged(once, entries, |once|);
    }
  }

  /** The registers 0 to 254 an entry reads are added. */
  method NoteReads(e: Entry, readRegs: set<Reg>) returns (noted: set<Reg>)
    requires Live(e)
    ensures Notes(e, readRegs, noted)
  {
    noted := readRegs;
    var r := 0;
    while r < 255
      invariant 0 <= r <= 255
      invariant forall q: Reg :: q in noted <==> q in readRegs || (q < r && Reports(e, q))
    {
      if ReadsReg(e.inst.op, RegA(e), RegB(e), RegC(e), r) {
        noted := noted + {r};
      }
      r := r + 1;
    }
  }
}
