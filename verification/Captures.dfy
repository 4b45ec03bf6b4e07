/** Closure conversion: how the compiler turns a variable of an enclosing
    function into a chain of captures, and what `jitClosure` stores in them. */
module Captures {
  import opened Wrappers
  import opened Bytecode

  // ---- scopes as values ----

  type Symbol = nat

  /** Where a new closure takes a capture from: a register of the function that
      creates it, or a capture of that function's own closure. */
  datatype CaptureInfo = Local(idx: Reg) | Outer(idx: Reg)

  datatype Frame = Frame(locals: map<Symbol, Reg>, captures: seq<CaptureInfo>)

  datatype Answer = NotFound | Found(index: nat) | TooManyCaptures

  const CAPTURE_LIMIT := 255

  /** The first position of `c`, or the length. */
  function IndexOf(cs: seq<CaptureInfo>, c: CaptureInfo): (i: nat)
    ensures i <= |cs| && (forall k :: 0 <= k < i ==> cs[k] != c) && (i < |cs| ==> cs[i] == c)
  {
    if |cs| == 0 || cs[0] == c then 0 else 1 + IndexOf(cs[1..], c)
  }

  /** One source is captured once. */
  function Capture(f: Frame, c: CaptureInfo): (Answer, Frame) {
    var i := IndexOf(f.captures, c);
    if i < |f.captures| then (Found(i), f)
    else if i >= CAPTURE_LIMIT then (TooManyCaptures, f)
    else (Found(i), f.(captures := f.captures + [c]))
  }

  function Byte(n: nat): (r: Reg)
    ensures n < 0x100 ==> r == n
  {
    n % 0x100
  }

  /** The answer for the innermost scope `fs[0]`, and the scopes afterwards; the
      last one is the top level. A failure in an outer scope leaves what was
      captured further out. */
  function Resolve(fs: seq<Frame>, sym: Symbol): (r: (Answer, seq<Frame>))
    requires |fs| > 0
    ensures |r.1| == |fs|
  {
    if |fs| == 1 then (NotFound, fs)
    else if sym in fs[1].locals then
      var (a, f) := Capture(fs[0], Local(fs[1].locals[sym]));
      (a, [f] + fs[1..])
    else
      var (outer, rest) := Resolve(fs[1..], sym);
      match outer
      case Found(c) =>
        var (a, f) := Capture(fs[0], Outer(Byte(c)));
        (a, [f] + rest)
      case _ => (outer, [fs[0]] + rest)
  }

  // ---- the compiler's scopes ----

  /** The part of the compiler's per-function state that names variables. */
  class Scope {
    const enclosing: Scope?
    ghost const chain: set<Scope>
    var localRegs: map<Symbol, Reg>
    var captures: seq<CaptureInfo>
    var nextReg: Reg

    ghost predicate Valid()
      ensures Valid() ==> this in chain
      decreases |chain|
    {
      if enclosing == null then chain == {this}
      else chain == {this} + enclosing.chain && this !in enclosing.chain && enclosing.Valid()
    }

    ghost function AsFrame(): Frame
      reads this`localRegs, this`captures
    {
      Frame(localRegs, captures)
    }

    ghost function Frames(): (fs: seq<Frame>)
      requires Valid()
      reads chain`localRegs, chain`captures
      ensures |fs| > 0 && fs[0] == AsFrame()
      decreases |chain|
    {
      [AsFrame()] + if enclosing == null then [] else enclosing.Frames()
    }

    constructor (outer: Scope?)
      requires outer != null ==> outer.Valid()
      ensures Valid() && enclosing == outer
      ensures Frames() == [Frame(map[], [])] + if outer == null then [] else outer.Frames()
      ensures nextReg == 0
      ensures outer == null || WellFormed(outer.Frames()) ==> WellFormed(Frames())
    {
      enclosing := outer;
      chain := {this} + if outer == null then {} else outer.chain;
      localRegs, captures, nextReg := map[], [], 0;
      new;
      if outer != null && WellFormed(outer.Frames()) { NewScopeWellFormed(outer.Frames(), map[]); }
    }

    /** The next register, of 255. */
    method AllocReg() returns (r: Option<Reg>)
      modifies this`nextReg
      ensures if old(nextReg) >= 255 then r == None && nextReg == old(nextReg)
              else r == Some(old(nextReg)) && nextReg == old(nextReg) + 1
    {
      if nextReg >= 255 {
        r := None;
      } else {
        r := Some(nextReg);
        nextReg := nextReg + 1;
      }
    }

    /** The start of a function: register 0 holds the callee, the parameters
        follow, then the result register. Of two parameters with one name the
        last wins. */
    method Parameters(params: seq<Symbol>) returns (ok: bool)
      requires nextReg == 0 && localRegs == map[]
      modifies this`nextReg, this`localRegs
      ensures ok <==> |params| + 2 <= 255
      ensures ok ==> nextReg == |params| + 2 && localRegs == ParamRegs(params)
    {
      var callee := AllocReg();
      ok := true;
      var i := 0;
      while ok && i < |params|
        invariant 0 <= i <= |params|
        invariant if ok then nextReg == i + 1 && localRegs == ParamRegs(params[..i]) else |params| >= 255
      {
        var reg := AllocReg();
        if reg.None? {
          ok := false;
        } else {
          assert params[..i + 1][..i] == params[..i];
          localRegs := localRegs[params[i] := reg.value];
          i := i + 1;
        }
      }
      if ok {
        assert params[..i] == params;
        var result := AllocReg();
        ok := result.Some?;
      }
    }

    method AddCapture(c: CaptureInfo) returns (a: Answer)
      modifies this`captures
      ensures (a, AsFrame()) == Capture(old(AsFrame()), c)
    {
      var i := 0;
      while i < |captures| && captures[i] != c
        invariant 0 <= i <= IndexOf(captures, c)
      {
        i := i + 1;
      }
      if i < |captures| {
        a := Found(i);
      } else if |captures| >= CAPTURE_LIMIT {
        a := TooManyCaptures;
      } else {
        captures := captures + [c];
        a := Found(|captures| - 1);
      }
    }

    method ResolveCapture(sym: Symbol) returns (a: Answer)
      requires Valid()
      modifies chain`captures
      ensures (a, Frames()) == Resolve(old(Frames()), sym)
      decreases |chain|
    {
      ghost var fs := Frames();
      if enclosing == null {
        a := NotFound;
      } else {
        assert fs[1..] == enclosing.Frames();
        assert fs[1] == enclosing.AsFrame();
        if sym in enclosing.localRegs {
          a := AddCapture(Local(enclosing.localRegs[sym]));
        } else {
          a := enclosing.ResolveCapture(sym);
          assert Frames()[1..] == enclosing.Frames();
          if a.Found? {
            a := AddCapture(Outer(Byte(a.index)));
          }
        }
      }
    }

    /** How a symbol is read: its own register, a capture, or by name. */
    method Access(sym: Symbol) returns (a: Location)
      requires Valid()
      modifies chain`captures
      ensures (a, Frames()) == Locate(old(Frames()), sym)
    {
      if sym in localRegs {
        a := InRegister(localRegs[sym]);
      } else {
        var r := ResolveCapture(sym);
        a := match r
             case Found(i) => InCapture(i)
             case NotFound => ByName
             case TooManyCaptures => Unresolved;
      }
    }
  }

  function ParamRegs(params: seq<Symbol>): map<Symbol, Reg>
    requires |params| < 255
  {
    if |params| == 0 then map[]
    else ParamRegs(params[..|params| - 1])[params[|params| - 1] := |params|]
  }

  /** Exactly the parameters are local, each in the register of its last mention. */
  lemma {:induction false} ParamRegsMeans(params: seq<Symbol>, s: Symbol)
    requires |params| < 255
    ensures s in ParamRegs(params) <==> s in params
    ensures s in params ==>
      var r := ParamRegs(params)[s];
      0 < r <= |params| && params[r - 1] == s && forall k :: r <= k < |params| ==> params[k] != s
  {
    if |params| > 0 {
      var before := params[..|params| - 1];
      ParamRegsMeans(before, s);
      assert params == before + [params[|params| - 1]];
    }
  }

  datatype Location = InRegister(reg: Reg) | InCapture(index: nat) | ByName | Unresolved

  function Locate(fs: seq<Frame>, sym: Symbol): (Location, seq<Frame>)
    requires |fs| > 0
  {
    if sym in fs[0].locals then (InRegister(fs[0].locals[sym]), fs)
    else
      var (a, fs2) := Resolve(fs, sym);
      match a
      case Found(i) => (InCapture(i), fs2)
      case NotFound => (ByName, fs2)
      case TooManyCaptures => (Unresolved, fs2)
  }

  // ---- what resolution finds ----

  predicate VisibleOutside(fs: seq<Frame>, sym: Symbol) {
    exists k :: 1 <= k < |fs| && sym in fs[k].locals
  }

  /** The nearest enclosing scope with the symbol local. */
  function Depth(fs: seq<Frame>, sym: Symbol): (d: nat)
    requires VisibleOutside(fs, sym)
    ensures 1 <= d < |fs| && sym in fs[d].locals && forall k :: 1 <= k < d ==> sym !in fs[k].locals
  {
    if sym in fs[1].locals then 1
    else
      assert VisibleOutside(fs[1..], sym) by {
        var k :| 1 <= k < |fs| && sym in fs[k].locals;
        assert fs[1..][k - 1] == fs[k];
      }
      1 + Depth(fs[1..], sym)
  }

  lemma VisibleStep(fs: seq<Frame>, sym: Symbol)
    requires |fs| > 1
    ensures VisibleOutside(fs, sym) <==> sym in fs[1].locals || VisibleOutside(fs[1..], sym)
  {
    if VisibleOutside(fs, sym) && sym !in fs[1].locals {
      var k :| 1 <= k < |fs| && sym in fs[k].locals;
      assert fs[1..][k - 1] == fs[k];
    }
    if VisibleOutside(fs[1..], sym) {
      var k :| 1 <= k < |fs[1..]| && sym in fs[1..][k].locals;
      assert fs[k + 1] == fs[1..][k];
    }
  }

  /** No answer exactly when no enclosing scope has the symbol local. */
  lemma {:induction false} NotFoundMeansInvisible(fs: seq<Frame>, sym: Symbol)
    requires |fs| > 0
    ensures Resolve(fs, sym).0 == NotFound <==> !VisibleOutside(fs, sym)
  {
    if |fs| > 1 {
      VisibleStep(fs, sym);
      NotFoundMeansInvisible(fs[1..], sym);
    }
  }

  /** Scopes keep their locals, and capture lists only grow at the end. */
  predicate Grown(fs: seq<Frame>, fs2: seq<Frame>) {
    && |fs2| == |fs|
    && forall k :: 0 <= k < |fs| ==> fs2[k].locals == fs[k].locals && fs[k].captures <= fs2[k].captures
  }

  lemma {:induction false} ResolveGrows(fs: seq<Frame>, sym: Symbol)
    requires |fs| > 0
    ensures Grown(fs, Resolve(fs, sym).1)
    ensures Resolve(fs, sym).0.Found? ==> Resolve(fs, sym).0.index < |Resolve(fs, sym).1[0].captures|
  {
    if |fs| > 1 && sym !in fs[1].locals {
      ResolveGrows(fs[1..], sym);
    }
  }

  /** Capture `i` of `fs[0]` stands for the nearest enclosing `sym`. */
  predicate Denotes(fs: seq<Frame>, i: nat, sym: Symbol) {
    && |fs| > 1 && i < |fs[0].captures|
    && match fs[0].captures[i]
       case Local(r) => sym in fs[1].locals && fs[1].locals[sym] == r
       case Outer(c) => sym !in fs[1].locals && Denotes(fs[1..], c, sym)
  }

  /** An index handed out stays valid as capture lists grow along the chain. */
  lemma {:induction false} DenotesStays(fs: seq<Frame>, fs2: seq<Frame>, i: nat, sym: Symbol)
    requires Grown(fs, fs2) && Denotes(fs, i, sym)
    ensures Denotes(fs2, i, sym)
  {
    assert fs2[0].captures[i] == fs[0].captures[i];
    if fs[0].captures[i].Outer? {
      assert Grown(fs[1..], fs2[1..]);
      DenotesStays(fs[1..], fs2[1..], fs[0].captures[i].idx, sym);
    }
  }

  predicate NoRepeats(cs: seq<CaptureInfo>) {
    forall i, j :: 0 <= i < j < |cs| ==> cs[i] != cs[j]
  }

  /** What the compiler keeps: no source twice, at most 255, none at top level,
      and no reference past the enclosing scope's captures. */
  predicate WellFormed(fs: seq<Frame>) {
    && |fs| > 0
    && |fs[0].captures| <= CAPTURE_LIMIT && NoRepeats(fs[0].captures)
    && if |fs| == 1 then fs[0].captures == []
       else
         && WellFormed(fs[1..])
         && forall c: CaptureInfo :: c in fs[0].captures && c.Outer? ==> c.idx < |fs[1].captures|
  }

  lemma NewScopeWellFormed(fs: seq<Frame>, locals: map<Symbol, Reg>)
    requires WellFormed(fs)
    ensures WellFormed([Frame(locals, [])] + fs)
  {
    assert ([Frame(locals, [])] + fs)[1..] == fs;
  }

  lemma CaptureKeeps(f: Frame, c: CaptureInfo)
    requires |f.captures| <= CAPTURE_LIMIT && NoRepeats(f.captures)
    ensures var r := Capture(f, c); |r.1.captures| <= CAPTURE_LIMIT && NoRepeats(r.1.captures)
    ensures forall x :: x in Capture(f, c).1.captures ==> x in f.captures || x == c
    ensures Capture(f, c).0.Found? ==>
      Capture(f, c).0.index < |Capture(f, c).1.captures| && Capture(f, c).1.captures[Capture(f, c).0.index] == c
  {
  }

  lemma CapturedWellFormed(f: Frame, c: CaptureInfo, rest: seq<Frame>)
    requires |f.captures| <= CAPTURE_LIMIT && NoRepeats(f.captures) && WellFormed(rest)
    requires forall x: CaptureInfo :: x in f.captures + [c] && x.Outer? ==> x.idx < |rest[0].captures|
    ensures WellFormed([Capture(f, c).1] + rest)
    ensures Capture(f, c).0.Found? ==>
      Capture(f, c).0.index < CAPTURE_LIMIT && Capture(f, c).1.captures[Capture(f, c).0.index] == c
  {
    CaptureKeeps(f, c);
    assert ([Capture(f, c).1] + rest)[1..] == rest;
  }

  /** Resolution keeps the chain well formed, and the index it answers with
      denotes the symbol. */
  lemma {:induction false} ResolveDenotes(fs: seq<Frame>, sym: Symbol)
    requires WellFormed(fs)
    ensures WellFormed(Resolve(fs, sym).1)
    ensures Resolve(fs, sym).0.Found? ==>
      Resolve(fs, sym).0.index < CAPTURE_LIMIT && Denotes(Resolve(fs, sym).1, Resolve(fs, sym).0.index, sym)
  {
    if |fs| > 1 {
      if sym in fs[1].locals {
        CapturedWellFormed(fs[0], Local(fs[1].locals[sym]), fs[1..]);
        assert Resolve(fs, sym).1[1..] == fs[1..];
      } else {
        ResolveDenotes(fs[1..], sym);
        ResolveGrows(fs[1..], sym);
        ResolveOuter(fs, sym);
      }
    }
  }

  lemma ResolveOuter(fs: seq<Frame>, sym: Symbol)
    requires WellFormed(fs) && |fs| > 1 && sym !in fs[1].locals
    requires Grown(fs[1..], Resolve(fs[1..], sym).1) && WellFormed(Resolve(fs[1..], sym).1)
    requires var (outer, rest) := Resolve(fs[1..], sym);
      outer.Found? ==> outer.index < CAPTURE_LIMIT && Denotes(rest, outer.index, sym)
    ensures WellFormed(Resolve(fs, sym).1)
    ensures Resolve(fs, sym).0.Found? ==>
      Resolve(fs, sym).0.index < CAPTURE_LIMIT && Denotes(Resolve(fs, sym).1, Resolve(fs, sym).0.index, sym)
  {
    var (outer, rest) := Resolve(fs[1..], sym);
    assert rest[0].locals == fs[1].locals && fs[1].captures <= rest[0].captures;
    if outer.Found? {
      CapturedWellFormed(fs[0], Outer(Byte(outer.index)), rest);
      assert Resolve(fs, sym).1[1..] == rest;
    } else {
      assert ([fs[0]] + rest)[1..] == rest;
    }
  }

  /** Only one capture of a scope denotes a given symbol. */
  lemma {:induction false} DenotesUnique(fs: seq<Frame>, i: nat, j: nat, sym: Symbol)
    requires WellFormed(fs) && Denotes(fs, i, sym) && Denotes(fs, j, sym)
    ensures i == j
  {
    var x, y := fs[0].captures[i], fs[0].captures[j];
    if x.Outer? {
      DenotesUnique(fs[1..], x.idx, y.idx, sym);
    }
    assert x == y;
  }

  /** Asking again answers the same and captures nothing new. */
  lemma {:induction false} ResolveAgain(fs: seq<Frame>, i: nat, sym: Symbol)
    requires WellFormed(fs) && Denotes(fs, i, sym)
    ensures Resolve(fs, sym) == (Found(i), fs)
  {
    var c := fs[0].captures[i];
    assert [fs[0]] + fs[1..] == fs;
    assert IndexOf(fs[0].captures, c) == i;
    if c.Outer? {
      assert c.idx < |fs[1].captures|;
      ResolveAgain(fs[1..], c.idx, sym);
    }
  }

  /** Scope `k` is full, with 255 captures, and has no capture for the symbol. */
  predicate Full(fs: seq<Frame>, k: nat, sym: Symbol) {
    k < |fs| && |fs[k].captures| == 255 && forall i :: 0 <= i < 255 ==> !Denotes(fs[k..], i, sym)
  }

  predicate FullBelow(fs: seq<Frame>, sym: Symbol, d: nat) {
    exists k :: 0 <= k < d && Full(fs, k, sym)
  }

  lemma FullBelowStep(fs: seq<Frame>, sym: Symbol, d: nat)
    requires |fs| > 0 && d > 0
    ensures FullBelow(fs, sym, d) <==> Full(fs, 0, sym) || FullBelow(fs[1..], sym, d - 1)
  {
    forall k | 0 <= k < |fs[1..]|
      ensures Full(fs[1..], k, sym) <==> Full(fs, k + 1, sym)
    {
      assert fs[1..][k..] == fs[k + 1..];
    }
    if FullBelow(fs, sym, d) && !Full(fs, 0, sym) {
      var k :| 0 <= k < d && Full(fs, k, sym);
      assert Full(fs[1..], k - 1, sym);
    }
    if FullBelow(fs[1..], sym, d - 1) {
      var k :| 0 <= k < d - 1 && Full(fs[1..], k, sym);
      assert Full(fs, k + 1, sym);
    }
  }

  /** A freshly captured index is one no capture could have referred to. */
  lemma OldCapturesMiss(fs: seq<Frame>, i: nat, sym: Symbol)
    requires WellFormed(fs) && |fs| > 1 && sym !in fs[1].locals && i < |fs[0].captures|
    requires Resolve(fs[1..], sym).0.Found?
    ensures Denotes(fs, i, sym) <==> fs[0].captures[i] == Outer(Byte(Resolve(fs[1..], sym).0.index))
  {
    var (outer, rest) := Resolve(fs[1..], sym);
    ResolveDenotes(fs[1..], sym);
    ResolveGrows(fs[1..], sym);
    var x := fs[0].captures[i];
    if Denotes(fs, i, sym) {
      ResolveAgain(fs[1..], x.idx, sym);
    } else if x == Outer(Byte(outer.index)) {
      assert outer.index < |fs[1].captures|;
      FoundOldMeansUnchanged(fs[1..], sym);
      assert false;
    }
  }

  /** An answer among the captures already there denotes the symbol there. */
  lemma {:induction false} FoundOldMeansUnchanged(fs: seq<Frame>, sym: Symbol)
    requires WellFormed(fs) && Resolve(fs, sym).0.Found? && Resolve(fs, sym).0.index < |fs[0].captures|
    ensures Denotes(fs, Resolve(fs, sym).0.index, sym)
    decreases |fs|, 0
  {
    if sym !in fs[1].locals {
      var outer := Resolve(fs[1..], sym).0;
      ResolveDenotes(fs[1..], sym);
      assert fs[0].captures[Resolve(fs, sym).0.index] == Outer(Byte(outer.index));
      FoundOldMeansUnchanged(fs[1..], sym);
    }
  }

  /** The limit is hit exactly when a scope between the user and the owner of
      the symbol already has 255 captures, none of them for this symbol. */
  lemma {:induction false} TooManyExactly(fs: seq<Frame>, sym: Symbol)
    requires WellFormed(fs)
    ensures Resolve(fs, sym).0 == TooManyCaptures <==>
      VisibleOutside(fs, sym) && FullBelow(fs, sym, Depth(fs, sym))
  {
    NotFoundMeansInvisible(fs, sym);
    if VisibleOutside(fs, sym) {
      var d := Depth(fs, sym);
      assert fs[0..] == fs;
      FullBelowStep(fs, sym, d);
      if sym in fs[1].locals {
        assert d == 1;
        OwnerIsNext(fs, sym);
      } else {
        VisibleStep(fs, sym);
        TooManyExactly(fs[1..], sym);
        NotFoundMeansInvisible(fs[1..], sym);
        assert Depth(fs[1..], sym) == d - 1;
        if Resolve(fs[1..], sym).0.Found? {
          OwnerIsFurther(fs, sym);
        }
      }
    }
  }

  lemma OwnerIsNext(fs: seq<Frame>, sym: Symbol)
    requires WellFormed(fs) && |fs| > 1 && sym in fs[1].locals
    ensures Resolve(fs, sym).0 == TooManyCaptures <==> Full(fs, 0, sym)
  {
    var c := Local(fs[1].locals[sym]);
    var i := IndexOf(fs[0].captures, c);
    assert fs[0..] == fs;
    forall k | 0 <= k < |fs[0].captures|
      ensures Denotes(fs, k, sym) <==> fs[0].captures[k] == c
    {
    }
    if i < |fs[0].captures| {
      assert Denotes(fs, i, sym);
    }
  }

  lemma OwnerIsFurther(fs: seq<Frame>, sym: Symbol)
    requires WellFormed(fs) && |fs| > 1 && sym !in fs[1].locals && Resolve(fs[1..], sym).0.Found?
    ensures Resolve(fs, sym).0 == TooManyCaptures <==> Full(fs, 0, sym)
  {
    ResolveDenotes(fs[1..], sym);
    var c := Outer(Byte(Resolve(fs[1..], sym).0.index));
    var i := IndexOf(fs[0].captures, c);
    assert fs[0..] == fs;
    forall k | 0 <= k < |fs[0].captures|
      ensures Denotes(fs, k, sym) <==> fs[0].captures[k] == c
    {
      OldCapturesMiss(fs, k, sym);
    }
    if i < |fs[0].captures| {
      assert Denotes(fs, i, sym);
    }
  }

  // ---- building a closure ----

  /** A running function: its registers, and the captures of the closure in
      register 0, if that is one. */
  datatype Activation<V> = Activation(regs: seq<V>, own: Option<seq<V>>)

  /** Every register and capture the descriptors name exists. */
  predicate InBounds<V>(descs: seq<CaptureInfo>, act: Activation<V>) {
    forall i :: 0 <= i < |descs| ==>
      match descs[i]
      case Local(r) => r < |act.regs|
      case Outer(c) => act.own.Some? ==> c < |act.own.value|
  }

  function Source<V>(null_: V, desc: CaptureInfo, act: Activation<V>): V
    requires InBounds([desc], act)
  {
    assert [desc][0] == desc;
    match desc
    case Local(r) => act.regs[r]
    case Outer(c) => if act.own.Some? then act.own.value[c] else null_
  }

  /** The captures `jitClosure` gives a new closure. */
  method JitClosure<V>(null_: V, descs: seq<CaptureInfo>, act: Activation<V>) returns (captures: seq<V>)
    requires InBounds(descs, act)
    ensures Holds(null_, descs, act, captures)
  {
    captures := [];
    var i := 0;
    while i < |descs|
      invariant 0 <= i == |captures| <= |descs|
      invariant Holds(null_, descs[..i], act, captures)
    {
      var v := null_;
      match descs[i] {
        case Local(r) => v := act.regs[r];
        case Outer(c) =>
          if act.own.Some? {
            v := act.own.value[c];
          }
      }
      captures := captures + [v];
      i := i + 1;
    }
    assert descs[..i] == descs;
  }

  predicate Holds<V(==)>(null_: V, descs: seq<CaptureInfo>, act: Activation<V>, captures: seq<V>)
    requires InBounds(descs, act)
  {
    && |captures| == |descs|
    && forall i :: 0 <= i < |descs| ==> InBounds([descs[i]], act) && captures[i] == Source(null_, descs[i], act)
  }

  /** `act` runs the function of scope `fs[0]`: it has that scope's registers,
      and its closure has that scope's captures unless it is the top level. */
  predicate Runs<V>(fs: seq<Frame>, act: Activation<V>) {
    && |fs| > 0
    && (forall s :: s in fs[0].locals ==> fs[0].locals[s] < |act.regs|)
    && (if |fs| == 1 then act.own.None? else act.own.Some? && |act.own.value| >= |fs[0].captures|)
  }

  /** What reading the symbol in that function yields; a symbol no scope has is
      read by name and is not captured. */
  function Read<V>(fs: seq<Frame>, act: Activation<V>, sym: Symbol): Option<V>
    requires Runs(fs, act)
  {
    match Locate(fs, sym).0
    case InRegister(r) => if r < |act.regs| then Some(act.regs[r]) else None
    case InCapture(i) => if act.own.Some? && i < |act.own.value| then Some(act.own.value[i]) else None
    case _ => None
  }

  /** A closure made by `act` for the function of scope `fs[0]` holds, in the
      capture that stands for `sym`, what reading `sym` in `act` yields. */
  lemma ClosureHoldsWhatTheCreatorReads<V>(null_: V, fs: seq<Frame>, act: Activation<V>, captures: seq<V>, i: nat, sym: Symbol)
    requires WellFormed(fs) && |fs| > 1 && Runs(fs[1..], act) && Denotes(fs, i, sym)
    requires InBounds(fs[0].captures, act) && Holds(null_, fs[0].captures, act, captures)
    ensures Read(fs[1..], act, sym) == Some(captures[i])
  {
    if fs[0].captures[i].Outer? {
      ResolveAgain(fs[1..], fs[0].captures[i].idx, sym);
    }
  }

  /** `acts[k + 1]` created the closure `acts[k]` runs. */
  predicate Created<V(==)>(null_: V, fs: seq<Frame>, acts: seq<Activation<V>>) {
    && |acts| == |fs| > 0
    && Runs(fs, acts[0])
    && (|fs| > 1 ==>
          && InBounds(fs[0].captures, acts[1])
          && Holds(null_, fs[0].captures, acts[1], acts[0].own.value[..|fs[0].captures|])
          && Created(null_, fs[1..], acts[1..]))
  }

  /** Through any nesting, a capture holds the register of the scope that owns
      the symbol. */
  lemma {:induction false} CaptureHoldsTheOwnersRegister<V>(null_: V, fs: seq<Frame>, acts: seq<Activation<V>>, i: nat, sym: Symbol)
    requires WellFormed(fs) && Created(null_, fs, acts) && Denotes(fs, i, sym)
    ensures VisibleOutside(fs, sym)
    ensures var d := Depth(fs, sym);
      fs[d].locals[sym] < |acts[d].regs| && acts[0].own.value[i] == acts[d].regs[fs[d].locals[sym]]
  {
    VisibleStep(fs, sym);
    if fs[0].captures[i].Outer? {
      var c := fs[0].captures[i].idx;
      CaptureHoldsTheOwnersRegister(null_, fs[1..], acts[1..], c, sym);
      assert acts[0].own.value[i] == acts[1].own.value[c];
      assert Depth(fs, sym) == 1 + Depth(fs[1..], sym);
    } else {
      assert Runs(fs[1..], acts[1]);
      assert Depth(fs, sym) == 1;
    }
  }
}
