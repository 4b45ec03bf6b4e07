/** What a program of the fragment means: values and globals, and nothing of how it
    is compiled. Operands of arithmetic are values of any kind, literals are as
    written, and a loop yields `null` however it is left. */
module Meaning {
  import opened Semantics

  /** `Exits` and `Repeats` are a `break` and a `continue` on their way to the loop
      around, `Exhausted`: the bound on loop iterations ran out. A tree outside the
      fragment has `NoMeaning`; an expression always has one. */
  datatype Result =
    | Yields(v: Value, g: Globals)
    | Exits(g: Globals)
    | Repeats(g: Globals)
    | Raises(e: RuntimeError, g: Globals)
    | Exhausted
    | NoMeaning

  function LiteralValue(h: Host, v: int): Value {
    if IsImmediate(v) then Int(v) else h.boxInt(v)
  }

  /** As in `Layout`, the forwarding layers keep the definition from being unfolded
      everywhere. */
  function Mean(h: Host, fuel: nat, e: Expr, g: Globals): Result
    decreases fuel, e, 4
  {
    MeanSealed(h, fuel, e, g)
  }

  function MeanSealed(h: Host, fuel: nat, e: Expr, g: Globals): Result
    decreases fuel, e, 3
  {
    MeanDef(h, fuel, e, g)
  }

  function MeanDef(h: Host, fuel: nat, e: Expr, g: Globals): Result
    decreases fuel, e, 2
  {
    match e
    case EInt(v) => Yields(LiteralValue(h, v), g)
    case EFloat(x) => Yields(Float(x), g)
    case EBool(b) => Yields(Bool(b), g)
    case ENull => Yields(Null, g)
    case EGlobal(x) => if h.symbolId(x) in g then Yields(g[h.symbolId(x)], g) else Raises(UndefinedVariable, g)
    case EArith(op, a, rest) => MeanArith(h, fuel, e, g)
    case ECmp(op, a, b) => MeanCmp(h, fuel, e, g)
    case ENot(a) => NotResult(Mean(h, fuel, a, g))
    case EAssign(x, a) => AssignResult(h.symbolId(x), Mean(h, fuel, a, g))
    case EIf(_, _, _) => MeanIf(h, fuel, e, g)
    case ELoop(_, _) => MeanLoop(h, fuel, e, g)
    case EDo(es) => MeanSeq(h, fuel, es, g)
    case EAnd(_, _) => MeanShort(h, fuel, e, g)
    case EOr(_, _) => MeanShort(h, fuel, e, g)
    case EBreak => Exits(g)
    case EContinue => Repeats(g)
  }

  function MeanArith(h: Host, fuel: nat, e: Expr, g: Globals): Result
    requires e.EArith?
    decreases fuel, e, 1
  {
    var r := Mean(h, fuel, e.first, g);
    if r.Yields? then MeanOperands(h, fuel, e.op, r.v, e.rest, r.g) else r
  }

  /** From left to right, each operand computed just before it is used. */
  function MeanOperands(h: Host, fuel: nat, op: ArithOp, acc: Value, rest: seq<Expr>, g: Globals): Result
    decreases fuel, rest, 0
  {
    if rest == [] then Yields(acc, g)
    else
      var r := ArithResult(h, op, acc, Mean(h, fuel, rest[0], g));
      if r.Yields? then MeanOperands(h, fuel, op, r.v, rest[1..], r.g) else r
  }

  function ArithResult(h: Host, op: ArithOp, acc: Value, r: Result): Result {
    if r.Yields? then Computes(h.arith(op, acc, r.v), r.g) else r
  }

  function Computes(c: Computed, g: Globals): Result {
    match c
    case Ok(v) => Yields(v, g)
    case Error(e) => Raises(e, g)
  }

  function MeanCmp(h: Host, fuel: nat, e: Expr, g: Globals): Result
    requires e.ECmp?
    decreases fuel, e, 1
  {
    var r := Mean(h, fuel, e.l, g);
    if r.Yields? then CmpResult(h, e.cop, r.v, Mean(h, fuel, e.r, r.g)) else r
  }

  function CmpResult(h: Host, op: CmpOp, v: Value, r: Result): Result {
    if r.Yields? then Yields(Bool(h.compare(op, v, r.v)), r.g) else r
  }

  function NotResult(r: Result): Result {
    if r.Yields? then Yields(Bool(Falsy(r.v)), r.g) else r
  }

  function AssignResult(id: nat, r: Result): Result {
    if r.Yields? then Yields(r.v, r.g[id := r.v]) else r
  }

  function MeanIf(h: Host, fuel: nat, e: Expr, g: Globals): Result
    requires e.EIf?
    decreases fuel, e, 1
  {
    var r := Mean(h, fuel, e.cond, g);
    if r.Yields? then Mean(h, fuel, if Falsy(r.v) then e.els else e.thn, r.g) else r
  }

  /** `and` stops at a falsy left operand, `or` at a truthy one. */
  function MeanShort(h: Host, fuel: nat, e: Expr, g: Globals): Result
    requires e.EAnd? || e.EOr?
    decreases fuel, e, 1
  {
    var r := Mean(h, fuel, e.l, g);
    if !r.Yields? || Falsy(r.v) == e.EAnd? then r else Mean(h, fuel, e.r, r.g)
  }

  function MeanLoop(h: Host, fuel: nat, e: Expr, g: Globals): Result
    requires e.ELoop?
    decreases fuel, e, 1
  {
    var r := Mean(h, fuel, e.cond, g);
    if r.Repeats? then MeanAgain(h, fuel, e, r.g)
    else if !r.Yields? || Falsy(r.v) then LeaveResult(r)
    else
      var s := MeanSeq(h, fuel, e.body, r.g);
      if s.Yields? || s.Repeats? then MeanAgain(h, fuel, e, s.g) else LeaveResult(s)
  }

  /** A loop gives `null`, whether its condition fails or a `break` leaves it. */
  function LeaveResult(r: Result): Result {
    if r.Yields? || r.Exits? then Yields(Null, r.g) else r
  }

  /** Another iteration, if the bound allows one. */
  function MeanAgain(h: Host, fuel: nat, e: Expr, g: Globals): Result
    requires e.ELoop?
    decreases fuel, e, 0
  {
    if fuel == 0 then Exhausted else MeanLoop(h, fuel - 1, e, g)
  }

  /** The value of a sequence is that of its last expression. */
  function MeanSeq(h: Host, fuel: nat, es: seq<Expr>, g: Globals): Result
    decreases fuel, es, 0
  {
    if es == [] then Yields(Null, g)
    else
      var r := Mean(h, fuel, es[0], g);
      if r.Yields? && |es| > 1 then MeanSeq(h, fuel, es[1..], r.g) else r
  }

  lemma OpenMean(h: Host, fuel: nat, e: Expr, g: Globals)
    ensures Mean(h, fuel, e, g) == MeanDef(h, fuel, e, g)
  {
    assert MeanSealed(h, fuel, e, g) == MeanDef(h, fuel, e, g);
  }
}
