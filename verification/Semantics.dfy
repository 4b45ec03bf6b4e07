/** Values, the operations the source language and the bytecode machine share,
    and the top-level fragment. */
module Semantics {
  import opened Wrappers
  import opened Ast
  import opened NanBox

  // ---- values and primitive operations ----

  /** The values a fragment program can hold. */
  datatype Value = Null | Bool(b: bool) | Int(n: int) | Float(bits: Word)

  datatype ArithOp = Add | Sub | Mul | Div | Mod | BAnd | BOr | BXor
  datatype CmpOp = Eq | Neq | Lt | Gt | Lte | Gte

  datatype RuntimeError = UndefinedVariable | TypeMismatch | DivisionByZero | BitwiseOnNonInt

  type SymbolId = n: nat | n < 0x1_0000_0000

  /** What evaluation and the machine share: arithmetic, addition and subtraction
      of an immediate, comparison, boxing of integers, and the id `resolveSymbol`
      gives a name. `HelperHost` below is the one of the runtime's helpers; where the
      inline code leaves other words is what `NanBox` is about. */
  datatype Host = Host(
    arith: (ArithOp, Value, Value) -> Computed,
    immediate: (ArithOp, Value, int) -> Computed,
    compare: (CmpOp, Value, Value) -> bool,
    boxInt: int -> Value,
    symbolId: string -> SymbolId)

  datatype Computed = Ok(v: Value) | Error(e: RuntimeError)

  type Globals = map<nat, Value>

  /** Operations the model does not define itself: on doubles, and bitwise ones. */
  datatype Doubles = Doubles(
    toDouble: int -> Word,
    floatOp: (ArithOp, Word, Word) -> Value,
    isZero: Word -> bool,
    bitOp: (ArithOp, int, int) -> int)

  function Box(d: Doubles, v: Value): Word {
    match v
    case Null => TAG_NULL
    case Bool(b) => if b then TAG_BOOL + 1 else TAG_BOOL
    case Int(n) => MakeInt(d.toDouble, n)
    case Float(w) => w
  }

  function MakeIntValue(d: Doubles, n: int): Value {
    if InRange(n) then Int(n) else Float(d.toDouble(n))
  }

  /** An integer operand of float arithmetic is converted; anything else has its
      word read as a double. */
  function ToDouble(d: Doubles, v: Value): Word {
    match v
    case Int(n) => d.toDouble(n)
    case _ => Box(d, v)
  }

  function WrapInt64(n: int): int {
    var r := n % TWO_64;
    if r >= 0x8000_0000_0000_0000 then r - TWO_64 else r
  }

  /** C++ integer division truncates toward zero. */
  function TruncDiv(a: int, b: int): int
    requires b != 0
  {
    if a >= 0 then a / b else -((-a) / b)
  }

  function TruncMod(a: int, b: int): int
    requires b != 0
  {
    a - b * TruncDiv(a, b)
  }

  function IntArith(d: Doubles, op: ArithOp, a: int, b: int): Computed {
    match op
    case Add => Ok(MakeIntValue(d, a + b))
    case Sub => Ok(MakeIntValue(d, a - b))
    case Mul => Ok(MakeIntValue(d, WrapInt64(a * b)))
    case Div => if b == 0 then Error(DivisionByZero) else Ok(MakeIntValue(d, TruncDiv(a, b)))
    case Mod => if b == 0 then Error(DivisionByZero) else Ok(MakeIntValue(d, TruncMod(a, b)))
    case _ => Ok(MakeIntValue(d, d.bitOp(op, a, b)))
  }

  predicate IsNumber(v: Value) {
    v.Int? || v.Float?
  }

  function Arith(d: Doubles, op: ArithOp, a: Value, b: Value): Computed {
    if a.Int? && b.Int? then IntArith(d, op, a.n, b.n)
    else match op
      case Add =>
        if IsNumber(a) && IsNumber(b) then Ok(d.floatOp(op, ToDouble(d, a), ToDouble(d, b)))
        else Error(TypeMismatch)
      case Div =>
        if d.isZero(ToDouble(d, b)) then Error(DivisionByZero)
        else Ok(d.floatOp(op, ToDouble(d, a), ToDouble(d, b)))
      case Sub | Mul | Mod => Ok(d.floatOp(op, ToDouble(d, a), ToDouble(d, b)))
      case _ => Error(BitwiseOnNonInt)
  }

  /** Comparisons look at the sign-extended payloads only, whatever the tags. */
  function Compare(d: Doubles, op: CmpOp, a: Value, b: Value): bool {
    var x, y := IntVal(Box(d, a)), IntVal(Box(d, b));
    match op
    case Eq => x == y
    case Neq => x != y
    case Lt => x < y
    case Gt => x > y
    case Lte => x <= y
    case Gte => x >= y
  }

  function HelperHost(d: Doubles, symbolId: string -> SymbolId): Host {
    Host((op, a, b) => Arith(d, op, a, b),
         (op, a, imm) => Arith(d, op, a, Int(imm)),
         (op, a, b) => Compare(d, op, a, b),
         n => MakeIntValue(d, n),
         symbolId)
  }

  predicate Falsy(v: Value) {
    v == Null || v == Bool(false) || v == Int(0)
  }

  // ---- the fragment ----

  /** Top-level programs without locals, calls or functions. An absent `else`
      branch, an empty `do` and the empty list all read as `null`. */
  datatype Expr =
    | EInt(v: int)
    | EFloat(bits: Word)
    | EBool(b: bool)
    | ENull
    | EGlobal(name: string)
    | EArith(op: ArithOp, first: Expr, rest: seq<Expr>)
    | ECmp(cop: CmpOp, l: Expr, r: Expr)
    | ENot(e: Expr)
    | EAssign(name: string, e: Expr)
    | EIf(cond: Expr, thn: Expr, els: Expr)
    | ELoop(cond: Expr, body: seq<Expr>)
    | EDo(es: seq<Expr>)
    | EAnd(l: Expr, r: Expr)
    | EOr(l: Expr, r: Expr)
    | EBreak
    | EContinue

  datatype Head =
    | HArith(op: ArithOp) | HCmp(cop: CmpOp) | HNot | HAssign | HIf | HLoop
    | HDo | HAnd | HOr | HBreak | HContinue | HOther

  function HeadOf(name: string): Head {
    if name == "+" then HArith(Add)
    else if name == "-" then HArith(Sub)
    else if name == "*" then HArith(Mul)
    else if name == "/" then HArith(Div)
    else if name == "%" then HArith(Mod)
    else if name == "band" then HArith(BAnd)
    else if name == "bor" then HArith(BOr)
    else if name == "bxor" then HArith(BXor)
    else if name == "==" then HCmp(Eq)
    else if name == "!=" then HCmp(Neq)
    else if name == "<" then HCmp(Lt)
    else if name == ">" then HCmp(Gt)
    else if name == "<=" then HCmp(Lte)
    else if name == ">=" then HCmp(Gte)
    else if name == "not" then HNot
    else if name == "=" then HAssign
    else if name == "if" then HIf
    else if name == "loop" then HLoop
    else if name == "do" then HDo
    else if name == "and" then HAnd
    else if name == "or" then HOr
    else if name == "break" then HBreak
    else if name == "continue" then HContinue
    else HOther
  }

  /** The fragment expression a syntax tree stands for, or `None` when an operand
      is missing or the tree lies outside the fragment. Surplus operands of
      `not`, `=`, `if`, `and`, `or`, `break` and `continue` are ignored. As in
      `Layout`, the forwarding layers keep the definition from being unfolded
      everywhere. */
  function Elab(n: Node): Option<Expr>
    decreases n, 4
  {
    ElabSealed(n)
  }

  function ElabSealed(n: Node): Option<Expr>
    decreases n, 3
  {
    ElabDef(n)
  }

  function ElabDef(n: Node): Option<Expr>
    decreases n, 2
  {
    match n
    case IntLiteral(v) => Some(EInt(v))
    case FloatLiteral(w) => if w < TWO_64 then Some(EFloat(w)) else None
    case BoolLiteral(b) => Some(EBool(b))
    case NullLiteral => Some(ENull)
    case Symbol(name) => Some(EGlobal(name))
    case List(ch) =>
      if ch == [] then Some(ENull)
      else if !ch[0].Symbol? then None
      else ElabForm(HeadOf(ch[0].name), n)
    case _ => None
  }

  function ElabForm(hd: Head, n: Node): Option<Expr>
    requires n.List? && n.children != []
    decreases n, 1
  {
    var ch := n.children;
    match hd
    case HArith(op) =>
      if |ch| < 3 then None
      else (match (Elab(ch[1]), ElabAll(ch[2..]))
        case (Some(a), Some(rest)) => Some(EArith(op, a, rest))
        case _ => None)
    case HCmp(op) =>
      if |ch| != 3 then None
      else (match (Elab(ch[1]), Elab(ch[2]))
        case (Some(a), Some(b)) => Some(ECmp(op, a, b))
        case _ => None)
    case HNot => if |ch| < 2 || Elab(ch[1]).None? then None else Some(ENot(Elab(ch[1]).value))
    case HAssign =>
      if |ch| < 3 || !ch[1].Symbol? || Elab(ch[2]).None? then None
      else Some(EAssign(ch[1].name, Elab(ch[2]).value))
    case HIf =>
      if |ch| < 3 then None
      else (match (Elab(ch[1]), Elab(ch[2]), if |ch| > 3 then Elab(ch[3]) else Some(ENull))
        case (Some(c), Some(t), Some(f)) => Some(EIf(c, t, f))
        case _ => None)
    case HLoop =>
      if |ch| < 2 then None
      else (match (Elab(ch[1]), ElabAll(ch[2..]))
        case (Some(c), Some(body)) => Some(ELoop(c, body))
        case _ => None)
    case HDo =>
      if |ch| == 1 then Some(ENull)
      else (match ElabAll(ch[1..])
        case Some(es) => Some(EDo(es))
        case None => None)
    case HAnd =>
      if |ch| < 3 then None
      else (match (Elab(ch[1]), Elab(ch[2]))
        case (Some(a), Some(b)) => Some(EAnd(a, b))
        case _ => None)
    case HOr =>
      if |ch| < 3 then None
      else (match (Elab(ch[1]), Elab(ch[2]))
        case (Some(a), Some(b)) => Some(EOr(a, b))
        case _ => None)
    case HBreak => Some(EBreak)
    case HContinue => Some(EContinue)
    case HOther => None
  }

  lemma OpenElab(n: Node)
    ensures Elab(n) == ElabDef(n)
  {
    assert ElabSealed(n) == ElabDef(n);
  }

  function ElabAll(ns: seq<Node>): (r: Option<seq<Expr>>)
    ensures r.Some? ==> |r.value| == |ns|
    ensures r.Some? <==> forall i :: 0 <= i < |ns| ==> Elab(ns[i]).Some?
    ensures r.Some? ==> forall i :: 0 <= i < |ns| ==> Elab(ns[i]) == Some(r.value[i])
    decreases ns, 0
  {
    if ns == [] then Some([])
    else match (Elab(ns[0]), ElabAll(ns[1..]))
      case (Some(e), Some(es)) => Some([e] + es)
      case _ => None
  }

  /** A program is a sequence of expressions; the empty one yields `null`. */
  function ElabProgram(ns: seq<Node>): Option<seq<Expr>> {
    if ns == [] then Some([ENull]) else ElabAll(ns)
  }

  // ---- literals ----

  /** The literals a compiled chunk loads are the written ones, except that the
      instruction encoding turns -32768 into 32768; `Encoded` reads a program
      the way its chunk does. */
  datatype Reading = Written | Encoded

  const MIN_IMMEDIATE := -32768

  predicate IsImmediate(v: int) {
    -32768 <= v <= 32767
  }

  function ReadLiteral(rd: Reading, v: int): int {
    if rd == Encoded && v == MIN_IMMEDIATE then 32768 else v
  }

  /** The expression, or one inside it, is the literal -32768. */
  predicate HasMinLiteral(e: Expr)
    decreases e, 1
  {
    match e
    case EInt(v) => v == MIN_IMMEDIATE
    case EArith(_, a, rest) => HasMinLiteral(a) || AnyMinLiteral(rest)
    case ECmp(_, a, b) => HasMinLiteral(a) || HasMinLiteral(b)
    case ENot(a) => HasMinLiteral(a)
    case EAssign(_, a) => HasMinLiteral(a)
    case EIf(c, t, f) => HasMinLiteral(c) || HasMinLiteral(t) || HasMinLiteral(f)
    case ELoop(c, body) => HasMinLiteral(c) || AnyMinLiteral(body)
    case EDo(es) => AnyMinLiteral(es)
    case EAnd(a, b) => HasMinLiteral(a) || HasMinLiteral(b)
    case EOr(a, b) => HasMinLiteral(a) || HasMinLiteral(b)
    case _ => false
  }

  predicate AnyMinLiteral(es: seq<Expr>)
    decreases es, 0
  {
    es != [] && (HasMinLiteral(es[0]) || AnyMinLiteral(es[1..]))
  }
}
