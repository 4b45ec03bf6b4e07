/** The parser over the lexer's tokens. Lexical errors and line numbers are not
    part of this model. */
module Parser {
  import opened Ast

  datatype Token =
    | LParen | RParen | Dot | Colon | Eof
    | IntTok(intVal: int)
    | FloatTok(bits: nat)
    | StringTok(text: string)
    | BoolTok(boolVal: bool)
    | NullTok
    | BinaryTok(source: nat, size: nat, compressed: bool)
    | SymbolTok(name: string)

  datatype ParseError = TooDeep | Unclosed | Unexpected | BadField | BadMethod | StrayClose

  datatype Result<+T> = Ok(value: T) | Error(error: ParseError)

  const DEPTH_LIMIT := 256

  // ---- the grammar, from trees to tokens ----

  function Flatten(n: Node): seq<Token> {
    match n
    case IntLiteral(v) => [IntTok(v)]
    case FloatLiteral(b) => [FloatTok(b)]
    case StringLiteral(t) => [StringTok(t)]
    case BoolLiteral(b) => [BoolTok(b)]
    case NullLiteral => [NullTok]
    case BinaryLiteral(s, k, c) => [BinaryTok(s, k, c)]
    case Symbol(x) => [SymbolTok(x)]
    case List(cs) => [LParen] + FlattenAll(cs) + [RParen]
    case DotAccess(o, f, i) => Flatten(o) + [Dot, FieldToken(f, i)]
    case ColonAccess(o, m) => Flatten(o) + [Colon, SymbolTok(m)]
  }

  function FlattenAll(ns: seq<Node>): seq<Token> {
    if |ns| == 0 then [] else Flatten(ns[0]) + FlattenAll(ns[1..])
  }

  function FieldToken(field: string, index: int): Token {
    if field == "" then IntTok(index) else SymbolTok(field)
  }

  /** A tree the parser can build: a named field carries no index. */
  predicate Producible(n: Node) {
    match n
    case List(cs) => ProducibleAll(cs)
    case DotAccess(o, f, i) => Producible(o) && (f != "" ==> i == 0)
    case ColonAccess(o, _) => Producible(o)
    case _ => true
  }

  predicate ProducibleAll(ns: seq<Node>) {
    |ns| > 0 ==> Producible(ns[0]) && ProducibleAll(ns[1..])
  }

  /** How far elements nest inside lists; accesses do not add to it. */
  function Nesting(n: Node): nat {
    match n
    case List(cs) => NestingAll(cs)
    case DotAccess(o, _, _) => Nesting(o)
    case ColonAccess(o, _) => Nesting(o)
    case _ => 0
  }

  function NestingAll(ns: seq<Node>): nat {
    if |ns| == 0 then 0
    else
      var first, rest := 1 + Nesting(ns[0]), NestingAll(ns[1..]);
      if first >= rest then first else rest
  }

  /** The lexer never makes an empty symbol, and ends the stream itself. */
  predicate Lexed(ts: seq<Token>) {
    forall i :: 0 <= i < |ts| ==> ts[i] != Eof && ts[i] != SymbolTok("")
  }

  // ---- parsing as a function ----

  datatype Parsed<+T> = Parsed(tree: T, rest: seq<Token>)

  /** One access: a name or an integer after a dot, a name after a colon. */
  function Access(lhs: Node, separator: Token, field: Token): (r: Result<Node>)
    ensures r.Ok? ==> field.SymbolTok? || field.IntTok?
  {
    if separator == Dot then
      if field.SymbolTok? then Ok(DotAccess(lhs, field.name, 0))
      else if field.IntTok? then Ok(DotAccess(lhs, "", field.intVal))
      else Error(BadField)
    else if field.SymbolTok? then Ok(ColonAccess(lhs, field.name))
    else Error(BadMethod)
  }

  predicate StartsAccess(ts: seq<Token>) {
    |ts| > 0 && (ts[0] == Dot || ts[0] == Colon)
  }

  function Second(ts: seq<Token>): Token {
    if |ts| > 1 then ts[1] else Eof
  }

  /** The accesses that follow `lhs`. */
  function Accesses(lhs: Node, ts: seq<Token>): (r: Result<Parsed<Node>>)
    ensures r.Ok? ==> |r.value.rest| <= |ts|
    decreases |ts|
  {
    if !StartsAccess(ts) then Ok(Parsed(lhs, ts))
    else
      match Access(lhs, ts[0], Second(ts))
      case Ok(n) => Accesses(n, ts[2..])
      case Error(e) => Error(e)
  }

  function Primary(ts: seq<Token>, depth: nat): (r: Result<Parsed<Node>>)
    ensures r.Ok? ==> |r.value.rest| < |ts|
    decreases |ts|, 0
  {
    if depth > DEPTH_LIMIT then Error(TooDeep)
    else if |ts| == 0 then Error(Unexpected)
    else
      var rest := ts[1..];
      match ts[0]
      case IntTok(v) => Ok(Parsed(IntLiteral(v), rest))
      case FloatTok(b) => Ok(Parsed(FloatLiteral(b), rest))
      case StringTok(t) => Ok(Parsed(StringLiteral(t), rest))
      case BoolTok(b) => Ok(Parsed(BoolLiteral(b), rest))
      case NullTok => Ok(Parsed(NullLiteral, rest))
      case BinaryTok(s, k, c) => Ok(Parsed(BinaryLiteral(s, k, c), rest))
      case SymbolTok(x) => Ok(Parsed(Symbol(x), rest))
      case LParen =>
        (match Elements(rest, depth)
         case Ok(p) => Ok(Parsed(List(p.tree), p.rest))
         case Error(e) => Error(e))
      case _ => Error(Unexpected)
  }

  /** A primary and its accesses. The forwarding layers keep the definition from
      being unfolded everywhere; `OpenExpr` unfolds it. */
  function Expr(ts: seq<Token>, depth: nat): (r: Result<Parsed<Node>>)
    ensures r.Ok? ==> |r.value.rest| < |ts|
    decreases |ts|, 3
  {
    ExprSealed(ts, depth)
  }

  function ExprSealed(ts: seq<Token>, depth: nat): (r: Result<Parsed<Node>>)
    ensures r.Ok? ==> |r.value.rest| < |ts|
    decreases |ts|, 2
  {
    ExprDef(ts, depth)
  }

  function ExprDef(ts: seq<Token>, depth: nat): (r: Result<Parsed<Node>>)
    ensures r.Ok? ==> |r.value.rest| < |ts|
    decreases |ts|, 1
  {
    match Primary(ts, depth)
    case Ok(p) => Accesses(p.tree, p.rest)
    case Error(e) => Error(e)
  }

  lemma OpenExpr(ts: seq<Token>, depth: nat)
    ensures Expr(ts, depth) == match Primary(ts, depth)
                               case Ok(p) => Accesses(p.tree, p.rest)
                               case Error(e) => Error(e)
  {
    assert ExprSealed(ts, depth) == ExprDef(ts, depth);
  }

  /** The elements of a list up to and including its closing parenthesis. */
  function Elements(ts: seq<Token>, depth: nat): (r: Result<Parsed<seq<Node>>>)
    ensures r.Ok? ==> |r.value.rest| < |ts|
    decreases |ts|, 4
  {
    if |ts| == 0 then Error(Unclosed)
    else if ts[0] == RParen then Ok(Parsed([], ts[1..]))
    else
      match Expr(ts, depth + 1)
      case Error(e) => Error(e)
      case Ok(p) => Prepend([p.tree], Elements(p.rest, depth))
  }

  function Prepend(first: seq<Node>, r: Result<Parsed<seq<Node>>>): Result<Parsed<seq<Node>>> {
    match r
    case Ok(p) => Ok(Parsed(first + p.tree, p.rest))
    case Error(e) => Error(e)
  }

  function PrependTop(first: seq<Node>, r: Result<seq<Node>>): Result<seq<Node>> {
    match r
    case Ok(ns) => Ok(first + ns)
    case Error(e) => Error(e)
  }

  function TopLevel(ts: seq<Token>): Result<seq<Node>>
    decreases |ts|
  {
    if |ts| == 0 then Ok([])
    else if ts[0] == RParen then Error(StrayClose)
    else
      match Expr(ts, 0)
      case Error(e) => Error(e)
      case Ok(p) =>
        match TopLevel(p.rest)
        case Ok(ns) => Ok([p.tree] + ns)
        case Error(e) => Error(e)
  }

  lemma PrependNothing(r: Result<Parsed<seq<Node>>>)
    ensures Prepend([], r) == r
  {
    if r.Ok? {
      assert [] + r.value.tree == r.value.tree;
    }
  }

  lemma PrependTopNothing(r: Result<seq<Node>>)
    ensures PrependTop([], r) == r
  {
    if r.Ok? {
      assert [] + r.value == r.value;
    }
  }

  lemma PrependTwice(a: seq<Node>, b: seq<Node>, r: Result<Parsed<seq<Node>>>)
    ensures Prepend(a, Prepend(b, r)) == Prepend(a + b, r)
  {
    if r.Ok? {
      assert a + (b + r.value.tree) == a + b + r.value.tree;
    }
  }

  lemma PrependTopTwice(a: seq<Node>, b: seq<Node>, r: Result<seq<Node>>)
    ensures PrependTop(a, PrependTop(b, r)) == PrependTop(a + b, r)
  {
    if r.Ok? {
      assert a + (b + r.value) == a + b + r.value;
    }
  }

  // ---- the parser ----

  class Lexer {
    const tokens: seq<Token>
    var pos: nat

    constructor (ts: seq<Token>)
      ensures tokens == ts && pos == 0
    {
      tokens := ts;
      pos := 0;
    }

    ghost predicate Valid()
      reads this`pos
    {
      pos <= |tokens| && Lexed(tokens)
    }

    /** The token the parser holds and those still to come. */
    ghost function Ahead(tok: Token): seq<Token>
      requires Valid()
      reads this`pos
    {
      if tok == Eof then [] else [tok] + tokens[pos..]
    }

    method NextToken() returns (t: Token)
      requires Valid()
      modifies this`pos
      ensures Valid() && pos == if old(pos) < |tokens| then old(pos) + 1 else old(pos)
      ensures Ahead(t) == tokens[old(pos)..]
      ensures t == Eof <==> old(pos) == |tokens|
    {
      if pos < |tokens| {
        t := tokens[pos];
        pos := pos + 1;
      } else {
        t := Eof;
      }
    }

    /** After a primary the lexer stands behind its last token. */
    method ParsePrimary(tok: Token, depth: nat) returns (r: Result<Node>)
      requires Valid()
      modifies this`pos
      ensures Valid() && pos >= old(pos)
      ensures match Primary(old(Ahead(tok)), depth)
              case Ok(p) => r == Ok(p.tree) && tokens[pos..] == p.rest
              case Error(e) => r == Error(e)
      decreases |tokens| - pos, 1
    {
      if depth > DEPTH_LIMIT {
        r := Error(TooDeep);
      } else {
        match tok {
          case IntTok(v) => r := Ok(IntLiteral(v));
          case FloatTok(b) => r := Ok(FloatLiteral(b));
          case StringTok(t) => r := Ok(StringLiteral(t));
          case BoolTok(b) => r := Ok(BoolLiteral(b));
          case NullTok => r := Ok(NullLiteral);
          case BinaryTok(s, k, c) => r := Ok(BinaryLiteral(s, k, c));
          case SymbolTok(x) => r := Ok(Symbol(x));
          case LParen => r := ParseList(depth);
          case _ => r := Error(Unexpected);
        }
      }
    }

    /** The elements after an opening parenthesis. */
    method ParseList(depth: nat) returns (r: Result<Node>)
      requires Valid()
      modifies this`pos
      ensures Valid() && pos >= old(pos)
      ensures match Elements(old(tokens[pos..]), depth)
              case Ok(p) => r == Ok(List(p.tree)) && tokens[pos..] == p.rest
              case Error(e) => r == Error(e)
      decreases |tokens| - pos, 0
    {
      ghost var ts := tokens[pos..];
      PrependNothing(Elements(ts, depth));
      var children: seq<Node> := [];
      var tok := NextToken();
      var failed: Result<()> := Ok(());
      while failed.Ok? && tok != RParen
        invariant Valid() && pos >= old(pos)
        invariant tok != Eof ==> pos > old(pos)
        invariant match failed
                  case Ok(_) => Elements(ts, depth) == Prepend(children, Elements(Ahead(tok), depth))
                  case Error(e) => Elements(ts, depth) == Error(e)
        decreases failed.Ok?, |tokens| - pos, tok != Eof
      {
        if tok == Eof {
          failed := Error(Unclosed);
        } else {
          ghost var before, done := Ahead(tok), children;
          var e: Result<Node>;
          e, tok := ParseExpr(tok, depth + 1);
          match e {
            case Ok(n) =>
              children := children + [n];
              assert Elements(before, depth) == Prepend([n], Elements(Ahead(tok), depth));
              PrependTwice(done, [n], Elements(Ahead(tok), depth));
            case Error(x) => failed := Error(x);
          }
        }
      }
      match failed {
        case Error(e) => r := Error(e);
        case Ok(_) =>
          assert children + [] == children;
          assert Ahead(tok)[1..] == tokens[pos..];
          r := Ok(List(children));
      }
    }

    /** An expression and its accesses; the token that ends it is handed back. */
    method ParseExpr(tok: Token, depth: nat) returns (r: Result<Node>, next: Token)
      requires Valid()
      modifies this`pos
      ensures Valid() && pos >= old(pos)
      ensures next != Eof && r.Ok? ==> pos > old(pos)
      ensures match Expr(old(Ahead(tok)), depth)
              case Ok(p) => r == Ok(p.tree) && Ahead(next) == p.rest
              case Error(e) => r == Error(e)
      decreases |tokens| - pos, 2
    {
      OpenExpr(Ahead(tok), depth);
      r := ParsePrimary(tok, depth);
      next := Eof;
      if r.Ok? {
        r, next := ParseAccesses(r.value);
      }
    }

    method ParseAccesses(primary: Node) returns (r: Result<Node>, next: Token)
      requires Valid()
      modifies this`pos
      ensures Valid() && pos >= old(pos)
      ensures next != Eof && r.Ok? ==> pos > old(pos)
      ensures match Accesses(primary, old(tokens[pos..]))
              case Ok(p) => r == Ok(p.tree) && Ahead(next) == p.rest
              case Error(e) => r == Error(e)
    {
      var lhs := primary;
      ghost var ts := tokens[pos..];
      next := NextToken();
      r := Ok(lhs);
      while r.Ok? && (next == Dot || next == Colon)
        invariant Valid() && pos >= old(pos)
        invariant next != Eof && r.Ok? ==> pos > old(pos)
        invariant match r
                  case Ok(n) => n == lhs && Accesses(primary, ts) == Accesses(lhs, Ahead(next))
                  case Error(e) => Accesses(primary, ts) == Error(e)
        decreases r.Ok?, |tokens| - pos, next != Eof
      {
        r := ParseAccess(lhs, next);
        if r.Ok? {
          lhs := r.value;
          next := NextToken();
        }
      }
    }

    /** What follows a dot or a colon. */
    method ParseAccess(lhs: Node, separator: Token) returns (r: Result<Node>)
      requires Valid() && separator != Eof
      modifies this`pos
      ensures Valid() && pos >= old(pos)
      ensures r == Access(lhs, separator, Second(old(Ahead(separator))))
      ensures r.Ok? ==> pos > old(pos) && tokens[pos..] == old(Ahead(separator))[2..]
    {
      var field := NextToken();
      if separator == Dot {
        if field.SymbolTok? {
          r := Ok(DotAccess(lhs, field.name, 0));
        } else if field.IntTok? {
          r := Ok(DotAccess(lhs, "", field.intVal));
        } else {
          r := Error(BadField);
        }
      } else if field.SymbolTok? {
        r := Ok(ColonAccess(lhs, field.name));
      } else {
        r := Error(BadMethod);
      }
    }
  }

  method Parse(ts: seq<Token>) returns (r: Result<seq<Node>>)
    requires Lexed(ts)
    ensures forall ns :: r == Ok(ns) <==> FlattenAll(ns) == ts && ProducibleAll(ns) && NestingAll(ns) <= 256 + 1
  {
    var lexer := new Lexer(ts);
    var nodes: seq<Node> := [];
    r := Ok(nodes);
    var tok := lexer.NextToken();
    assert ts[0..] == ts;
    PrependTopNothing(TopLevel(ts));
    while r.Ok? && tok != Eof
      invariant lexer.Valid() && fresh(lexer) && lexer.tokens == ts
      invariant match r
                case Ok(ns) => ns == nodes && TopLevel(ts) == PrependTop(nodes, TopLevel(lexer.Ahead(tok)))
                case Error(e) => TopLevel(ts) == Error(e)
      decreases r.Ok?, |ts| - lexer.pos, tok != Eof
    {
      if tok == RParen {
        r := Error(StrayClose);
      } else {
        var e: Result<Node>;
        ghost var before, done := lexer.Ahead(tok), nodes;
        e, tok := lexer.ParseExpr(tok, 0);
        match e {
          case Error(x) => r := Error(x);
          case Ok(n) =>
            nodes := nodes + [n];
            r := Ok(nodes);
            assert TopLevel(before) == PrependTop([n], TopLevel(lexer.Ahead(tok)));
            PrependTopTwice(done, [n], TopLevel(lexer.Ahead(tok)));
        }
      }
    }
    assert nodes + [] == nodes;
    ParseIsInverse(ts);
  }

  // ---- parsing inverts flattening ----

  lemma {:induction false} FlattenStarts(n: Node)
    ensures |Flatten(n)| > 0 && Flatten(n)[0] !in {Dot, Colon, RParen, Eof}
  {
    match n
    case DotAccess(o, _, _) => FlattenStarts(o);
    case ColonAccess(o, _) => FlattenStarts(o);
    case _ =>
  }

  lemma Regroup(a: seq<Token>, b: seq<Token>, c: seq<Token>)
    ensures a + b + c == a + (b + c)
  {
  }

  predicate IsLeaf(n: Node) {
    !n.List? && !n.DotAccess? && !n.ColonAccess?
  }

  lemma LeafReadsBack(n: Node, s: seq<Token>, depth: nat)
    requires IsLeaf(n) && depth <= DEPTH_LIMIT
    ensures Primary(Flatten(n) + s, depth) == Ok(Parsed(n, s))
  {
    assert (Flatten(n) + s)[1..] == s;
  }

  lemma FieldReadsBack(o: Node, field: string, index: int)
    requires Producible(DotAccess(o, field, index))
    ensures Access(o, Dot, FieldToken(field, index)) == Ok(DotAccess(o, field, index))
  {
  }

  /** Reading back a tree, whatever follows it, leaves the accesses that follow. */
  lemma {:induction false} ReadsBack(n: Node, s: seq<Token>, depth: nat)
    requires Producible(n) && depth + Nesting(n) <= DEPTH_LIMIT
    ensures Expr(Flatten(n) + s, depth) == Accesses(n, s)
    decreases n, 0
  {
    match n
    case DotAccess(o, f, i) =>
      var field := FieldToken(f, i);
      FieldReadsBack(o, f, i);
      ReadsBack(o, [Dot, field] + s, depth);
      Regroup(Flatten(o), [Dot, field], s);
      AccessReadsBack(o, Dot, field, s);
    case ColonAccess(o, m) =>
      var field := SymbolTok(m);
      ReadsBack(o, [Colon, field] + s, depth);
      Regroup(Flatten(o), [Colon, field], s);
      AccessReadsBack(o, Colon, field, s);
    case List(cs) =>
      ElementsReadBack(cs, s, depth);
      ListReadsBack(cs, s, depth);
      OpenExpr(Flatten(n) + s, depth);
    case _ =>
      LeafReadsBack(n, s, depth);
      OpenExpr(Flatten(n) + s, depth);
  }

  lemma AccessReadsBack(o: Node, separator: Token, field: Token, s: seq<Token>)
    requires (separator == Dot || separator == Colon) && Access(o, separator, field).Ok?
    ensures Accesses(o, [separator, field] + s) == Accesses(Access(o, separator, field).value, s)
  {
    assert ([separator, field] + s)[2..] == s;
  }

  lemma ListReadsBack(cs: seq<Node>, s: seq<Token>, depth: nat)
    requires depth <= DEPTH_LIMIT && Elements(FlattenAll(cs) + ([RParen] + s), depth) == Ok(Parsed(cs, s))
    ensures Primary(Flatten(List(cs)) + s, depth) == Ok(Parsed(List(cs), s))
  {
    var body := FlattenAll(cs) + ([RParen] + s);
    Regroup([LParen] + FlattenAll(cs), [RParen], s);
    Regroup([LParen], FlattenAll(cs), [RParen] + s);
    assert ([LParen] + body)[1..] == body;
  }

  lemma ElementsStep(ts: seq<Token>, first: Node, rest: seq<Token>, depth: nat)
    requires |ts| > 0 && ts[0] != RParen && Expr(ts, depth + 1) == Ok(Parsed(first, rest))
    ensures Elements(ts, depth) == Prepend([first], Elements(rest, depth))
  {
  }

  lemma {:induction false} ElementsReadBack(cs: seq<Node>, s: seq<Token>, depth: nat)
    requires ProducibleAll(cs) && depth + NestingAll(cs) <= DEPTH_LIMIT
    ensures Elements(FlattenAll(cs) + ([RParen] + s), depth) == Ok(Parsed(cs, s))
    decreases cs, 1
  {
    var tail := [RParen] + s;
    if |cs| == 0 {
      assert FlattenAll(cs) + tail == tail && tail[1..] == s;
    } else {
      var first, rest := cs[0], FlattenAll(cs[1..]) + tail;
      Regroup(Flatten(first), FlattenAll(cs[1..]), tail);
      FlattenStarts(first);
      ReadsBack(first, rest, depth + 1);
      AllStarts(cs[1..], tail);
      ElementsStep(Flatten(first) + rest, first, rest, depth);
      ElementsReadBack(cs[1..], s, depth);
      assert [first] + cs[1..] == cs;
    }
  }

  lemma AllStarts(cs: seq<Node>, tail: seq<Token>)
    requires !StartsAccess(tail)
    ensures !StartsAccess(FlattenAll(cs) + tail)
  {
    if |cs| > 0 {
      FlattenStarts(cs[0]);
    } else {
      assert FlattenAll(cs) + tail == tail;
    }
  }

  lemma {:induction false} TopLevelReadsBack(ns: seq<Node>)
    requires ProducibleAll(ns) && NestingAll(ns) <= DEPTH_LIMIT + 1
    ensures TopLevel(FlattenAll(ns)) == Ok(ns)
  {
    if |ns| > 0 {
      var rest := FlattenAll(ns[1..]);
      FlattenStarts(ns[0]);
      ReadsBack(ns[0], rest, 0);
      AllStarts(ns[1..], []);
      assert rest + [] == rest;
      TopLevelReadsBack(ns[1..]);
      assert [ns[0]] + ns[1..] == ns;
    }
  }

  /** `ts` is the tokens of a buildable tree nesting at most `limit`, then `rest`. */
  predicate Spells(ts: seq<Token>, tree: Node, rest: seq<Token>, limit: int) {
    Producible(tree) && Nesting(tree) <= limit && ts == Flatten(tree) + rest && Lexed(rest)
  }

  lemma AccessSpells(lhs: Node, ts: seq<Token>, all: seq<Token>, limit: int)
    requires Lexed(ts) && StartsAccess(ts) && Access(lhs, ts[0], Second(ts)).Ok? && Spells(all, lhs, ts, limit)
    ensures Spells(all, Access(lhs, ts[0], Second(ts)).value, ts[2..], limit)
  {
    var next, rest := Access(lhs, ts[0], Second(ts)).value, ts[2..];
    assert ts == [ts[0], ts[1]] + rest;
    Regroup(Flatten(lhs), [ts[0], ts[1]], rest);
  }

  lemma {:induction false} AccessesSpell(lhs: Node, ts: seq<Token>, all: seq<Token>, limit: int)
    requires Lexed(ts) && Spells(all, lhs, ts, limit) && Accesses(lhs, ts).Ok?
    ensures Spells(all, Accesses(lhs, ts).value.tree, Accesses(lhs, ts).value.rest, limit)
    decreases |ts|
  {
    if StartsAccess(ts) {
      AccessSpells(lhs, ts, all, limit);
      AccessesSpell(Access(lhs, ts[0], Second(ts)).value, ts[2..], all, limit);
    }
  }

  /** Every success flattens back to exactly the tokens it consumed. */
  lemma {:induction false} ExprSpells(ts: seq<Token>, depth: nat)
    requires Lexed(ts) && Expr(ts, depth).Ok?
    ensures Spells(ts, Expr(ts, depth).value.tree, Expr(ts, depth).value.rest, DEPTH_LIMIT - depth)
    decreases |ts|, 1
  {
    OpenExpr(ts, depth);
    var p := Primary(ts, depth).value;
    PrimarySpells(ts, depth);
    AccessesSpell(p.tree, p.rest, ts, DEPTH_LIMIT - depth);
  }

  lemma {:induction false} PrimarySpells(ts: seq<Token>, depth: nat)
    requires Lexed(ts) && Primary(ts, depth).Ok?
    ensures Spells(ts, Primary(ts, depth).value.tree, Primary(ts, depth).value.rest, DEPTH_LIMIT - depth)
    decreases |ts|, 0
  {
    assert ts == [ts[0]] + ts[1..];
    if ts[0] == LParen {
      ElementsSpell(ts[1..], depth);
      var q := Elements(ts[1..], depth).value;
      Regroup([LParen] + FlattenAll(q.tree), [RParen], q.rest);
      Regroup([LParen], FlattenAll(q.tree), [RParen] + q.rest);
    }
  }

  predicate SpellsAll(ts: seq<Token>, trees: seq<Node>, tail: seq<Token>, limit: int) {
    ProducibleAll(trees) && NestingAll(trees) <= limit && ts == FlattenAll(trees) + tail
  }

  lemma SpellsMore(ts: seq<Token>, first: Node, rest: seq<Token>, others: seq<Node>, tail: seq<Token>, limit: int)
    requires Spells(ts, first, rest, limit - 1) && SpellsAll(rest, others, tail, limit)
    ensures SpellsAll(ts, [first] + others, tail, limit)
  {
    var all := [first] + others;
    assert all[0] == first && all[1..] == others;
    Regroup(Flatten(first), FlattenAll(others), tail);
  }

  lemma {:induction false} ElementsSpell(ts: seq<Token>, depth: nat)
    requires depth <= DEPTH_LIMIT && Lexed(ts) && Elements(ts, depth).Ok?
    ensures var p := Elements(ts, depth).value;
      SpellsAll(ts, p.tree, [RParen] + p.rest, DEPTH_LIMIT - depth) && Lexed(p.rest)
    decreases |ts|, 2
  {
    if ts[0] == RParen {
      assert ts == FlattenAll([]) + ([RParen] + ts[1..]);
    } else {
      ExprSpells(ts, depth + 1);
      var first := Expr(ts, depth + 1).value;
      ElementsSpell(first.rest, depth);
      var others := Elements(first.rest, depth).value;
      SpellsMore(ts, first.tree, first.rest, others.tree, [RParen] + others.rest, DEPTH_LIMIT - depth);
    }
  }

  lemma {:induction false} TopLevelSpells(ts: seq<Token>)
    requires Lexed(ts) && TopLevel(ts).Ok?
    ensures SpellsAll(ts, TopLevel(ts).value, [], DEPTH_LIMIT + 1)
    decreases |ts|
  {
    if |ts| > 0 {
      ExprSpells(ts, 0);
      var first := Expr(ts, 0).value;
      TopLevelSpells(first.rest);
      SpellsMore(ts, first.tree, first.rest, TopLevel(first.rest).value, [], DEPTH_LIMIT + 1);
    }
  }

  /** Parsing gives a list of trees exactly when it flattens to the tokens. */
  lemma ParseIsInverse(ts: seq<Token>)
    requires Lexed(ts)
    ensures forall ns :: TopLevel(ts) == Ok(ns) <==>
      FlattenAll(ns) == ts && ProducibleAll(ns) && NestingAll(ns) <= DEPTH_LIMIT + 1
  {
    forall ns
      ensures TopLevel(ts) == Ok(ns) <==>
        FlattenAll(ns) == ts && ProducibleAll(ns) && NestingAll(ns) <= DEPTH_LIMIT + 1
    {
      if TopLevel(ts) == Ok(ns) {
        TopLevelSpells(ts);
        assert FlattenAll(ns) + [] == FlattenAll(ns);
      }
      if FlattenAll(ns) == ts && ProducibleAll(ns) && NestingAll(ns) <= DEPTH_LIMIT + 1 {
        TopLevelReadsBack(ns);
      }
    }
  }
}
