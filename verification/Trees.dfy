/** What a syntax tree means, read off its names: which trees belong to the fragment,
    and what each does to the globals. It goes through no other form of the program. */
module Trees {
  import opened Wrappers
  import opened Ast
  import opened NanBox
  import opened Semantics
  import opened Meaning

  const ARITHMETIC: map<string, ArithOp> :=
    map["+" := Add, "-" := Sub, "*" := Mul, "/" := Div, "%" := Mod, "band" := BAnd, "bor" := BOr, "bxor" := BXor]

  const COMPARISONS: map<string, CmpOp> :=
    map["==" := Eq, "!=" := Neq, "<" := Lt, ">" := Gt, "<=" := Lte, ">=" := Gte]

  // ---- the fragment ----

  predicate InFragment(n: Node)
    decreases n, 1
  {
    match n
    case FloatLiteral(w) => w < TWO_64
    case IntLiteral(_) => true
    case BoolLiteral(_) => true
    case NullLiteral => true
    case Symbol(_) => true
    case List(ch) => ch == [] || (ch[0].Symbol? && FormInFragment(ch[0].name, n))
    case _ => false
  }

  /** Operands beyond those a form looks at may be anything. */
  predicate FormInFragment(name: string, n: Node)
    requires n.List? && n.children != []
    decreases n, 0
  {
    var ch := n.children;
    var count := |ch| - 1;
    if name in ARITHMETIC then count >= 2 && forall i :: 1 <= i <= count ==> InFragment(ch[i])
    else if name in COMPARISONS then count == 2 && InFragment(ch[1]) && InFragment(ch[2])
    else if name == "not" then count >= 1 && InFragment(ch[1])
    else if name == "=" then count >= 2 && ch[1].Symbol? && InFragment(ch[2])
    else if name == "if" then count >= 2 && InFragment(ch[1]) && InFragment(ch[2]) && (count > 2 ==> InFragment(ch[3]))
    else if name == "loop" then count >= 1 && forall i :: 1 <= i <= count ==> InFragment(ch[i])
    else if name == "do" then forall i :: 1 <= i <= count ==> InFragment(ch[i])
    else if name == "and" || name == "or" then count >= 2 && InFragment(ch[1]) && InFragment(ch[2])
    else name == "break" || name == "continue"
  }

  /** The compiler's dispatch on the name of a form. */
  lemma HeadTells(name: string)
    ensures HeadOf(name).HArith? <==> name in ARITHMETIC
    ensures HeadOf(name).HCmp? <==> name in COMPARISONS
    ensures name in ARITHMETIC ==> HeadOf(name) == HArith(ARITHMETIC[name])
    ensures name in COMPARISONS ==> HeadOf(name) == HCmp(COMPARISONS[name])
    ensures HeadOf(name).HNot? <==> name == "not"
    ensures HeadOf(name).HAssign? <==> name == "="
    ensures HeadOf(name).HIf? <==> name == "if"
    ensures HeadOf(name).HLoop? <==> name == "loop"
    ensures HeadOf(name).HDo? <==> name == "do"
    ensures HeadOf(name).HAnd? <==> name == "and"
    ensures HeadOf(name).HOr? <==> name == "or"
    ensures HeadOf(name).HBreak? <==> name == "break"
    ensures HeadOf(name).HContinue? <==> name == "continue"
  {
  }

  /** Elaboration succeeds exactly on the fragment. */
  lemma {:induction false} ElabFragment(n: Node)
    ensures Elab(n).Some? <==> InFragment(n)
    decreases n, 1
  {
    OpenElab(n);
    if n.List? && n.children != [] && n.children[0].Symbol? { FormFragment(n.children[0].name, n); }
  }

  lemma {:induction false} FormFragment(name: string, n: Node)
    requires n.List? && n.children != []
    ensures ElabForm(HeadOf(name), n).Some? <==> FormInFragment(name, n)
    decreases n, 0
  {
    var ch := n.children;
    forall i | 1 <= i < |ch| ensures Elab(ch[i]).Some? <==> InFragment(ch[i]) { ElabFragment(ch[i]); }
    HeadTells(name);
    match HeadOf(name)
    case HArith(_) => if |ch| >= 3 { AllFragment(ch, 2); }
    case HLoop => if |ch| >= 2 { AllFragment(ch, 2); }
    case HDo => AllFragment(ch, 1);
    case _ =>
  }

  lemma AllFragment(ch: seq<Node>, from: nat)
    requires 1 <= from <= |ch| && forall i | 1 <= i < |ch| :: Elab(ch[i]).Some? <==> InFragment(ch[i])
    ensures ElabAll(ch[from..]).Some? <==> forall i :: from <= i < |ch| ==> InFragment(ch[i])
  {
    if ElabAll(ch[from..]).Some? {
      forall i | from <= i < |ch| ensures InFragment(ch[i]) { assert ch[i] == ch[from..][i - from]; }
    }
  }

  // ---- the meaning ----

  function MeanNode(h: Host, fuel: nat, n: Node, g: Globals): Result
    decreases fuel, n, 4
  {
    MeanNodeSealed(h, fuel, n, g)
  }

  function MeanNodeSealed(h: Host, fuel: nat, n: Node, g: Globals): Result
    decreases fuel, n, 3
  {
    MeanNodeDef(h, fuel, n, g)
  }

  /** Outside the fragment a tree has no meaning here. */
  function MeanNodeDef(h: Host, fuel: nat, n: Node, g: Globals): Result
    decreases fuel, n, 2
  {
    match n
    case IntLiteral(v) => Yields(LiteralValue(h, v), g)
    case FloatLiteral(w) => if w < TWO_64 then Yields(Float(w), g) else NoMeaning
    case BoolLiteral(b) => Yields(Bool(b), g)
    case NullLiteral => Yields(Null, g)
    case Symbol(name) => if h.symbolId(name) in g then Yields(g[h.symbolId(name)], g) else Raises(UndefinedVariable, g)
    case List(ch) =>
      if ch == [] then Yields(Null, g)
      else if ch[0].Symbol? then MeanForm(h, fuel, ch[0].name, n, g)
      else NoMeaning
    case _ => NoMeaning
  }

  function MeanForm(h: Host, fuel: nat, name: string, n: Node, g: Globals): Result
    requires n.List? && n.children != []
    decreases fuel, n, 1
  {
    var ch := n.children;
    var count := |ch| - 1;
    if name in ARITHMETIC && count >= 2 then
      var r := MeanNode(h, fuel, ch[1], g);
      if r.Yields? then MeanFold(h, fuel, ARITHMETIC[name], r.v, ch[2..], r.g) else r
    else if name in COMPARISONS && count == 2 then
      var r := MeanNode(h, fuel, ch[1], g);
      if r.Yields? then CmpResult(h, COMPARISONS[name], r.v, MeanNode(h, fuel, ch[2], r.g)) else r
    else if name == "not" && count >= 1 then NotResult(MeanNode(h, fuel, ch[1], g))
    else if name == "=" && count >= 2 && ch[1].Symbol? then
      AssignResult(h.symbolId(ch[1].name), MeanNode(h, fuel, ch[2], g))
    else if name == "if" && count >= 2 then
      var r := MeanNode(h, fuel, ch[1], g);
      if !r.Yields? then r
      else if !Falsy(r.v) then MeanNode(h, fuel, ch[2], r.g)
      else if count > 2 then MeanNode(h, fuel, ch[3], r.g)
      else Yields(Null, r.g)
    else if name == "loop" && count >= 1 then MeanLoopNode(h, fuel, n, g)
    else if name == "do" then MeanNodes(h, fuel, ch[1..], g)
    else if (name == "and" || name == "or") && count >= 2 then
      var r := MeanNode(h, fuel, ch[1], g);
      if r.Yields? && Falsy(r.v) == (name == "or") then MeanNode(h, fuel, ch[2], r.g) else r
    else if name == "break" then Exits(g)
    else if name == "continue" then Repeats(g)
    else NoMeaning
  }

  /** The operation applied to a value and each further operand in turn. */
  function MeanFold(h: Host, fuel: nat, op: ArithOp, acc: Value, ns: seq<Node>, g: Globals): Result
    decreases fuel, ns, 0
  {
    if ns == [] then Yields(acc, g)
    else
      var r := ArithResult(h, op, acc, MeanNode(h, fuel, ns[0], g));
      if r.Yields? then MeanFold(h, fuel, op, r.v, ns[1..], r.g) else r
  }

  function MeanLoopNode(h: Host, fuel: nat, n: Node, g: Globals): Result
    requires n.List? && |n.children| >= 2
    decreases fuel, n, 0
  {
    var r := MeanNode(h, fuel, n.children[1], g);
    if r.Repeats? then (if fuel == 0 then Exhausted else MeanLoopNode(h, fuel - 1, n, r.g))
    else if !r.Yields? || Falsy(r.v) then LeaveResult(r)
    else
      var s := MeanNodes(h, fuel, n.children[2..], r.g);
      if s.Yields? || s.Repeats? then (if fuel == 0 then Exhausted else MeanLoopNode(h, fuel - 1, n, s.g))
      else LeaveResult(s)
  }

  /** Trees in sequence; none give `null`. */
  function MeanNodes(h: Host, fuel: nat, ns: seq<Node>, g: Globals): Result
    decreases fuel, ns, 0
  {
    if ns == [] then Yields(Null, g)
    else
      var r := MeanNode(h, fuel, ns[0], g);
      if r.Yields? && |ns| > 1 then MeanNodes(h, fuel, ns[1..], r.g) else r
  }

  lemma OpenMeanNode(h: Host, fuel: nat, n: Node, g: Globals)
    ensures MeanNode(h, fuel, n, g) == MeanNodeDef(h, fuel, n, g)
  {
    assert MeanNodeSealed(h, fuel, n, g) == MeanNodeDef(h, fuel, n, g);
  }

  // ---- elaboration keeps the meaning ----

  lemma {:induction false} ElabMeans(h: Host, fuel: nat, n: Node, g: Globals)
    requires Elab(n).Some?
    ensures MeanNode(h, fuel, n, g) == Mean(h, fuel, Elab(n).value, g)
    decreases fuel, n, 3
  {
    OpenElab(n);
    OpenMeanNode(h, fuel, n, g);
    OpenMean(h, fuel, Elab(n).value, g);
    if n.List? && n.children != [] { FormMeans(h, fuel, n.children[0].name, n, g); }
  }

  lemma {:induction false} FormMeans(h: Host, fuel: nat, name: string, n: Node, g: Globals)
    requires n.List? && n.children != [] && ElabForm(HeadOf(name), n).Some?
    ensures MeanForm(h, fuel, name, n, g) == MeanDef(h, fuel, ElabForm(HeadOf(name), n).value, g)
    decreases fuel, n, 2
  {
    HeadTells(name);
    match HeadOf(name)
    case HArith(op) => ArithFormMeans(h, fuel, name, n, g);
    case HCmp(op) => CmpFormMeans(h, fuel, name, n, g);
    case HNot => UnaryFormMeans(h, fuel, name, n, g);
    case HAssign => UnaryFormMeans(h, fuel, name, n, g);
    case HIf => IfFormMeans(h, fuel, name, n, g);
    case HLoop => LoopFormMeans(h, fuel, n, g);
    case HDo => DoFormMeans(h, fuel, n, g);
    case HAnd => ShortFormMeans(h, fuel, name, n, g);
    case HOr => ShortFormMeans(h, fuel, name, n, g);
    case _ =>
  }

  lemma {:induction false} UnaryFormMeans(h: Host, fuel: nat, name: string, n: Node, g: Globals)
    requires n.List? && n.children != [] && (HeadOf(name) == HNot || HeadOf(name) == HAssign) && ElabForm(HeadOf(name), n).Some?
    ensures MeanForm(h, fuel, name, n, g) == MeanDef(h, fuel, ElabForm(HeadOf(name), n).value, g)
    decreases fuel, n, 1
  {
    HeadTells(name);
    ElabMeans(h, fuel, if HeadOf(name) == HNot then n.children[1] else n.children[2], g);
  }

  lemma {:induction false} DoFormMeans(h: Host, fuel: nat, n: Node, g: Globals)
    requires n.List? && n.children != [] && ElabForm(HDo, n).Some?
    ensures MeanForm(h, fuel, "do", n, g) == MeanDef(h, fuel, ElabForm(HDo, n).value, g)
    decreases fuel, n, 1
  {
    HeadTells("do");
    if |n.children| > 1 { ElabAllMeans(h, fuel, n.children[1..], g); }
  }

  lemma {:induction false} ArithFormMeans(h: Host, fuel: nat, name: string, n: Node, g: Globals)
    requires n.List? && n.children != [] && HeadOf(name).HArith? && ElabForm(HeadOf(name), n).Some?
    ensures MeanForm(h, fuel, name, n, g) == MeanDef(h, fuel, ElabForm(HeadOf(name), n).value, g)
    decreases fuel, n, 1
  {
    HeadTells(name);
    ElabMeans(h, fuel, n.children[1], g);
    var r := MeanNode(h, fuel, n.children[1], g);
    if r.Yields? { FoldMeansSame(h, fuel, ARITHMETIC[name], r.v, n.children[2..], r.g); }
  }

  lemma {:induction false} FoldMeansSame(h: Host, fuel: nat, op: ArithOp, acc: Value, ns: seq<Node>, g: Globals)
    requires ElabAll(ns).Some?
    ensures MeanFold(h, fuel, op, acc, ns, g) == MeanOperands(h, fuel, op, acc, ElabAll(ns).value, g)
    decreases fuel, ns, 0
  {
    if ns != [] {
      ElabMeans(h, fuel, ns[0], g);
      var r := ArithResult(h, op, acc, MeanNode(h, fuel, ns[0], g));
      assert ElabAll(ns).value[1..] == ElabAll(ns[1..]).value;
      if r.Yields? { FoldMeansSame(h, fuel, op, r.v, ns[1..], r.g); }
    }
  }

  lemma {:induction false} CmpFormMeans(h: Host, fuel: nat, name: string, n: Node, g: Globals)
    requires n.List? && n.children != [] && HeadOf(name).HCmp? && ElabForm(HeadOf(name), n).Some?
    ensures MeanForm(h, fuel, name, n, g) == MeanDef(h, fuel, ElabForm(HeadOf(name), n).value, g)
    decreases fuel, n, 1
  {
    HeadTells(name);
    ElabMeans(h, fuel, n.children[1], g);
    var r := MeanNode(h, fuel, n.children[1], g);
    if r.Yields? { ElabMeans(h, fuel, n.children[2], r.g); }
  }

  lemma {:induction false} IfFormMeans(h: Host, fuel: nat, name: string, n: Node, g: Globals)
    requires n.List? && n.children != [] && HeadOf(name) == HIf && ElabForm(HIf, n).Some?
    ensures MeanForm(h, fuel, name, n, g) == MeanDef(h, fuel, ElabForm(HIf, n).value, g)
    decreases fuel, n, 1
  {
    HeadTells(name);
    var ch := n.children;
    ElabMeans(h, fuel, ch[1], g);
    var r := MeanNode(h, fuel, ch[1], g);
    if r.Yields? {
      ElabMeans(h, fuel, ch[2], r.g);
      if |ch| > 3 { ElabMeans(h, fuel, ch[3], r.g); } else { OpenMean(h, fuel, ENull, r.g); }
    }
  }

  lemma {:induction false} ShortFormMeans(h: Host, fuel: nat, name: string, n: Node, g: Globals)
    requires n.List? && n.children != [] && (HeadOf(name) == HAnd || HeadOf(name) == HOr) && ElabForm(HeadOf(name), n).Some?
    ensures MeanForm(h, fuel, name, n, g) == MeanDef(h, fuel, ElabForm(HeadOf(name), n).value, g)
    decreases fuel, n, 1
  {
    HeadTells(name);
    ElabMeans(h, fuel, n.children[1], g);
    var r := MeanNode(h, fuel, n.children[1], g);
    if r.Yields? { ElabMeans(h, fuel, n.children[2], r.g); }
  }

  lemma {:induction false} LoopFormMeans(h: Host, fuel: nat, n: Node, g: Globals)
    requires n.List? && n.children != [] && ElabForm(HLoop, n).Some?
    ensures MeanLoopNode(h, fuel, n, g) == MeanLoop(h, fuel, ElabForm(HLoop, n).value, g)
    decreases fuel, n, 1
  {
    var ch, e := n.children, ElabForm(HLoop, n).value;
    ElabMeans(h, fuel, ch[1], g);
    var r := MeanNode(h, fuel, ch[1], g);
    if r.Repeats? {
      if fuel > 0 { LoopFormMeans(h, fuel - 1, n, r.g); }
    } else if r.Yields? && !Falsy(r.v) {
      ElabAllMeans(h, fuel, ch[2..], r.g);
      var s := MeanNodes(h, fuel, ch[2..], r.g);
      if (s.Yields? || s.Repeats?) && fuel > 0 { LoopFormMeans(h, fuel - 1, n, s.g); }
    }
  }

  lemma {:induction false} ElabAllMeans(h: Host, fuel: nat, ns: seq<Node>, g: Globals)
    requires ElabAll(ns).Some?
    ensures MeanNodes(h, fuel, ns, g) == MeanSeq(h, fuel, ElabAll(ns).value, g)
    decreases fuel, ns, 0
  {
    if ns != [] {
      ElabMeans(h, fuel, ns[0], g);
      var r := MeanNode(h, fuel, ns[0], g);
      assert ElabAll(ns).value[1..] == ElabAll(ns[1..]).value;
      if r.Yields? && |ns| > 1 { ElabAllMeans(h, fuel, ns[1..], r.g); }
    }
  }

  /** So a program's elaboration exists exactly for the fragment and means what its
      trees mean. */
  lemma ElabProgramMeans(h: Host, fuel: nat, ns: seq<Node>, g: Globals)
    ensures ElabProgram(ns).Some? <==> forall n | n in ns :: InFragment(n)
    ensures ElabProgram(ns).Some? ==> MeanNodes(h, fuel, ns, g) == MeanSeq(h, fuel, ElabProgram(ns).value, g)
  {
    forall n | n in ns ensures Elab(n).Some? <==> InFragment(n) { ElabFragment(n); }
    if ns == [] {
      OpenMean(h, fuel, ENull, g);
    } else {
      assert forall i :: 0 <= i < |ns| ==> ns[i] in ns;
      if ElabAll(ns).Some? { ElabAllMeans(h, fuel, ns, g); }
    }
  }
}
