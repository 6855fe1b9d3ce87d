/** Parsing and evaluating the printed text: a formula means its decision tree exactly when none
    of its variable names is a reserved word of the expression language and none of its integer
    literals is too large for it. */
module FormulaMeaning {
  import opened Core
  import opened Numbers
  import opened ExprLang
  import opened FormulaText

  // ------------------------------------------------- the expression of a tree

  function NumExpr(d: Decimal): Option<Expr>
    requires d.Valid()
  {
    var m := Lit(Magnitude(d.whole, d.fraction));
    if !Readable(d.whole, d.fraction) then None else Some(if d.negative then Neg(m) else m)
  }

  function NameExpr(name: string): Option<Expr> {
    if name == "true" then Some(Bool(true))
    else if name == "false" then Some(Bool(false))
    else if name in RESERVED then None
    else Some(Var(name))
  }

  function TestExpr(t: Test): Option<Expr>
    requires TestOk(t)
  {
    match (NameExpr(t.name), NumExpr(t.bound))
    case (Some(x), Some(n)) => Some(Compare(t.op, x, n))
    case _ => None
  }

  predicate TestsOk(tests: seq<Test>) {
    forall i | 0 <= i < |tests| :: TestOk(tests[i])
  }

  /** Left-nested conjunction or disjunction. */
  function FoldExpr(left: Expr, tests: seq<Test>, disjunction: bool): Option<Expr>
    requires TestsOk(tests)
    decreases |tests|
  {
    if tests == [] then Some(left)
    else match TestExpr(tests[0])
      case None => None
      case Some(e) =>
        FoldExpr(if disjunction then Or(left, e) else And(left, e), tests[1..], disjunction)
  }

  function PredExpr(p: Pred): Option<Expr>
    requires PredOk(p)
  {
    if p.Never? then Some(Bool(false))
    else match TestExpr(p.tests[0])
      case None => None
      case Some(e) => FoldExpr(e, p.tests[1..], p.AnyOf?)
  }

  function TreeExpr(t: Tree): Option<Expr>
    requires TreeOk(t)
  {
    match t
    case Leaf(d) => NumExpr(d)
    case If(p, yes, no) =>
      match (PredExpr(p), TreeExpr(yes), TreeExpr(no))
      case (Some(c), Some(y), Some(n)) => Some(Cond(c, y, n))
      case _ => None
  }

  /** The parse that yields `e` and leaves `k`. */
  function Then(e: Option<Expr>, k: seq<Token>): Parse {
    match e
    case None => None
    case Some(x) => Some((x, k))
  }

  // ----------------------------------------------------------------- parsing

  predicate IsOperator(t: Token) {
    t == OrOr || t == AndAnd || t.Comparison?
  }

  /** No operator follows. */
  predicate Plain(k: seq<Token>) {
    k == [] || !IsOperator(k[0])
  }

  lemma UnaryIsOr(ts: seq<Token>)
    requires ParseUnary(ts).Some? ==> Plain(ParseUnary(ts).value.1)
    ensures ParseOr(ts) == ParseUnary(ts)
    ensures ParseComparison(ts) == ParseUnary(ts)
  {
    assert ParseComparison(ts) == ParseUnary(ts);
    assert ParseAnd(ts) == ParseUnary(ts);
  }

  lemma ParseNumber(d: Decimal, k: seq<Token>)
    requires d.Valid()
    ensures ParseUnary(NumTokens(d, k)) == Then(NumExpr(d), k)
  {
    var n := [Num(d.whole, d.fraction)] + k;
    assert n[1..] == k;
    assert ParseUnary(n) == Then(NumExpr(d.(negative := false)), k);
    if d.negative {
      assert ([Minus] + n)[1..] == n;
    }
  }

  lemma ParseTest(t: Test, k: seq<Token>)
    requires TestOk(t)
    ensures ParseComparison(TestTokens(t, k)) == Then(TestExpr(t), k)
  {
    var num := NumTokens(t.bound, k);
    var tail := [Comparison(t.op)] + num;
    var ts := TestTokens(t, k);
    assert ts[1..] == tail && tail[1..] == num;
    assert ParseUnary(ts) == ParsePrimary(ts) == Then(NameExpr(t.name), tail);
    ParseNumber(t.bound, k);
  }

  function TailTokens(tests: seq<Test>, sep: Token, k: seq<Token>): seq<Token> {
    if tests == [] then k else [sep] + JoinTokens(tests, sep, k)
  }

  lemma JoinIsTail(tests: seq<Test>, sep: Token, k: seq<Token>)
    requires tests != []
    ensures JoinTokens(tests, sep, k) == TestTokens(tests[0], TailTokens(tests[1..], sep, k))
  {
  }

  lemma {:induction false} ParseAndList(left: Expr, tests: seq<Test>, k: seq<Token>)
    requires TestsOk(tests) && Plain(k)
    ensures ParseAndTail(left, TailTokens(tests, AndAnd, k)) == Then(FoldExpr(left, tests, false), k)
    decreases |tests|
  {
    if tests != [] {
      var ts := TailTokens(tests, AndAnd, k);
      var rest := TailTokens(tests[1..], AndAnd, k);
      JoinIsTail(tests, AndAnd, k);
      assert ts[1..] == TestTokens(tests[0], rest);
      ParseTest(tests[0], rest);
      if TestExpr(tests[0]).Some? {
        ParseAndList(And(left, TestExpr(tests[0]).value), tests[1..], k);
      }
    }
  }

  lemma {:induction false} ParseOrList(left: Expr, tests: seq<Test>, k: seq<Token>)
    requires TestsOk(tests) && Plain(k)
    ensures ParseOrTail(left, TailTokens(tests, OrOr, k)) == Then(FoldExpr(left, tests, true), k)
    decreases |tests|
  {
    if tests != [] {
      var ts := TailTokens(tests, OrOr, k);
      var rest := TailTokens(tests[1..], OrOr, k);
      JoinIsTail(tests, OrOr, k);
      assert ts[1..] == TestTokens(tests[0], rest);
      ParseTest(tests[0], rest);
      if TestExpr(tests[0]).Some? {
        assert ParseAnd(ts[1..]) == Some((TestExpr(tests[0]).value, rest));
        ParseOrList(Or(left, TestExpr(tests[0]).value), tests[1..], k);
      }
    }
  }

  lemma ParsePred(p: Pred, k: seq<Token>)
    requires PredOk(p) && Next(k, RParen)
    ensures ParseTernary(PredTokens(p, k)) == Then(PredExpr(p), k)
  {
    var ts := PredTokens(p, k);
    if p.Never? {
      assert ts[1..] == k;
      UnaryIsOr(ts);
    } else {
      var sep := if p.AnyOf? then OrOr else AndAnd;
      var rest := TailTokens(p.tests[1..], sep, k);
      JoinIsTail(p.tests, sep, k);
      ParseTest(p.tests[0], rest);
      if TestExpr(p.tests[0]).None? {
        assert ParseAnd(ts) == None;
      } else {
        var first := TestExpr(p.tests[0]).value;
        if p.AnyOf? {
          assert ParseAnd(ts) == Some((first, rest));
          ParseOrList(first, p.tests[1..], k);
        } else {
          ParseAndList(first, p.tests[1..], k);
          assert ParseAnd(ts) == Then(PredExpr(p), k);
          assert ParseOr(ts) == ParseAnd(ts);
        }
      }
    }
  }

  /** Where a printed branch may end. */
  predicate Ends(k: seq<Token>) {
    k == [] || k[0] == RParen || k[0] == Colon
  }

  lemma {:induction false} ParseTree(t: Tree, k: seq<Token>)
    requires TreeOk(t) && Ends(k)
    ensures ParseTernary(TreeTokens(t, k)) == Then(TreeExpr(t), k)
    decreases t, 0
  {
    match t
    case Leaf(d) =>
      ParseNumber(d, k);
      UnaryIsOr(TreeTokens(t, k));
    case If(p, yes, no) =>
      var last := BranchTokens(no, k);
      var middle := BranchTokens(yes, [Colon] + last);
      ParseGuard(p, middle);
      ParseBranch(yes, [Colon] + last);
      assert ([Colon] + last)[1..] == last;
      ParseBranch(no, k);
      assert ([Question] + middle)[1..] == middle;
  }

  /** "(p) ?" */
  lemma ParseGuard(p: Pred, k: seq<Token>)
    requires PredOk(p)
    ensures ParseOr([LParen] + PredTokens(p, [RParen, Question] + k)) == Then(PredExpr(p), [Question] + k)
  {
    var inner := PredTokens(p, [RParen, Question] + k);
    var ts := [LParen] + inner;
    assert ts[1..] == inner;
    ParsePred(p, [RParen, Question] + k);
    assert ([RParen, Question] + k)[1..] == [Question] + k;
    assert ParseUnary(ts) == Then(PredExpr(p), [Question] + k);
    UnaryIsOr(ts);
  }

  lemma {:induction false} ParseBranch(t: Tree, k: seq<Token>)
    requires TreeOk(t) && Ends(k)
    ensures ParseTernary(BranchTokens(t, k)) == Then(TreeExpr(t), k)
    decreases t, 1
  {
    if t.Leaf? {
      ParseTree(t, k);
    } else {
      var ts := BranchTokens(t, k);
      var inner := TreeTokens(t, [RParen] + k);
      assert ts[1..] == inner && ([RParen] + k)[1..] == k;
      ParseTree(t, [RParen] + k);
      assert ParseUnary(ts) == Then(TreeExpr(t), k);
      UnaryIsOr(ts);
    }
  }

  // ------------------------------------------------------- reserved words

  predicate TestClean(t: Test) {
    t.name !in RESERVED && Readable(t.bound.whole, t.bound.fraction)
  }

  predicate TestsClean(tests: seq<Test>) {
    forall i | 0 <= i < |tests| :: TestClean(tests[i])
  }

  /** No variable of the formula is a reserved word and no integer literal is too large. */
  predicate Clean(t: Tree) {
    match t
    case Leaf(d) => Readable(d.whole, d.fraction)
    case If(p, yes, no) => (p.Never? || TestsClean(p.tests)) && Clean(yes) && Clean(no)
  }

  predicate IsBoolean(e: Option<Expr>) {
    e.Some? && TypeOf(e.value) == Some(Boolean)
  }

  lemma NumTyping(d: Decimal)
    requires d.Valid() && Readable(d.whole, d.fraction)
    ensures NumExpr(d).Some? && TypeOf(NumExpr(d).value) == Some(Numeric)
  {
  }

  lemma TestTyping(t: Test)
    requires TestOk(t)
    ensures IsBoolean(TestExpr(t)) <==> TestClean(t)
  {
    if NameExpr(t.name).Some? && Readable(t.bound.whole, t.bound.fraction) {
      NumTyping(t.bound);
      var x, n := NameExpr(t.name).value, NumExpr(t.bound).value;
      assert TypeOf(x) == if t.name in RESERVED then Some(Boolean) else Some(Numeric);
      assert TypeOf(Compare(t.op, x, n)) == if t.name in RESERVED then None else Some(Boolean);
    }
    assert "true" in RESERVED && "false" in RESERVED;
  }

  lemma CleanRest(tests: seq<Test>)
    requires tests != []
    ensures TestsClean(tests) <==> TestClean(tests[0]) && TestsClean(tests[1..])
  {
    assert forall i | 0 < i < |tests| :: tests[i] == tests[1..][i - 1];
  }

  lemma BothTyping(left: Expr, right: Expr, disjunction: bool)
    ensures var both := if disjunction then Or(left, right) else And(left, right);
            IsBoolean(Some(both)) <==> IsBoolean(Some(left)) && IsBoolean(Some(right))
  {
  }

  lemma {:induction false} FoldTyping(left: Expr, tests: seq<Test>, disjunction: bool)
    requires TestsOk(tests)
    ensures IsBoolean(FoldExpr(left, tests, disjunction)) <==> IsBoolean(Some(left)) && TestsClean(tests)
    decreases |tests|
  {
    if tests != [] {
      TestTyping(tests[0]);
      CleanRest(tests);
      if TestExpr(tests[0]).Some? {
        var e := TestExpr(tests[0]).value;
        BothTyping(left, e, disjunction);
        FoldTyping(if disjunction then Or(left, e) else And(left, e), tests[1..], disjunction);
      }
    }
  }

  lemma PredTyping(p: Pred)
    requires PredOk(p)
    ensures IsBoolean(PredExpr(p)) <==> (p.Never? || TestsClean(p.tests))
  {
    if !p.Never? {
      TestTyping(p.tests[0]);
      CleanRest(p.tests);
      if TestExpr(p.tests[0]).Some? {
        FoldTyping(TestExpr(p.tests[0]).value, p.tests[1..], p.AnyOf?);
      }
    }
  }

  lemma {:induction false} TreeTyping(t: Tree)
    requires TreeOk(t)
    ensures (TreeExpr(t).Some? && TypeOf(TreeExpr(t).value) == Some(Numeric)) <==> Clean(t)
  {
    if t.If? {
      PredTyping(t.pred);
      TreeTyping(t.yes);
      TreeTyping(t.no);
    }
  }

  /** The printed text compiles exactly when no variable is a reserved word and every integer
      literal fits, and then to the expression of the tree. */
  lemma CompileText(t: Tree)
    requires TreeOk(t)
    ensures Compile(TreeText(t)) == if Clean(t) then TreeExpr(t) else None
  {
    assert TreeText(t) + "" == TreeText(t);
    LexTree(t, "");
    ParseTree(t, []);
    TreeTyping(t);
  }

  // -------------------------------------------------------------- evaluation

  lemma EvalNum(d: Decimal, env: map<string, real>)
    requires d.Valid() && Readable(d.whole, d.fraction)
    ensures NumExpr(d).Some? && Eval(NumExpr(d).value, env) == Some(Number(d.Value()))
  {
  }

  lemma EvalTest(t: Test, env: map<string, real>)
    requires TestOk(t) && TestClean(t) && t.name in env
    ensures TestExpr(t).Some? && Eval(TestExpr(t).value, env) == Some(Truth(Holds(t, env)))
  {
    EvalNum(t.bound, env);
    assert "true" in RESERVED && "false" in RESERVED;
  }

  ghost predicate Combined(tests: seq<Test>, disjunction: bool, env: map<string, real>)
    requires TestsOk(tests) && AllBound(tests, env)
  {
    if disjunction then exists i | 0 <= i < |tests| :: Holds(tests[i], env)
    else forall i | 0 <= i < |tests| :: Holds(tests[i], env)
  }

  lemma CombinedRest(tests: seq<Test>, disjunction: bool, env: map<string, real>)
    requires tests != [] && TestsOk(tests) && AllBound(tests, env)
    ensures var h, c := Holds(tests[0], env), Combined(tests[1..], disjunction, env);
            Combined(tests, disjunction, env) <==> if disjunction then h || c else h && c
  {
    assert forall i | 0 < i < |tests| :: tests[i] == tests[1..][i - 1];
    assert forall i | 0 <= i < |tests[1..]| :: tests[1..][i] == tests[i + 1];
  }

  lemma {:induction false} EvalFold(left: Expr, b: bool, tests: seq<Test>, disjunction: bool,
                                    env: map<string, real>)
    requires TestsOk(tests) && TestsClean(tests) && AllBound(tests, env)
    requires Eval(left, env) == Some(Truth(b))
    ensures var r := FoldExpr(left, tests, disjunction);
            var c := Combined(tests, disjunction, env);
            r.Some? && Eval(r.value, env) == Some(Truth(if disjunction then b || c else b && c))
    decreases |tests|
  {
    if tests != [] {
      EvalTest(tests[0], env);
      CombinedRest(tests, disjunction, env);
      CleanRest(tests);
      var e := TestExpr(tests[0]).value;
      var h := Holds(tests[0], env);
      if disjunction {
        assert Eval(Or(left, e), env) == Some(Truth(b || h));
        EvalFold(Or(left, e), b || h, tests[1..], true, env);
      } else {
        assert Eval(And(left, e), env) == Some(Truth(b && h));
        EvalFold(And(left, e), b && h, tests[1..], false, env);
      }
    }
  }

  lemma EvalPred(p: Pred, env: map<string, real>)
    requires PredOk(p) && PredBound(p, env) && (p.Never? || TestsClean(p.tests))
    ensures PredExpr(p).Some? && Eval(PredExpr(p).value, env) == Some(Truth(PredHolds(p, env)))
  {
    if !p.Never? {
      EvalTest(p.tests[0], env);
      CombinedRest(p.tests, p.AnyOf?, env);
      CleanRest(p.tests);
      EvalFold(TestExpr(p.tests[0]).value, Holds(p.tests[0], env), p.tests[1..], p.AnyOf?, env);
    }
  }

  lemma EvalCond(c: Expr, y: Expr, n: Expr, b: bool, vy: real, vn: real, env: map<string, real>)
    requires Eval(c, env) == Some(Truth(b))
    requires Eval(y, env) == Some(Number(vy)) && Eval(n, env) == Some(Number(vn))
    ensures Eval(Cond(c, y, n), env) == Some(Number(if b then vy else vn))
  {
  }

  lemma {:induction false} EvalTree(t: Tree, env: map<string, real>)
    requires TreeOk(t) && TreeBound(t, env) && Clean(t)
    ensures TreeExpr(t).Some? && Eval(TreeExpr(t).value, env) == Some(Number(Meaning(t, env)))
  {
    if t.If? {
      EvalPred(t.pred, env);
      EvalTree(t.yes, env);
      EvalTree(t.no, env);
      EvalCond(PredExpr(t.pred).value, TreeExpr(t.yes).value, TreeExpr(t.no).value,
               PredHolds(t.pred, env), Meaning(t.yes, env), Meaning(t.no, env), env);
    }
  }

  /** Printing a decision tree and evaluating the text computes the tree's meaning, for every
      assignment of its variables, exactly when no variable is a reserved word and every integer
      literal fits; otherwise the text has no value at all. */
  lemma TextMeansTree(t: Tree, env: map<string, real>)
    requires TreeOk(t) && TreeBound(t, env)
    ensures Evaluate(TreeText(t), env) == if Clean(t) then Some(Meaning(t, env)) else None
  {
    CompileText(t);
    if Clean(t) {
      EvalTree(t, env);
    }
  }
}
