/** The shape of every formula the provisioner prints, its text, and the proof that KEDA reads
    that text back as the decision it stands for. */
module FormulaText {
  import opened Numbers
  import opened ExprLang

  /** One `name op bound` comparison. */
  datatype Test = Test(name: string, op: Op, bound: Decimal)

  datatype Pred = All(tests: seq<Test>) | AnyOf(tests: seq<Test>) | Never

  datatype Tree = Leaf(multiplier: Decimal) | If(pred: Pred, yes: Tree, no: Tree)

  // ------------------------------------------------------------------- text

  function OpText(op: Op): string {
    match op
    case Eq => "=="
    case Lt => "<"
    case Gt => ">"
    case Le => "<="
  }

  function TestText(t: Test): string {
    t.name + " " + OpText(t.op) + " " + t.bound.Text()
  }

  /** strings.Join */
  function Join(parts: seq<string>, sep: string): string {
    if parts == [] then ""
    else if |parts| == 1 then parts[0]
    else parts[0] + sep + Join(parts[1..], sep)
  }

  function TestTexts(tests: seq<Test>): seq<string> {
    seq(|tests|, i requires 0 <= i < |tests| => TestText(tests[i]))
  }

  function PredText(p: Pred): string {
    match p
    case All(tests) => Join(TestTexts(tests), " && ")
    case AnyOf(tests) => Join(TestTexts(tests), " || ")
    case Never => "false"
  }

  /** "(p) ? yes : no" with nested conditionals in parentheses. */
  function TreeText(t: Tree): string
    decreases t, 0
  {
    match t
    case Leaf(d) => d.Text()
    case If(p, yes, no) => "(" + PredText(p) + ") ? " + BranchText(yes) + " : " + BranchText(no)
  }

  function BranchText(t: Tree): string
    decreases t, 1
  {
    if t.Leaf? then TreeText(t) else "(" + TreeText(t) + ")"
  }

  // ---------------------------------------------------------------- meaning

  function Holds(t: Test, env: map<string, real>): bool
    requires t.name in env && t.bound.Valid()
  {
    Relates(t.op, env[t.name], t.bound.Value())
  }

  predicate TestOk(t: Test) {
    IsName(t.name) && t.bound.Valid()
  }

  /** A non-empty identifier (possibly a reserved word). */
  predicate IsName(s: string) {
    s != "" && IsLetter(s[0]) && forall i | 0 <= i < |s| :: IsWordChar(s[i])
  }

  predicate PredOk(p: Pred) {
    p.Never? || (p.tests != [] && forall i | 0 <= i < |p.tests| :: TestOk(p.tests[i]))
  }

  predicate TreeOk(t: Tree) {
    match t
    case Leaf(d) => d.Valid()
    case If(p, yes, no) => PredOk(p) && TreeOk(yes) && TreeOk(no)
  }

  predicate AllBound(tests: seq<Test>, env: map<string, real>) {
    forall i | 0 <= i < |tests| :: tests[i].name in env
  }

  predicate PredBound(p: Pred, env: map<string, real>) {
    p.Never? || AllBound(p.tests, env)
  }

  predicate TreeBound(t: Tree, env: map<string, real>) {
    t.If? ==> PredBound(t.pred, env) && TreeBound(t.yes, env) && TreeBound(t.no, env)
  }

  ghost predicate PredHolds(p: Pred, env: map<string, real>)
    requires PredOk(p) && PredBound(p, env)
  {
    match p
    case All(tests) => forall i | 0 <= i < |tests| :: Holds(tests[i], env)
    case AnyOf(tests) => exists i | 0 <= i < |tests| :: Holds(tests[i], env)
    case Never => false
  }

  ghost function Meaning(t: Tree, env: map<string, real>): real
    requires TreeOk(t) && TreeBound(t, env)
  {
    match t
    case Leaf(d) => d.Value()
    case If(p, yes, no) => if PredHolds(p, env) then Meaning(yes, env) else Meaning(no, env)
  }

  // --------------------------------------------------------- tokens, by lexing

  /** What may follow a word or a number in a printed formula. */
  predicate Delimits(k: string) {
    k == "" || k[0] == ' ' || k[0] == ')'
  }

  lemma {:induction false} WordLengthAt(w: string, k: string)
    requires Delimits(k) && forall i | 0 <= i < |w| :: IsWordChar(w[i])
    ensures WordLength(w + k) == |w|
  {
    if w == "" {
      assert w + k == k;
    } else {
      assert (w + k)[1..] == w[1..] + k;
      WordLengthAt(w[1..], k);
    }
  }

  lemma {:induction false} DigitsLengthAt(w: string, k: string)
    requires AllDigits(w) && (k == "" || !IsDigit(k[0]))
    ensures DigitsLength(w + k) == |w|
  {
    if w == "" {
      assert w + k == k;
    } else {
      assert (w + k)[1..] == w[1..] + k;
      DigitsLengthAt(w[1..], k);
    }
  }

  lemma LexWord(w: string, k: string)
    requires IsName(w) && Delimits(k)
    ensures Lex(w + k) == [Word(w)] + Lex(k)
  {
    WordLengthAt(w, k);
    var s := w + k;
    assert s[0] == w[0];
    assert s[..|w|] == w && s[|w|..] == k;
  }

  lemma LexWhole(whole: string, k: string)
    requires whole != "" && AllDigits(whole) && Delimits(k)
    ensures Lex(whole + k) == [Num(whole, "")] + Lex(k)
  {
    var s := whole + k;
    DigitsLengthAt(whole, k);
    assert s[0] == whole[0];
    assert s[..|whole|] == whole && s[|whole|..] == k;
  }

  lemma FractionAt(fraction: string, k: string)
    requires AllDigits(fraction) && Delimits(k)
    ensures FractionLength("." + (fraction + k)) == |fraction|
  {
    DigitsLengthAt(fraction, k);
    assert ("." + (fraction + k))[1..] == fraction + k;
  }

  lemma Slices(a: string, b: string, k: string)
    ensures var s := a + ("." + (b + k));
            && s[..|a|] == a && s[|a|..] == "." + (b + k)
            && s[|a| + 1..|a| + 1 + |b|] == b && s[|a| + 1 + |b|..] == k
  {
  }

  lemma FractionLengths(whole: string, fraction: string, k: string)
    requires AllDigits(whole) && AllDigits(fraction) && Delimits(k)
    ensures var s := whole + ("." + (fraction + k));
            DigitsLength(s) == |whole| && FractionLength(s[|whole|..]) == |fraction|
  {
    DigitsLengthAt(whole, "." + (fraction + k));
    FractionAt(fraction, k);
    Slices(whole, fraction, k);
  }

  lemma LexFraction(whole: string, fraction: string, k: string)
    requires whole != "" && AllDigits(whole)
    requires fraction != "" && AllDigits(fraction) && Delimits(k)
    ensures Lex(whole + ("." + (fraction + k))) == [Num(whole, fraction)] + Lex(k)
  {
    var s := whole + ("." + (fraction + k));
    FractionLengths(whole, fraction, k);
    Slices(whole, fraction, k);
    assert s[0] == whole[0];
    NumberIs(s, |whole|, |fraction|);
    LexStep(s, Num(whole, fraction), |whole| + 1 + |fraction|);
  }

  lemma LexStep(s: string, t: Token, n: nat)
    requires s != "" && s[0] != ' ' && TokenAt(s) == (t, n)
    ensures n <= |s| && Lex(s) == [t] + Lex(s[n..])
  {
  }

  lemma NumberIs(s: string, n: nat, m: nat)
    requires s != "" && IsDigit(s[0]) && DigitsLength(s) == n && FractionLength(s[n..]) == m
    ensures m > 0 ==> n + 1 + m <= |s|
    ensures TokenAt(s) == NumberOf(s, n, m)
  {
    assert TokenAt(s) == NumberAt(s);
  }

  lemma LexUnsigned(whole: string, fraction: string, k: string)
    requires whole != "" && AllDigits(whole) && AllDigits(fraction) && Delimits(k)
    ensures Lex(Unsigned(whole, fraction) + k) == [Num(whole, fraction)] + Lex(k)
  {
    if fraction == "" {
      assert Unsigned(whole, fraction) == whole;
      LexWhole(whole, k);
    } else {
      assert Unsigned(whole, fraction) + k == whole + ("." + (fraction + k));
      LexFraction(whole, fraction, k);
    }
  }

  /** Tokens of a number, in front of `k`. */
  function NumTokens(d: Decimal, k: seq<Token>): seq<Token> {
    var n := [Num(d.whole, d.fraction)] + k;
    if d.negative then [Minus] + n else n
  }

  lemma LexDecimal(d: Decimal, k: string)
    requires d.Valid() && Delimits(k)
    ensures Lex(d.Text() + k) == NumTokens(d, Lex(k))
  {
    LexUnsigned(d.whole, d.fraction, k);
    var u := Unsigned(d.whole, d.fraction);
    if d.negative {
      Regroup("-", u, k);
      LexMinus(u + k);
    } else {
      assert d.Text() == u;
    }
  }

  lemma LexMinus(k: string)
    ensures Lex("-" + k) == [Minus] + Lex(k)
  {
    assert ("-" + k)[1..] == k;
  }

  lemma LexOp(op: Op, k: string)
    requires k != "" && k[0] == ' '
    ensures Lex(OpText(op) + k) == [Comparison(op)] + Lex(k)
  {
    var s := OpText(op) + k;
    assert s[|OpText(op)|..] == k;
    assert s[0] == OpText(op)[0];
    assert |OpText(op)| == 2 ==> s[1] == OpText(op)[1];
    assert |OpText(op)| == 1 ==> s[1] == ' ';
  }

  /** Re-association of the pieces of a printed text. */
  lemma Regroup(a: string, b: string, c: string)
    ensures (a + b) + c == a + (b + c)
  {
  }

  lemma LexSpace(k: string)
    ensures Lex(" " + k) == Lex(k)
  {
    assert (" " + k)[1..] == k;
  }

  function TestTokens(t: Test, k: seq<Token>): seq<Token> {
    [Word(t.name)] + ([Comparison(t.op)] + NumTokens(t.bound, k))
  }

  lemma RegroupTest(a: string, b: string, c: string, d: string, e: string, k: string)
    ensures (a + b + c + d + e) + k == a + (b + (c + (d + (e + k))))
  {
  }

  lemma LexTest(t: Test, k: string)
    requires TestOk(t) && Delimits(k)
    ensures Lex(TestText(t) + k) == TestTokens(t, Lex(k))
  {
    var k1 := t.bound.Text() + k;
    var k2 := OpText(t.op) + (" " + k1);
    RegroupTest(t.name, " ", OpText(t.op), " ", t.bound.Text(), k);
    LexDecimal(t.bound, k);
    LexSpace(k1);
    LexOp(t.op, " " + k1);
    LexSpace(k2);
    LexWord(t.name, " " + k2);
  }

  /** Tokens of tests joined by `sep`, in front of `k`. */
  function JoinTokens(tests: seq<Test>, sep: Token, k: seq<Token>): seq<Token> {
    if tests == [] then k
    else if |tests| == 1 then TestTokens(tests[0], k)
    else TestTokens(tests[0], [sep] + JoinTokens(tests[1..], sep, k))
  }

  /** " && " or " || " */
  function SepText(sep: Token): string {
    if sep == OrOr then " || " else " && "
  }

  lemma LexDouble(sep: Token, c: char, k: string)
    requires (sep == OrOr && c == '|') || (sep == AndAnd && c == '&')
    ensures Lex([c, c] + k) == [sep] + Lex(k)
  {
    assert ([c, c] + k)[2..] == k;
  }

  lemma LexSeparator(sep: Token, k: string)
    requires sep == OrOr || sep == AndAnd
    ensures Lex(SepText(sep) + k) == [sep] + Lex(k)
  {
    var c := if sep == OrOr then '|' else '&';
    LexSpace(k);
    LexDouble(sep, c, " " + k);
    LexSpace([c, c] + (" " + k));
    assert SepText(sep) == " " + ([c, c] + " ");
    Regroup(" ", [c, c] + " ", k);
    Regroup([c, c], " ", k);
  }

  lemma {:induction false} LexJoin(tests: seq<Test>, sep: Token, k: string)
    requires sep == OrOr || sep == AndAnd
    requires tests != [] && forall i | 0 <= i < |tests| :: TestOk(tests[i])
    requires Delimits(k)
    ensures Lex(Join(TestTexts(tests), SepText(sep)) + k) == JoinTokens(tests, sep, Lex(k))
  {
    var text := SepText(sep);
    var parts := TestTexts(tests);
    if |tests| == 1 {
      assert Join(parts, text) == TestText(tests[0]);
      LexTest(tests[0], k);
    } else {
      assert parts[1..] == TestTexts(tests[1..]);
      var tail := Join(parts[1..], text) + k;
      Regroup(TestText(tests[0]) + text, Join(parts[1..], text), k);
      Regroup(TestText(tests[0]), text, tail);
      LexJoin(tests[1..], sep, k);
      LexSeparator(sep, tail);
      LexTest(tests[0], text + tail);
    }
  }

  function PredTokens(p: Pred, k: seq<Token>): seq<Token> {
    match p
    case All(tests) => JoinTokens(tests, AndAnd, k)
    case AnyOf(tests) => JoinTokens(tests, OrOr, k)
    case Never => [Word("false")] + k
  }

  function TreeTokens(t: Tree, k: seq<Token>): seq<Token>
    decreases t, 0
  {
    match t
    case Leaf(d) => NumTokens(d, k)
    case If(p, yes, no) =>
      [LParen] + PredTokens(p, [RParen, Question] + BranchTokens(yes, [Colon] + BranchTokens(no, k)))
  }

  function BranchTokens(t: Tree, k: seq<Token>): seq<Token>
    decreases t, 1
  {
    if t.Leaf? then TreeTokens(t, k) else [LParen] + TreeTokens(t, [RParen] + k)
  }

  lemma LexPred(p: Pred, k: string)
    requires PredOk(p) && Delimits(k)
    ensures Lex(PredText(p) + k) == PredTokens(p, Lex(k))
  {
    match p
    case All(tests) => LexJoin(tests, AndAnd, k);
    case AnyOf(tests) => LexJoin(tests, OrOr, k);
    case Never => LexWord("false", k);
  }

  lemma LexOpen(k: string)
    ensures Lex("(" + k) == [LParen] + Lex(k)
  {
    assert ("(" + k)[1..] == k;
  }

  lemma LexClose(k: string)
    ensures Lex(")" + k) == [RParen] + Lex(k)
  {
    assert (")" + k)[1..] == k;
  }

  lemma LexQuestion(k: string)
    ensures Lex("? " + k) == [Question] + Lex(k)
  {
    LexSpace(k);
    assert ("? " + k)[1..] == " " + k;
  }

  lemma LexColon(k: string)
    ensures Lex(" : " + k) == [Colon] + Lex(k)
  {
    var c := ": " + k;
    LexSpace(k);
    LexSpace(c);
    assert c[1..] == " " + k && " : " + k == " " + c;
  }

  lemma ThenPieces(k: string)
    ensures ") ? " + k == ")" + (" " + ("? " + k))
  {
  }

  lemma LexThen(k: string)
    ensures Lex(") ? " + k) == [RParen, Question] + Lex(k)
  {
    var q := "? " + k;
    ThenPieces(k);
    LexClose(" " + q);
    LexSpace(q);
    LexQuestion(k);
  }

  lemma RegroupIf(a: string, b: string, c: string, d: string, e: string, f: string, k: string)
    ensures (a + b + c + d + e + f) + k == a + (b + (c + (d + (e + (f + k)))))
  {
  }

  lemma {:induction false} LexTree(t: Tree, k: string)
    requires TreeOk(t) && Delimits(k)
    ensures Lex(TreeText(t) + k) == TreeTokens(t, Lex(k))
    decreases t, 0
  {
    match t
    case Leaf(d) => LexDecimal(d, k);
    case If(p, yes, no) =>
      var k1 := BranchText(no) + k;
      var k2 := BranchText(yes) + (" : " + k1);
      var k3 := PredText(p) + (") ? " + k2);
      RegroupIf("(", PredText(p), ") ? ", BranchText(yes), " : ", BranchText(no), k);
      LexBranch(no, k);
      LexColon(k1);
      LexBranch(yes, " : " + k1);
      LexThen(k2);
      LexPred(p, ") ? " + k2);
      LexOpen(k3);
  }

  lemma {:induction false} LexBranch(t: Tree, k: string)
    requires TreeOk(t) && Delimits(k)
    ensures Lex(BranchText(t) + k) == BranchTokens(t, Lex(k))
    decreases t, 1
  {
    if t.Leaf? {
      LexTree(t, k);
    } else {
      Regroup("(", TreeText(t), ")");
      Regroup("(", TreeText(t) + ")", k);
      Regroup(TreeText(t), ")", k);
      LexClose(k);
      LexTree(t, ")" + k);
      LexOpen(TreeText(t) + (")" + k));
    }
  }
}
