/** The fragment of the expr-lang expression language that KEDA evaluates scalingModifiers
    formulas in: a lexer over characters, a recursive-descent parser, a static type check and an
    evaluator. */
module ExprLang {
  import opened Core
  import opened Numbers

  datatype Op = Eq | Lt | Gt | Le

  datatype Token =
    | LParen | RParen | Question | Colon | OrOr | AndAnd | Minus
    | Comparison(op: Op)
    | Num(whole: string, fraction: string)
    | Word(name: string)
    | Bad

  datatype Expr =
    | Lit(value: real)
    | Bool(truth: bool)
    | Var(name: string)
    | Neg(arg: Expr)
    | Compare(op: Op, left: Expr, right: Expr)
    | And(left: Expr, right: Expr)
    | Or(left: Expr, right: Expr)
    | Cond(test: Expr, yes: Expr, no: Expr)

  datatype Value = Number(n: real) | Truth(b: bool)

  /** Words that are not variables. */
  const RESERVED: set<string> :=
    {"true", "false", "nil", "not", "and", "or", "in", "matches", "contains", "startsWith",
     "endsWith", "let", "if", "else"}

  // ------------------------------------------------------------------ lexer

  predicate IsLetter(c: char) {
    'a' <= c <= 'z' || 'A' <= c <= 'Z' || c == '_'
  }

  predicate IsWordChar(c: char) {
    IsLetter(c) || IsDigit(c)
  }

  /** Length of the longest prefix of word characters. */
  function WordLength(s: string): (n: nat)
    ensures n <= |s|
  {
    if s == "" || !IsWordChar(s[0]) then 0 else 1 + WordLength(s[1..])
  }

  function DigitsLength(s: string): (n: nat)
    ensures n <= |s| && AllDigits(s[..n])
  {
    if s == "" || !IsDigit(s[0]) then 0
    else
      var n := DigitsLength(s[1..]);
      assert s[..1 + n] == [s[0]] + s[1..][..n];
      1 + n
  }

  /** Number of digits after a leading decimal point, 0 without one. */
  function FractionLength(s: string): (m: nat)
    ensures m > 0 ==> 1 + m <= |s|
  {
    if s != "" && s[0] == '.' then DigitsLength(s[1..]) else 0
  }

  predicate Starts(s: string, a: char, b: char) {
    |s| >= 2 && s[0] == a && s[1] == b
  }

  /** A number of `n` digits and, when `m` is positive, a fraction of `m` digits. */
  function NumberOf(s: string, n: nat, m: nat): (r: (Token, nat))
    requires n <= |s| && (m > 0 ==> n + 1 + m <= |s|)
  {
    if m > 0 then (Num(s[..n], s[n + 1..n + 1 + m]), n + 1 + m) else (Num(s[..n], ""), n)
  }

  function NumberAt(s: string): (r: (Token, nat))
    requires s != "" && IsDigit(s[0])
    ensures 1 <= r.1 <= |s|
  {
    NumberOf(s, DigitsLength(s), FractionLength(s[DigitsLength(s)..]))
  }

  function SymbolAt(s: string): (r: (Token, nat))
    requires s != ""
    ensures 1 <= r.1 <= |s|
  {
    if s[0] == '(' then (LParen, 1)
    else if s[0] == ')' then (RParen, 1)
    else if s[0] == '?' then (Question, 1)
    else if s[0] == ':' then (Colon, 1)
    else if s[0] == '-' then (Minus, 1)
    else if Starts(s, '|', '|') then (OrOr, 2)
    else if Starts(s, '&', '&') then (AndAnd, 2)
    else if Starts(s, '=', '=') then (Comparison(Eq), 2)
    else if Starts(s, '<', '=') then (Comparison(Le), 2)
    else if s[0] == '<' then (Comparison(Lt), 1)
    else if s[0] == '>' && !Starts(s, '>', '=') then (Comparison(Gt), 1)
    else (Bad, 1)
  }

  /** The first token of a text and how many characters it takes. */
  function TokenAt(s: string): (r: (Token, nat))
    requires s != ""
    ensures 1 <= r.1 <= |s|
  {
    if IsLetter(s[0]) then (Word(s[..WordLength(s)]), WordLength(s))
    else if IsDigit(s[0]) then NumberAt(s)
    else SymbolAt(s)
  }

  function Lex(s: string): seq<Token>
    decreases |s|
  {
    if s == "" then []
    else if s[0] == ' ' then Lex(s[1..])
    else
      var (t, n) := TokenAt(s);
      [t] + Lex(s[n..])
  }

  // ----------------------------------------------------------------- parser

  type Parse = Option<(Expr, seq<Token>)>

  predicate Next(ts: seq<Token>, t: Token) {
    ts != [] && ts[0] == t
  }

  ghost predicate Shorter(r: Parse, ts: seq<Token>) {
    r.Some? ==> |r.value.1| < |ts|
  }

  function ParseTernary(ts: seq<Token>): (r: Parse)
    ensures Shorter(r, ts)
    decreases |ts|, 5
  {
    match ParseOr(ts)
    case None => None
    case Some((test, r1)) =>
      if !Next(r1, Question) then Some((test, r1))
      else match ParseTernary(r1[1..])
        case None => None
        case Some((yes, r2)) =>
          if !Next(r2, Colon) then None
          else match ParseTernary(r2[1..])
            case None => None
            case Some((no, r3)) => Some((Cond(test, yes, no), r3))
  }

  function ParseOr(ts: seq<Token>): (r: Parse)
    ensures Shorter(r, ts)
    decreases |ts|, 4
  {
    match ParseAnd(ts)
    case None => None
    case Some((left, rest)) => ParseOrTail(left, rest)
  }

  function ParseOrTail(left: Expr, ts: seq<Token>): (r: Parse)
    ensures r.Some? ==> |r.value.1| <= |ts|
    decreases |ts|, 4
  {
    if !Next(ts, OrOr) then Some((left, ts))
    else match ParseAnd(ts[1..])
      case None => None
      case Some((right, rest)) => ParseOrTail(Or(left, right), rest)
  }

  function ParseAnd(ts: seq<Token>): (r: Parse)
    ensures Shorter(r, ts)
    decreases |ts|, 3
  {
    match ParseComparison(ts)
    case None => None
    case Some((left, rest)) => ParseAndTail(left, rest)
  }

  function ParseAndTail(left: Expr, ts: seq<Token>): (r: Parse)
    ensures r.Some? ==> |r.value.1| <= |ts|
    decreases |ts|, 3
  {
    if !Next(ts, AndAnd) then Some((left, ts))
    else match ParseComparison(ts[1..])
      case None => None
      case Some((right, rest)) => ParseAndTail(And(left, right), rest)
  }

  function ParseComparison(ts: seq<Token>): (r: Parse)
    ensures Shorter(r, ts)
    decreases |ts|, 2
  {
    match ParseUnary(ts)
    case None => None
    case Some((left, r1)) =>
      if r1 == [] || !r1[0].Comparison? then Some((left, r1))
      else match ParseUnary(r1[1..])
        case None => None
        case Some((right, r2)) => Some((Compare(r1[0].op, left, right), r2))
  }

  function ParseUnary(ts: seq<Token>): (r: Parse)
    ensures Shorter(r, ts)
    decreases |ts|, 1
  {
    if Next(ts, Minus) then
      match ParseUnary(ts[1..])
      case None => None
      case Some((e, rest)) => Some((Neg(e), rest))
    else ParsePrimary(ts)
  }

  /** A literal without a point is an integer and has to fit an int64. */
  predicate Readable(whole: string, fraction: string) {
    fraction != "" || (AllDigits(whole) && DigitsValue(whole) <= MAX_INT64)
  }

  function ParsePrimary(ts: seq<Token>): (r: Parse)
    ensures Shorter(r, ts)
    decreases |ts|, 0
  {
    if ts == [] then None
    else match ts[0]
      case Num(whole, fraction) =>
        if AllDigits(whole) && AllDigits(fraction) && Readable(whole, fraction) then
          Some((Lit(Magnitude(whole, fraction)), ts[1..]))
        else None
      case Word(name) =>
        if name == "true" then Some((Bool(true), ts[1..]))
        else if name == "false" then Some((Bool(false), ts[1..]))
        else if name in RESERVED then None
        else Some((Var(name), ts[1..]))
      case LParen =>
        (match ParseTernary(ts[1..])
         case None => None
         case Some((e, rest)) => if Next(rest, RParen) then Some((e, rest[1..])) else None)
      case _ => None
  }

  // ------------------------------------------------------------- evaluation

  datatype Type = Numeric | Boolean

  function TypeOf(e: Expr): Option<Type> {
    match e
    case Lit(_) => Some(Numeric)
    case Bool(_) => Some(Boolean)
    case Var(_) => Some(Numeric)
    case Neg(a) => if TypeOf(a) == Some(Numeric) then Some(Numeric) else None
    case Compare(_, l, r) =>
      if TypeOf(l) == TypeOf(r) == Some(Numeric) then Some(Boolean) else None
    case And(l, r) => if TypeOf(l) == TypeOf(r) == Some(Boolean) then Some(Boolean) else None
    case Or(l, r) => if TypeOf(l) == TypeOf(r) == Some(Boolean) then Some(Boolean) else None
    case Cond(t, y, n) =>
      if TypeOf(t) == Some(Boolean) && TypeOf(y) == TypeOf(n) then TypeOf(y) else None
  }

  function Relates(op: Op, a: real, b: real): bool {
    match op
    case Eq => a == b
    case Lt => a < b
    case Gt => a > b
    case Le => a <= b
  }

  /** None when a variable is missing or a value has the wrong kind. */
  function Eval(e: Expr, env: map<string, real>): Option<Value> {
    match e
    case Lit(v) => Some(Number(v))
    case Bool(b) => Some(Truth(b))
    case Var(x) => if x in env then Some(Number(env[x])) else None
    case Neg(a) =>
      (match Eval(a, env) case Some(Number(v)) => Some(Number(-v)) case _ => None)
    case Compare(op, l, r) =>
      (match (Eval(l, env), Eval(r, env))
       case (Some(Number(a)), Some(Number(b))) => Some(Truth(Relates(op, a, b)))
       case _ => None)
    case And(l, r) =>
      (match Eval(l, env)
       case Some(Truth(true)) => Eval(r, env)
       case Some(Truth(false)) => Some(Truth(false))
       case _ => None)
    case Or(l, r) =>
      (match Eval(l, env)
       case Some(Truth(false)) => Eval(r, env)
       case Some(Truth(true)) => Some(Truth(true))
       case _ => None)
    case Cond(t, y, n) =>
      (match Eval(t, env)
       case Some(Truth(true)) => Eval(y, env)
       case Some(Truth(false)) => Eval(n, env)
       case _ => None)
  }

  /** The expression a formula text stands for, if it compiles to a number. */
  function Compile(text: string): Option<Expr> {
    match ParseTernary(Lex(text))
    case Some((e, rest)) => if rest == [] && TypeOf(e) == Some(Numeric) then Some(e) else None
    case _ => None
  }

  /** What KEDA computes from a formula text and one value per trigger. */
  function Evaluate(text: string, env: map<string, real>): Option<real> {
    match Compile(text)
    case None => None
    case Some(e) => (match Eval(e, env) case Some(Number(v)) => Some(v) case _ => None)
  }
}
