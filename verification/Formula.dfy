/** The scalingModifiers formula (pkg/scaledobject/provisioner.go): how it is printed from the
    metric list, the scaling decision it stands for, and what follows from that decision. */
module Formula {
  import opened Core
  import opened Numbers
  import opened ExprLang
  import opened FormulaText
  import opened Provisioner

  const SCALE_UP: FiniteDecimal := Decimal(false, "2", "0")
  const SCALE_DOWN: FiniteDecimal := Decimal(false, "0", "5")
  const HOLD: FiniteDecimal := Decimal(false, "1", "0")
  const ACTIVATE: FiniteDecimal := Decimal(false, "1", "0")
  const DEACTIVATE: FiniteDecimal := Decimal(false, "0", "0")
  const ONE: FiniteDecimal := Decimal(false, "1", "")
  const ZERO: FiniteDecimal := Decimal(false, "0", "")

  /** The four kinds of condition a metric can contribute. */
  datatype Kind = Activation | Deactivation | Up | Down

  function TestOf(m: Metric, kind: Kind): Option<Test> {
    var v := VarName(m.key);
    match kind
    case Activation => if m.activation.Some? then Some(Test(v, Gt, m.activation.value)) else None
    case Deactivation => if m.deactivation.Some? then Some(Test(v, Le, m.deactivation.value)) else None
    case Up => if m.HasBand() then Some(Test(v, Gt, m.up.value)) else None
    case Down => if m.HasBand() then Some(Test(v, Lt, m.down.value)) else None
  }

  function TestsOf(metrics: seq<Metric>, kind: Kind): seq<Test> {
    if metrics == [] then []
    else
      var t := TestOf(metrics[|metrics| - 1], kind);
      TestsOf(metrics[..|metrics| - 1], kind) + if t.Some? then [t.value] else []
  }

  // ------------------------------------------------------------ decision tree

  /** joinPredicate: an empty set of conditions is "false". */
  function AllOrNever(tests: seq<Test>): Pred {
    if tests == [] then Never else All(tests)
  }

  function AnyOrNever(tests: seq<Test>): Pred {
    if tests == [] then Never else AnyOf(tests)
  }

  function UpPred(metrics: seq<Metric>): Pred {
    All([Test(GATE, Eq, ONE)] + TestsOf(metrics, Up))
  }

  function BandTree(metrics: seq<Metric>): Tree {
    If(UpPred(metrics), Leaf(SCALE_UP),
       If(AllOrNever(TestsOf(metrics, Down)), Leaf(SCALE_DOWN), Leaf(HOLD)))
  }

  function ZeroTree(metrics: seq<Metric>): Tree {
    If(AnyOrNever(TestsOf(metrics, Activation)), Leaf(ACTIVATE), Leaf(DEACTIVATE))
  }

  function NonZeroTree(metrics: seq<Metric>, maxReplicas: int): Tree {
    If(AllOrNever(TestsOf(metrics, Deactivation)), Leaf(DEACTIVATE),
       if maxReplicas > 1 && TestsOf(metrics, Up) != [] then BandTree(metrics) else Leaf(HOLD))
  }

  function FormulaTree(metrics: seq<Metric>, minReplicas: int, maxReplicas: int): Tree {
    if minReplicas != 0 then BandTree(metrics)
    else If(All([Test(REPLICA_COUNT, Eq, ZERO)]), ZeroTree(metrics), NonZeroTree(metrics, maxReplicas))
  }

  // ---------------------------------------------------------------- printing

  function ScaleUpExpr(upConds: seq<string>): string {
    Join([GATE + " == 1"] + upConds, " && ")
  }

  function JoinPredicate(conds: seq<string>, op: string): string {
    if conds == [] then "false" else Join(conds, " " + op + " ")
  }

  /** "(p) ? a : b" */
  function Ternary(p: string, a: string, b: string): string {
    "(" + p + ") ? " + a + " : " + b
  }

  /** The condition a metric contributes, as printed. */
  function CondTexts(m: Metric, kind: Kind): seq<string> {
    var v := VarName(m.key);
    match kind
    case Activation => if m.activation.Some? then [v + " > " + m.activation.value.Text()] else []
    case Deactivation => if m.deactivation.Some? then [v + " <= " + m.deactivation.value.Text()] else []
    case Up => if m.HasBand() then [v + " > " + m.up.value.Text()] else []
    case Down => if m.HasBand() then [v + " < " + m.down.value.Text()] else []
  }

  /** All the conditions of one kind, as printed. */
  function Texts(metrics: seq<Metric>, kind: Kind): seq<string> {
    TestTexts(TestsOf(metrics, kind))
  }

  method BuildAlwaysOnFormula(metrics: seq<Metric>) returns (text: string)
    requires metrics != [] && forall i | 0 <= i < |metrics| :: metrics[i].HasBand()
    ensures text == TreeText(BandTree(metrics))
  {
    var upConds: seq<string> := [];
    var downConds: seq<string> := [];
    for i := 0 to |metrics|
      invariant upConds == Texts(metrics[..i], Up)
      invariant downConds == Texts(metrics[..i], Down) && |downConds| == i
    {
      var m := metrics[i];
      var v := FormulaVarName(m.key);
      TextsSnoc(metrics, i, Up);
      TextsSnoc(metrics, i, Down);
      upConds := upConds + [v + " > " + m.up.value.Text()];
      downConds := downConds + [v + " < " + m.down.value.Text()];
    }
    assert metrics[..|metrics|] == metrics;
    BandTreeText(metrics);
    PredTexts(metrics);
    text := Ternary(ScaleUpExpr(upConds), SCALE_UP.Text(),
                    "(" + Ternary(Join(downConds, " && "), SCALE_DOWN.Text(), HOLD.Text()) + ")");
  }

  method BuildScaleToZeroFormula(metrics: seq<Metric>, maxReplicas: int) returns (text: string)
    ensures text == TreeText(FormulaTree(metrics, 0, maxReplicas))
  {
    var activationConds: seq<string> := [];
    var deactivationConds: seq<string> := [];
    var upConds: seq<string> := [];
    var downConds: seq<string> := [];
    for i := 0 to |metrics|
      invariant activationConds == Texts(metrics[..i], Activation)
      invariant deactivationConds == Texts(metrics[..i], Deactivation)
      invariant upConds == Texts(metrics[..i], Up)
      invariant downConds == Texts(metrics[..i], Down)
    {
      var m := metrics[i];
      var v := FormulaVarName(m.key);
      TextsSnoc(metrics, i, Activation);
      TextsSnoc(metrics, i, Deactivation);
      TextsSnoc(metrics, i, Up);
      TextsSnoc(metrics, i, Down);
      if m.activation.Some? {
        activationConds := activationConds + [v + " > " + m.activation.value.Text()];
      }
      if m.deactivation.Some? {
        deactivationConds := deactivationConds + [v + " <= " + m.deactivation.value.Text()];
      }
      if m.HasBand() {
        upConds := upConds + [v + " > " + m.up.value.Text()];
        downConds := downConds + [v + " < " + m.down.value.Text()];
      }
    }
    assert metrics[..|metrics|] == metrics;
    BranchTreeTexts(metrics, maxReplicas);
    ScaleToZeroText(metrics, maxReplicas);
    var zeroBranch := Ternary(JoinPredicate(activationConds, "||"), ACTIVATE.Text(), DEACTIVATE.Text());
    var nonZeroBranch := Ternary(JoinPredicate(deactivationConds, "&&"), DEACTIVATE.Text(), HOLD.Text());
    if maxReplicas > 1 && |upConds| > 0 {
      nonZeroBranch :=
        Ternary(JoinPredicate(deactivationConds, "&&"), DEACTIVATE.Text(),
                "(" + Ternary(ScaleUpExpr(upConds), SCALE_UP.Text(),
                              "(" + Ternary(JoinPredicate(downConds, "&&"), SCALE_DOWN.Text(), HOLD.Text())
                              + ")") + ")");
    }
    assert zeroBranch == TreeText(ZeroTree(metrics));
    assert nonZeroBranch == TreeText(NonZeroTree(metrics, maxReplicas));
    text := Ternary(REPLICA_COUNT + " == 0", "(" + zeroBranch + ")", "(" + nonZeroBranch + ")");
  }

  method BuildFormula(metrics: seq<Metric>, minReplicas: int, maxReplicas: int) returns (text: string)
    requires Accepted(metrics, minReplicas == 0)
    ensures text == TreeText(FormulaTree(metrics, minReplicas, maxReplicas))
  {
    if minReplicas == 0 {
      text := BuildScaleToZeroFormula(metrics, maxReplicas);
    } else {
      text := BuildAlwaysOnFormula(metrics);
    }
  }

  /** An operator with the spaces around it. */
  function Spaced(op: Op): string {
    match op
    case Eq => " == "
    case Lt => " < "
    case Gt => " > "
    case Le => " <= "
  }

  lemma CondText(v: string, op: Op, d: Decimal)
    ensures TestText(Test(v, op, d)) == v + Spaced(op) + d.Text()
  {
    assert " " + OpText(op) + " " == Spaced(op);
    assert v + " " + OpText(op) + " " == v + Spaced(op);
  }

  function DownText(metrics: seq<Metric>): string {
    Ternary(JoinPredicate(Texts(metrics, Down), "&&"), SCALE_DOWN.Text(), HOLD.Text())
  }

  function BandText(metrics: seq<Metric>): string {
    Ternary(ScaleUpExpr(Texts(metrics, Up)), SCALE_UP.Text(), "(" + DownText(metrics) + ")")
  }

  lemma TernaryText(p: Pred, yes: Tree, no: Tree)
    ensures TreeText(If(p, yes, no)) == Ternary(PredText(p), BranchText(yes), BranchText(no))
  {
  }

  lemma BandTreeText(metrics: seq<Metric>)
    ensures TreeText(BandTree(metrics)) == BandText(metrics)
  {
    PredTexts(metrics);
    var down := If(AllOrNever(TestsOf(metrics, Down)), Leaf(SCALE_DOWN), Leaf(HOLD));
    TernaryText(down.pred, down.yes, down.no);
    TernaryText(UpPred(metrics), Leaf(SCALE_UP), down);
  }

  lemma BranchTreeTexts(metrics: seq<Metric>, maxReplicas: int)
    ensures TreeText(ZeroTree(metrics))
            == Ternary(JoinPredicate(Texts(metrics, Activation), "||"), ACTIVATE.Text(), DEACTIVATE.Text())
    ensures TreeText(NonZeroTree(metrics, maxReplicas))
            == Ternary(JoinPredicate(Texts(metrics, Deactivation), "&&"), DEACTIVATE.Text(),
                       if maxReplicas > 1 && Texts(metrics, Up) != [] then "(" + BandText(metrics) + ")"
                       else HOLD.Text())
  {
    PredTexts(metrics);
    BandTreeText(metrics);
    var zero := ZeroTree(metrics);
    TernaryText(zero.pred, zero.yes, zero.no);
    var nonZero := NonZeroTree(metrics, maxReplicas);
    TernaryText(nonZero.pred, nonZero.yes, nonZero.no);
  }

  lemma ScaleToZeroText(metrics: seq<Metric>, maxReplicas: int)
    ensures TreeText(FormulaTree(metrics, 0, maxReplicas))
            == Ternary(REPLICA_COUNT + " == 0", "(" + TreeText(ZeroTree(metrics)) + ")",
                       "(" + TreeText(NonZeroTree(metrics, maxReplicas)) + ")")
  {
    PredTexts(metrics);
    TernaryText(All([Test(REPLICA_COUNT, Eq, ZERO)]), ZeroTree(metrics), NonZeroTree(metrics, maxReplicas));
  }

  lemma TextsSnoc(metrics: seq<Metric>, i: nat, kind: Kind)
    requires i < |metrics|
    ensures Texts(metrics[..i + 1], kind) == Texts(metrics[..i], kind) + CondTexts(metrics[i], kind)
  {
    var m, v := metrics[i], VarName(metrics[i].key);
    assert metrics[..i + 1][..i] == metrics[..i];
    var t := TestOf(m, kind);
    if t.Some? {
      CondText(v, t.value.op, t.value.bound);
      assert TestTexts(TestsOf(metrics[..i], kind) + [t.value])
          == TestTexts(TestsOf(metrics[..i], kind)) + [TestText(t.value)];
      assert CondTexts(m, kind) == [TestText(t.value)];
    }
  }

  /** The predicates of the decision tree, as printed. */
  lemma PredTexts(metrics: seq<Metric>)
    ensures PredText(UpPred(metrics)) == ScaleUpExpr(Texts(metrics, Up))
    ensures PredText(AllOrNever(TestsOf(metrics, Down))) == JoinPredicate(Texts(metrics, Down), "&&")
    ensures PredText(AllOrNever(TestsOf(metrics, Deactivation)))
            == JoinPredicate(Texts(metrics, Deactivation), "&&")
    ensures PredText(AnyOrNever(TestsOf(metrics, Activation)))
            == JoinPredicate(Texts(metrics, Activation), "||")
    ensures PredText(All([Test(REPLICA_COUNT, Eq, ZERO)])) == REPLICA_COUNT + " == 0"
    ensures Texts(metrics, Down) != [] ==>
              JoinPredicate(Texts(metrics, Down), "&&") == Join(Texts(metrics, Down), " && ")
  {
    assert " " + "&&" + " " == " && " && " " + "||" + " " == " || ";
    CondText(GATE, Eq, ONE);
    CondText(REPLICA_COUNT, Eq, ZERO);
    assert ONE.Text() == "1" && ZERO.Text() == "0" && " " + "==" + " " == " == ";
    assert GATE + " == " + "1" == GATE + " == 1";
    assert REPLICA_COUNT + " == " + "0" == REPLICA_COUNT + " == 0";
    var gate, count := Test(GATE, Eq, ONE), Test(REPLICA_COUNT, Eq, ZERO);
    assert TestTexts([gate] + TestsOf(metrics, Up)) == [TestText(gate)] + Texts(metrics, Up);
    assert TestTexts([count]) == [TestText(count)];
  }

  // ---------------------------------------------------------- printed in full

  lemma TextsOfOne(m: Metric, kind: Kind)
    ensures Texts([m], kind) == CondTexts(m, kind)
  {
    TextsSnoc([m], 0, kind);
    assert [m][..1] == [m] && [m][..0] == [];
    assert Texts([], kind) + CondTexts(m, kind) == CondTexts(m, kind);
  }

  lemma TextsOfTwo(m: Metric, n: Metric, kind: Kind)
    ensures Texts([m, n], kind) == CondTexts(m, kind) + CondTexts(n, kind)
  {
    TextsOfOne(m, kind);
    TextsSnoc([m, n], 1, kind);
    assert [m, n][..1] == [m] && [m, n][..2] == [m, n];
  }

  lemma JoinOfTwo(x: string, y: string, sep: string)
    ensures Join([x], sep) == x && Join([x, y], sep) == x + sep + y
  {
    assert [x, y][1..] == [y];
  }

  lemma MultiplierTexts()
    ensures SCALE_UP.Text() == "2.0" && SCALE_DOWN.Text() == "0.5" && HOLD.Text() == "1.0"
    ensures ACTIVATE.Text() == "1.0" && DEACTIVATE.Text() == "0.0"
  {
  }

  /** The band of one metric, given its two conditions. */
  lemma BandOfOne(metrics: seq<Metric>, up: string, down: string)
    requires Texts(metrics, Up) == [up] && Texts(metrics, Down) == [down]
    ensures TreeText(BandTree(metrics))
            == "(readiness_gate == 1 && " + up + ") ? 2.0 : ((" + down + ") ? 0.5 : 1.0)"
  {
    BandTreeText(metrics);
    MultiplierTexts();
    JoinOfTwo(GATE + " == 1", up, " && ");
    JoinOfTwo(down, "", " && ");
    assert " " + "&&" + " " == " && ";
    assert ScaleUpExpr([up]) == Join([GATE + " == 1", up], " && ") by {
      assert [GATE + " == 1"] + [up] == [GATE + " == 1", up];
    }
    BandPieces(up, down);
  }

  lemma BandPieces(up: string, down: string)
    ensures Ternary(GATE + " == 1" + " && " + up, "2.0", "(" + Ternary(down, "0.5", "1.0") + ")")
            == "(readiness_gate == 1 && " + up + ") ? 2.0 : ((" + down + ") ? 0.5 : 1.0)"
  {
    var gate := "readiness_gate == 1 && ";
    assert GATE + " == 1" + " && " == gate;
    assert GATE + " == 1" + " && " + up == gate + up;
    BandFrame(gate, up, down);
    assert "(" + gate == "(readiness_gate == 1 && ";
  }

  lemma BandFrame(gate: string, up: string, down: string)
    ensures Ternary(gate + up, "2.0", "(" + Ternary(down, "0.5", "1.0") + ")")
            == "(" + gate + up + ") ? 2.0 : ((" + down + ") ? 0.5 : 1.0)"
  {
    assert "(" + Ternary(down, "0.5", "1.0") + ")" == "((" + (down + ") ? 0.5 : 1.0)");
  }

  /** The formula of a single metric, character by character. */
  lemma TextOfOneMetric(m: Metric, minReplicas: int, maxReplicas: int)
    requires minReplicas != 0 && m.HasBand()
    ensures var v := VarName(m.key);
            TreeText(FormulaTree([m], minReplicas, maxReplicas))
            == "(readiness_gate == 1 && " + (v + " > " + m.up.value.Text()) + ") ? 2.0 : (("
               + (v + " < " + m.down.value.Text()) + ") ? 0.5 : 1.0)"
  {
    TextsOfOne(m, Up);
    TextsOfOne(m, Down);
    var v := VarName(m.key);
    BandOfOne([m], v + " > " + m.up.value.Text(), v + " < " + m.down.value.Text());
  }

  /** The scale-to-zero formula of a router metric that wakes and parks and a model-pod metric that parks
      and has a band, character by character. */
  lemma TextOfQueueAndRunning(q: Metric, r: Metric, maxReplicas: int)
    requires q.activation.Some? && q.deactivation.Some? && !q.HasBand()
    requires r.activation.None? && r.deactivation.Some? && r.HasBand() && maxReplicas > 1
    ensures var (v, w) := (VarName(q.key), VarName(r.key));
            TreeText(FormulaTree([q, r], 0, maxReplicas))
            == "(replica_count == 0) ? ((" + (v + " > " + q.activation.value.Text()) + ") ? 1.0 : 0.0) : (("
               + (v + " <= " + q.deactivation.value.Text()) + " && " + (w + " <= " + r.deactivation.value.Text())
               + ") ? 0.0 : ((readiness_gate == 1 && " + (w + " > " + r.up.value.Text()) + ") ? 2.0 : (("
               + (w + " < " + r.down.value.Text()) + ") ? 0.5 : 1.0)))"
  {
    var v, w := VarName(q.key), VarName(r.key);
    var wake := v + " > " + q.activation.value.Text();
    var park1, park2 := v + " <= " + q.deactivation.value.Text(), w + " <= " + r.deactivation.value.Text();
    var up, down := w + " > " + r.up.value.Text(), w + " < " + r.down.value.Text();
    TextsOfTwo(q, r, Activation);
    TextsOfTwo(q, r, Deactivation);
    TextsOfTwo(q, r, Up);
    TextsOfTwo(q, r, Down);
    assert Texts([q, r], Activation) == [wake] && Texts([q, r], Deactivation) == [park1, park2];
    assert Texts([q, r], Up) == [up] && Texts([q, r], Down) == [down];
    ParkText([q, r], maxReplicas, wake, park1, park2, up, down);
  }

  lemma ParkText(metrics: seq<Metric>, maxReplicas: int, wake: string, park1: string, park2: string, up: string,
                 down: string)
    requires Texts(metrics, Activation) == [wake] && Texts(metrics, Deactivation) == [park1, park2]
    requires Texts(metrics, Up) == [up] && Texts(metrics, Down) == [down] && maxReplicas > 1
    ensures TreeText(FormulaTree(metrics, 0, maxReplicas))
            == "(replica_count == 0) ? ((" + wake + ") ? 1.0 : 0.0) : ((" + park1 + " && " + park2
               + ") ? 0.0 : ((readiness_gate == 1 && " + up + ") ? 2.0 : ((" + down + ") ? 0.5 : 1.0)))"
  {
    ScaleToZeroText(metrics, maxReplicas);
    BranchTreeTexts(metrics, maxReplicas);
    BandOfOne(metrics, up, down);
    BandTreeText(metrics);
    MultiplierTexts();
    JoinOfTwo(wake, "", " || ");
    JoinOfTwo(park1, park2, " && ");
    assert " " + "&&" + " " == " && " && " " + "||" + " " == " || ";
    ParkPieces(wake, park1 + " && " + park2,
               "(readiness_gate == 1 && " + up + ") ? 2.0 : ((" + down + ") ? 0.5 : 1.0)");
    RegroupPark(wake, park1, park2, up, down);
  }

  lemma ParkPieces(wake: string, park: string, band: string)
    ensures Ternary(REPLICA_COUNT + " == 0", "(" + Ternary(wake, "1.0", "0.0") + ")",
                    "(" + Ternary(park, "0.0", "(" + band + ")") + ")")
            == "(replica_count == 0) ? ((" + wake + ") ? 1.0 : 0.0) : ((" + park + ") ? 0.0 : (" + band + "))"
  {
    assert "(" + Ternary(wake, "1.0", "0.0") + ")" == "((" + (wake + ") ? 1.0 : 0.0)");
    assert "(" + Ternary(park, "0.0", "(" + band + ")") + ")" == "((" + (park + (") ? 0.0 : (" + (band + "))")));
    CountPieces("((" + (wake + ") ? 1.0 : 0.0)"), "((" + (park + (") ? 0.0 : (" + (band + "))"))));
    FlatPark(wake, park, band);
  }

  lemma CountPieces(zero: string, nonZero: string)
    ensures Ternary(REPLICA_COUNT + " == 0", zero, nonZero) == "(replica_count == 0) ? " + zero + " : " + nonZero
  {
    assert "(" + (REPLICA_COUNT + " == 0") + ") ? " == "(replica_count == 0) ? ";
  }

  lemma FlatPark(wake: string, park: string, band: string)
    ensures "(replica_count == 0) ? " + ("((" + (wake + ") ? 1.0 : 0.0)")) + " : "
            + ("((" + (park + (") ? 0.0 : (" + (band + "))"))))
            == "(replica_count == 0) ? ((" + wake + ") ? 1.0 : 0.0) : ((" + park + ") ? 0.0 : (" + band + "))"
  {
  }

  lemma RegroupPark(wake: string, park1: string, park2: string, up: string, down: string)
    ensures var band := "(readiness_gate == 1 && " + up + ") ? 2.0 : ((" + down + ") ? 0.5 : 1.0)";
            "(replica_count == 0) ? ((" + wake + ") ? 1.0 : 0.0) : ((" + (park1 + " && " + park2) + ") ? 0.0 : ("
            + band + "))"
            == "(replica_count == 0) ? ((" + wake + ") ? 1.0 : 0.0) : ((" + park1 + " && " + park2
               + ") ? 0.0 : ((readiness_gate == 1 && " + up + ") ? 2.0 : ((" + down + ") ? 0.5 : 1.0)))"
  {
  }
}
