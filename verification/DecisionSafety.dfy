/** What the scaling decision can never do (pkg/scaledobject/provisioner.go). */
module DecisionSafety {
  import opened Telemetry
  import opened ExprLang
  import opened FormulaText
  import opened FormulaMeaning
  import opened Provisioner
  import opened Formula
  import opened Decision

  /** The two readings agree on every router-sourced metric. */
  ghost predicate SameRouterView(metrics: seq<Metric>, r1: seq<real>, r2: seq<real>)
    requires |r1| == |r2| == |metrics|
  {
    forall i | 0 <= i < |metrics| :: metrics[i].source == EPP ==> r1[i] == r2[i]
  }

  /** A metric past its activation threshold. */
  predicate QueuedWork(metrics: seq<Metric>, readings: seq<real>)
    requires |readings| == |metrics|
  {
    AnyMeets(metrics, readings, Activation)
  }

  /** Work above an activation threshold vetoes parking: whatever the replica count, the gate
      and the backend readings, the decision stays above the activation target 0. */
  lemma QueuedWorkKeepsActive(metrics: seq<Metric>, minReplicas: int, maxReplicas: int,
                              readings: seq<real>, gate: real, replicas: real)
    requires |readings| == |metrics| && Accepted(metrics, minReplicas == 0)
    requires QueuedWork(metrics, readings)
    ensures Decide(metrics, minReplicas, maxReplicas, readings, gate, replicas) > 0.0
  {
    var i :| 0 <= i < |metrics| && Declares(metrics[i], Activation)
             && Meets(metrics[i], Activation, readings[i]);
    assert MetricAccepted(metrics[i], minReplicas == 0);
    assert Declares(metrics[i], Deactivation) && !Meets(metrics[i], Deactivation, readings[i]);
  }

  /** No reading both wakes and parks: if the 0-replica branch wakes the workload in one
      environment, the running branch does not park it in any environment with the same router
      view, whatever the backend metrics say. */
  lemma NoReadingWakesAndParks(metrics: seq<Metric>, maxReplicas: int, r1: seq<real>, r2: seq<real>,
                               g1: real, g2: real, replicas: real)
    requires |r1| == |r2| == |metrics| && Accepted(metrics, true)
    requires SameRouterView(metrics, r1, r2) && replicas != 0.0
    requires Decide(metrics, 0, maxReplicas, r1, g1, 0.0) == 1.0
    ensures Decide(metrics, 0, maxReplicas, r2, g2, replicas) != 0.0
  {
    var i :| 0 <= i < |metrics| && Declares(metrics[i], Activation)
             && Meets(metrics[i], Activation, r1[i]);
    assert MetricAccepted(metrics[i], true);
    assert r1[i] == r2[i];
    QueuedWorkKeepsActive(metrics, 0, maxReplicas, r2, g2, replicas);
  }

  /** Parking needs every declared deactivation signal, a backend one among them. */
  lemma ParkingObservesBackend(metrics: seq<Metric>, maxReplicas: int, readings: seq<real>, gate: real,
                               replicas: real)
    requires |readings| == |metrics| && Accepted(metrics, true) && replicas != 0.0
    requires Decide(metrics, 0, maxReplicas, readings, gate, replicas) == 0.0
    ensures exists i | 0 <= i < |metrics| ::
              && metrics[i].source == MODELPOD && metrics[i].deactivation.Some?
              && readings[i] <= metrics[i].deactivation.value.Value()
  {
    var i :| 0 <= i < |metrics| && metrics[i].deactivation.Some? && metrics[i].source == MODELPOD;
    assert Declares(metrics[i], Deactivation);
  }

  /** With a minimum of at least 1 the formula is always positive, so KEDA always sees the
      workload as active and brings it back to its minimum. */
  lemma AlwaysOnNeverParks(metrics: seq<Metric>, minReplicas: int, maxReplicas: int,
                           readings: seq<real>, gate: real, replicas: real)
    requires |readings| == |metrics| && minReplicas >= 1
    ensures Decide(metrics, minReplicas, maxReplicas, readings, gate, replicas) in {0.5, 1.0, 2.0}
  {
  }

  /** The scale-up and scale-down guards exclude each other. */
  lemma GuardsExclusive(metrics: seq<Metric>, scaleToZero: bool, readings: seq<real>)
    requires |readings| == |metrics| && Accepted(metrics, scaleToZero)
    ensures !(AllMeet(metrics, readings, Up) && AllMeet(metrics, readings, Down))
  {
    if SomeDeclares(metrics, Up) {
      var i :| 0 <= i < |metrics| && Declares(metrics[i], Up);
      assert MetricAccepted(metrics[i], scaleToZero) && Declares(metrics[i], Down);
      assert Meets(metrics[i], Up, readings[i]) ==> !Meets(metrics[i], Down, readings[i]);
    }
  }

  /** The band with its two branches tested in the other order. */
  function SwappedBandTree(metrics: seq<Metric>): Tree {
    If(AllOrNever(TestsOf(metrics, Down)), Leaf(SCALE_DOWN),
       If(UpPred(metrics), Leaf(SCALE_UP), Leaf(HOLD)))
  }

  /** The whole formula with the branches of its band swapped. */
  function SwappedFormulaTree(metrics: seq<Metric>, minReplicas: int, maxReplicas: int): Tree {
    if minReplicas != 0 then SwappedBandTree(metrics)
    else If(All([Test(REPLICA_COUNT, Eq, ZERO)]), ZeroTree(metrics), SwappedNonZeroTree(metrics, maxReplicas))
  }

  function SwappedNonZeroTree(metrics: seq<Metric>, maxReplicas: int): Tree {
    If(AllOrNever(TestsOf(metrics, Deactivation)), Leaf(DEACTIVATE),
       if maxReplicas > 1 && TestsOf(metrics, Up) != [] then SwappedBandTree(metrics) else Leaf(HOLD))
  }

  /** Two trees of which neither an environment nor the compiler tells one from the other. */
  ghost predicate Interchangeable(t: Tree, u: Tree, env: map<string, real>) {
    && TreeOk(t) && TreeBound(t, env) && TreeOk(u) && TreeBound(u, env)
    && Meaning(t, env) == Meaning(u, env)
    && (Clean(t) <==> Clean(u))
  }

  lemma InterchangeableTexts(t: Tree, u: Tree, env: map<string, real>)
    requires Interchangeable(t, u, env)
    ensures Evaluate(TreeText(t), env) == Evaluate(TreeText(u), env)
  {
    TextMeansTree(t, env);
    TextMeansTree(u, env);
  }

  lemma InterchangeableElse(p: Pred, yes: Tree, t: Tree, u: Tree, env: map<string, real>)
    requires Interchangeable(t, u, env) && PredOk(p) && PredBound(p, env) && TreeOk(yes) && TreeBound(yes, env)
    ensures Interchangeable(If(p, yes, t), If(p, yes, u), env)
  {
  }

  /** The order of the 2.0 and 0.5 branches of the band does not matter. */
  lemma BandOrderIrrelevant(metrics: seq<Metric>, scaleToZero: bool, readings: seq<real>, gate: real,
                            env: map<string, real>)
    requires |readings| == |metrics| && Accepted(metrics, scaleToZero) && SomeDeclares(metrics, Up)
    requires Reads(metrics, readings, env) && GATE in env && env[GATE] == gate
    ensures Interchangeable(BandTree(metrics), SwappedBandTree(metrics), env)
  {
    NamesNotEmpty(metrics, scaleToZero);
    BandMeaning(metrics, readings, gate, env);
    UpMeaning(metrics, readings, gate, env);
    PredMeaning(metrics, readings, Down, env);
    GuardsExclusive(metrics, scaleToZero, readings);
    MultiplierValues();
    var up := If(UpPred(metrics), Leaf(SCALE_UP), Leaf(HOLD));
    var t := SwappedBandTree(metrics);
    assert TreeOk(up.yes) && TreeOk(up.no) && TreeOk(t.yes);
    assert TreeOk(up) && TreeBound(up, env);
    assert Meaning(up, env) == if gate == 1.0 && AllMeet(metrics, readings, Up) then 2.0 else 1.0;
    SwappedClean(metrics);
  }

  lemma SwappedClean(metrics: seq<Metric>)
    ensures Clean(SwappedBandTree(metrics)) <==> Clean(BandTree(metrics))
  {
    var p := AllOrNever(TestsOf(metrics, Down));
    assert Clean(Leaf(SCALE_UP)) && Clean(Leaf(SCALE_DOWN)) && Clean(Leaf(HOLD));
    var down := If(p, Leaf(SCALE_DOWN), Leaf(HOLD));
    assert Clean(down) <==> p.Never? || TestsClean(p.tests);
    var up := If(UpPred(metrics), Leaf(SCALE_UP), Leaf(HOLD));
    assert Clean(up) <==> TestsClean(UpPred(metrics).tests);
  }

  /** So it does not matter in the whole formula, where the band may be nested inside the parking
      test: both printed forms evaluate to the same number for every accepted configuration and
      every reading, or neither compiles. */
  lemma BranchOrderIrrelevant(metrics: seq<Metric>, minReplicas: int, maxReplicas: int, readings: seq<real>,
                              gate: real, replicas: real)
    requires |readings| == |metrics| && Accepted(metrics, minReplicas == 0)
    ensures var env := EnvOf(metrics, minReplicas, readings, gate, replicas);
            Evaluate(TreeText(SwappedFormulaTree(metrics, minReplicas, maxReplicas)), env)
            == Evaluate(TreeText(FormulaTree(metrics, minReplicas, maxReplicas)), env)
  {
    var env := EnvOf(metrics, minReplicas, readings, gate, replicas);
    EnvLookup(metrics, minReplicas, readings, gate, replicas);
    NamesNotEmpty(metrics, minReplicas == 0);
    if minReplicas != 0 {
      assert Declares(metrics[0], Up);
      BandOrderIrrelevant(metrics, false, readings, gate, env);
    } else {
      SwappedNonZero(metrics, maxReplicas, readings, gate, env);
      CountMeaning(replicas, env);
      ZeroMeaning(metrics, readings, env);
      InterchangeableElse(All([Test(REPLICA_COUNT, Eq, ZERO)]), ZeroTree(metrics),
                          NonZeroTree(metrics, maxReplicas), SwappedNonZeroTree(metrics, maxReplicas), env);
    }
    InterchangeableTexts(FormulaTree(metrics, minReplicas, maxReplicas),
                         SwappedFormulaTree(metrics, minReplicas, maxReplicas), env);
  }

  lemma SwappedNonZero(metrics: seq<Metric>, maxReplicas: int, readings: seq<real>, gate: real,
                       env: map<string, real>)
    requires |readings| == |metrics| && Accepted(metrics, true)
    requires Reads(metrics, readings, env) && GATE in env && env[GATE] == gate
    ensures Interchangeable(NonZeroTree(metrics, maxReplicas), SwappedNonZeroTree(metrics, maxReplicas), env)
  {
    NamesNotEmpty(metrics, true);
    NonZeroMeaning(metrics, maxReplicas, readings, gate, env);
    PredMeaning(metrics, readings, Deactivation, env);
    TestsNonEmpty(metrics, Up);
    if maxReplicas > 1 && TestsOf(metrics, Up) != [] {
      BandOrderIrrelevant(metrics, true, readings, gate, env);
      InterchangeableElse(AllOrNever(TestsOf(metrics, Deactivation)), Leaf(DEACTIVATE), BandTree(metrics),
                          SwappedBandTree(metrics), env);
    }
  }

  /** Hysteresis: one banded metric anywhere between its thresholds holds the replica count. */
  lemma InsideBandHolds(metrics: seq<Metric>, minReplicas: int, maxReplicas: int, readings: seq<real>,
                        gate: real, replicas: real, i: nat)
    requires |readings| == |metrics| && i < |metrics| && metrics[i].HasBand()
    requires metrics[i].down.value.Value() <= readings[i] <= metrics[i].up.value.Value()
    requires minReplicas == 0 ==> replicas != 0.0 && !AllMeet(metrics, readings, Deactivation)
    ensures Decide(metrics, minReplicas, maxReplicas, readings, gate, replicas) == 1.0
  {
    assert Declares(metrics[i], Up) && Declares(metrics[i], Down);
    assert !Meets(metrics[i], Up, readings[i]) && !Meets(metrics[i], Down, readings[i]);
  }

  // ------------------------------------------------- the "false" placeholder

  predicate NoPlaceholder(t: Tree) {
    t.If? ==> !t.pred.Never? && NoPlaceholder(t.yes) && NoPlaceholder(t.no)
  }

  predicate Unplaced(t: Test) {
    t.name != "false"
  }

  lemma {:induction false} JoinWords(tests: seq<Test>, sep: Token, k: seq<Token>)
    requires !sep.Word?
    ensures Word("false") !in JoinTokens(tests, sep, k) <==>
              EachTest(tests, (x: Test) => Unplaced(x)) && Word("false") !in k
  {
    if |tests| > 1 {
      assert forall i | 0 <= i < |tests[1..]| :: tests[1..][i] == tests[i + 1];
      assert forall i | 0 < i < |tests| :: tests[i] == tests[1..][i - 1];
      JoinWords(tests[1..], sep, k);
      TestWords(tests[0], [sep] + JoinTokens(tests[1..], sep, k));
    } else if tests != [] {
      TestWords(tests[0], k);
    }
  }

  lemma TestWords(t: Test, k: seq<Token>)
    ensures Word("false") !in TestTokens(t, k) <==> Unplaced(t) && Word("false") !in k
  {
    var n := NumTokens(t.bound, k);
    assert Word("false") in n <==> Word("false") in k;
    assert Word("false") in [Word(t.name)] <==> !Unplaced(t);
  }

  lemma {:induction false} TreeWords(t: Tree, k: seq<Token>)
    requires NoPlaceholder(t)
    ensures Word("false") !in TreeTokens(t, k) <==>
              EveryTest(t, (x: Test) => Unplaced(x)) && Word("false") !in k
    decreases t, 0
  {
    if t.If? {
      BranchWords(t.no, k);
      var k1 := [Colon] + BranchTokens(t.no, k);
      BranchWords(t.yes, k1);
      var k2 := [RParen, Question] + BranchTokens(t.yes, k1);
      JoinWords(t.pred.tests, if t.pred.All? then AndAnd else OrOr, k2);
    }
  }

  lemma {:induction false} BranchWords(t: Tree, k: seq<Token>)
    requires NoPlaceholder(t)
    ensures Word("false") !in BranchTokens(t, k) <==>
              EveryTest(t, (x: Test) => Unplaced(x)) && Word("false") !in k
    decreases t, 1
  {
    TreeWords(t, k);
    TreeWords(t, [RParen] + k);
  }

  /** An accepted configuration never prints the inert "false" placeholder, so every branch of its
      formula can fire: the word is in the text exactly when a metric whose threshold is printed is
      itself named that way. */
  lemma NeverPrintsPlaceholder(metrics: seq<Metric>, minReplicas: int, maxReplicas: int)
    requires Accepted(metrics, minReplicas == 0)
    ensures Word("false") in Lex(TreeText(FormulaTree(metrics, minReplicas, maxReplicas))) <==>
              exists i, kind | 0 <= i < |metrics| && Printed(metrics[i], kind, minReplicas, maxReplicas) ::
                VarName(metrics[i].key) == "false"
  {
    var t := FormulaTree(metrics, minReplicas, maxReplicas);
    var ok := (x: Test) => Unplaced(x);
    var readings := seq(|metrics|, _ => 0.0);
    TreeMeaning(metrics, minReplicas, maxReplicas, readings, 0.0, 0.0);
    PlaceholderFree(metrics, minReplicas, maxReplicas);
    assert TreeText(t) + "" == TreeText(t);
    LexTree(t, "");
    TreeWords(t, []);
    assert |GATE| != |"false"| && |REPLICA_COUNT| != |"false"|;
    FormulaTests(metrics, minReplicas, maxReplicas, ok);
    forall i, kind | 0 <= i < |metrics| && Printed(metrics[i], kind, minReplicas, maxReplicas)
      ensures ok(Contributed(metrics[i], kind)) <==> VarName(metrics[i].key) != "false"
    {
    }
  }

  lemma DeclaredTests(metrics: seq<Metric>, i: nat)
    requires Accepted(metrics, true) && i < |metrics|
    ensures metrics[i].activation.Some? ==> Declares(metrics[i], Deactivation)
    ensures Declares(metrics[i], Up) <==> Declares(metrics[i], Down)
  {
    assert MetricAccepted(metrics[i], true);
  }

  lemma ParkedPlaceholderFree(metrics: seq<Metric>)
    requires Accepted(metrics, true)
    ensures TestsOf(metrics, Activation) != [] && TestsOf(metrics, Deactivation) != []
    ensures TestsOf(metrics, Up) != [] ==> TestsOf(metrics, Down) != []
  {
    TestsNonEmpty(metrics, Activation);
    TestsNonEmpty(metrics, Deactivation);
    TestsNonEmpty(metrics, Up);
    TestsNonEmpty(metrics, Down);
    var i :| 0 <= i < |metrics| && metrics[i].activation.Some?;
    DeclaredTests(metrics, i);
    assert Declares(metrics[i], Activation);
    if SomeDeclares(metrics, Up) {
      var j :| 0 <= j < |metrics| && Declares(metrics[j], Up);
      DeclaredTests(metrics, j);
    }
  }

  lemma PlaceholderFree(metrics: seq<Metric>, minReplicas: int, maxReplicas: int)
    requires Accepted(metrics, minReplicas == 0)
    ensures NoPlaceholder(FormulaTree(metrics, minReplicas, maxReplicas))
  {
    BandPlaceholderFree(metrics);
    if minReplicas != 0 {
      TestsNonEmpty(metrics, Down);
      assert Declares(metrics[0], Down);
    } else {
      ParkedPlaceholderFree(metrics);
      assert NoPlaceholder(ZeroTree(metrics));
      assert NoPlaceholder(NonZeroTree(metrics, maxReplicas));
    }
  }

  lemma BandPlaceholderFree(metrics: seq<Metric>)
    ensures TestsOf(metrics, Down) != [] ==> NoPlaceholder(BandTree(metrics))
  {
    if TestsOf(metrics, Down) != [] {
      var down := If(AllOrNever(TestsOf(metrics, Down)), Leaf(SCALE_DOWN), Leaf(HOLD));
      assert NoPlaceholder(down.yes) && NoPlaceholder(down.no);
      assert NoPlaceholder(down);
      assert NoPlaceholder(Leaf(SCALE_UP));
    }
  }
}
