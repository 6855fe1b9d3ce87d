/** The scaling decision computed straight from the metric list, the proof that the printed
    formula computes it, and the safety properties of the decision. */
module Decision {
  import opened Core
  import opened Numbers
  import opened Telemetry
  import opened ExprLang
  import opened FormulaText
  import opened FormulaMeaning
  import opened Provisioner
  import opened Formula

  predicate Declares(m: Metric, kind: Kind) {
    match kind
    case Activation => m.activation.Some?
    case Deactivation => m.deactivation.Some?
    case Up => m.HasBand()
    case Down => m.HasBand()
  }

  predicate Meets(m: Metric, kind: Kind, reading: real)
    requires Declares(m, kind)
  {
    match kind
    case Activation => reading > m.activation.value.Value()
    case Deactivation => reading <= m.deactivation.value.Value()
    case Up => reading > m.up.value.Value()
    case Down => reading < m.down.value.Value()
  }

  predicate SomeDeclares(metrics: seq<Metric>, kind: Kind) {
    exists i | 0 <= i < |metrics| :: Declares(metrics[i], kind)
  }

  /** Some metric that declares this kind of threshold is past it. */
  predicate AnyMeets(metrics: seq<Metric>, readings: seq<real>, kind: Kind)
    requires |readings| == |metrics|
  {
    exists i | 0 <= i < |metrics| :: Declares(metrics[i], kind) && Meets(metrics[i], kind, readings[i])
  }

  /** Every metric that declares this kind of threshold is past it, and at least one does. */
  predicate AllMeet(metrics: seq<Metric>, readings: seq<real>, kind: Kind)
    requires |readings| == |metrics|
  {
    && SomeDeclares(metrics, kind)
    && forall i | 0 <= i < |metrics| ::
         Declares(metrics[i], kind) ==> Meets(metrics[i], kind, readings[i])
  }

  /** The policy: wake on any activation signal, park when every deactivation signal agrees,
      otherwise double when ready and everything is above its band, halve when everything is
      below it, and hold. */
  function Decide(metrics: seq<Metric>, minReplicas: int, maxReplicas: int, readings: seq<real>,
                  gate: real, replicas: real): real
    requires |readings| == |metrics|
  {
    if minReplicas == 0 && replicas == 0.0 then
      if AnyMeets(metrics, readings, Activation) then 1.0 else 0.0
    else if minReplicas == 0 && AllMeet(metrics, readings, Deactivation) then 0.0
    else if minReplicas == 0 && !(maxReplicas > 1 && SomeDeclares(metrics, Up)) then 1.0
    else if gate == 1.0 && AllMeet(metrics, readings, Up) then 2.0
    else if AllMeet(metrics, readings, Down) then 0.5
    else 1.0
  }

  // ------------------------------------------------------- trigger values

  function MetricEnv(metrics: seq<Metric>, readings: seq<real>): map<string, real>
    requires |readings| == |metrics|
  {
    if metrics == [] then map[]
    else
      var n := |metrics| - 1;
      MetricEnv(metrics[..n], readings[..n])[VarName(metrics[n].key) := readings[n]]
  }

  /** What KEDA binds: one variable per trigger, named after the trigger. */
  function EnvOf(metrics: seq<Metric>, minReplicas: int, readings: seq<real>, gate: real, replicas: real)
    : map<string, real>
    requires |readings| == |metrics|
  {
    var env := MetricEnv(metrics, readings)[GATE := gate];
    if minReplicas == 0 then env[REPLICA_COUNT := replicas] else env
  }

  ghost predicate DistinctNames(metrics: seq<Metric>) {
    forall i, j | 0 <= i < j < |metrics| :: VarName(metrics[i].key) != VarName(metrics[j].key)
  }

  lemma {:induction false} MetricEnvLookup(metrics: seq<Metric>, readings: seq<real>)
    requires |readings| == |metrics| && DistinctNames(metrics)
    ensures forall i | 0 <= i < |metrics| ::
              && VarName(metrics[i].key) in MetricEnv(metrics, readings)
              && MetricEnv(metrics, readings)[VarName(metrics[i].key)] == readings[i]
  {
    if metrics != [] {
      var n := |metrics| - 1;
      MetricEnvLookup(metrics[..n], readings[..n]);
      forall i | 0 <= i < n
        ensures VarName(metrics[i].key) in MetricEnv(metrics, readings)
        ensures MetricEnv(metrics, readings)[VarName(metrics[i].key)] == readings[i]
      {
        assert metrics[..n][i] == metrics[i] && readings[..n][i] == readings[i];
      }
    }
  }

  lemma EnvLookup(metrics: seq<Metric>, minReplicas: int, readings: seq<real>, gate: real, replicas: real)
    requires |readings| == |metrics| && Accepted(metrics, minReplicas == 0)
    ensures var env := EnvOf(metrics, minReplicas, readings, gate, replicas);
            && GATE in env && env[GATE] == gate
            && (minReplicas == 0 ==> REPLICA_COUNT in env && env[REPLICA_COUNT] == replicas)
            && forall i | 0 <= i < |metrics| ::
                 && VarName(metrics[i].key) in env && env[VarName(metrics[i].key)] == readings[i]
  {
    MetricEnvLookup(metrics, readings);
    assert |GATE| != |REPLICA_COUNT|;
  }

  // ------------------------------------------------ from tests to the policy

  /** `env` gives each metric its own reading. */
  predicate Reads(metrics: seq<Metric>, readings: seq<real>, env: map<string, real>)
    requires |readings| == |metrics|
  {
    forall i | 0 <= i < |metrics| ::
      VarName(metrics[i].key) in env && env[VarName(metrics[i].key)] == readings[i]
  }

  ghost predicate AllHold(tests: seq<Test>, env: map<string, real>) {
    forall i | 0 <= i < |tests| ::
      tests[i].bound.Valid() && tests[i].name in env && Holds(tests[i], env)
  }

  ghost predicate SomeHolds(tests: seq<Test>, env: map<string, real>) {
    exists i | 0 <= i < |tests| ::
      tests[i].bound.Valid() && tests[i].name in env && Holds(tests[i], env)
  }

  ghost predicate AllDeclaredMeet(metrics: seq<Metric>, readings: seq<real>, kind: Kind)
    requires |readings| == |metrics|
  {
    forall i | 0 <= i < |metrics| ::
      Declares(metrics[i], kind) ==> Meets(metrics[i], kind, readings[i])
  }

  lemma TestMeaning(m: Metric, kind: Kind, reading: real, env: map<string, real>)
    requires m.key != "" && VarName(m.key) in env && env[VarName(m.key)] == reading
    ensures TestOf(m, kind).Some? == Declares(m, kind)
    ensures Declares(m, kind) ==>
              var t := TestOf(m, kind).value;
              && TestOk(t) && t.name == VarName(m.key)
              && (Holds(t, env) <==> Meets(m, kind, reading))
  {
    VarNameIsName(m.key);
  }

  ghost predicate TestsUsable(tests: seq<Test>, env: map<string, real>) {
    forall i | 0 <= i < |tests| :: TestOk(tests[i]) && tests[i].name in env
  }

  ghost predicate KeysNamed(metrics: seq<Metric>) {
    forall i | 0 <= i < |metrics| :: metrics[i].key != ""
  }

  /** What the printed tests of one kind say about the metrics. */
  ghost predicate TestsAgree(tests: seq<Test>, metrics: seq<Metric>, readings: seq<real>, kind: Kind,
                             env: map<string, real>)
    requires |readings| == |metrics|
  {
    && TestsUsable(tests, env)
    && (tests != [] <==> SomeDeclares(metrics, kind))
    && (AllHold(tests, env) <==> AllDeclaredMeet(metrics, readings, kind))
    && (SomeHolds(tests, env) <==> AnyMeets(metrics, readings, kind))
  }

  lemma AgreeSnoc(tests: seq<Test>, metrics: seq<Metric>, readings: seq<real>, m: Metric, r: real, kind: Kind,
                  env: map<string, real>)
    requires |readings| == |metrics| && TestsAgree(tests, metrics, readings, kind, env)
    requires m.key != "" && VarName(m.key) in env && env[VarName(m.key)] == r
    ensures TestsAgree(tests + if Declares(m, kind) then [TestOf(m, kind).value] else [],
                       metrics + [m], readings + [r], kind, env)
  {
    TestMeaning(m, kind, r, env);
    PolicySnoc(metrics, readings, m, r, kind);
    if Declares(m, kind) {
      HoldSnoc(tests, TestOf(m, kind).value, env);
    } else {
      assert tests + [] == tests;
    }
  }

  lemma KindSnoc(metrics: seq<Metric>, m: Metric, kind: Kind)
    ensures TestsOf(metrics + [m], kind)
            == TestsOf(metrics, kind) + if Declares(m, kind) then [TestOf(m, kind).value] else []
  {
    assert (metrics + [m])[..|metrics|] == metrics;
  }

  lemma {:induction false} TestsMeaning(metrics: seq<Metric>, readings: seq<real>, kind: Kind,
                                        env: map<string, real>)
    requires |readings| == |metrics| && Reads(metrics, readings, env) && KeysNamed(metrics)
    ensures TestsAgree(TestsOf(metrics, kind), metrics, readings, kind, env)
  {
    if metrics != [] {
      var n := |metrics| - 1;
      var m, init, before := metrics[n], metrics[..n], readings[..n];
      assert forall i | 0 <= i < n :: init[i] == metrics[i] && before[i] == readings[i];
      TestsMeaning(init, before, kind, env);
      AgreeSnoc(TestsOf(init, kind), init, before, m, readings[n], kind, env);
      assert init + [m] == metrics && before + [readings[n]] == readings;
      KindSnoc(init, m, kind);
    }
  }

  lemma PolicySnoc(metrics: seq<Metric>, readings: seq<real>, m: Metric, r: real, kind: Kind)
    requires |readings| == |metrics|
    ensures SomeDeclares(metrics + [m], kind) <==> SomeDeclares(metrics, kind) || Declares(m, kind)
    ensures AllDeclaredMeet(metrics + [m], readings + [r], kind)
            <==> AllDeclaredMeet(metrics, readings, kind) && (Declares(m, kind) ==> Meets(m, kind, r))
    ensures AnyMeets(metrics + [m], readings + [r], kind)
            <==> AnyMeets(metrics, readings, kind) || (Declares(m, kind) && Meets(m, kind, r))
  {
    var n, ms, rs := |metrics|, metrics + [m], readings + [r];
    assert ms[n] == m && rs[n] == r;
    assert forall i | 0 <= i < n :: ms[i] == metrics[i] && rs[i] == readings[i];
  }

  lemma HoldSnoc(tests: seq<Test>, t: Test, env: map<string, real>)
    requires t.bound.Valid() && t.name in env
    ensures AllHold(tests + [t], env) <==> AllHold(tests, env) && Holds(t, env)
    ensures SomeHolds(tests + [t], env) <==> SomeHolds(tests, env) || Holds(t, env)
  {
    var ts := tests + [t];
    assert ts[|tests|] == t;
    assert forall i | 0 <= i < |tests| :: ts[i] == tests[i];
  }

  lemma MultiplierValues()
    ensures SCALE_UP.Value() == 2.0 && SCALE_DOWN.Value() == 0.5 && HOLD.Value() == 1.0
    ensures ACTIVATE.Value() == 1.0 && DEACTIVATE.Value() == 0.0
    ensures ONE.Value() == 1.0 && ZERO.Value() == 0.0
  {
    assert DigitsValue("2") == 2 && DigitsValue("1") == 1 && DigitsValue("0") == 0;
    assert FractionValue("0") == 0.0 && FractionValue("5") == 0.5;
  }

  lemma GateIsTest(gate: real, env: map<string, real>)
    requires GATE in env && env[GATE] == gate
    ensures var t := Test(GATE, Eq, ONE); TestOk(t) && (Holds(t, env) <==> gate == 1.0)
  {
    MultiplierValues();
    assert forall i | 0 <= i < |GATE| :: IsWordChar(GATE[i]);
  }

  lemma UpMeaning(metrics: seq<Metric>, readings: seq<real>, gate: real, env: map<string, real>)
    requires |readings| == |metrics| && Reads(metrics, readings, env)
    requires KeysNamed(metrics)
    requires GATE in env && env[GATE] == gate
    ensures PredOk(UpPred(metrics)) && PredBound(UpPred(metrics), env)
    ensures PredHolds(UpPred(metrics), env)
            <==> gate == 1.0 && AllDeclaredMeet(metrics, readings, Up)
  {
    TestsMeaning(metrics, readings, Up, env);
    GateIsTest(gate, env);
    ConsHold(Test(GATE, Eq, ONE), TestsOf(metrics, Up), env);
    HoldIsPred([Test(GATE, Eq, ONE)] + TestsOf(metrics, Up), env);
  }

  lemma ConsHold(t: Test, tests: seq<Test>, env: map<string, real>)
    requires TestsUsable(tests, env) && TestOk(t) && t.name in env
    ensures TestsUsable([t] + tests, env)
    ensures AllHold([t] + tests, env) <==> Holds(t, env) && AllHold(tests, env)
  {
    var ts := [t] + tests;
    assert ts[0] == t;
    assert forall i | 0 < i < |ts| :: ts[i] == tests[i - 1];
    assert forall i | 0 <= i < |tests| :: tests[i] == ts[i + 1];
  }

  lemma HoldIsPred(tests: seq<Test>, env: map<string, real>)
    requires tests != [] && TestsUsable(tests, env)
    ensures PredOk(All(tests)) && PredBound(All(tests), env)
    ensures PredHolds(All(tests), env) <==> AllHold(tests, env)
    ensures PredOk(AnyOf(tests)) && PredBound(AnyOf(tests), env)
    ensures PredHolds(AnyOf(tests), env) <==> SomeHolds(tests, env)
  {
  }

  lemma PredMeaning(metrics: seq<Metric>, readings: seq<real>, kind: Kind, env: map<string, real>)
    requires |readings| == |metrics| && Reads(metrics, readings, env)
    requires KeysNamed(metrics)
    ensures var p := AllOrNever(TestsOf(metrics, kind));
            PredOk(p) && PredBound(p, env) && (PredHolds(p, env) <==> AllMeet(metrics, readings, kind))
    ensures var p := AnyOrNever(TestsOf(metrics, kind));
            PredOk(p) && PredBound(p, env) && (PredHolds(p, env) <==> AnyMeets(metrics, readings, kind))
  {
    TestsMeaning(metrics, readings, kind, env);
    if TestsOf(metrics, kind) != [] {
      HoldIsPred(TestsOf(metrics, kind), env);
    }
  }

  lemma BandMeaning(metrics: seq<Metric>, readings: seq<real>, gate: real, env: map<string, real>)
    requires |readings| == |metrics| && Reads(metrics, readings, env)
    requires KeysNamed(metrics)
    requires GATE in env && env[GATE] == gate && SomeDeclares(metrics, Up)
    ensures var t := BandTree(metrics);
            && TreeOk(t) && TreeBound(t, env)
            && Meaning(t, env) == if gate == 1.0 && AllMeet(metrics, readings, Up) then 2.0
                                  else if AllMeet(metrics, readings, Down) then 0.5
                                  else 1.0
  {
    UpMeaning(metrics, readings, gate, env);
    PredMeaning(metrics, readings, Down, env);
    MultiplierValues();
    var down := If(AllOrNever(TestsOf(metrics, Down)), Leaf(SCALE_DOWN), Leaf(HOLD));
    assert TreeOk(down.yes) && TreeOk(down.no) && TreeBound(down.yes, env) && TreeBound(down.no, env);
    assert Meaning(down, env) == if AllMeet(metrics, readings, Down) then 0.5 else 1.0;
  }

  lemma CountMeaning(replicas: real, env: map<string, real>)
    requires REPLICA_COUNT in env && env[REPLICA_COUNT] == replicas
    ensures var p := All([Test(REPLICA_COUNT, Eq, ZERO)]);
            PredOk(p) && PredBound(p, env) && (PredHolds(p, env) <==> replicas == 0.0)
  {
    MultiplierValues();
    var p := All([Test(REPLICA_COUNT, Eq, ZERO)]);
    assert p.tests[0] == Test(REPLICA_COUNT, Eq, ZERO);
  }

  /** In every environment that binds the triggers, the decision tree means the policy. */
  lemma TreeMeaningIn(metrics: seq<Metric>, minReplicas: int, maxReplicas: int, readings: seq<real>,
                      gate: real, replicas: real, env: map<string, real>)
    requires |readings| == |metrics| && Accepted(metrics, minReplicas == 0) && Reads(metrics, readings, env)
    requires GATE in env && env[GATE] == gate
    requires minReplicas == 0 ==> REPLICA_COUNT in env && env[REPLICA_COUNT] == replicas
    ensures var t := FormulaTree(metrics, minReplicas, maxReplicas);
            && TreeOk(t) && TreeBound(t, env)
            && Meaning(t, env) == Decide(metrics, minReplicas, maxReplicas, readings, gate, replicas)
  {
    NamesNotEmpty(metrics, minReplicas == 0);
    if minReplicas != 0 {
      assert Declares(metrics[0], Up);
      BandMeaning(metrics, readings, gate, env);
    } else {
      CountMeaning(replicas, env);
      ZeroMeaning(metrics, readings, env);
      NonZeroMeaning(metrics, maxReplicas, readings, gate, env);
    }
  }

  lemma TreeMeaning(metrics: seq<Metric>, minReplicas: int, maxReplicas: int, readings: seq<real>,
                    gate: real, replicas: real)
    requires |readings| == |metrics| && Accepted(metrics, minReplicas == 0)
    ensures var t := FormulaTree(metrics, minReplicas, maxReplicas);
            var env := EnvOf(metrics, minReplicas, readings, gate, replicas);
            && TreeOk(t) && TreeBound(t, env)
            && Meaning(t, env) == Decide(metrics, minReplicas, maxReplicas, readings, gate, replicas)
  {
    EnvLookup(metrics, minReplicas, readings, gate, replicas);
    TreeMeaningIn(metrics, minReplicas, maxReplicas, readings, gate, replicas,
                  EnvOf(metrics, minReplicas, readings, gate, replicas));
  }

  lemma NamesNotEmpty(metrics: seq<Metric>, scaleToZero: bool)
    requires Accepted(metrics, scaleToZero)
    ensures KeysNamed(metrics)
  {
  }

  lemma ZeroMeaning(metrics: seq<Metric>, readings: seq<real>, env: map<string, real>)
    requires |readings| == |metrics| && Reads(metrics, readings, env)
    requires KeysNamed(metrics)
    ensures var t := ZeroTree(metrics);
            && TreeOk(t) && TreeBound(t, env)
            && Meaning(t, env) == if AnyMeets(metrics, readings, Activation) then 1.0 else 0.0
  {
    PredMeaning(metrics, readings, Activation, env);
    MultiplierValues();
  }

  lemma NonZeroMeaning(metrics: seq<Metric>, maxReplicas: int, readings: seq<real>, gate: real,
                       env: map<string, real>)
    requires |readings| == |metrics| && Reads(metrics, readings, env)
    requires KeysNamed(metrics)
    requires GATE in env && env[GATE] == gate
    ensures var t := NonZeroTree(metrics, maxReplicas);
            && TreeOk(t) && TreeBound(t, env)
            && Meaning(t, env) == if AllMeet(metrics, readings, Deactivation) then 0.0
                                  else if !(maxReplicas > 1 && SomeDeclares(metrics, Up)) then 1.0
                                  else if gate == 1.0 && AllMeet(metrics, readings, Up) then 2.0
                                  else if AllMeet(metrics, readings, Down) then 0.5
                                  else 1.0
  {
    PredMeaning(metrics, readings, Deactivation, env);
    TestsMeaning(metrics, readings, Up, env);
    MultiplierValues();
    if SomeDeclares(metrics, Up) {
      BandMeaning(metrics, readings, gate, env);
    }
  }

  // -------------------------------------------------------------- main result

  /** The threshold is printed in the formula. */
  predicate Printed(m: Metric, kind: Kind, minReplicas: int, maxReplicas: int) {
    && Declares(m, kind)
    && if kind == Up || kind == Down then minReplicas != 0 || maxReplicas > 1 else minReplicas == 0
  }

  function Bound(m: Metric, kind: Kind): FiniteDecimal
    requires Declares(m, kind)
  {
    match kind
    case Activation => m.activation.value
    case Deactivation => m.deactivation.value
    case Up => m.up.value
    case Down => m.down.value
  }

  /** Some threshold the formula prints belongs to a metric whose name sanitizes to a reserved word,
      or prints as an integer above the int64 range. */
  ghost predicate Uncompilable(metrics: seq<Metric>, minReplicas: int, maxReplicas: int) {
    exists i, kind | 0 <= i < |metrics| && Printed(metrics[i], kind, minReplicas, maxReplicas) ::
      VarName(metrics[i].key) in RESERVED
      || !Readable(Bound(metrics[i], kind).whole, Bound(metrics[i], kind).fraction)
  }

  /** Every test of the tree satisfies `ok`. */
  predicate EachTest(tests: seq<Test>, ok: Test -> bool) {
    forall i | 0 <= i < |tests| :: ok(tests[i])
  }

  predicate EveryTest(t: Tree, ok: Test -> bool) {
    t.If? ==> (t.pred.Never? || EachTest(t.pred.tests, ok)) && EveryTest(t.yes, ok) && EveryTest(t.no, ok)
  }

  /** Every metric that declares this kind of threshold contributes a test that satisfies `ok`. */
  ghost predicate DeclaredOk(metrics: seq<Metric>, kind: Kind, ok: Test -> bool) {
    forall i | 0 <= i < |metrics| && Declares(metrics[i], kind) ::
      ok(Contributed(metrics[i], kind))
  }

  function Contributed(m: Metric, kind: Kind): Test
    requires Declares(m, kind)
  {
    TestOf(m, kind).value
  }

  lemma EachSnoc(tests: seq<Test>, t: Test, ok: Test -> bool)
    ensures EachTest(tests + [t], ok) <==> EachTest(tests, ok) && ok(t)
  {
    var ts := tests + [t];
    assert ts[|tests|] == t;
    assert forall i | 0 <= i < |tests| :: ts[i] == tests[i];
  }

  lemma EachCons(t: Test, tests: seq<Test>, ok: Test -> bool)
    ensures EachTest([t] + tests, ok) <==> ok(t) && EachTest(tests, ok)
  {
    var ts := [t] + tests;
    assert ts[0] == t;
    assert forall i | 0 <= i < |tests| :: ts[i + 1] == tests[i];
    assert forall i | 0 < i < |ts| :: ts[i] == tests[i - 1];
  }

  lemma {:induction false} TestsOfEach(metrics: seq<Metric>, kind: Kind, ok: Test -> bool)
    ensures EachTest(TestsOf(metrics, kind), ok) <==> DeclaredOk(metrics, kind, ok)
  {
    if metrics != [] {
      var n := |metrics| - 1;
      var init, m := metrics[..n], metrics[n];
      TestsOfEach(init, kind, ok);
      assert forall i | 0 <= i < n :: init[i] == metrics[i];
      assert DeclaredOk(metrics, kind, ok) <==>
             DeclaredOk(init, kind, ok) && (Declares(m, kind) ==> ok(Contributed(m, kind)));
      if Declares(m, kind) {
        EachSnoc(TestsOf(init, kind), Contributed(m, kind), ok);
      } else {
        assert TestsOf(metrics, kind) == TestsOf(init, kind);
      }
    }
  }

  lemma {:induction false} TestsNonEmpty(metrics: seq<Metric>, kind: Kind)
    ensures TestsOf(metrics, kind) != [] <==> SomeDeclares(metrics, kind)
  {
    if metrics != [] {
      var n := |metrics| - 1;
      TestsNonEmpty(metrics[..n], kind);
      assert forall i | 0 <= i < n :: metrics[..n][i] == metrics[i];
      assert Declares(metrics[n], kind) <==> TestOf(metrics[n], kind).Some?;
    }
  }

  lemma BandTests(metrics: seq<Metric>, ok: Test -> bool)
    requires ok(Test(GATE, Eq, ONE))
    ensures EveryTest(BandTree(metrics), ok) <==> DeclaredOk(metrics, Up, ok) && DeclaredOk(metrics, Down, ok)
  {
    EachCons(Test(GATE, Eq, ONE), TestsOf(metrics, Up), ok);
    TestsOfEach(metrics, Up, ok);
    TestsOfEach(metrics, Down, ok);
    var down := If(AllOrNever(TestsOf(metrics, Down)), Leaf(SCALE_DOWN), Leaf(HOLD));
    assert EveryTest(down, ok) <==> EachTest(TestsOf(metrics, Down), ok);
  }

  lemma ParkTests(metrics: seq<Metric>, maxReplicas: int, ok: Test -> bool)
    requires ok(Test(GATE, Eq, ONE))
    ensures EveryTest(ZeroTree(metrics), ok) <==> DeclaredOk(metrics, Activation, ok)
    ensures EveryTest(NonZeroTree(metrics, maxReplicas), ok) <==>
              && DeclaredOk(metrics, Deactivation, ok)
              && (maxReplicas > 1 ==> DeclaredOk(metrics, Up, ok) && DeclaredOk(metrics, Down, ok))
  {
    TestsOfEach(metrics, Activation, ok);
    TestsOfEach(metrics, Deactivation, ok);
    TestsNonEmpty(metrics, Up);
    BandTests(metrics, ok);
    assert forall i | 0 <= i < |metrics| :: Declares(metrics[i], Up) == Declares(metrics[i], Down);
  }

  lemma CountTests(metrics: seq<Metric>, maxReplicas: int, ok: Test -> bool)
    requires ok(Test(REPLICA_COUNT, Eq, ZERO))
    ensures EveryTest(FormulaTree(metrics, 0, maxReplicas), ok)
            <==> EveryTest(ZeroTree(metrics), ok) && EveryTest(NonZeroTree(metrics, maxReplicas), ok)
  {
  }

  /** The tests of a formula are the gate's, the replica count's and those of the printed
      thresholds. */
  lemma FormulaTests(metrics: seq<Metric>, minReplicas: int, maxReplicas: int, ok: Test -> bool)
    requires ok(Test(GATE, Eq, ONE)) && ok(Test(REPLICA_COUNT, Eq, ZERO))
    ensures EveryTest(FormulaTree(metrics, minReplicas, maxReplicas), ok) <==>
              forall i, kind | 0 <= i < |metrics| && Printed(metrics[i], kind, minReplicas, maxReplicas) ::
                ok(Contributed(metrics[i], kind))
  {
    if minReplicas != 0 {
      BandTests(metrics, ok);
    } else {
      CountTests(metrics, maxReplicas, ok);
      ParkTests(metrics, maxReplicas, ok);
    }
  }

  lemma ReservedNamesAreOurs()
    ensures TestClean(Test(GATE, Eq, ONE)) && TestClean(Test(REPLICA_COUNT, Eq, ZERO))
  {
    MultiplierValues();
    assert forall w | w in RESERVED :: |w| <= 10;
    assert DigitsValue("1") == 1 && DigitsValue("0") == 0;
  }

  predicate LeavesFit(t: Tree) {
    match t
    case Leaf(d) => Readable(d.whole, d.fraction)
    case If(_, yes, no) => LeavesFit(yes) && LeavesFit(no)
  }

  lemma {:induction false} CleanIsEveryTest(t: Tree)
    ensures Clean(t) <==> EveryTest(t, (x: Test) => TestClean(x)) && LeavesFit(t)
  {
    if t.If? {
      CleanIsEveryTest(t.yes);
      CleanIsEveryTest(t.no);
    }
  }

  lemma LeavesOfIf(p: Pred, yes: Decimal, no: Tree)
    requires Readable(yes.whole, yes.fraction) && LeavesFit(no)
    ensures LeavesFit(If(p, Leaf(yes), no))
  {
    var leaf := Leaf(yes);
    assert LeavesFit(leaf);
  }

  lemma BandLeavesFit(metrics: seq<Metric>)
    ensures LeavesFit(BandTree(metrics)) && LeavesFit(ZeroTree(metrics))
  {
    var down := AllOrNever(TestsOf(metrics, Down));
    assert LeavesFit(Leaf(HOLD)) && LeavesFit(Leaf(DEACTIVATE));
    LeavesOfIf(down, SCALE_DOWN, Leaf(HOLD));
    LeavesOfIf(UpPred(metrics), SCALE_UP, If(down, Leaf(SCALE_DOWN), Leaf(HOLD)));
    LeavesOfIf(AnyOrNever(TestsOf(metrics, Activation)), ACTIVATE, Leaf(DEACTIVATE));
  }

  lemma FormulaLeavesFit(metrics: seq<Metric>, minReplicas: int, maxReplicas: int)
    ensures LeavesFit(FormulaTree(metrics, minReplicas, maxReplicas))
  {
    BandLeavesFit(metrics);
    assert LeavesFit(Leaf(HOLD));
    LeavesOfIf(AllOrNever(TestsOf(metrics, Deactivation)), DEACTIVATE,
               if maxReplicas > 1 && TestsOf(metrics, Up) != [] then BandTree(metrics) else Leaf(HOLD));
    assert LeavesFit(NonZeroTree(metrics, maxReplicas));
  }

  /** A formula is clean exactly when each threshold it prints has an unreserved name and a literal
      that fits. */
  lemma CleanFormula(metrics: seq<Metric>, minReplicas: int, maxReplicas: int)
    ensures Clean(FormulaTree(metrics, minReplicas, maxReplicas))
            <==> !Uncompilable(metrics, minReplicas, maxReplicas)
  {
    var ok := (x: Test) => TestClean(x);
    ReservedNamesAreOurs();
    FormulaTests(metrics, minReplicas, maxReplicas, ok);
    FormulaLeavesFit(metrics, minReplicas, maxReplicas);
    CleanIsEveryTest(FormulaTree(metrics, minReplicas, maxReplicas));
    forall i, kind | 0 <= i < |metrics| && Printed(metrics[i], kind, minReplicas, maxReplicas)
      ensures ok(Contributed(metrics[i], kind)) <==>
                VarName(metrics[i].key) !in RESERVED
                && Readable(Bound(metrics[i], kind).whole, Bound(metrics[i], kind).fraction)
    {
    }
  }

  /** The emitted formula means the decision. For every accepted configuration and every value
      of every trigger, the printed text evaluates to the policy's decision, exactly when every
      threshold it prints has an unreserved name and a literal in range; otherwise it does not
      compile and has no value. */
  lemma FormulaMeansDecision(metrics: seq<Metric>, minReplicas: int, maxReplicas: int,
                             readings: seq<real>, gate: real, replicas: real)
    requires |readings| == |metrics| && Accepted(metrics, minReplicas == 0)
    ensures Evaluate(TreeText(FormulaTree(metrics, minReplicas, maxReplicas)),
                     EnvOf(metrics, minReplicas, readings, gate, replicas))
            == if Uncompilable(metrics, minReplicas, maxReplicas) then None
               else Some(Decide(metrics, minReplicas, maxReplicas, readings, gate, replicas))
  {
    TreeMeaning(metrics, minReplicas, maxReplicas, readings, gate, replicas);
    TextMeansTree(FormulaTree(metrics, minReplicas, maxReplicas),
                  EnvOf(metrics, minReplicas, readings, gate, replicas));
    CleanFormula(metrics, minReplicas, maxReplicas);
  }

  /** Validation does not exclude reserved words: a gauge called "in" is accepted, and its formula
      has no value for any reading. */
  lemma ReservedNameIsAccepted(reading: real, gate: real)
    ensures var m := Metric("in", MODELPOD, SERVICE_AVG, Some(ONE), Some(ZERO), None, None, "");
            && Accepted([m], false)
            && Evaluate(TreeText(FormulaTree([m], 1, 5)), EnvOf([m], 1, [reading], gate, 1.0)) == None
  {
    var m := Metric("in", MODELPOD, SERVICE_AVG, Some(ONE), Some(ZERO), None, None, "");
    MultiplierValues();
    assert VarName("in") == "in";
    assert |"in"| != |GATE| && |SERVICE_AVG| != |WINDOWED_AVG|;
    assert MetricAccepted(m, false);
    assert [m][0] == m && Printed(m, Up, 1, 5) && VarName(m.key) in RESERVED;
    FormulaMeansDecision([m], 1, 5, [reading], gate, 1.0);
  }

  /** Nor does it bound thresholds: 1e19 is a finite float64, prints without a point, and is more
      than an int64 literal can hold. */
  lemma HugeThresholdIsAccepted(reading: real, gate: real)
    ensures var m := Metric("q", MODELPOD, SERVICE_AVG, Some(TEN_TO_19), Some(ZERO), None, None, "");
            && m.up.value.Value() == 10_000_000_000_000_000_000.0
            && Accepted([m], false)
            && Evaluate(TreeText(FormulaTree([m], 1, 5)), EnvOf([m], 1, [reading], gate, 1.0)) == None
  {
    var m := Metric("q", MODELPOD, SERVICE_AVG, Some(TEN_TO_19), Some(ZERO), None, None, "");
    MultiplierValues();
    TenTo19();
    assert VarName("q") == "q";
    assert |"q"| != |GATE| && |SERVICE_AVG| != |WINDOWED_AVG|;
    assert MetricAccepted(m, false);
    assert [m][0] == m && Printed(m, Up, 1, 5) && !Readable(Bound(m, Up).whole, Bound(m, Up).fraction);
    FormulaMeansDecision([m], 1, 5, [reading], gate, 1.0);
  }

  /** 1 and nineteen zeros. */
  const TEN_TO_19: FiniteDecimal := Decimal(false, "10000" + "00000" + "00000" + "00000", "")

  lemma AppendZero(s: string)
    requires AllDigits(s)
    ensures AllDigits(s + "0") && DigitsValue(s + "0") == 10 * DigitsValue(s)
  {
    assert (s + "0")[..|s|] == s;
  }

  lemma AppendFiveZeros(s: string)
    requires AllDigits(s)
    ensures AllDigits(s + "00000") && DigitsValue(s + "00000") == 100_000 * DigitsValue(s)
  {
    AppendZero(s);
    AppendZero(s + "0");
    AppendZero(s + "0" + "0");
    AppendZero(s + "0" + "0" + "0");
    AppendZero(s + "0" + "0" + "0" + "0");
    assert s + "00000" == s + "0" + "0" + "0" + "0" + "0";
  }

  lemma TenTo19()
    ensures DigitsValue(TEN_TO_19.whole) == 10_000_000_000_000_000_000
  {
    TenTo4();
    AppendFiveZeros("10000");
    AppendFiveZeros("10000" + "00000");
    AppendFiveZeros("10000" + "00000" + "00000");
  }

  lemma TenTo4()
    ensures DigitsValue("10000") == 10_000
  {
    AppendZero("1");
    AppendZero("1" + "0");
    AppendZero("1" + "0" + "0");
    AppendZero("1" + "0" + "0" + "0");
    assert "1" + "0" + "0" + "0" + "0" == "10000" && DigitsValue("1") == 1;
  }
}
