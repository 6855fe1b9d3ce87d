/** What KEDA computes from an emitted formula, straight from readings and thresholds
    (pkg/scaledobject/provisioner.go): no notion of the policy in between. */
module FormulaOutcome {
  import opened Core
  import opened Numbers
  import opened ExprLang
  import opened FormulaText
  import opened FormulaMeaning
  import opened Provisioner
  import opened Formula
  import D = Decision
  import S = DecisionSafety

  /** Every trigger's variable is bound: each metric's own name to its reading, and the gate. */
  predicate Binds(metrics: seq<Metric>, readings: seq<real>, gate: real, env: map<string, real>) {
    && |readings| == |metrics|
    && "readiness_gate" in env && env["readiness_gate"] == gate
    && forall i | 0 <= i < |metrics| ::
         VarName(metrics[i].key) in env && env[VarName(metrics[i].key)] == readings[i]
  }

  /** The number computed from the emitted text, None when it does not compile. */
  function Outcome(metrics: seq<Metric>, minReplicas: int, maxReplicas: int, env: map<string, real>)
    : Option<real>
  {
    Evaluate(TreeText(FormulaTree(metrics, minReplicas, maxReplicas)), env)
  }

  lemma OutcomeIsDecision(metrics: seq<Metric>, minReplicas: int, maxReplicas: int, readings: seq<real>,
                          gate: real, replicas: real, env: map<string, real>)
    requires Accepted(metrics, minReplicas == 0) && Binds(metrics, readings, gate, env)
    requires minReplicas == 0 ==> "replica_count" in env && env["replica_count"] == replicas
    ensures var v := Outcome(metrics, minReplicas, maxReplicas, env);
            && (v.Some? <==> !D.Uncompilable(metrics, minReplicas, maxReplicas))
            && (v.Some? ==> v.value == D.Decide(metrics, minReplicas, maxReplicas, readings, gate, replicas))
  {
    D.TreeMeaningIn(metrics, minReplicas, maxReplicas, readings, gate, replicas, env);
    TextMeansTree(FormulaTree(metrics, minReplicas, maxReplicas), env);
    D.CleanFormula(metrics, minReplicas, maxReplicas);
  }

  /** The literal of a threshold: with a point any, without one at most an int64. */
  predicate FitsLiteral(d: FiniteDecimal) {
    d.fraction != "" || DigitsValue(d.whole) <= 0x7FFF_FFFF_FFFF_FFFF
  }

  /** Not a word of the expression language. */
  predicate IsFreeName(name: string) {
    name !in {"true", "false", "nil", "not", "and", "or", "in", "matches", "contains", "startsWith", "endsWith",
              "let", "if", "else"}
  }

  /** Each threshold of the metric that the formula prints has a free name and a literal that fits: the
      activation and deactivation thresholds under scale-to-zero, the band unless the maximum leaves
      nothing to scale. */
  predicate Computes(m: Metric, minReplicas: int, maxReplicas: int) {
    && (minReplicas == 0 && m.activation.Some? ==> IsFreeName(VarName(m.key)) && FitsLiteral(m.activation.value))
    && (minReplicas == 0 && m.deactivation.Some? ==> IsFreeName(VarName(m.key)) && FitsLiteral(m.deactivation.value))
    && ((minReplicas != 0 || maxReplicas > 1) && m.up.Some? && m.down.Some? ==>
          IsFreeName(VarName(m.key)) && FitsLiteral(m.up.value) && FitsLiteral(m.down.value))
  }

  lemma PrintedThresholds(m: Metric, minReplicas: int, maxReplicas: int)
    ensures (forall kind | D.Printed(m, kind, minReplicas, maxReplicas) ::
               VarName(m.key) !in RESERVED && Readable(D.Bound(m, kind).whole, D.Bound(m, kind).fraction))
            <==> Computes(m, minReplicas, maxReplicas)
  {
    var banded := m.up.Some? && m.down.Some? && (minReplicas != 0 || maxReplicas > 1);
    assert D.Printed(m, Up, minReplicas, maxReplicas) <==> banded;
    assert D.Printed(m, Down, minReplicas, maxReplicas) <==> banded;
    assert D.Printed(m, Activation, minReplicas, maxReplicas) <==> m.activation.Some? && minReplicas == 0;
    assert D.Printed(m, Deactivation, minReplicas, maxReplicas) <==> m.deactivation.Some? && minReplicas == 0;
  }

  /** Exactly when the emitted text computes a number at all. */
  lemma ComputesExactlyWhen(metrics: seq<Metric>, minReplicas: int, maxReplicas: int, readings: seq<real>,
                            gate: real, env: map<string, real>)
    requires Accepted(metrics, minReplicas == 0) && Binds(metrics, readings, gate, env)
    requires minReplicas == 0 ==> "replica_count" in env
    ensures Outcome(metrics, minReplicas, maxReplicas, env).Some? <==>
              forall i | 0 <= i < |metrics| :: Computes(metrics[i], minReplicas, maxReplicas)
  {
    var replicas := if minReplicas == 0 then env["replica_count"] else 0.0;
    OutcomeIsDecision(metrics, minReplicas, maxReplicas, readings, gate, replicas, env);
    forall i | 0 <= i < |metrics|
      ensures (forall kind | D.Printed(metrics[i], kind, minReplicas, maxReplicas) ::
                 VarName(metrics[i].key) !in RESERVED
                 && Readable(D.Bound(metrics[i], kind).whole, D.Bound(metrics[i], kind).fraction))
              <==> Computes(metrics[i], minReplicas, maxReplicas)
    {
      PrintedThresholds(metrics[i], minReplicas, maxReplicas);
    }
  }

  /** A workload at zero replicas wakes exactly when some activation threshold is exceeded. */
  lemma WakesExactlyWhen(metrics: seq<Metric>, maxReplicas: int, readings: seq<real>, gate: real,
                         env: map<string, real>)
    requires Accepted(metrics, true) && Binds(metrics, readings, gate, env)
    requires "replica_count" in env && env["replica_count"] == 0.0
    ensures var v := Outcome(metrics, 0, maxReplicas, env);
            v.Some? ==>
              && (v.value == 1.0 <==> exists i | 0 <= i < |metrics| ::
                    metrics[i].activation.Some? && readings[i] > metrics[i].activation.value.Value())
              && (v.value == 1.0 || v.value == 0.0)
  {
    OutcomeIsDecision(metrics, 0, maxReplicas, readings, gate, 0.0, env);
    assert forall i | 0 <= i < |metrics| ::
        D.Declares(metrics[i], Activation) <==> metrics[i].activation.Some?;
  }

  lemma RunningDecision(metrics: seq<Metric>, readings: seq<real>)
    requires |readings| == |metrics| && Accepted(metrics, true)
    ensures D.AllMeet(metrics, readings, Deactivation) <==> forall i | 0 <= i < |metrics| ::
              metrics[i].deactivation.Some? ==> readings[i] <= metrics[i].deactivation.value.Value()
  {
    var i :| 0 <= i < |metrics| && metrics[i].deactivation.Some?;
    assert D.Declares(metrics[i], Deactivation);
    assert forall i | 0 <= i < |metrics| ::
        D.Declares(metrics[i], Deactivation) <==> metrics[i].deactivation.Some?;
  }

  lemma BandDecision(metrics: seq<Metric>, scaleToZero: bool, readings: seq<real>)
    requires |readings| == |metrics| && Accepted(metrics, scaleToZero)
    ensures D.SomeDeclares(metrics, Up) <==> exists i | 0 <= i < |metrics| :: metrics[i].up.Some?
    ensures D.AllMeet(metrics, readings, Up) <==>
              && (exists i | 0 <= i < |metrics| :: metrics[i].up.Some?)
              && forall i | 0 <= i < |metrics| :: metrics[i].up.Some? ==> readings[i] > metrics[i].up.value.Value()
    ensures D.AllMeet(metrics, readings, Down) <==>
              && (exists i | 0 <= i < |metrics| :: metrics[i].up.Some?)
              && forall i | 0 <= i < |metrics| :: metrics[i].down.Some? ==> readings[i] < metrics[i].down.value.Value()
  {
    forall i | 0 <= i < |metrics|
      ensures D.Declares(metrics[i], Up) <==> metrics[i].up.Some?
      ensures D.Declares(metrics[i], Down) <==> metrics[i].up.Some?
      ensures metrics[i].down.Some? <==> metrics[i].up.Some?
    {
      assert MetricAccepted(metrics[i], scaleToZero);
    }
  }

  /** A running workload that may scale to zero: it parks exactly when every deactivation threshold is
      undercut or met; otherwise, with a maximum above 1 and some band, it doubles exactly when it is
      ready and every band is exceeded, and halves exactly when every band is undercut; else it
      holds. */
  lemma RunningExactlyWhen(metrics: seq<Metric>, maxReplicas: int, readings: seq<real>, gate: real,
                           env: map<string, real>)
    requires Accepted(metrics, true) && Binds(metrics, readings, gate, env)
    requires "replica_count" in env && env["replica_count"] != 0.0
    ensures var v := Outcome(metrics, 0, maxReplicas, env);
            var parks := forall i | 0 <= i < |metrics| ::
                           metrics[i].deactivation.Some? ==> readings[i] <= metrics[i].deactivation.value.Value();
            var banded := maxReplicas > 1 && exists i | 0 <= i < |metrics| :: metrics[i].up.Some?;
            v.Some? ==>
              && (v.value == 0.0 <==> parks)
              && (v.value == 2.0 <==> !parks && banded && gate == 1.0 && forall i | 0 <= i < |metrics| ::
                    metrics[i].up.Some? ==> readings[i] > metrics[i].up.value.Value())
              && (v.value == 0.5 <==> !parks && banded && forall i | 0 <= i < |metrics| ::
                    metrics[i].down.Some? ==> readings[i] < metrics[i].down.value.Value())
              && v.value in {0.0, 0.5, 1.0, 2.0}
  {
    OutcomeIsDecision(metrics, 0, maxReplicas, readings, gate, env["replica_count"], env);
    RunningDecision(metrics, readings);
    BandDecision(metrics, true, readings);
    S.GuardsExclusive(metrics, true, readings);
  }

  /** A workload that never scales to zero: it doubles exactly when it is ready and every metric exceeds its
      upper threshold, halves exactly when every metric is below its lower one, and else holds. */
  lemma AlwaysOnExactlyWhen(metrics: seq<Metric>, minReplicas: int, maxReplicas: int, readings: seq<real>,
                            gate: real, env: map<string, real>)
    requires minReplicas != 0 && Accepted(metrics, false) && Binds(metrics, readings, gate, env)
    ensures var v := Outcome(metrics, minReplicas, maxReplicas, env);
            v.Some? ==>
              && (v.value == 2.0 <==> gate == 1.0 && forall i | 0 <= i < |metrics| ::
                    metrics[i].up.Some? && readings[i] > metrics[i].up.value.Value())
              && (v.value == 0.5 <==> forall i | 0 <= i < |metrics| ::
                    metrics[i].down.Some? && readings[i] < metrics[i].down.value.Value())
              && v.value in {0.5, 1.0, 2.0}
  {
    OutcomeIsDecision(metrics, minReplicas, maxReplicas, readings, gate, 0.0, env);
    BandDecision(metrics, false, readings);
    S.GuardsExclusive(metrics, false, readings);
    assert forall i | 0 <= i < |metrics| :: MetricAccepted(metrics[i], false);
    assert metrics[0].up.Some?;
  }
}
