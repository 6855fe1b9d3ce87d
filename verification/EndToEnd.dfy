/** From annotations to KEDA's decision: the triggers the provisioner emits, the values the scaler
    serves for them, and the formula KEDA evaluates over those values. */
module EndToEnd {
  import opened Core
  import opened Telemetry
  import opened RollingWindow
  import opened EntryKeys
  import opened CacheModel
  import opened MetricCaches
  import W = WindowedMean
  import opened ExprLang
  import opened FormulaText
  import opened Provisioner
  import opened Formula
  import opened Decision
  import opened DecisionSafety
  import opened Triggers
  import opened Scaler

  /** The trigger is accepted by the scaler and answers `v` in the given environment. */
  predicate Answers(t: Trigger, p: Parsers, e: Env, v: real) {
    var cfg := ParseScalerMetadata(t.metadata, "", p);
    cfg.Success? && Served(cfg.value, e) == Success(v)
  }

  /** Every trigger answers, each in its own environment: requests are separate and may reach
      different replicas at different times. */
  ghost predicate AllAnswer(ts: seq<Trigger>, p: Parsers, envs: seq<Env>, values: seq<real>) {
    && |envs| == |values| == |ts|
    && forall i | 0 <= i < |ts| :: Answers(ts[i], p, envs[i], values[i])
  }

  /** The variables KEDA binds: each trigger's name to its value. */
  function Bind(ts: seq<Trigger>, values: seq<real>): map<string, real>
    requires |values| == |ts|
  {
    if ts == [] then map[]
    else Bind(ts[..|ts| - 1], values[..|ts| - 1])[ts[|ts| - 1].name := values[|ts| - 1]]
  }

  lemma BindSnoc(ts: seq<Trigger>, values: seq<real>, t: Trigger, v: real)
    requires |values| == |ts|
    ensures Bind(ts + [t], values + [v]) == Bind(ts, values)[t.name := v]
  {
    assert (ts + [t])[..|ts|] == ts && (values + [v])[..|ts|] == values;
  }

  function MetricTriggers(metrics: seq<Metric>, site: Site, scaleToZero: bool): seq<Trigger> {
    seq(|metrics|, i requires 0 <= i < |metrics| => MetricTrigger(metrics[i], site, scaleToZero))
  }

  lemma {:induction false} BindMetrics(metrics: seq<Metric>, site: Site, scaleToZero: bool, values: seq<real>)
    requires |values| == |metrics|
    ensures Bind(MetricTriggers(metrics, site, scaleToZero), values) == MetricEnv(metrics, values)
  {
    if metrics != [] {
      var n := |metrics| - 1;
      BindMetrics(metrics[..n], site, scaleToZero, values[..n]);
      assert MetricTriggers(metrics, site, scaleToZero)[..n] == MetricTriggers(metrics[..n], site, scaleToZero);
    }
  }

  /** Gate and replica-count values follow the metric values. */
  function GateOf(metrics: seq<Metric>, values: seq<real>): real
    requires |values| > |metrics|
  {
    values[|metrics|]
  }

  function CountOf(metrics: seq<Metric>, values: seq<real>): real {
    if |values| > |metrics| + 1 then values[|metrics| + 1] else 0.0
  }

  lemma BindAlways(metrics: seq<Metric>, site: Site, scaleToZero: bool, readings: seq<real>, gate: real)
    requires |readings| == |metrics|
    ensures Bind(MetricTriggers(metrics, site, scaleToZero) + [GateTrigger(site)], readings + [gate])
            == MetricEnv(metrics, readings)[GATE := gate]
  {
    BindMetrics(metrics, site, scaleToZero, readings);
    BindSnoc(MetricTriggers(metrics, site, scaleToZero), readings, GateTrigger(site), gate);
  }

  lemma BindParked(metrics: seq<Metric>, site: Site, readings: seq<real>, gate: real, replicas: real)
    requires |readings| == |metrics|
    ensures Bind(TriggersOf(metrics, site, 0), readings + [gate] + [replicas])
            == EnvOf(metrics, 0, readings, gate, replicas)
  {
    BindAlways(metrics, site, true, readings, gate);
    BindSnoc(MetricTriggers(metrics, site, true) + [GateTrigger(site)], readings + [gate],
             ReplicaTrigger(site), replicas);
  }

  lemma BindRunning(metrics: seq<Metric>, site: Site, minReplicas: int, readings: seq<real>, gate: real)
    requires |readings| == |metrics| && minReplicas != 0
    ensures Bind(TriggersOf(metrics, site, minReplicas), readings + [gate])
            == EnvOf(metrics, minReplicas, readings, gate, 0.0)
  {
    BindAlways(metrics, site, false, readings, gate);
    assert TriggersOf(metrics, site, minReplicas) == MetricTriggers(metrics, site, false) + [GateTrigger(site)];
  }

  lemma TriggerCount(metrics: seq<Metric>, site: Site, minReplicas: int)
    ensures |TriggersOf(metrics, site, minReplicas)| == |metrics| + if minReplicas == 0 then 2 else 1
  {
  }

  lemma SplitValues(values: seq<real>, n: nat)
    ensures |values| == n + 1 ==> values == values[..n] + [values[n]]
    ensures |values| == n + 2 ==> values == values[..n] + [values[n]] + [values[n + 1]]
  {
  }

  /** Binding every emitted trigger is exactly the environment the decision is stated over. */
  lemma BindingIsEnv(metrics: seq<Metric>, site: Site, minReplicas: int, values: seq<real>)
    requires |values| == |TriggersOf(metrics, site, minReplicas)|
    ensures |metrics| < |values|
    ensures Bind(TriggersOf(metrics, site, minReplicas), values)
            == EnvOf(metrics, minReplicas, values[..|metrics|], GateOf(metrics, values), CountOf(metrics, values))
  {
    var n := |metrics|;
    TriggerCount(metrics, site, minReplicas);
    SplitValues(values, n);
    if minReplicas == 0 {
      BindParked(metrics, site, values[..n], values[n], values[n + 1]);
    } else {
      BindRunning(metrics, site, minReplicas, values[..n], values[n]);
    }
  }

  /** KEDA's number for an accepted configuration, from the served values alone. */
  lemma KedaComputesDecision(metrics: seq<Metric>, site: Site, minReplicas: int, maxReplicas: int,
                             values: seq<real>)
    requires Accepted(metrics, minReplicas == 0)
    requires !Uncompilable(metrics, minReplicas, maxReplicas)
    requires |values| == |TriggersOf(metrics, site, minReplicas)|
    ensures Evaluate(TreeText(FormulaTree(metrics, minReplicas, maxReplicas)),
                     Bind(TriggersOf(metrics, site, minReplicas), values))
            == Some(Decide(metrics, minReplicas, maxReplicas, values[..|metrics|],
                           GateOf(metrics, values), CountOf(metrics, values)))
  {
    BindingIsEnv(metrics, site, minReplicas, values);
    FormulaMeansDecision(metrics, minReplicas, maxReplicas, values[..|metrics|],
                         GateOf(metrics, values), CountOf(metrics, values));
  }

  // -------------------------------------------------- router work vetoes parking

  /** A router-sourced trigger is answered from the cache of its own target in every state of the
      InferenceSet: parked, provisioning or running. */
  lemma RouterReadingServed(m: Metric, site: Site, scaleToZero: bool, p: Parsers, e: Env)
    requires MetricAccepted(m, scaleToZero) && m.source == EPP && site.name != "" && site.namespace != ""
    ensures var cfg := ParseScalerMetadata(MetricTrigger(m, site, scaleToZero).metadata, "", p);
            cfg.Success? && Served(cfg.value, e) == ServedFromCache(cfg.value, e)
  {
    MetadataRoundTrip(m, site, scaleToZero, "", p);
    SourcesDiffer();
    assert AGG_GATE != SERVICE_AVG && AGG_GATE != WINDOWED_AVG by { assert |AGG_GATE| == 4; }
    assert AGG_REPLICAS != SERVICE_AVG && AGG_REPLICAS != WINDOWED_AVG by { assert |AGG_REPLICAS| == 8; }
  }

  /** With the default sum aggregation the cached answer is the plain total over the router pods that
      answered. */
  lemma RouterSumIsPlainTotal(cfg: Config, e: Env, snap: Snapshot)
    requires cfg.source == EPP && cfg.aggregation == SUM && EPP in e.sources
    requires FreshSnapshot(CacheAfter(cfg, e), EntryKey(TargetOf(cfg)), e.cluster.read, e.staleAfter) == Some(snap)
    requires Agg.Successes(snap.services) > 0 && Agg.NonNegative(snap.services, cfg.metric)
    ensures ServedFromCache(cfg, e) == Success(Agg.ReadingSum(snap.services, cfg.metric))
  {
    Agg.NoCompensationAboveThreshold(snap.services, cfg.metric, 0.0);
  }

  /** The configuration the scaler reads back from a metric's trigger. */
  function ConfigOf(m: Metric, site: Site, scaleToZero: bool, p: Parsers): Result<Config, MetadataError> {
    ParseScalerMetadata(MetricTrigger(m, site, scaleToZero).metadata, "", p)
  }

  /** The snapshot a request is served from. */
  function SnapshotFor(cfg: Config, e: Env): Option<Snapshot> {
    FreshSnapshot(CacheAfter(cfg, e), EntryKey(TargetOf(cfg)), e.cluster.read, e.staleAfter)
  }

  /** A router gauge that names no aggregation is served as that total, in every state of the
      InferenceSet. */
  lemma DefaultRouterGaugeServesTotal(spec: MetricSpec, site: Site, scaleToZero: bool, p: Parsers, e: Env,
                                      snap: Snapshot)
    requires spec.kind == "gauge" && spec.source == EPP && spec.aggregation == ""
    requires MetricAccepted(MetricOf(spec), scaleToZero)
    requires site.name != "" && site.namespace != "" && EPP in e.sources
    requires Agg.Successes(snap.services) > 0 && Agg.NonNegative(snap.services, spec.name)
    ensures var cfg := ConfigOf(MetricOf(spec), site, scaleToZero, p);
            && cfg.Success?
            && (SnapshotFor(cfg.value, e) == Some(snap) ==>
                  Answers(MetricTrigger(MetricOf(spec), site, scaleToZero), p, e,
                          Agg.ReadingSum(snap.services, spec.name)))
  {
    var m := MetricOf(spec);
    SourcesDiffer();
    MetadataRoundTrip(m, site, scaleToZero, "", p);
    RouterReadingServed(m, site, scaleToZero, p, e);
    var cfg := ConfigOf(m, site, scaleToZero, p).value;
    if SnapshotFor(cfg, e) == Some(snap) {
      RouterSumIsPlainTotal(cfg, e, snap);
    }
  }

  /** Queued router work vetoes parking, end to end. Whatever state the InferenceSet is in and
      whichever replica answers each trigger, if every trigger answers then each router metric was
      answered from the cache of its own target; and if one such reading exceeds its activation threshold,
      the number KEDA computes is strictly above the activation target, even with every backend
      metric answered as 0. */
  lemma QueuedRouterWorkVetoesParking(metrics: seq<Metric>, site: Site, maxReplicas: int, p: Parsers,
                                      envs: seq<Env>, values: seq<real>, i: nat)
    requires Accepted(metrics, true) && !Uncompilable(metrics, 0, maxReplicas)
    requires site.name != "" && site.namespace != ""
    requires i < |metrics| && metrics[i].activation.Some?
    ensures AllAnswer(TriggersOf(metrics, site, 0), p, envs, values) ==>
              var cfg := ConfigOf(metrics[i], site, true, p);
              && cfg.Success? && ServedFromCache(cfg.value, envs[i]) == Success(values[i])
              && (values[i] > metrics[i].activation.value.Value() ==>
                    IsPositive(Evaluate(TreeText(FormulaTree(metrics, 0, maxReplicas)),
                                        Bind(TriggersOf(metrics, site, 0), values))))
  {
    var ts := TriggersOf(metrics, site, 0);
    if AllAnswer(ts, p, envs, values) {
      assert ts[i] == MetricTrigger(metrics[i], site, true);
      assert MetricAccepted(metrics[i], true);
      RouterReadingServed(metrics[i], site, true, p, envs[i]);
      assert Answers(ts[i], p, envs[i], values[i]);
      if values[i] > metrics[i].activation.value.Value() {
        AboveActivation(metrics, site, maxReplicas, values, i);
      }
    }
  }

  predicate IsPositive(r: Option<real>) {
    r.Some? && r.value > 0.0
  }

  lemma AboveActivation(metrics: seq<Metric>, site: Site, maxReplicas: int, values: seq<real>, i: nat)
    requires Accepted(metrics, true) && !Uncompilable(metrics, 0, maxReplicas)
    requires |values| == |TriggersOf(metrics, site, 0)|
    requires i < |metrics| && metrics[i].activation.Some? && values[i] > metrics[i].activation.value.Value()
    ensures IsPositive(Evaluate(TreeText(FormulaTree(metrics, 0, maxReplicas)),
                                Bind(TriggersOf(metrics, site, 0), values)))
  {
    var readings := values[..|metrics|];
    assert readings[i] == values[i];
    assert Declares(metrics[i], Activation) && Meets(metrics[i], Activation, readings[i]);
    KedaComputesDecision(metrics, site, 0, maxReplicas, values);
    QueuedWorkKeepsActive(metrics, 0, maxReplicas, readings, GateOf(metrics, values), CountOf(metrics, values));
  }

  // ------------------------------------------------------- growing needs a ready fleet

  /** The gate's trigger and the replica count's are answered from the InferenceSet alone. */
  lemma SyntheticAnswers(metrics: seq<Metric>, site: Site, minReplicas: int, p: Parsers, envs: seq<Env>,
                         values: seq<real>)
    requires site.name != "" && site.namespace != ""
    requires AllAnswer(TriggersOf(metrics, site, minReplicas), p, envs, values)
    ensures |metrics| < |values| == |envs|
    ensures envs[|metrics|].cluster.inferenceSet.Some?
    ensures var s := envs[|metrics|].cluster.inferenceSet.value;
            var desired := if s.replicas.Some? then s.replicas.value else 1;
            values[|metrics|] == if s.readyReplicas >= desired then 1.0 else 0.0
    ensures minReplicas == 0 ==>
              var i := |metrics| + 1;
              && i < |values| && envs[i].cluster.inferenceSet.Some?
              && var s := envs[i].cluster.inferenceSet.value;
                 values[i] == (if s.replicas.Some? then s.replicas.value else 1) as real
  {
    var ts, n := TriggersOf(metrics, site, minReplicas), |metrics|;
    TriggerCount(metrics, site, minReplicas);
    SyntheticTriggersParse(site, p);
    assert ts[n] == GateTrigger(site) && Answers(ts[n], p, envs[n], values[n]);
    SyntheticValues(ParseScalerMetadata(GateTrigger(site).metadata, "", p).value, envs[n]);
    if minReplicas == 0 {
      assert ts[n + 1] == ReplicaTrigger(site) && Answers(ts[n + 1], p, envs[n + 1], values[n + 1]);
      SyntheticValues(ParseScalerMetadata(ReplicaTrigger(site).metadata, "", p).value, envs[n + 1]);
    }
  }

  lemma DoublingNeedsGate(metrics: seq<Metric>, minReplicas: int, maxReplicas: int, readings: seq<real>, gate: real,
                          replicas: real)
    requires Accepted(metrics, minReplicas == 0) && |readings| == |metrics|
    requires Evaluate(TreeText(FormulaTree(metrics, minReplicas, maxReplicas)),
                      EnvOf(metrics, minReplicas, readings, gate, replicas)) == Some(2.0)
    ensures gate == 1.0
  {
    FormulaMeansDecision(metrics, minReplicas, maxReplicas, readings, gate, replicas);
  }

  lemma DoublingReadsTheGate(metrics: seq<Metric>, site: Site, minReplicas: int, maxReplicas: int,
                             values: seq<real>)
    requires Accepted(metrics, minReplicas == 0) && |values| == |TriggersOf(metrics, site, minReplicas)|
    requires Evaluate(TreeText(FormulaTree(metrics, minReplicas, maxReplicas)),
                      Bind(TriggersOf(metrics, site, minReplicas), values)) == Some(2.0)
    ensures |metrics| < |values| && values[|metrics|] == 1.0
  {
    BindingIsEnv(metrics, site, minReplicas, values);
    DoublingNeedsGate(metrics, minReplicas, maxReplicas, values[..|metrics|], values[|metrics|],
                      CountOf(metrics, values));
  }

  /** KEDA's number is 2.0 only if, when the gate was answered, every desired replica was ready. */
  lemma NoScaleUpBeforeReady(metrics: seq<Metric>, site: Site, minReplicas: int, maxReplicas: int, p: Parsers,
                             envs: seq<Env>, values: seq<real>)
    requires Accepted(metrics, minReplicas == 0) && site.name != "" && site.namespace != ""
    requires AllAnswer(TriggersOf(metrics, site, minReplicas), p, envs, values)
    ensures |metrics| < |envs| && envs[|metrics|].cluster.inferenceSet.Some?
    ensures Evaluate(TreeText(FormulaTree(metrics, minReplicas, maxReplicas)),
                     Bind(TriggersOf(metrics, site, minReplicas), values)) == Some(2.0) ==>
              var s := envs[|metrics|].cluster.inferenceSet.value;
              s.readyReplicas >= if s.replicas.Some? then s.replicas.value else 1
  {
    SyntheticAnswers(metrics, site, minReplicas, p, envs, values);
    if Evaluate(TreeText(FormulaTree(metrics, minReplicas, maxReplicas)),
                Bind(TriggersOf(metrics, site, minReplicas), values)) == Some(2.0) {
      DoublingReadsTheGate(metrics, site, minReplicas, maxReplicas, values);
    }
  }

  // -------------------------------------------- coming back from zero replicas

  lemma ModelPodAnswersAtZero(m: Metric, site: Site, scaleToZero: bool, p: Parsers, e: Env, s: InferenceSet)
    requires MetricAccepted(m, scaleToZero) && m.source == MODELPOD && m.aggregation != SUM
    requires site.name != "" && site.namespace != ""
    requires e.cluster.inferenceSet == Some(s) && DesiredReplicas(s) == 0
    ensures Answers(MetricTrigger(m, site, scaleToZero), p, e, 0.0)
  {
    MetadataRoundTrip(m, site, scaleToZero, "", p);
    SourcesDiffer();
    assert AGG_GATE != SERVICE_AVG && AGG_GATE != WINDOWED_AVG by { assert |AGG_GATE| == 4; }
    assert AGG_REPLICAS != SERVICE_AVG && AGG_REPLICAS != WINDOWED_AVG by { assert |AGG_REPLICAS| == 8; }
  }

  /** The values of an always-on workload found at zero replicas. */
  function ZeroValues(metrics: seq<Metric>, s: InferenceSet): seq<real> {
    seq(|metrics|, _ => 0.0) + [ReadinessGateValue(s)]
  }

  ghost predicate BackendOnly(metrics: seq<Metric>) {
    forall i | 0 <= i < |metrics| :: metrics[i].source == MODELPOD && metrics[i].aggregation != SUM
  }

  /** At zero replicas every trigger of a model-pod configuration answers, without scraping. */
  lemma EveryTriggerAnswersAtZero(metrics: seq<Metric>, site: Site, minReplicas: int, p: Parsers, e: Env,
                                  s: InferenceSet)
    requires minReplicas >= 1 && Accepted(metrics, false) && BackendOnly(metrics)
    requires site.name != "" && site.namespace != ""
    requires e.cluster.inferenceSet == Some(s) && DesiredReplicas(s) == 0
    ensures var ts := TriggersOf(metrics, site, minReplicas);
            AllAnswer(ts, p, seq(|ts|, _ => e), ZeroValues(metrics, s))
  {
    var ts, values := TriggersOf(metrics, site, minReplicas), ZeroValues(metrics, s);
    forall i | 0 <= i < |ts| ensures Answers(ts[i], p, e, values[i]) {
      if i < |metrics| {
        assert ts[i] == MetricTrigger(metrics[i], site, false);
        assert MetricAccepted(metrics[i], false);
        ModelPodAnswersAtZero(metrics[i], site, false, p, e, s);
      } else {
        assert ts[i] == GateTrigger(site);
        SyntheticTriggersParse(site, p);
      }
    }
  }

  /** So a workload at zero replicas whose minimum is at least 1 comes back: KEDA's number over
      those answers is above the activation target. */
  lemma RaisedMinimumReactivates(metrics: seq<Metric>, site: Site, minReplicas: int, maxReplicas: int,
                                 s: InferenceSet)
    requires minReplicas >= 1 && Accepted(metrics, false)
    requires !Uncompilable(metrics, minReplicas, maxReplicas)
    ensures |ZeroValues(metrics, s)| == |TriggersOf(metrics, site, minReplicas)|
    ensures IsPositive(Evaluate(TreeText(FormulaTree(metrics, minReplicas, maxReplicas)),
                                Bind(TriggersOf(metrics, site, minReplicas), ZeroValues(metrics, s))))
  {
    var values := ZeroValues(metrics, s);
    KedaComputesDecision(metrics, site, minReplicas, maxReplicas, values);
    AlwaysOnNeverParks(metrics, minReplicas, maxReplicas, values[..|metrics|], GateOf(metrics, values),
                       CountOf(metrics, values));
  }

  // ----------------------------------------------------- what backend triggers serve

  /** A request for a tracked target is answered from that target's own entry. */
  predicate Tracked(cfg: Config, e: Env, steps: seq<Step>) {
    && e.cache == Run(steps, e.ttl) && EntryKey(TargetOf(cfg)) in e.cache
    && cfg.source in e.sources && Unscraped(cfg, e.cluster).None?
  }

  function EntryFor(cfg: Config, e: Env): Entry
    requires EntryKey(TargetOf(cfg)) in e.cache
  {
    e.cache[EntryKey(TargetOf(cfg))]
  }

  /** Registering a tracked target leaves its samples alone, and they end in its last commit. */
  lemma TrackedSamples(cfg: Config, e: Env, steps: seq<Step>)
    requires Tracked(cfg, e, steps)
    ensures var (key, entry) := (EntryKey(TargetOf(cfg)), EntryFor(cfg, e));
            && EntryInv(entry)
            && key in CacheAfter(cfg, e) && CacheAfter(cfg, e)[key].samples == entry.samples
            && (entry.history != [] ==>
                  entry.samples != [] && Newest(entry.samples) == Newest(entry.history))
  {
    RunInv(steps, e.ttl);
  }

  lemma WindowedIsServed(cfg: Config, e: Env, steps: seq<Step>)
    requires Tracked(cfg, e, steps) && cfg.aggregation == WINDOWED_AVG
    ensures Served(cfg, e).Success? <==>
              SnapshotFor(cfg, e).Some? && Answer(EntryFor(cfg, e).samples, e.cluster.query, e.staleAfter,
                                                  cfg.window, cfg.metric).Success?
    ensures Served(cfg, e).Success? ==>
              Success(Served(cfg, e).value) == Answer(EntryFor(cfg, e).samples, e.cluster.query, e.staleAfter,
                                                      cfg.window, cfg.metric)
  {
    TrackedSamples(cfg, e, steps);
    SourcesDiffer();
    assert WINDOWED_AVG != SUM && WINDOWED_AVG != SERVICE_AVG by { assert |WINDOWED_AVG| != |SERVICE_AVG|; }
  }

  /** A windowed-average trigger whose target is already tracked keeps answering: in steady state
      the request neither warms up nor finds the cache stale, so it never makes the composite
      metric unavailable. */
  lemma SteadyWindowedTriggerAnswers(cfg: Config, e: Env, steps: seq<Step>)
    requires Tracked(cfg, e, steps) && cfg.aggregation == WINDOWED_AVG
    requires Settles(steps, e.ttl, EntryKey(TargetOf(cfg)), cfg.window)
    requires Steady(EntryFor(cfg, e).history, e.cluster.query, e.staleAfter, cfg.window)
    requires e.cluster.read <= e.cluster.query
    ensures Served(cfg, e).Success?
  {
    var key := EntryKey(TargetOf(cfg));
    TrackedSamples(cfg, e, steps);
    SteadyEntryAlwaysAnswers(steps, e.ttl, key, e.cluster.query, e.staleAfter, cfg.window, cfg.metric);
    WindowedIsServed(cfg, e, steps);
  }

  /** The stamps of the target's history let a query of this trigger answer from what is left of
      it. */
  ghost predicate Unpruned(cfg: Config, e: Env)
    requires EntryKey(TargetOf(cfg)) in e.cache
  {
    var entry := EntryFor(cfg, e);
    && (Dropped(entry) == 0 || 0 < Dropped(entry) < |entry.history|)
    && Undisturbed(entry.history, Dropped(entry), e.cluster.query, e.staleAfter, cfg.window)
  }

  lemma ServedWindowIsDelta(cfg: Config, e: Env, steps: seq<Step>)
    requires Tracked(cfg, e, steps) && cfg.aggregation == WINDOWED_AVG && Unpruned(cfg, e)
    ensures var history := EntryFor(cfg, e).history;
            Served(cfg, e).Success? ==>
              && history != []
              && Served(cfg, e).value
                 == WindowedValue(Baseline(history, cfg.window, cfg.window + e.staleAfter).snap,
                                  Newest(history).snap, cfg.metric)
  {
    var history := EntryFor(cfg, e).history;
    WindowedIsServed(cfg, e, steps);
    PruningIsInvisible(steps, e.ttl, EntryKey(TargetOf(cfg)), e.cluster.query, e.staleAfter, cfg.window);
    UndisturbedAnswer(history, Dropped(EntryFor(cfg, e)), e.cluster.query, e.staleAfter, cfg.window, cfg.metric);
  }

  /** When a windowed-average trigger is served the mean of the observations its services made
      between two of the target's scrapes: the newest one, and the one the complete, unpruned
      history selects. */
  lemma ServedWindowIsTrueMean(cfg: Config, e: Env, steps: seq<Step>, base: Snapshot, newest: Snapshot,
                               was: map<NamespacedName, W.Log>, now: map<NamespacedName, W.Log>)
    requires Tracked(cfg, e, steps) && cfg.aggregation == WINDOWED_AVG && Unpruned(cfg, e)
    requires var history := EntryFor(cfg, e).history;
             && history != [] && newest == Newest(history).snap
             && base == Baseline(history, cfg.window, cfg.window + e.staleAfter).snap
    requires W.Consistent(base, newest, cfg.metric, was, now)
    ensures var seen := W.Observed(newest, cfg.metric, was, now);
            Served(cfg, e).Success? ==>
              (Served(cfg, e).value == W.Mean(seen) <==> W.Untilted(base, newest, cfg.metric, was, seen))
  {
    ServedWindowIsDelta(cfg, e, steps);
    W.WindowedValueIsTrueMean(base, newest, cfg.metric, was, now);
  }

  /** Whatever a per-service-average trigger is served lies within the readings of the scraped
      services. */
  lemma ServedAverageWithinReadings(cfg: Config, e: Env, snap: Snapshot, lo: real, hi: real)
    requires cfg.aggregation == SERVICE_AVG && Unscraped(cfg, e.cluster).None?
    requires SnapshotFor(cfg, e) == Some(snap)
    requires 0.0 <= lo && Agg.ReadingsWithin(snap.services, cfg.metric, lo, hi)
    ensures Served(cfg, e).Success? ==>
              lo <= Served(cfg, e).value <= hi && Agg.SomeExpose(snap.services, cfg.metric)
  {
    SourcesDiffer();
    if Served(cfg, e).Success? {
      Agg.AverageWithinReadings(snap, cfg.metric, lo, hi);
    }
  }
}
