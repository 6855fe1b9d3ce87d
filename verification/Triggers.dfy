/** The triggers a ScaledObject carries (pkg/scaledobject/provisioner.go) and how the scaler reads
    their metadata back (pkg/scaler/scaler.go). */
module Triggers {
  import opened Core
  import opened Numbers
  import opened Telemetry
  import opened ExprLang
  import opened FormulaText
  import opened Provisioner

  type Metadata = map<string, string>

  datatype Trigger = Trigger(name: string, metadata: Metadata)

  const K_NAME := "inferenceSetName"
  const K_NAMESPACE := "inferenceSetNamespace"
  const K_ADDRESS := "scalerAddress"
  const K_METRIC := "metricName"
  const K_THRESHOLD := "threshold"
  const K_PROTOCOL := "metricProtocol"
  const K_PORT := "metricPort"
  const K_PATH := "metricPath"
  const K_TIMEOUT := "scrapeTimeout"
  const K_SOURCE := "metricSource"
  const K_AGGREGATION := "aggregation"
  const K_WINDOW := "metricCacheWindow"
  const K_FALLBACK := "zeroReplicaFallback"

  const SECOND := 1_000_000_000

  /** Where the triggers point: the InferenceSet and the scaler's own address. */
  datatype Site = Site(name: string, namespace: string, address: string)

  // ---------------------------------------------------------------- emitting

  function BaseMetadata(site: Site, metric: string, aggregation: string): Metadata {
    map[K_NAME := site.name, K_NAMESPACE := site.namespace, K_ADDRESS := site.address,
        K_METRIC := metric, K_AGGREGATION := aggregation]
  }

  function MetricTrigger(m: Metric, site: Site, scaleToZero: bool): Trigger {
    var base := BaseMetadata(site, m.key, m.aggregation)[K_SOURCE := m.source];
    var windowed := if m.metricCacheWindow != "" then base[K_WINDOW := m.metricCacheWindow] else base;
    var ported := if m.source == EPP then windowed[K_PORT := "9090"][K_PATH := "/metrics"] else windowed;
    var metadata :=
      if scaleToZero && m.source == MODELPOD then ported[K_FALLBACK := "true"] else ported;
    Trigger(VarName(m.key), metadata)
  }

  function GateTrigger(site: Site): Trigger {
    Trigger(GATE, BaseMetadata(site, GATE, AGG_GATE))
  }

  function ReplicaTrigger(site: Site): Trigger {
    Trigger(REPLICA_COUNT, BaseMetadata(site, REPLICA_COUNT, AGG_REPLICAS))
  }

  function TriggersOf(metrics: seq<Metric>, site: Site, minReplicas: int): seq<Trigger> {
    seq(|metrics|, i requires 0 <= i < |metrics| => MetricTrigger(metrics[i], site, minReplicas == 0))
    + [GateTrigger(site)]
    + if minReplicas == 0 then [ReplicaTrigger(site)] else []
  }

  method BuildTriggers(metrics: seq<Metric>, site: Site, minReplicas: int) returns (triggers: seq<Trigger>)
    ensures triggers == TriggersOf(metrics, site, minReplicas)
  {
    var scaleToZero := minReplicas == 0;
    triggers := [];
    for i := 0 to |metrics|
      invariant triggers == seq(i, j requires 0 <= j < i => MetricTrigger(metrics[j], site, scaleToZero))
    {
      var m := metrics[i];
      var metadata := BaseMetadata(site, m.key, m.aggregation)[K_SOURCE := m.source];
      if m.metricCacheWindow != "" {
        metadata := metadata[K_WINDOW := m.metricCacheWindow];
      }
      if m.source == EPP {
        metadata := metadata[K_PORT := "9090"][K_PATH := "/metrics"];
      }
      if scaleToZero && m.source == MODELPOD {
        metadata := metadata[K_FALLBACK := "true"];
      }
      var name := FormulaVarName(m.key);
      triggers := triggers + [Trigger(name, metadata)];
    }
    triggers := triggers + [GateTrigger(site)];
    if scaleToZero {
      triggers := triggers + [ReplicaTrigger(site)];
    }
  }

  /** Trigger names are valid identifiers and pairwise distinct, the reserved ones included, so
      every formula variable is bound by exactly one trigger. */
  lemma TriggerNamesDistinct(metrics: seq<Metric>, site: Site, minReplicas: int)
    requires Accepted(metrics, minReplicas == 0)
    ensures var ts := TriggersOf(metrics, site, minReplicas);
            && (forall i | 0 <= i < |ts| :: IsName(ts[i].name))
            && (forall i, j | 0 <= i < j < |ts| :: ts[i].name != ts[j].name)
  {
    var ts := TriggersOf(metrics, site, minReplicas);
    var n := |metrics|;
    assert |GATE| != |REPLICA_COUNT|;
    assert ts[n] == GateTrigger(site);
    assert forall i | 0 <= i < n :: ts[i] == MetricTrigger(metrics[i], site, minReplicas == 0);
    forall i | 0 <= i < |ts| ensures IsName(ts[i].name) {
      if i < n {
        assert MetricAccepted(metrics[i], minReplicas == 0);
        VarNameIsName(metrics[i].key);
      } else {
        assert ts[i].name == GATE || ts[i].name == REPLICA_COUNT;
        ReservedAreNames();
      }
    }
  }

  lemma ReservedAreNames()
    ensures IsName(GATE) && IsName(REPLICA_COUNT)
  {
    assert forall i | 0 <= i < |GATE| :: IsWordChar(GATE[i]);
    assert forall i | 0 <= i < |REPLICA_COUNT| :: IsWordChar(REPLICA_COUNT[i]);
  }

  // ----------------------------------------------------------------- parsing

  datatype MetadataError =
    | NoName | NoNamespace | NoMetric | BadThreshold | NoThreshold | BadProtocol | BadTimeout | BadWindow

  datatype Config = Config(
    name: string, namespace: string, metric: string, protocol: string, port: string, path: string,
    timeout: int, threshold: real, source: string, aggregation: string, window: int,
    zeroReplicaFallback: bool)

  /** Foreign parsers: strconv.ParseFloat and time.ParseDuration. */
  datatype Parsers = Parsers(float: string -> Option<real>, duration: string -> Option<int>)

  function Get(md: Metadata, key: string): string {
    if key in md then md[key] else ""
  }

  function OrElse(s: string, default: string): string {
    if s == "" then default else s
  }

  predicate ThresholdOptional(aggregation: string) {
    aggregation in {SERVICE_AVG, WINDOWED_AVG, AGG_GATE, AGG_REPLICAS}
  }

  function ParseThreshold(md: Metadata, source: string, aggregation: string, p: Parsers)
    : Result<real, MetadataError>
  {
    if Get(md, K_THRESHOLD) != "" then
      (match p.float(Get(md, K_THRESHOLD))
       case Some(v) => Success(v)
       case None => Failure(BadThreshold))
    else if !(source == EPP && aggregation == SUM) && !ThresholdOptional(aggregation) then
      Failure(MetadataError.NoThreshold)
    else Success(1.0)
  }

  /** Bare seconds; the multiplication by a second wraps at 64 bits. */
  function ParseWindow(md: Metadata): Result<int, MetadataError> {
    if Get(md, K_WINDOW) == "" then Success(300 * SECOND)
    else match Atoi(Get(md, K_WINDOW))
      case None => Failure(BadWindow)
      case Some(secs) => if secs <= 0 then Failure(BadWindow) else Success(Wrap64(secs * SECOND))
  }

  function ParseTimeout(md: Metadata, p: Parsers): Result<int, MetadataError> {
    if Get(md, K_TIMEOUT) == "" then Success(3 * SECOND)
    else match p.duration(Get(md, K_TIMEOUT))
      case Some(d) => Success(d)
      case None => Failure(BadTimeout)
  }

  function ParseScalerMetadata(md: Metadata, metricName: string, p: Parsers): Result<Config, MetadataError> {
    var metric := OrElse(metricName, Get(md, K_METRIC));
    var source := OrElse(Get(md, K_SOURCE), MODELPOD);
    var aggregation := OrElse(Get(md, K_AGGREGATION), SUM);
    var protocol := OrElse(Get(md, K_PROTOCOL), "http");
    if Get(md, K_NAME) == "" then Failure(NoName)
    else if Get(md, K_NAMESPACE) == "" then Failure(NoNamespace)
    else if metric == "" then Failure(NoMetric)
    else match ParseThreshold(md, source, aggregation, p)
      case Failure(e) => Failure(e)
      case Success(threshold) =>
        if protocol != "http" && protocol != "https" then Failure(BadProtocol)
        else match ParseTimeout(md, p)
          case Failure(e) => Failure(e)
          case Success(timeout) =>
            match ParseWindow(md)
            case Failure(e) => Failure(e)
            case Success(window) =>
              Success(Config(Get(md, K_NAME), Get(md, K_NAMESPACE), metric, protocol,
                             OrElse(Get(md, K_PORT), "80"), OrElse(Get(md, K_PATH), "/metrics"),
                             timeout, threshold, source, aggregation, window,
                             Get(md, K_FALLBACK) == "true"))
  }

  /** Exactly which trigger metadata the scaler accepts: the InferenceSet and the metric are named; a
      threshold reads as a number when given and is given for anything but a router sum, an average, the
      gate and the replica count; the protocol, the timeout and the window are well-formed when
      given. */
  lemma ParsesMetadataExactlyWhen(md: Metadata, metricName: string, p: Parsers)
    ensures var source := if Get(md, "metricSource") == "" then "modelpod" else Get(md, "metricSource");
            var aggregation := if Get(md, "aggregation") == "" then "sum" else Get(md, "aggregation");
            ParseScalerMetadata(md, metricName, p).Success? <==>
              && Get(md, "inferenceSetName") != "" && Get(md, "inferenceSetNamespace") != ""
              && (metricName != "" || Get(md, "metricName") != "")
              && (Get(md, "threshold") != "" ==> p.float(Get(md, "threshold")).Some?)
              && (Get(md, "threshold") == "" ==>
                    || (source == "epp" && aggregation == "sum")
                    || aggregation in {"service-avg", "windowed-avg", "gate", "replicas"})
              && Get(md, "metricProtocol") in {"", "http", "https"}
              && (Get(md, "scrapeTimeout") != "" ==> p.duration(Get(md, "scrapeTimeout")).Some?)
              && (Get(md, "metricCacheWindow") != "" ==>
                    Atoi(Get(md, "metricCacheWindow")).Some? && Atoi(Get(md, "metricCacheWindow")).value > 0)
  {
  }

  /** And what it reads from them: each given value, or the default. */
  lemma ParsedFields(md: Metadata, metricName: string, p: Parsers)
    requires ParseScalerMetadata(md, metricName, p).Success?
    ensures var c := ParseScalerMetadata(md, metricName, p).value;
            && c.name == Get(md, "inferenceSetName") && c.namespace == Get(md, "inferenceSetNamespace")
            && c.metric == (if metricName != "" then metricName else Get(md, "metricName"))
            && c.protocol == (if Get(md, "metricProtocol") == "" then "http" else Get(md, "metricProtocol"))
            && c.port == (if Get(md, "metricPort") == "" then "80" else Get(md, "metricPort"))
            && c.path == (if Get(md, "metricPath") == "" then "/metrics" else Get(md, "metricPath"))
            && c.source == (if Get(md, "metricSource") == "" then "modelpod" else Get(md, "metricSource"))
            && c.aggregation == (if Get(md, "aggregation") == "" then "sum" else Get(md, "aggregation"))
            && (c.zeroReplicaFallback <==> Get(md, "zeroReplicaFallback") == "true")
            && (Get(md, "threshold") != "" ==> p.float(Get(md, "threshold")) == Some(c.threshold))
            && (Get(md, "threshold") == "" ==> c.threshold == 1.0)
            && (Get(md, "scrapeTimeout") != "" ==> p.duration(Get(md, "scrapeTimeout")) == Some(c.timeout))
            && (Get(md, "scrapeTimeout") == "" ==> c.timeout == 3_000_000_000)
            && (Get(md, "metricCacheWindow") == "" ==> c.window == 300_000_000_000)
            && (Get(md, "metricCacheWindow") != "" && Atoi(Get(md, "metricCacheWindow")).Some?
                ==> c.window == Wrap64(Atoi(Get(md, "metricCacheWindow")).value * 1_000_000_000))
  {
  }

  // -------------------------------------------------------------- round trip

  lemma KeysDiffer()
    ensures |{K_NAME, K_NAMESPACE, K_ADDRESS, K_METRIC, K_THRESHOLD, K_PROTOCOL, K_PORT, K_PATH, K_TIMEOUT,
              K_SOURCE, K_AGGREGATION, K_WINDOW, K_FALLBACK}| == 13
  {
    // by length, or by a differing letter where lengths agree
    assert |K_NAME| == 16 && |K_NAMESPACE| == 21 && |K_ADDRESS| == 13 && |K_METRIC| == 10
        && |K_THRESHOLD| == 9 && |K_PROTOCOL| == 14 && |K_PORT| == 10 && |K_PATH| == 10
        && |K_TIMEOUT| == 13 && |K_SOURCE| == 12 && |K_AGGREGATION| == 11 && |K_WINDOW| == 17
        && |K_FALLBACK| == 19;
    assert K_METRIC[6] == 'N' && K_PORT[6] == 'P' && K_PATH[6] == 'P';
    assert K_PORT[7] == 'o' && K_PATH[7] == 'a';
    assert K_ADDRESS[2] == 'a' && K_TIMEOUT[2] == 'r';
  }

  /** What each key of an emitted metric trigger reads as. */
  lemma EmittedMetadata(m: Metric, site: Site, scaleToZero: bool)
    requires MetricAccepted(m, scaleToZero)
    ensures var md := MetricTrigger(m, site, scaleToZero).metadata;
            && Get(md, K_NAME) == site.name && Get(md, K_NAMESPACE) == site.namespace
            && Get(md, K_METRIC) == m.key && Get(md, K_SOURCE) == m.source
            && Get(md, K_AGGREGATION) == m.aggregation
            && Get(md, K_WINDOW) == m.metricCacheWindow
            && Get(md, K_PORT) == (if m.source == EPP then "9090" else "")
            && Get(md, K_PATH) == (if m.source == EPP then "/metrics" else "")
            && Get(md, K_FALLBACK) == (if scaleToZero && m.source == MODELPOD then "true" else "")
            && Get(md, K_THRESHOLD) == "" && Get(md, K_PROTOCOL) == "" && Get(md, K_TIMEOUT) == ""
            && Get(md, K_ADDRESS) == site.address
  {
    KeysDiffer();
  }

  function WindowNanos(m: Metric): int {
    if m.aggregation != WINDOWED_AVG then 300 * SECOND
    else match Atoi(m.metricCacheWindow)
      case Some(n) => n * SECOND
      case None => 0
  }

  lemma SourcesDiffer()
    ensures EPP != MODELPOD && |MODELPOD| > 0
    ensures SUM != SERVICE_AVG && SUM != WINDOWED_AVG && SUM != AGG_GATE && SUM != AGG_REPLICAS
  {
    assert |EPP| != |MODELPOD|;
    assert |SUM| == 3 && |SERVICE_AVG| == 11 && |WINDOWED_AVG| == 12 && |AGG_GATE| == 4 && |AGG_REPLICAS| == 8;
  }

  lemma EmittedWindow(m: Metric, site: Site, scaleToZero: bool)
    requires MetricAccepted(m, scaleToZero)
    ensures ParseWindow(MetricTrigger(m, site, scaleToZero).metadata) == Success(Wrap64(WindowNanos(m)))
  {
    EmittedMetadata(m, site, scaleToZero);
    if m.aggregation == WINDOWED_AVG {
      var n: Int64 :| n > 0 && m.metricCacheWindow == Itoa(n);
      AtoiOfItoa(n);
    }
  }

  /** Metadata round trip. For every accepted metric the scaler accepts the trigger the
      provisioner emits exactly when it is not a model-pod sum (which needs a per-replica
      threshold nobody emits); it then recovers the metric's identity, endpoint and fallback
      flag, and the cache window modulo the width of a duration. */
  lemma MetadataRoundTrip(m: Metric, site: Site, scaleToZero: bool, metricName: string, p: Parsers)
    requires MetricAccepted(m, scaleToZero) && site.name != "" && site.namespace != ""
    requires metricName == "" || metricName == m.key
    ensures var r := ParseScalerMetadata(MetricTrigger(m, site, scaleToZero).metadata, metricName, p);
            && (r.Success? <==> !(m.source == MODELPOD && m.aggregation == SUM))
            && (r.Success? ==>
                  r.value == Config(site.name, site.namespace, m.key, "http",
                                    if m.source == EPP then "9090" else "80", "/metrics", 3 * SECOND, 1.0,
                                    m.source, m.aggregation, Wrap64(WindowNanos(m)),
                                    scaleToZero && m.source == MODELPOD))
            && (r.Success? ==> (r.value.window == WindowNanos(m) <==> WindowNanos(m) <= MAX_INT64))
            && (r.Failure? ==> r.error == MetadataError.NoThreshold)
  {
    EmittedMetadata(m, site, scaleToZero);
    EmittedWindow(m, site, scaleToZero);
    SourcesDiffer();
    WindowNanosPositive(m, scaleToZero);
  }

  /** A model-pod histogram with a one-to-zero band and the given window. */
  function Histogram(window: string): Metric {
    Metric("h", MODELPOD, WINDOWED_AVG, Some(Decimal(false, "1", "")), Some(Decimal(false, "0", "")),
           None, None, window)
  }

  lemma HistogramAccepted(n: Int64)
    requires n > 0
    ensures Accepted([Histogram(Itoa(n))], false)
    ensures WindowNanos(Histogram(Itoa(n))) == n * SECOND
  {
    var m := Histogram(Itoa(n));
    AtoiOfItoa(n);
    assert Itoa(n) != "" && DigitsValue("1") == 1 && DigitsValue("0") == 0;
    assert VarName("h") == "h" && |"h"| != |GATE|;
    assert MetricAccepted(m, false);
  }

  /** The scaler reads a negative window back from the metric's trigger. */
  predicate LosesWindow(m: Metric, site: Site, p: Parsers) {
    var r := ParseScalerMetadata(MetricTrigger(m, site, false).metadata, "", p);
    r.Success? && r.value.window < 0
  }

  lemma WrapLosesWindow(n: Int64, site: Site, p: Parsers)
    requires n > 0 && Wrap64(n * SECOND) < 0 && site.name != "" && site.namespace != ""
    ensures Accepted([Histogram(Itoa(n))], false) && LosesWindow(Histogram(Itoa(n)), site, p)
  {
    HistogramAccepted(n);
    WrappedWindow(n, site, p);
  }

  /** The window can be lost: a histogram may ask for 9223372037 seconds, whose nanoseconds wrap to a
      negative duration. */
  lemma HugeWindowWraps(n: Int64, site: Site, p: Parsers)
    requires n == 9_223_372_037 && site.name != "" && site.namespace != ""
    ensures Accepted([Histogram(Itoa(n))], false) && LosesWindow(Histogram(Itoa(n)), site, p)
  {
    WrapLosesWindow(n, site, p);
  }

  lemma WrappedWindow(n: Int64, site: Site, p: Parsers)
    requires n > 0 && Accepted([Histogram(Itoa(n))], false) && WindowNanos(Histogram(Itoa(n))) == n * SECOND
    requires site.name != "" && site.namespace != ""
    ensures var r := ParseScalerMetadata(MetricTrigger(Histogram(Itoa(n)), site, false).metadata, "", p);
            r.Success? && r.value.window == Wrap64(n * SECOND)
  {
    var m := Histogram(Itoa(n));
    SourcesDiffer();
    assert MetricAccepted([m][0], false);
    assert WINDOWED_AVG != SUM by { assert |WINDOWED_AVG| != |SUM|; }
    MetadataRoundTrip(m, site, false, "", p);
  }

  lemma WindowNanosPositive(m: Metric, scaleToZero: bool)
    requires MetricAccepted(m, scaleToZero)
    ensures WindowNanos(m) > 0
  {
    if m.aggregation == WINDOWED_AVG {
      var n: Int64 :| n > 0 && m.metricCacheWindow == Itoa(n);
      AtoiOfItoa(n);
    }
  }

  /** The two synthetic triggers are accepted too, and select their pseudo-aggregations. */
  lemma SyntheticTriggersParse(site: Site, p: Parsers)
    requires site.name != "" && site.namespace != ""
    ensures var g := ParseScalerMetadata(GateTrigger(site).metadata, "", p);
            && g.Success? && g.value.aggregation == "gate" && g.value.metric == "readiness_gate"
            && g.value.name == site.name && g.value.namespace == site.namespace
    ensures var r := ParseScalerMetadata(ReplicaTrigger(site).metadata, "", p);
            && r.Success? && r.value.aggregation == "replicas" && r.value.metric == "replica_count"
            && r.value.name == site.name && r.value.namespace == site.namespace
  {
    KeysDiffer();
    SourcesDiffer();
    assert |AGG_GATE| > 0 && |AGG_REPLICAS| > 0 && |GATE| > 0 && |REPLICA_COUNT| > 0;
  }

  /** Validation accepts an explicit sum over model pods, but nobody emits the per-replica
      threshold it needs, so the scaler refuses every request for it. */
  lemma ModelPodSumIsRefused(site: Site, p: Parsers)
    requires site.name != "" && site.namespace != ""
    ensures var m := Metric("q", MODELPOD, SUM, Some(Decimal(false, "1", "")), Some(Decimal(false, "0", "")),
                            None, None, "");
            && Accepted([m], false)
            && ParseScalerMetadata(MetricTrigger(m, site, false).metadata, "", p)
               == Failure(MetadataError.NoThreshold)
  {
    var m := Metric("q", MODELPOD, SUM, Some(Decimal(false, "1", "")), Some(Decimal(false, "0", "")),
                    None, None, "");
    SourcesDiffer();
    assert DigitsValue("1") == 1 && DigitsValue("0") == 0;
    assert VarName("q") == "q" && |"q"| != |GATE|;
    assert MetricAccepted(m, false);
    MetadataRoundTrip(m, site, false, "", p);
  }

  /** A metric that leaves the aggregation to its type and source is always accepted back. */
  lemma DefaultAggregationIsServed(spec: MetricSpec, site: Site, scaleToZero: bool, p: Parsers)
    requires spec.aggregation == "" && SourceFor(spec.source).Some?
    requires AggregationFor(spec, SourceFor(spec.source).value).Success?
    requires MetricAccepted(MetricOf(spec), scaleToZero)
    requires site.name != "" && site.namespace != ""
    ensures ParseScalerMetadata(MetricTrigger(MetricOf(spec), site, scaleToZero).metadata, "", p).Success?
  {
    SourcesDiffer();
    MetadataRoundTrip(MetricOf(spec), site, scaleToZero, "", p);
  }
}
