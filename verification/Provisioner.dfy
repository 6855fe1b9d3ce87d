/** Validation of the autoscaling annotations (pkg/scaledobject/provisioner.go): the decoded
    metric list and the global settings. YAML decoding is left to the caller; a threshold is the
    exact decimal it prints as. */
module Provisioner {
  import opened Core
  import opened Numbers
  import opened Telemetry
  import opened ExprLang
  import opened FormulaText

  const GATE := "readiness_gate"
  const REPLICA_COUNT := "replica_count"

  const SUM := "sum"
  const SERVICE_AVG := "service-avg"
  const WINDOWED_AVG := "windowed-avg"
  const AGG_GATE := "gate"
  const AGG_REPLICAS := "replicas"

  const DEFAULT_METRIC_CACHE_WINDOW := 300

  type FiniteDecimal = d: Decimal | d.Valid() witness Decimal(false, "0", "")

  /** A Go int on a 64-bit platform. */
  type Int64 = n: int | MIN_INT64 <= n <= MAX_INT64

  /** A decoded threshold: YAML also admits infinities and NaN. */
  datatype Threshold = Finite(d: FiniteDecimal) | NotFinite

  /** One entry of the metrics annotation; None is a missing key. */
  datatype MetricSpec = MetricSpec(
    name: string, kind: string, source: string, aggregation: string,
    up: Option<Threshold>, down: Option<Threshold>,
    activation: Option<Threshold>, deactivation: Option<Threshold>,
    window: Option<Int64>)

  datatype Metric = Metric(
    key: string, source: string, aggregation: string,
    up: Option<FiniteDecimal>, down: Option<FiniteDecimal>,
    activation: Option<FiniteDecimal>, deactivation: Option<FiniteDecimal>,
    metricCacheWindow: string)
  {
    predicate HasBand() {
      up.Some? && down.Some?
    }
  }

  datatype EntryError =
    | NameRequired | BadSource | BadType | UnsupportedAggregation | IncompatibleAggregation
    | DuplicateVariable | ReservedGate | ReservedReplicaCount
    | UpRequired | DownRequired | ActivationNeedsZeroMinimum
    | UnpairedBand | ActivationNeedsEpp | ActivationNeedsDeactivation
    | ThresholdNotFinite | DownExceedsUp | DeactivationExceedsActivation | NoThreshold
    | WindowNotPositive | WindowOnGauge

  datatype ConfigError = NoMetrics | BadEntry(index: nat, error: EntryError) | NeverWakes | ParksBlind

  // ---------------------------------------------------------- variable names

  function Sanitize(c: char): char {
    if IsWordChar(c) then c else '_'
  }

  function VarName(name: string): string {
    (if name != "" && IsDigit(name[0]) then "_" else "") +
    seq(|name|, i requires 0 <= i < |name| => Sanitize(name[i]))
  }

  method FormulaVarName(metricName: string) returns (v: string)
    ensures v == VarName(metricName)
  {
    v := "";
    for i := 0 to |metricName|
      invariant v == (if i > 0 && IsDigit(metricName[0]) then "_" else "") +
                     seq(i, j requires 0 <= j < i => Sanitize(metricName[j]))
    {
      var r := metricName[i];
      if IsLetter(r) {
        v := v + [r];
      } else if IsDigit(r) {
        if i == 0 {
          v := v + "_";
        }
        v := v + [r];
      } else {
        v := v + "_";
      }
    }
  }

  /** Sanitized names are valid identifiers of the expression language. */
  lemma VarNameIsName(name: string)
    requires name != ""
    ensures IsName(VarName(name))
  {
  }

  /** Each character of a name stays when it is an ASCII letter, digit or underscore and becomes an
      underscore otherwise; a leading digit is guarded by one more. */
  lemma VarNameChars(name: string)
    ensures var guarded := name != "" && '0' <= name[0] <= '9';
            && |VarName(name)| == |name| + (if guarded then 1 else 0)
            && (guarded ==> VarName(name)[0] == '_')
            && forall i | 0 <= i < |name| ::
                 var c := name[i];
                 VarName(name)[if guarded then i + 1 else i]
                 == if 'a' <= c <= 'z' || 'A' <= c <= 'Z' || '0' <= c <= '9' then c else '_'
  {
  }

  // ------------------------------------------------------ one entry at a time

  function SourceFor(s: string): Option<string> {
    if s == "" || s == MODELPOD then Some(MODELPOD)
    else if s == EPP then Some(EPP)
    else None
  }

  function AggregationFor(spec: MetricSpec, source: string): Result<string, EntryError> {
    if spec.kind != "gauge" && spec.kind != "histogram" then Failure(BadType)
    else
      var derived :=
        if spec.kind == "histogram" then WINDOWED_AVG
        else if source == EPP then SUM
        else SERVICE_AVG;
      if spec.aggregation == "" then Success(derived)
      else if spec.aggregation !in {SUM, SERVICE_AVG, WINDOWED_AVG} then Failure(UnsupportedAggregation)
      else if (spec.aggregation == WINDOWED_AVG) != (spec.kind == "histogram") then
        Failure(IncompatibleAggregation)
      else Success(spec.aggregation)
  }

  /** The aggregation an entry gets, for each way of writing it: a type of gauge or histogram is
      required; without an aggregation a histogram is averaged over its window, a router gauge summed
      and a model-pod gauge averaged over services; one that is given has to suit the type. */
  lemma AggregationExactlyWhen(spec: MetricSpec, source: string, a: string)
    ensures AggregationFor(spec, source) == Success(a) <==>
              || (spec.kind == "histogram" && spec.aggregation in {"", "windowed-avg"} && a == "windowed-avg")
              || (spec.kind == "gauge" && spec.aggregation == "" && source == "epp" && a == "sum")
              || (spec.kind == "gauge" && spec.aggregation == "" && source != "epp" && a == "service-avg")
              || (spec.kind == "gauge" && spec.aggregation in {"sum", "service-avg"} && a == spec.aggregation)
  {
    assert |"histogram"| == 9 && |"gauge"| == 5;
    assert |"sum"| == 3 && |"service-avg"| == 11 && |"windowed-avg"| == 12;
  }

  predicate IsNotFinite(t: Option<Threshold>) {
    t.Some? && t.value.NotFinite?
  }

  predicate Exceeds(a: Option<Threshold>, b: Option<Threshold>) {
    match (a, b)
    case (Some(Finite(x)), Some(Finite(y))) => x.Value() > y.Value()
    case _ => false
  }

  /** The rules about thresholds, in the order they are tested. */
  function ThresholdError(spec: MetricSpec, source: string, scaleToZero: bool): Option<EntryError> {
    if !scaleToZero && spec.up.None? then Some(UpRequired)
    else if !scaleToZero && spec.down.None? then Some(DownRequired)
    else if !scaleToZero && (spec.activation.Some? || spec.deactivation.Some?) then
      Some(ActivationNeedsZeroMinimum)
    else if spec.up.None? != spec.down.None? then Some(UnpairedBand)
    else if spec.activation.Some? && source != EPP then Some(ActivationNeedsEpp)
    else if spec.activation.Some? && spec.deactivation.None? then Some(ActivationNeedsDeactivation)
    else if IsNotFinite(spec.up) || IsNotFinite(spec.down)
            || IsNotFinite(spec.activation) || IsNotFinite(spec.deactivation) then
      Some(ThresholdNotFinite)
    else if Exceeds(spec.down, spec.up) then Some(DownExceedsUp)
    else if Exceeds(spec.deactivation, spec.activation) then Some(DeactivationExceedsActivation)
    else if spec.up.None? && spec.down.None? && spec.activation.None? && spec.deactivation.None? then
      Some(NoThreshold)
    else None
  }

  function WindowError(spec: MetricSpec, aggregation: string): Option<EntryError> {
    if aggregation == WINDOWED_AVG then
      if spec.window.Some? && spec.window.value <= 0 then Some(WindowNotPositive) else None
    else if spec.window.Some? then Some(WindowOnGauge)
    else None
  }

  /** The first rule entry `i` breaks, given the entries before it. */
  function EntryCheck(specs: seq<MetricSpec>, i: nat, scaleToZero: bool): Option<EntryError>
    requires i < |specs|
  {
    var spec := specs[i];
    var v := VarName(spec.name);
    if spec.name == "" then Some(NameRequired)
    else match SourceFor(spec.source)
      case None => Some(BadSource)
      case Some(source) =>
        match AggregationFor(spec, source)
        case Failure(e) => Some(e)
        case Success(aggregation) =>
          if exists j | 0 <= j < i :: VarName(specs[j].name) == v then Some(DuplicateVariable)
          else if v == GATE then Some(ReservedGate)
          else if scaleToZero && v == REPLICA_COUNT then Some(ReservedReplicaCount)
          else match ThresholdError(spec, source, scaleToZero)
            case Some(e) => Some(e)
            case None => WindowError(spec, aggregation)
  }

  function DecimalOf(t: Option<Threshold>): Option<FiniteDecimal> {
    match t
    case Some(Finite(d)) => Some(d)
    case _ => None
  }

  function WindowText(spec: MetricSpec, aggregation: string): string {
    if aggregation != WINDOWED_AVG then ""
    else Itoa(if spec.window.Some? then spec.window.value else DEFAULT_METRIC_CACHE_WINDOW)
  }

  function MetricOf(spec: MetricSpec): Metric
    requires SourceFor(spec.source).Some?
    requires AggregationFor(spec, SourceFor(spec.source).value).Success?
  {
    var source := SourceFor(spec.source).value;
    var aggregation := AggregationFor(spec, source).value;
    Metric(spec.name, source, aggregation, DecimalOf(spec.up), DecimalOf(spec.down),
           DecimalOf(spec.activation), DecimalOf(spec.deactivation), WindowText(spec, aggregation))
  }

  /** A threshold that is absent or a finite number. */
  predicate AbsentOrFinite(t: Option<Threshold>) {
    t.None? || t.value.Finite?
  }

  /** Absent, or at most the other one when that is given. */
  predicate AtMost(low: Option<Threshold>, high: Option<Threshold>) {
    match (low, high)
    case (Some(Finite(x)), Some(Finite(y))) => x.Value() <= y.Value()
    case _ => true
  }

  /** The thresholds of an entry pass exactly when: they are finite and one is given; the band is
      complete and ordered, and given unless scaling to zero; the transition thresholds are ordered and
      given only when scaling to zero; and waking is observed by the router and paired with parking. */
  lemma ThresholdsPassExactlyWhen(spec: MetricSpec, source: string, scaleToZero: bool)
    ensures ThresholdError(spec, source, scaleToZero).None? <==>
              && AbsentOrFinite(spec.up) && AbsentOrFinite(spec.down)
              && AbsentOrFinite(spec.activation) && AbsentOrFinite(spec.deactivation)
              && (spec.up.Some? <==> spec.down.Some?) && AtMost(spec.down, spec.up)
              && AtMost(spec.deactivation, spec.activation)
              && (spec.activation.Some? ==> source == "epp" && spec.deactivation.Some?)
              && (spec.up.Some? || spec.deactivation.Some?)
              && (!scaleToZero ==> spec.up.Some? && spec.activation.None? && spec.deactivation.None?)
  {
  }

  /** Exactly when entry i passes, given the entries before it. */
  lemma EntryPassesExactlyWhen(specs: seq<MetricSpec>, i: nat, scaleToZero: bool)
    requires i < |specs|
    ensures var spec := specs[i];
            var source := if spec.source == "" then "modelpod" else spec.source;
            EntryCheck(specs, i, scaleToZero).None? <==>
              && spec.name != "" && (source == "modelpod" || source == "epp")
              && AggregationFor(spec, source).Success?
              && VarName(spec.name) != "readiness_gate"
              && (scaleToZero ==> VarName(spec.name) != "replica_count")
              && (forall j | 0 <= j < i :: VarName(specs[j].name) != VarName(spec.name))
              && ThresholdError(spec, source, scaleToZero).None?
              && if AggregationFor(spec, source).value == "windowed-avg"
                 then spec.window.None? || spec.window.value > 0
                 else spec.window.None?
  {
  }

  /** What an entry that passes becomes: its own name, source, aggregation and thresholds, and for a
      windowed average the window in seconds, 300 when absent. */
  lemma MetricFields(spec: MetricSpec, up: FiniteDecimal, down: FiniteDecimal, activation: FiniteDecimal,
                     deactivation: FiniteDecimal)
    requires SourceFor(spec.source).Some?
    requires AggregationFor(spec, SourceFor(spec.source).value).Success?
    ensures var m := MetricOf(spec);
            && m.key == spec.name && m.source == (if spec.source == "" then "modelpod" else spec.source)
            && AggregationFor(spec, m.source) == Success(m.aggregation)
            && (m.up == Some(up) <==> spec.up == Some(Threshold.Finite(up)))
            && (m.down == Some(down) <==> spec.down == Some(Threshold.Finite(down)))
            && (m.activation == Some(activation) <==> spec.activation == Some(Threshold.Finite(activation)))
            && (m.deactivation == Some(deactivation) <==>
                  spec.deactivation == Some(Threshold.Finite(deactivation)))
            && (m.aggregation != "windowed-avg" ==> m.metricCacheWindow == "")
            && (m.aggregation == "windowed-avg" && spec.window.None? ==> m.metricCacheWindow == Itoa(300))
            && (m.aggregation == "windowed-avg" && spec.window.Some? ==> m.metricCacheWindow == Itoa(spec.window.value))
  {
  }

  // ------------------------------------------------------------ the whole list

  predicate Wakes(metrics: seq<Metric>) {
    exists i | 0 <= i < |metrics| :: metrics[i].activation.Some?
  }

  predicate ObservesBackend(metrics: seq<Metric>) {
    exists i | 0 <= i < |metrics| :: metrics[i].deactivation.Some? && metrics[i].source == MODELPOD
  }

  method ValidateActivationRules(metrics: seq<Metric>) returns (err: Option<ConfigError>)
    ensures err == if !Wakes(metrics) then Some(NeverWakes)
                   else if !ObservesBackend(metrics) then Some(ParksBlind)
                   else None
  {
    var hasActivation, hasBackendDeactivation := false, false;
    for i := 0 to |metrics|
      invariant hasActivation <==> exists j | 0 <= j < i :: metrics[j].activation.Some?
      invariant hasBackendDeactivation <==>
                exists j | 0 <= j < i :: metrics[j].deactivation.Some? && metrics[j].source == MODELPOD
    {
      if metrics[i].activation.Some? {
        hasActivation := true;
      }
      if metrics[i].deactivation.Some? && metrics[i].source == MODELPOD {
        hasBackendDeactivation := true;
      }
    }
    if !hasActivation {
      return Some(NeverWakes);
    }
    if !hasBackendDeactivation {
      return Some(ParksBlind);
    }
    return None;
  }

  predicate EntriesOk(specs: seq<MetricSpec>, n: nat, scaleToZero: bool)
    requires n <= |specs|
  {
    forall i | 0 <= i < n :: EntryCheck(specs, i, scaleToZero).None?
  }

  function MetricsOf(specs: seq<MetricSpec>, n: nat, scaleToZero: bool): seq<Metric>
    requires n <= |specs| && EntriesOk(specs, n, scaleToZero)
  {
    seq(n, i requires 0 <= i < n =>
             assert EntryCheck(specs, i, scaleToZero).None?;
             MetricOf(specs[i]))
  }

  /** The variables of the first n entries. */
  ghost function VarsOf(specs: seq<MetricSpec>, n: nat): set<string>
    requires n <= |specs|
  {
    set j | 0 <= j < n :: VarName(specs[j].name)
  }

  /** The checks on one entry, in order; `seenVars` are the names the entries before it use. */
  method CheckEntry(specs: seq<MetricSpec>, i: nat, seenVars: set<string>, scaleToZero: bool)
    returns (err: Option<EntryError>, varName: string)
    requires i < |specs|
    requires seenVars == VarsOf(specs, i)
    ensures err == EntryCheck(specs, i, scaleToZero)
    ensures varName == VarName(specs[i].name)
  {
    var spec := specs[i];
    varName := FormulaVarName(spec.name);
    if spec.name == "" {
      return Some(NameRequired), varName;
    }
    var source := SourceFor(spec.source);
    if source.None? {
      return Some(BadSource), varName;
    }
    var aggregation := AggregationFor(spec, source.value);
    if aggregation.Failure? {
      return Some(aggregation.error), varName;
    }
    if varName in seenVars {
      return Some(DuplicateVariable), varName;
    }
    if varName == GATE {
      return Some(ReservedGate), varName;
    }
    if scaleToZero && varName == REPLICA_COUNT {
      return Some(ReservedReplicaCount), varName;
    }
    err := ThresholdError(spec, source.value, scaleToZero);
    if err.None? {
      err := WindowError(spec, aggregation.value);
    }
  }

  /** Every entry passes and, under scale-to-zero, the list can wake and observes the backend. */
  predicate Parses(specs: seq<MetricSpec>, scaleToZero: bool) {
    && specs != [] && EntriesOk(specs, |specs|, scaleToZero)
    && (scaleToZero ==>
          && Wakes(MetricsOf(specs, |specs|, true))
          && ObservesBackend(MetricsOf(specs, |specs|, true)))
  }

  /** A list parses exactly when it has an entry, every entry passes and, under scale-to-zero, some entry
      has an activation threshold and some model-pod entry a deactivation threshold. */
  lemma ParsesExactlyWhen(specs: seq<MetricSpec>, scaleToZero: bool)
    ensures Parses(specs, scaleToZero) <==>
              && specs != [] && (forall i | 0 <= i < |specs| :: EntryCheck(specs, i, scaleToZero).None?)
              && (scaleToZero ==> exists i | 0 <= i < |specs| :: specs[i].activation.Some?)
              && (scaleToZero ==> exists i | 0 <= i < |specs| ::
                    specs[i].deactivation.Some? && (specs[i].source == "" || specs[i].source == "modelpod"))
  {
    if specs != [] && EntriesOk(specs, |specs|, scaleToZero) && scaleToZero {
      var metrics := MetricsOf(specs, |specs|, true);
      forall i | 0 <= i < |specs|
        ensures metrics[i].activation.Some? <==> specs[i].activation.Some?
        ensures metrics[i].deactivation.Some? <==> specs[i].deactivation.Some?
        ensures metrics[i].source == MODELPOD <==> specs[i].source == "" || specs[i].source == "modelpod"
      {
        assert EntryCheck(specs, i, true).None?;
        assert metrics[i] == MetricOf(specs[i]);
        assert |EPP| != |MODELPOD|;
      }
    }
  }

  lemma MetricsNext(specs: seq<MetricSpec>, i: nat, scaleToZero: bool)
    requires i < |specs| && EntriesOk(specs, i, scaleToZero) && EntryCheck(specs, i, scaleToZero).None?
    ensures EntriesOk(specs, i + 1, scaleToZero)
    ensures MetricsOf(specs, i + 1, scaleToZero) == MetricsOf(specs, i, scaleToZero) + [MetricOf(specs[i])]
    ensures VarsOf(specs, i + 1) == VarsOf(specs, i) + {VarName(specs[i].name)}
  {
  }

  /** Reads the entries in order, up to the first that fails. */
  method ParseEntries(specs: seq<MetricSpec>, scaleToZero: bool) returns (r: Result<seq<Metric>, ConfigError>)
    ensures r.Success? ==> EntriesOk(specs, |specs|, scaleToZero)
    ensures r.Success? ==> r.value == MetricsOf(specs, |specs|, scaleToZero)
    ensures r.Failure? ==>
              && r.error.BadEntry? && r.error.index < |specs|
              && EntriesOk(specs, r.error.index, scaleToZero)
              && EntryCheck(specs, r.error.index, scaleToZero) == Some(r.error.error)
  {
    var metrics: seq<Metric> := [];
    var seenVars: set<string> := {};
    for i := 0 to |specs|
      invariant EntriesOk(specs, i, scaleToZero)
      invariant metrics == MetricsOf(specs, i, scaleToZero)
      invariant seenVars == VarsOf(specs, i)
    {
      var entryError, varName := CheckEntry(specs, i, seenVars, scaleToZero);
      if entryError.Some? {
        return Failure(BadEntry(i, entryError.value));
      }
      MetricsNext(specs, i, scaleToZero);
      seenVars := seenVars + {varName};
      metrics := metrics + [MetricOf(specs[i])];
    }
    return Success(metrics);
  }

  /** Accepts exactly the lists every entry of which passes and, under scale-to-zero, that can
      wake and observe the backend; otherwise reports the first offending entry. */
  method ParseMetrics(specs: seq<MetricSpec>, minReplicas: int)
    returns (r: Result<seq<Metric>, ConfigError>)
    ensures r.Success? <==> Parses(specs, minReplicas == 0)
    ensures r.Success? ==> r.value == MetricsOf(specs, |specs|, minReplicas == 0)
    ensures r.Success? ==> Accepted(r.value, minReplicas == 0)
    ensures r.Failure? && r.error.BadEntry? ==>
              var i := r.error.index;
              && i < |specs| && EntriesOk(specs, i, minReplicas == 0)
              && EntryCheck(specs, i, minReplicas == 0) == Some(r.error.error)
    ensures r.Failure? ==> (r.error.NoMetrics? <==> specs == [])
    ensures r.Failure? && (r.error.NeverWakes? || r.error.ParksBlind?) ==>
              && minReplicas == 0 && EntriesOk(specs, |specs|, true)
              && (r.error.NeverWakes? <==> !Wakes(MetricsOf(specs, |specs|, true)))
  {
    var scaleToZero := minReplicas == 0;
    if |specs| == 0 {
      return Failure(NoMetrics);
    }
    var entries := ParseEntries(specs, scaleToZero);
    if entries.Failure? {
      return entries;
    }
    var metrics := entries.value;
    if scaleToZero {
      var err := ValidateActivationRules(metrics);
      if err.Some? {
        return Failure(err.value);
      }
    }
    ParsedIsAccepted(specs, scaleToZero);
    return Success(metrics);
  }

  // ------------------------------------------------ what acceptance guarantees

  predicate Ordered(low: Option<FiniteDecimal>, high: Option<FiniteDecimal>) {
    low.Some? && high.Some? ==> low.value.Value() <= high.value.Value()
  }

  ghost predicate MetricAccepted(m: Metric, scaleToZero: bool) {
    && m.key != ""
    && m.source in {MODELPOD, EPP}
    && m.aggregation in {SUM, SERVICE_AVG, WINDOWED_AVG}
    && (m.up.Some? <==> m.down.Some?) && Ordered(m.down, m.up)
    && (m.activation.Some? ==> m.source == EPP && m.deactivation.Some?)
    && Ordered(m.deactivation, m.activation)
    && (m.up.Some? || m.deactivation.Some?)
    && (!scaleToZero ==> m.up.Some? && m.activation.None? && m.deactivation.None?)
    && (m.metricCacheWindow != "" <==> m.aggregation == WINDOWED_AVG)
    && (m.aggregation == WINDOWED_AVG ==> exists n: Int64 :: n > 0 && m.metricCacheWindow == Itoa(n))
  }

  /** Everything the formula and the triggers rely on. */
  ghost predicate Accepted(metrics: seq<Metric>, scaleToZero: bool) {
    && metrics != []
    && (forall i | 0 <= i < |metrics| ::
          && MetricAccepted(metrics[i], scaleToZero)
          && VarName(metrics[i].key) != GATE
          && (scaleToZero ==> VarName(metrics[i].key) != REPLICA_COUNT))
    && (forall i, j | 0 <= i < j < |metrics| :: VarName(metrics[i].key) != VarName(metrics[j].key))
    && (scaleToZero ==> Wakes(metrics) && ObservesBackend(metrics))
  }

  lemma EntryAccepted(specs: seq<MetricSpec>, i: nat, scaleToZero: bool)
    requires i < |specs| && EntryCheck(specs, i, scaleToZero).None?
    ensures MetricAccepted(MetricOf(specs[i]), scaleToZero)
    ensures var v := VarName(specs[i].name);
            && v != GATE && (scaleToZero ==> v != REPLICA_COUNT)
            && forall j | 0 <= j < i :: VarName(specs[j].name) != v
  {
    var m := MetricOf(specs[i]);
    if m.aggregation == WINDOWED_AVG {
      var n: Int64 := if specs[i].window.Some? then specs[i].window.value else DEFAULT_METRIC_CACHE_WINDOW;
      assert n > 0 && m.metricCacheWindow == Itoa(n);
    }
  }

  /** A list that passes validation has everything `Accepted` promises. */
  lemma ParsedIsAccepted(specs: seq<MetricSpec>, scaleToZero: bool)
    requires Parses(specs, scaleToZero)
    ensures Accepted(MetricsOf(specs, |specs|, scaleToZero), scaleToZero)
  {
    forall i | 0 <= i < |specs| && EntryCheck(specs, i, scaleToZero).None?
      ensures MetricAccepted(MetricOf(specs[i]), scaleToZero)
      ensures var v := VarName(specs[i].name);
              && v != GATE && (scaleToZero ==> v != REPLICA_COUNT)
              && forall j | 0 <= j < i :: VarName(specs[j].name) != v
    {
      EntryAccepted(specs, i, scaleToZero);
    }
  }

  function Given(d: Option<FiniteDecimal>): Option<Threshold> {
    if d.Some? then Some(Threshold.Finite(d.value)) else None
  }

  /** An annotation entry that configures the given metric. */
  function SpecOf(m: Metric): MetricSpec {
    var n := Atoi(m.metricCacheWindow);
    MetricSpec(m.key, if m.aggregation == WINDOWED_AVG then "histogram" else "gauge", m.source,
               m.aggregation, Given(m.up), Given(m.down), Given(m.activation), Given(m.deactivation),
               if n.Some? && MIN_INT64 <= n.value <= MAX_INT64 then Some(n.value) else None)
  }

  function SpecsOf(metrics: seq<Metric>): seq<MetricSpec> {
    seq(|metrics|, i requires 0 <= i < |metrics| => SpecOf(metrics[i]))
  }

  lemma SpecThresholds(m: Metric, scaleToZero: bool)
    requires MetricAccepted(m, scaleToZero)
    ensures ThresholdError(SpecOf(m), m.source, scaleToZero).None?
  {
    var spec := SpecOf(m);
    assert !Exceeds(spec.down, spec.up) && !Exceeds(spec.deactivation, spec.activation);
  }

  lemma SpecWindow(m: Metric, scaleToZero: bool)
    requires MetricAccepted(m, scaleToZero)
    ensures WindowError(SpecOf(m), m.aggregation).None?
    ensures WindowText(SpecOf(m), m.aggregation) == m.metricCacheWindow
  {
    if m.aggregation == WINDOWED_AVG {
      var n: Int64 :| n > 0 && m.metricCacheWindow == Itoa(n);
      AtoiOfItoa(n);
      assert SpecOf(m).window == Some(n);
    } else {
      assert Atoi("").None?;
    }
  }

  lemma SpecOfRoundTrip(m: Metric, scaleToZero: bool)
    requires MetricAccepted(m, scaleToZero)
    ensures var spec := SpecOf(m);
            && SourceFor(spec.source) == Some(m.source)
            && AggregationFor(spec, m.source) == Success(m.aggregation)
            && MetricOf(spec) == m
  {
    SpecWindow(m, scaleToZero);
  }

  /** `Accepted` is no weaker than validation: every accepted metric list is what some
      annotation parses to. */
  lemma AcceptedIsParsed(metrics: seq<Metric>, scaleToZero: bool)
    requires Accepted(metrics, scaleToZero)
    ensures var specs := SpecsOf(metrics);
            EntriesOk(specs, |specs|, scaleToZero) && MetricsOf(specs, |specs|, scaleToZero) == metrics
  {
    var specs := SpecsOf(metrics);
    forall i | 0 <= i < |metrics|
      ensures EntryCheck(specs, i, scaleToZero).None? && MetricOf(specs[i]) == metrics[i]
    {
      SpecThresholds(metrics[i], scaleToZero);
      SpecWindow(metrics[i], scaleToZero);
      SpecOfRoundTrip(metrics[i], scaleToZero);
    }
  }
}
