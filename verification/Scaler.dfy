/** How one trigger's value is served (pkg/scaler/scaler.go), and what KEDA computes from all of
    them together. */
module Scaler {
  import opened Core
  import opened Telemetry
  import opened RollingWindow
  import opened EntryKeys
  import opened CacheModel
  import opened MetricCaches
  import Agg = Aggregators
  import opened Provisioner
  import opened Triggers

  datatype InferenceSet = InferenceSet(replicas: Option<int>, readyReplicas: int)

  datatype ServiceLookup = Present | Missing | LookupError

  datatype ServeError = Internal | InvalidArgument | Unavailable

  /** What the cluster looks like to one request: the InferenceSet (None when it cannot be read),
      the model Service of each workspace (None when listing fails), the seeding refresh, and the
      clock at registration, at the snapshot read and at the windowed query. */
  datatype Cluster = Cluster(inferenceSet: Option<InferenceSet>, services: Option<seq<ServiceLookup>>,
                             refresh: World, now: int, read: int, query: int)

  /** The request's view of the world: the cluster, and the local cache before the request. */
  datatype Env = Env(cluster: Cluster, cache: Cache, ttl: int, staleAfter: int, sources: set<string>)

  function DesiredReplicas(s: InferenceSet): int {
    if s.replicas.Some? then s.replicas.value else 1
  }

  function ReadinessGateValue(s: InferenceSet): real {
    if s.readyReplicas < DesiredReplicas(s) then 0.0 else 1.0
  }

  /** The first workspace whose Service exists or cannot be looked up decides. */
  function ModelService(services: seq<ServiceLookup>): Result<bool, ServeError> {
    if services == [] then Success(false)
    else match services[0]
      case Present => Success(true)
      case LookupError => Failure(Internal)
      case Missing => ModelService(services[1..])
  }

  method HasModelService(services: Option<seq<ServiceLookup>>) returns (r: Result<bool, ServeError>)
    ensures r == if services.None? then Failure(Internal) else ModelService(services.value)
  {
    if services.None? {
      return Failure(Internal);
    }
    var items := services.value;
    var i := 0;
    while i < |items|
      invariant 0 <= i <= |items|
      invariant ModelService(items[i..]) == ModelService(items)
    {
      assert items[i..][1..] == items[i + 1..];
      if items[i].Present? {
        return Success(true);
      }
      if items[i].LookupError? {
        return Failure(Internal);
      }
      i := i + 1;
    }
    return Success(false);
  }

  /** The answers that need no scrape: gate, replica count, and model-pod metrics of a workload
      that has nothing to scrape. */
  function Unscraped(cfg: Config, cl: Cluster): Option<Result<real, ServeError>> {
    if cfg.aggregation == AGG_GATE || cfg.aggregation == AGG_REPLICAS then
      Some(match cl.inferenceSet
           case None => Failure(Internal)
           case Some(s) =>
             Success(if cfg.aggregation == AGG_GATE then ReadinessGateValue(s) else DesiredReplicas(s) as real))
    else if cfg.source == MODELPOD then
      match cl.inferenceSet
      case None => Some(Failure(Internal))
      case Some(s) =>
        if DesiredReplicas(s) == 0 then Some(Success(0.0))
        else if !cfg.zeroReplicaFallback then None
        else if cl.services.None? then Some(Failure(Internal))
        else match ModelService(cl.services.value)
          case Failure(e) => Some(Failure(e))
          case Success(has) => if has then None else Some(Success(0.0))
    else None
  }

  lemma {:induction false} NoModelService(services: seq<ServiceLookup>)
    ensures ModelService(services) == Success(false)
            <==> forall i | 0 <= i < |services| :: services[i].Missing?
  {
    if services != [] {
      NoModelService(services[1..]);
      assert forall i | 0 < i < |services| :: services[i] == services[1..][i - 1];
      assert forall i | 0 <= i < |services[1..]| :: services[1..][i] == services[i + 1];
    }
  }

  /** Workspace i has a Service, and every workspace before it is known to have none. */
  ghost predicate FirstService(services: seq<ServiceLookup>, i: nat) {
    i < |services| && services[i].Present? && forall j | 0 <= j < i :: services[j].Missing?
  }

  lemma FirstServiceShifts(services: seq<ServiceLookup>, i: nat)
    requires services != []
    ensures FirstService(services, i + 1) <==> services[0].Missing? && FirstService(services[1..], i)
  {
    assert forall j | 0 < j < |services| :: services[j] == services[1..][j - 1];
    assert forall j | 0 <= j < |services[1..]| :: services[1..][j] == services[j + 1];
  }

  /** A Service is found exactly when one is the first. */
  lemma {:induction false} ModelServiceFound(services: seq<ServiceLookup>)
    ensures ModelService(services) == Success(true) <==> exists i: nat :: FirstService(services, i)
  {
    if services != [] {
      ModelServiceFound(services[1..]);
      forall i: nat
        ensures FirstService(services, i + 1) <==> services[0].Missing? && FirstService(services[1..], i)
      {
        FirstServiceShifts(services, i);
      }
      assert FirstService(services, 0) <==> services[0].Present?;
      if i: nat :| FirstService(services, i) && i > 0 {
        assert FirstService(services[1..], i - 1);
      }
      if i: nat :| FirstService(services[1..], i) {
        assert services[0].Missing? ==> FirstService(services, i + 1);
      }
    }
  }

  /** A model-pod metric is answered 0 without scraping exactly when no replica is desired, or
      when the trigger opted in and every workspace's Service is known to be missing. */
  lemma UnscrapedZeroExactlyWhen(cfg: Config, cl: Cluster, s: InferenceSet)
    requires cfg.source == MODELPOD && cfg.aggregation !in {AGG_GATE, AGG_REPLICAS}
    requires cl.inferenceSet == Some(s)
    ensures Unscraped(cfg, cl) == Some(Success(0.0)) <==>
            || s.replicas == Some(0)
            || (cfg.zeroReplicaFallback && cl.services.Some?
                && forall i | 0 <= i < |cl.services.value| :: cl.services.value[i].Missing?)
  {
    if cl.services.Some? {
      NoModelService(cl.services.value);
    }
  }

  function TargetOf(cfg: Config): Target {
    Target(NamespacedName(cfg.namespace, cfg.name),
           ScrapeConfig(cfg.protocol, cfg.port, cfg.path, cfg.timeout), cfg.source)
  }

  /** The router's sums disable missing-service compensation. */
  function AggregationThreshold(cfg: Config): real {
    if cfg.source == EPP && cfg.aggregation == SUM then 0.0 else cfg.threshold
  }

  function FromAggregator(r: Result<real, Agg.AggregateError>): Result<real, ServeError> {
    match r
    case Success(v) => Success(v)
    case Failure(_) => Failure(Internal)
  }

  /** The value of a snapshot, or of the window for the windowed average. */
  function Reduced(cfg: Config, snap: Snapshot, windowed: Result<real, Hold>): Result<real, ServeError> {
    if cfg.source == EPP && cfg.aggregation == SUM && snap.services == [] then Failure(Internal)
    else if cfg.aggregation == SUM then
      FromAggregator(Agg.SumValue(Some(snap), cfg.metric, AggregationThreshold(cfg)))
    else if cfg.aggregation == SERVICE_AVG then FromAggregator(Agg.AverageValue(Some(snap), cfg.metric))
    else match windowed
      case Success(v) => Success(v)
      case Failure(_) => Failure(Internal)
  }

  /** The cache after the request has registered its target. */
  function CacheAfter(cfg: Config, e: Env): Cache {
    Ensured(e.cache, TargetOf(cfg), cfg.window, e.cluster.now, e.cluster.refresh, e.ttl, e.sources)
  }

  function ServedFromCache(cfg: Config, e: Env): Result<real, ServeError> {
    if cfg.source !in e.sources || cfg.aggregation !in {SUM, SERVICE_AVG, WINDOWED_AVG} then
      Failure(InvalidArgument)
    else
      var c := CacheAfter(cfg, e);
      match FreshSnapshot(c, EntryKey(TargetOf(cfg)), e.cluster.read, e.staleAfter)
      case None => Failure(ServeError.Unavailable)
      case Some(snap) =>
        Reduced(cfg, snap, WindowedAnswer(c, TargetOf(cfg), e.cluster.query, e.staleAfter, cfg.window, cfg.metric))
  }

  /** The cache a request leaves behind. */
  function CacheLeft(cfg: Config, e: Env): Cache {
    if Unscraped(cfg, e.cluster).Some? || cfg.source !in e.sources
       || cfg.aggregation !in {SUM, SERVICE_AVG, WINDOWED_AVG} then e.cache
    else
      var c := CacheAfter(cfg, e);
      var key := EntryKey(TargetOf(cfg));
      var snap := FreshSnapshot(c, key, e.cluster.read, e.staleAfter);
      if cfg.aggregation == WINDOWED_AVG && snap.Some? then Apply(c, Touch(key, e.cluster.query), e.ttl) else c
  }

  /** What GetMetrics returns. */
  function Served(cfg: Config, e: Env): Result<real, ServeError> {
    match Unscraped(cfg, e.cluster)
    case Some(r) => r
    case None => ServedFromCache(cfg, e)
  }

  /** What the gate, the replica count and a model-pod metric at zero replicas are served: the gate
      is 1 exactly when at least the desired number of replicas is ready, the count is the desired
      number (1 when the InferenceSet does not say), and the metric is 0. None of them is served
      without reading the InferenceSet. */
  lemma SyntheticValues(cfg: Config, e: Env)
    ensures var cl := e.cluster;
            var desired := if cl.inferenceSet.Some? && cl.inferenceSet.value.replicas.Some?
                           then cl.inferenceSet.value.replicas.value else 1;
            && (cfg.aggregation == "gate" && cl.inferenceSet.Some? ==>
                  Served(cfg, e) == Success(if cl.inferenceSet.value.readyReplicas >= desired then 1.0 else 0.0))
            && (cfg.aggregation == "replicas" && cl.inferenceSet.Some? ==>
                  Served(cfg, e) == Success(desired as real))
            && (cfg.aggregation != "gate" && cfg.aggregation != "replicas" && cfg.source == "modelpod"
                && cl.inferenceSet.Some? && cl.inferenceSet.value.replicas == Some(0) ==>
                  Served(cfg, e) == Success(0.0))
            && (cl.inferenceSet.None? && (cfg.aggregation in {"gate", "replicas"} || cfg.source == "modelpod") ==>
                  Served(cfg, e) == Failure(Internal))
  {
    assert |"gate"| != |"replicas"|;
  }

  /** What a request that does scrape is told when it is not served a value: an unknown source or
      aggregation is refused, and without a fresh snapshot the metric is unavailable. */
  lemma UnservedExactlyWhen(cfg: Config, e: Env)
    requires Unscraped(cfg, e.cluster).None?
    ensures Served(cfg, e) == Failure(InvalidArgument) <==>
              cfg.source !in e.sources || cfg.aggregation !in {"sum", "service-avg", "windowed-avg"}
    ensures Served(cfg, e) == Failure(ServeError.Unavailable) <==>
              && cfg.source in e.sources && cfg.aggregation in {"sum", "service-avg", "windowed-avg"}
              && FreshSnapshot(CacheAfter(cfg, e), EntryKey(TargetOf(cfg)), e.cluster.read, e.staleAfter).None?
  {
  }

  /** A fresh snapshot is reduced as the trigger says: a sum with the trigger's own threshold standing in
      for failed services, except that the router's sum has none and needs some router pod; an average
      over services. A reduction that fails is an internal error. */
  lemma ReducedFromSnapshot(cfg: Config, e: Env, snap: Snapshot)
    requires Unscraped(cfg, e.cluster).None? && cfg.source in e.sources
    requires FreshSnapshot(CacheAfter(cfg, e), EntryKey(TargetOf(cfg)), e.cluster.read, e.staleAfter) == Some(snap)
    ensures cfg.aggregation == "sum" && cfg.source == "epp" && snap.services == [] ==>
              Served(cfg, e) == Failure(Internal)
    ensures cfg.aggregation == "sum" && !(cfg.source == "epp" && snap.services == []) ==>
              var r := Agg.SumValue(Some(snap), cfg.metric, if cfg.source == "epp" then 0.0 else cfg.threshold);
              Served(cfg, e) == if r.Success? then Success(r.value) else Failure(Internal)
    ensures cfg.aggregation == "service-avg" ==>
              var r := Agg.AverageValue(Some(snap), cfg.metric);
              Served(cfg, e) == if r.Success? then Success(r.value) else Failure(Internal)
  {
    assert |"sum"| == 3 && |"service-avg"| == 11 && |"epp"| == 3;
  }

  /** What a request leaves behind: nothing changes when no scrape is needed or the trigger is refused; any
      other request for a tracked target keeps it alive, as of its registration or its windowed query,
      with its samples untouched. */
  lemma RequestKeepsTargetAlive(cfg: Config, e: Env)
    ensures Unscraped(cfg, e.cluster).Some? ==> CacheLeft(cfg, e) == e.cache
    ensures cfg.source !in e.sources ==> CacheLeft(cfg, e) == e.cache
    ensures cfg.aggregation !in {"sum", "service-avg", "windowed-avg"} ==> CacheLeft(cfg, e) == e.cache
    ensures var key := EntryKey(TargetOf(cfg));
            && Unscraped(cfg, e.cluster).None? && cfg.source in e.sources
            && cfg.aggregation in {"sum", "service-avg", "windowed-avg"} && key in e.cache ==>
              && key in CacheLeft(cfg, e)
              && CacheLeft(cfg, e)[key].lastAccess in {e.cluster.now, e.cluster.query}
              && CacheLeft(cfg, e)[key].samples == e.cache[key].samples
              && CacheLeft(cfg, e)[key].window >= cfg.window
              && CacheLeft(cfg, e) - {key} == e.cache - {key}
  {
    var key := EntryKey(TargetOf(cfg));
    if key in e.cache {
      KnownTargetIsNotScraped(e.cache, TargetOf(cfg), cfg.window, e.cluster.now, e.cluster.refresh, e.ttl, e.sources);
      TouchedEntry(CacheAfter(cfg, e), key, e.cluster.query, e.ttl);
    }
  }

  /** The request registers and reads the target its trigger names. */
  lemma TargetNamedByTrigger(cfg: Config)
    ensures var t := TargetOf(cfg);
            && t.owner.namespace == cfg.namespace && t.owner.name == cfg.name && t.source == cfg.source
            && t.cfg.protocol == cfg.protocol && t.cfg.port == cfg.port && t.cfg.path == cfg.path
            && t.cfg.timeout == cfg.timeout
  {
  }

  class KaitoScaler {
    const cache: MetricCache

    constructor (cache: MetricCache)
      ensures this.cache == cache
    {
      this.cache := cache;
    }

    ghost function EnvNow(cl: Cluster): Env
      reads this, cache, cache.entries.Values
    {
      Env(cl, cache.View(), cache.ttl, cache.staleAfter, cache.sources)
    }

    method GetMetrics(cfg: Config, cl: Cluster) returns (r: Result<real, ServeError>)
      requires cache.Valid()
      modifies cache, cache.entries.Values
      ensures cache.Valid() && fresh(cache.entries.Values - old(cache.entries.Values))
      ensures r == Served(cfg, old(EnvNow(cl)))
      ensures cache.View() == CacheLeft(cfg, old(EnvNow(cl)))
    {
      if cfg.aggregation == AGG_GATE || cfg.aggregation == AGG_REPLICAS {
        if cl.inferenceSet.None? {
          return Failure(Internal);
        }
        var s := cl.inferenceSet.value;
        if cfg.aggregation == AGG_GATE {
          return Success(ReadinessGateValue(s));
        }
        return Success(DesiredReplicas(s) as real);
      }
      if cfg.source == MODELPOD {
        if cl.inferenceSet.None? {
          return Failure(Internal);
        }
        if DesiredReplicas(cl.inferenceSet.value) == 0 {
          return Success(0.0);
        }
        if cfg.zeroReplicaFallback {
          var hasService := HasModelService(cl.services);
          if hasService.Failure? {
            return Failure(hasService.error);
          }
          if !hasService.value {
            return Success(0.0);
          }
        }
      }
      if cfg.source !in cache.sources {
        return Failure(InvalidArgument);
      }
      if cfg.aggregation !in {SUM, SERVICE_AVG, WINDOWED_AVG} {
        return Failure(InvalidArgument);
      }
      r := ServeFromCache(cfg, cl);
    }

    method ServeFromCache(cfg: Config, cl: Cluster) returns (r: Result<real, ServeError>)
      requires cache.Valid()
      requires cfg.source in cache.sources && cfg.aggregation in {SUM, SERVICE_AVG, WINDOWED_AVG}
      requires Unscraped(cfg, cl).None?
      modifies cache, cache.entries.Values
      ensures cache.Valid() && fresh(cache.entries.Values - old(cache.entries.Values))
      ensures r == ServedFromCache(cfg, old(EnvNow(cl)))
      ensures cache.View() == CacheLeft(cfg, old(EnvNow(cl)))
    {
      var target := TargetOf(cfg);
      var snapshot := cache.Current(target, cfg.window, cl.now, cl.refresh, cl.read);
      if snapshot.None? {
        return Failure(ServeError.Unavailable);
      }
      if cfg.source == EPP && cfg.aggregation == SUM && |snapshot.value.services| == 0 {
        return Failure(Internal);
      }
      if cfg.aggregation == SUM {
        var v := Agg.SumAggregate(snapshot, cfg.metric, AggregationThreshold(cfg));
        return FromAggregator(v);
      }
      if cfg.aggregation == SERVICE_AVG {
        var v := Agg.ServiceAverageAggregate(snapshot, cfg.metric);
        return FromAggregator(v);
      }
      var v := cache.Aggregate(target, cfg.metric, cfg.window, cl.query);
      if v.Failure? {
        return Failure(Internal);
      }
      return Success(v.value);
    }
  }
}
