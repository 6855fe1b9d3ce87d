/** The value types shared by the metric sources, the cache and the aggregators
    (pkg/metricsource/metricsource.go). float64 is modelled by real. */
module Telemetry {

  /** Upper bound of a histogram bucket. */
  datatype Bound = Finite(le: real) | PosInf

  datatype Bucket = Bucket(le: Bound, cumulativeCount: nat)

  datatype Histogram = Histogram(buckets: seq<Bucket>, count: nat, sum: real)

  datatype NamespacedName = NamespacedName(namespace: string, name: string)

  datatype ScrapeConfig = ScrapeConfig(protocol: string, port: string, path: string, timeout: int)

  /** One scraped service; `failed` stands for a non-nil Err. */
  datatype ServiceMetrics = ServiceMetrics(
    id: NamespacedName,
    metrics: map<string, real>,
    histograms: map<string, Histogram>,
    failed: bool)

  datatype Snapshot = Snapshot(inferenceSet: NamespacedName, services: seq<ServiceMetrics>)

  const MODELPOD := "modelpod"
  const EPP := "epp"
}
