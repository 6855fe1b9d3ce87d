/** The per-snapshot reductions (pkg/aggregator): the compensated sum and the per-service
    average. */
module Aggregators {
  import opened Core
  import opened Reals
  import opened Sequences
  import opened Telemetry

  datatype AggregateError = NilSnapshot | NoServices | NothingScraped | NotExposed

  /** A service that does not expose the metric reads as 0. */
  function Reading(svc: ServiceMetrics, metric: string): real {
    if metric in svc.metrics then svc.metrics[metric] else 0.0
  }

  function ReadingSum(services: seq<ServiceMetrics>, metric: string): real {
    if services == [] then 0.0
    else
      var svc := services[|services| - 1];
      ReadingSum(services[..|services| - 1], metric) + if svc.failed then 0.0 else Reading(svc, metric)
  }

  function Successes(services: seq<ServiceMetrics>): (n: nat)
    ensures n <= |services|
  {
    if services == [] then 0
    else
      Successes(services[..|services| - 1]) + if services[|services| - 1].failed then 0 else 1
  }

  predicate SomeExpose(services: seq<ServiceMetrics>, metric: string) {
    exists i | 0 <= i < |services| :: !services[i].failed && metric in services[i].metrics
  }

  function Clamp(x: real): real {
    if x < 0.0 then 0.0 else x
  }

  /** The sum, with the threshold standing in for each of the `total - s` failed services in the
      scale-down direction. */
  function Total(sum: real, s: nat, total: nat, threshold: real): real
    requires 0 < s <= total
  {
    if s != total && sum / s as real < threshold then sum + threshold * (total - s) as real else sum
  }

  function Compensated(services: seq<ServiceMetrics>, metric: string, threshold: real): real
    requires Successes(services) > 0
  {
    Clamp(Total(ReadingSum(services, metric), Successes(services), |services|, threshold))
  }

  function SumValue(snap: Option<Snapshot>, metric: string, threshold: real): Result<real, AggregateError> {
    if snap.None? then Failure(NilSnapshot)
    else if snap.value.services == [] then Failure(NoServices)
    else if Successes(snap.value.services) == 0 then Failure(NothingScraped)
    else Success(Compensated(snap.value.services, metric, threshold))
  }

  method SumAggregate(snapshot: Option<Snapshot>, metric: string, threshold: real)
    returns (r: Result<real, AggregateError>)
    ensures r == SumValue(snapshot, metric, threshold)
  {
    if snapshot.None? {
      return Failure(NilSnapshot);
    }
    var services := snapshot.value.services;
    var total := |services|;
    if total == 0 {
      return Failure(NoServices);
    }
    var sum, successCount := 0.0, 0;
    for i := 0 to total
      invariant sum == ReadingSum(services[..i], metric)
      invariant successCount == Successes(services[..i])
    {
      assert services[..i + 1][..i] == services[..i];
      if services[i].failed {
        continue;
      }
      sum := sum + Reading(services[i], metric);
      successCount := successCount + 1;
    }
    assert services[..total] == services;
    if successCount == 0 {
      return Failure(NothingScraped);
    }
    ghost var plain := sum;
    if successCount != total {
      var avgSuccess := sum / successCount as real;
      if avgSuccess < threshold {
        sum := sum + threshold * (total - successCount) as real;
      }
    }
    assert sum == Total(plain, successCount, total, threshold);
    if sum < 0.0 {
      sum := 0.0;
    }
    return Success(sum);
  }

  function AverageValue(snap: Option<Snapshot>, metric: string): Result<real, AggregateError> {
    if snap.None? then Failure(NilSnapshot)
    else if snap.value.services == [] then Failure(NoServices)
    else if Successes(snap.value.services) == 0 then Failure(NothingScraped)
    else if !SomeExpose(snap.value.services, metric) then Failure(NotExposed)
    else Success(Clamp(ReadingSum(snap.value.services, metric) / Successes(snap.value.services) as real))
  }

  method ServiceAverageAggregate(snapshot: Option<Snapshot>, metric: string)
    returns (r: Result<real, AggregateError>)
    ensures r == AverageValue(snapshot, metric)
  {
    if snapshot.None? {
      return Failure(NilSnapshot);
    }
    var services := snapshot.value.services;
    if |services| == 0 {
      return Failure(NoServices);
    }
    var sum, successCount, found := 0.0, 0, false;
    for i := 0 to |services|
      invariant sum == ReadingSum(services[..i], metric)
      invariant successCount == Successes(services[..i])
      invariant found <==> exists j | 0 <= j < i :: !services[j].failed && metric in services[j].metrics
    {
      assert services[..i + 1][..i] == services[..i];
      if services[i].failed {
        continue;
      }
      if metric in services[i].metrics {
        found := true;
      }
      sum := sum + Reading(services[i], metric);
      successCount := successCount + 1;
    }
    assert services[..|services|] == services;
    if successCount == 0 {
      return Failure(NothingScraped);
    }
    if !found {
      return Failure(NotExposed);
    }
    var avg := sum / successCount as real;
    if avg < 0.0 {
      avg := 0.0;
    }
    return Success(avg);
  }

  // -------------------------------------------------------------- properties

  /** What one more service contributes: its exposed value when it was scraped, 0 when it was scraped
      without exposing the metric, and nothing at all when the scrape failed. */
  lemma TotalsAdd(services: seq<ServiceMetrics>, svc: ServiceMetrics, metric: string)
    ensures ReadingSum([], metric) == 0.0 && Successes([]) == 0
    ensures svc.failed ==>
              && ReadingSum(services + [svc], metric) == ReadingSum(services, metric)
              && Successes(services + [svc]) == Successes(services)
    ensures !svc.failed ==> Successes(services + [svc]) == Successes(services) + 1
    ensures !svc.failed && metric in svc.metrics ==>
              ReadingSum(services + [svc], metric) == ReadingSum(services, metric) + svc.metrics[metric]
    ensures !svc.failed && metric !in svc.metrics ==>
              ReadingSum(services + [svc], metric) == ReadingSum(services, metric)
  {
    assert (services + [svc])[..|services|] == services;
  }

  lemma {:induction false} NoSuccessWhenAllFailed(services: seq<ServiceMetrics>)
    ensures Successes(services) == 0 <==> forall i | 0 <= i < |services| :: services[i].failed
  {
    if services != [] {
      var init := services[..|services| - 1];
      NoSuccessWhenAllFailed(init);
      assert forall i | 0 <= i < |init| :: services[i] == init[i];
    }
  }

  /** The reductions fail exactly when no service was scraped, and the average also when no scraped
      service exposes the metric. */
  lemma ReductionsFailExactlyWhen(snap: Option<Snapshot>, metric: string, threshold: real)
    ensures SumValue(snap, metric, threshold).Failure? <==>
              snap.None? || forall i | 0 <= i < |snap.value.services| :: snap.value.services[i].failed
    ensures AverageValue(snap, metric).Failure? <==>
              || snap.None?
              || forall i | 0 <= i < |snap.value.services| && !snap.value.services[i].failed ::
                   metric !in snap.value.services[i].metrics
  {
    if snap.Some? {
      NoSuccessWhenAllFailed(snap.value.services);
    }
  }

  /** The sum, without division: failed services count with the threshold each when the scraped ones
      stay below it on average, and a negative total reads as 0. */
  lemma SumAnswer(snap: Snapshot, metric: string, threshold: real)
    requires SumValue(Some(snap), metric, threshold).Success?
    ensures var (sum, s, n) := (ReadingSum(snap.services, metric), Successes(snap.services), |snap.services|);
            var total := if s < n && sum < threshold * s as real then sum + threshold * (n - s) as real else sum;
            SumValue(Some(snap), metric, threshold).value == if total < 0.0 then 0.0 else total
  {
    BelowByProduct(ReadingSum(snap.services, metric), Successes(snap.services), threshold);
  }

  lemma BelowByProduct(sum: real, s: nat, t: real)
    requires s > 0
    ensures sum / s as real < t <==> sum < t * s as real
  {
    var n := s as real;
    var q := sum / n;
    assert q * n == sum;
    if q < t {
      assert (t - q) * n > 0.0;
    } else {
      assert (q - t) * n >= 0.0;
    }
  }

  /** The average times the number of scraped services is their sum, and a negative one reads as 0. */
  lemma AverageAnswer(snap: Snapshot, metric: string)
    requires AverageValue(Some(snap), metric).Success?
    ensures var (sum, s) := (ReadingSum(snap.services, metric), Successes(snap.services));
            AverageValue(Some(snap), metric).value * s as real == if sum < 0.0 then 0.0 else sum
  {
    var (sum, s) := (ReadingSum(snap.services, metric), Successes(snap.services));
    assert (sum / s as real) * s as real == sum;
    BelowByProduct(sum, s, 0.0);
  }

  ghost predicate NonNegative(services: seq<ServiceMetrics>, metric: string) {
    forall i | 0 <= i < |services| :: !services[i].failed ==> Reading(services[i], metric) >= 0.0
  }

  lemma {:induction false} SumNonNegative(services: seq<ServiceMetrics>, metric: string)
    requires NonNegative(services, metric)
    ensures ReadingSum(services, metric) >= 0.0
  {
    if services != [] {
      var init := services[..|services| - 1];
      assert forall i | 0 <= i < |init| :: init[i] == services[i];
      SumNonNegative(init, metric);
    }
  }

  ghost predicate ReadingsWithin(services: seq<ServiceMetrics>, metric: string, lo: real, hi: real) {
    forall i | 0 <= i < |services| :: !services[i].failed ==> lo <= Reading(services[i], metric) <= hi
  }

  lemma {:induction false} SumBetween(services: seq<ServiceMetrics>, metric: string, lo: real, hi: real)
    requires ReadingsWithin(services, metric, lo, hi)
    ensures Times(lo, Successes(services)) <= ReadingSum(services, metric) <= Times(hi, Successes(services))
  {
    if services != [] {
      var init := services[..|services| - 1];
      assert forall i | 0 <= i < |init| :: init[i] == services[i];
      SumBetween(init, metric, lo, hi);
    }
  }

  /** The per-service average lies between the smallest and the largest reading of the scraped
      services: a failed service does not move it, and a metric nobody exposes has none. */
  lemma AverageWithinReadings(snap: Snapshot, metric: string, lo: real, hi: real)
    requires 0.0 <= lo && AverageValue(Some(snap), metric).Success?
    requires ReadingsWithin(snap.services, metric, lo, hi)
    ensures lo <= AverageValue(Some(snap), metric).value <= hi
    ensures SomeExpose(snap.services, metric)
  {
    SumBetween(snap.services, metric, lo, hi);
    MeanBetween(ReadingSum(snap.services, metric), Successes(snap.services), lo, hi);
  }

  function Ceil(x: real): (n: int)
    ensures n as real - 1.0 < x <= n as real
  {
    -((-x).Floor)
  }

  lemma CeilShift(x: real, k: int)
    ensures Ceil(x + k as real) == Ceil(x) + k
  {
    var f := (-x).Floor;
    assert -(x + k as real) == -x - k as real;
  }

  lemma MulOut(sum: real, s: real, t: real)
    requires s > 0.0 && t > 0.0 && sum / s < t
    ensures sum < t * s && sum / t < s
  {
    var q := sum / s;
    assert sum == q * s;
    assert (t - q) * s > 0.0;
    var p := sum / t;
    assert p * t == sum;
    assert (s - p) * t > 0.0;
  }

  /** `r` is the compensated total of s scraped services (summing to `sum`) and m failed ones: it
      lies in [t*m, t*(s+m)), and the HPA's ceil(r / t) is m more than for the scraped services
      alone and never exceeds the number of services. */
  ghost predicate KeepsDirection(r: real, sum: real, s: nat, m: nat, t: real)
    requires t > 0.0
  {
    && t * m as real <= r < t * (s + m) as real
    && Ceil(r / t) == m + Ceil(sum / t) <= s + m
  }

  lemma RangeBelowThreshold(sum: real, s: real, m: real, t: real)
    requires t > 0.0 && s > 0.0 && m >= 0.0 && sum >= 0.0 && sum / s < t
    ensures 0.0 <= t * m <= sum + t * m < t * (s + m)
  {
    MulOut(sum, s, t);
    assert t * (s + m) == t * s + t * m;
    assert t * m >= 0.0;
  }

  lemma CeilOfShifted(sum: real, s: nat, m: nat, t: real)
    requires t > 0.0 && s > 0 && sum / s as real < t
    ensures Ceil((sum + t * m as real) / t) == m + Ceil(sum / t) <= s + m
  {
    MulOut(sum, s as real, t);
    ShiftQuotient(sum, m as real, t);
    var shifted, q := (sum + t * m as real) / t, sum / t;
    assert shifted == q + m as real;
    CeilShift(q, m);
    CeilBelow(q, s);
  }

  /** The arithmetic of the scale-down case. */
  lemma TotalBelowThreshold(sum: real, s: nat, m: nat, t: real)
    requires t > 0.0 && s > 0 && sum >= 0.0 && sum / s as real < t
    ensures KeepsDirection(Total(sum, s, s + m, t), sum, s, m, t)
    ensures Total(sum, s, s + m, t) >= 0.0
  {
    RangeBelowThreshold(sum, s as real, m as real, t);
    CeilOfShifted(sum, s, m, t);
    assert Total(sum, s, s + m, t) == sum + t * m as real;
    assert (s + m) as real == s as real + m as real;
  }

  lemma CeilBelow(x: real, n: int)
    requires x < n as real
    ensures Ceil(x) <= n
  {
  }

  lemma ShiftQuotient(sum: real, m: real, t: real)
    requires t > 0.0
    ensures (sum + t * m) / t == sum / t + m
  {
    var q := sum / t;
    assert (q + m) * t == sum + t * m;
  }

  lemma ClampedTotal(services: seq<ServiceMetrics>, metric: string, t: real, r: real)
    requires Successes(services) > 0 && r >= 0.0
    requires r == Total(ReadingSum(services, metric), Successes(services), |services|, t)
    ensures Compensated(services, metric, t) == r
  {
  }

  /** Compensation keeps the scale-down direction whenever the scraped services average below the
      threshold. */
  lemma CompensationKeepsScaleDown(services: seq<ServiceMetrics>, metric: string, t: real)
    requires t > 0.0 && Successes(services) > 0 && NonNegative(services, metric)
    requires ReadingSum(services, metric) / Successes(services) as real < t
    ensures KeepsDirection(Compensated(services, metric, t), ReadingSum(services, metric),
                           Successes(services), |services| - Successes(services), t)
  {
    var sum, s, m := ReadingSum(services, metric), Successes(services), |services| - Successes(services);
    SumNonNegative(services, metric);
    TotalBelowThreshold(sum, s, m, t);
    ClampedTotal(services, metric, t, Total(sum, s, s + m, t));
  }

  lemma TotalAboveThreshold(sum: real, s: nat, total: nat, t: real)
    requires t >= 0.0 && 0 < s <= total && sum >= 0.0
    requires t == 0.0 || sum / s as real >= t
    ensures Total(sum, s, total, t) == sum && sum >= t * s as real
  {
    var n := s as real;
    var q := sum / n;
    assert sum == q * n;
    if t == 0.0 {
      DivBetween(sum, n, 0.0, q);
    } else {
      assert (q - t) * n >= 0.0;
    }
  }

  /** At or above the threshold, and always at threshold 0 (the router's sums), nothing is
      added. */
  lemma NoCompensationAboveThreshold(services: seq<ServiceMetrics>, metric: string, t: real)
    requires t >= 0.0 && Successes(services) > 0 && NonNegative(services, metric)
    requires t == 0.0 || ReadingSum(services, metric) / Successes(services) as real >= t
    ensures Compensated(services, metric, t) == ReadingSum(services, metric)
    ensures Compensated(services, metric, t) >= t * Successes(services) as real
  {
    SumNonNegative(services, metric);
    TotalAboveThreshold(ReadingSum(services, metric), Successes(services), |services|, t);
  }

  lemma CeilAbove(sum: real, n: int, t: real)
    requires t > 0.0
    ensures Ceil(sum / t) >= n + 1 <==> sum > t * n as real
  {
    var q := sum / t;
    assert q * t == sum;
    assert Ceil(q) >= n + 1 <==> q > n as real;
    if q > n as real {
      assert (q - n as real) * t > 0.0;
    } else {
      assert (n as real - q) * t >= 0.0;
    }
  }

  /** With missing services the scale-up direction is kept exactly when the scraped services
      alone carry more load than all services but one would at the threshold. */
  lemma ScaleUpKeptExactlyWhen(services: seq<ServiceMetrics>, metric: string, t: real)
    requires t > 0.0 && Successes(services) > 0 && NonNegative(services, metric)
    requires ReadingSum(services, metric) / Successes(services) as real >= t
    ensures Ceil(Compensated(services, metric, t) / t) >= |services|
            <==> ReadingSum(services, metric) > t * (|services| - 1) as real
  {
    NoCompensationAboveThreshold(services, metric, t);
    CeilAbove(ReadingSum(services, metric), |services| - 1, t);
  }

  /** It can be lost: one of three services answers, exactly at its threshold; the average says
      "do not scale down", yet the total asks for a single replica. */
  lemma ScaleUpDirectionCanBeLost(id: NamespacedName)
    ensures var busy := ServiceMetrics(id, map["m" := 5.0], map[], false);
            var gone := ServiceMetrics(id, map[], map[], true);
            var services := [busy, gone, gone];
            && Successes(services) == 1 && ReadingSum(services, "m") / 1.0 >= 5.0
            && Ceil(Compensated(services, "m", 5.0) / 5.0) == 1
  {
    var busy := ServiceMetrics(id, map["m" := 5.0], map[], false);
    var gone := ServiceMetrics(id, map[], map[], true);
    var services := [busy, gone, gone];
    assert services[..2] == [busy, gone] && services[..2][..1] == [busy] && services[..2][..1][..0] == [];
    assert Successes([busy]) == 1 && ReadingSum([busy], "m") == 5.0;
    assert Successes(services[..2]) == 1 && ReadingSum(services[..2], "m") == 5.0;
  }

  // ------------------------------------------------------- order of services

  lemma {:induction false} SplitSums(xs: seq<ServiceMetrics>, ys: seq<ServiceMetrics>, metric: string)
    ensures ReadingSum(xs + ys, metric) == ReadingSum(xs, metric) + ReadingSum(ys, metric)
    ensures Successes(xs + ys) == Successes(xs) + Successes(ys)
  {
    if ys == [] {
      assert xs + ys == xs;
    } else {
      assert (xs + ys)[..|xs + ys| - 1] == xs + ys[..|ys| - 1];
      SplitSums(xs, ys[..|ys| - 1], metric);
    }
  }

  lemma SumsWithout(xs: seq<ServiceMetrics>, j: nat, metric: string)
    requires j < |xs|
    ensures ReadingSum(xs, metric) == ReadingSum(Without(xs, j), metric) + ReadingSum([xs[j]], metric)
    ensures Successes(xs) == Successes(Without(xs, j)) + Successes([xs[j]])
  {
    var before, mid, after := xs[..j], [xs[j]], xs[j + 1..];
    assert xs == before + (mid + after);
    SplitSums(before, mid + after, metric);
    SplitSums(mid, after, metric);
    SplitSums(before, after, metric);
  }

  lemma {:induction false} SumsOrderIndependent(xs: seq<ServiceMetrics>, ys: seq<ServiceMetrics>, metric: string)
    requires multiset(xs) == multiset(ys)
    ensures ReadingSum(xs, metric) == ReadingSum(ys, metric)
    ensures Successes(xs) == Successes(ys) && |xs| == |ys|
    decreases |xs|
  {
    assert |multiset(xs)| == |xs| && |multiset(ys)| == |ys|;
    if xs != [] {
      var n := |xs| - 1;
      var j := TakeOut(xs, ys);
      SumsOrderIndependent(xs[..n], Without(ys, j), metric);
      SumsWithout(ys, j, metric);
      SumsWithout(xs, n, metric);
      assert Without(xs, n) == xs[..n];
    }
  }

  /** Neither reduction depends on the order in which services were scraped. */
  lemma ReductionsOrderIndependent(a: Snapshot, b: Snapshot, metric: string, threshold: real)
    requires multiset(a.services) == multiset(b.services)
    ensures SumValue(Some(a), metric, threshold) == SumValue(Some(b), metric, threshold)
    ensures AverageValue(Some(a), metric) == AverageValue(Some(b), metric)
  {
    assert |multiset(a.services)| == |a.services| && |multiset(b.services)| == |b.services|;
    SumsOrderIndependent(a.services, b.services, metric);
    SameExposure(a.services, b.services, metric);
    SameExposure(b.services, a.services, metric);
  }

  lemma SameExposure(xs: seq<ServiceMetrics>, ys: seq<ServiceMetrics>, metric: string)
    requires multiset(xs) == multiset(ys)
    ensures SomeExpose(xs, metric) ==> SomeExpose(ys, metric)
  {
    if SomeExpose(xs, metric) {
      var i :| 0 <= i < |xs| && !xs[i].failed && metric in xs[i].metrics;
      assert xs[i] in multiset(ys);
      var j :| 0 <= j < |ys| && ys[j] == xs[i];
    }
  }
}
