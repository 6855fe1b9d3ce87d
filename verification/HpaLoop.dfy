/** The 1..N closed loop: the formula's output through the HPA contract the code comments state
    (pkg/scaledobject/provisioner.go): desired = ceil(current * output / target), a tolerance
    deadband, and at most one pod per period. */
module HpaLoop {
  import opened Provisioner
  import opened Formula
  import opened Decision
  import opened ScaledObjects
  import S = DecisionSafety
  import Agg = Aggregators

  /** Replica bounds, per-direction tolerances and pods per period of one ScaledObject. */
  datatype Bounds = Bounds(min: int, max: int, upTolerance: real, downTolerance: real, upLimit: int, downLimit: int)

  predicate WellBounded(b: Bounds) {
    && 1 <= b.min <= b.max && b.upTolerance >= 0.0 && b.downTolerance >= 0.0
    && b.upLimit == 1 && b.downLimit == 1
  }

  /** Pods per period under select policy Max: the largest policy value. */
  function StepLimit(policies: seq<Policy>): int {
    if policies == [] then 0
    else
      var rest := StepLimit(policies[1..]);
      if policies[0].value > rest then policies[0].value else rest
  }

  /** The loop parameters of the HPA configuration the provisioner builds; `ratio` reads a
      quantity. */
  function BuiltBounds(g: Globals, minReplicas: int, maxReplicas: int, ratio: string -> real): Bounds {
    var behavior := BuildHpaConfig(g).behavior.value;
    var (up, down) := (behavior.up.value, behavior.down.value);
    Bounds(minReplicas, maxReplicas, ratio(up.tolerance.value), ratio(down.tolerance.value),
           StepLimit(up.policies), StepLimit(down.policies))
  }

  /** The built configuration moves one pod per period in each direction, with each tolerance on
      its own side. */
  lemma BuiltBoundsMoveOnePod(g: Globals, minReplicas: int, maxReplicas: int, ratio: string -> real)
    requires 1 <= minReplicas <= maxReplicas && ratio(g.upTolerance) >= 0.0 && ratio(g.downTolerance) >= 0.0
    ensures var b := BuiltBounds(g, minReplicas, maxReplicas, ratio);
            WellBounded(b) && b.upTolerance == ratio(g.upTolerance) && b.downTolerance == ratio(g.downTolerance)
  {
    var policies := BuildHpaConfig(g).behavior.value.up.value.policies;
    assert StepLimit(policies[1..]) == 0;
    var others := BuildHpaConfig(g).behavior.value.down.value.policies;
    assert StepLimit(others[1..]) == 0;
  }

  /** The ratio is inside the deadband. */
  predicate Tolerated(b: Bounds, output: real) {
    1.0 - b.downTolerance <= output <= 1.0 + b.upTolerance
  }

  function Wanted(b: Bounds, current: int, output: real): int {
    if Tolerated(b, output) then current else Agg.Ceil(current as real * output)
  }

  /** At most the policy's pods up or down per period, inside the bounds. */
  function Next(b: Bounds, current: int, output: real): int {
    var wanted := Wanted(b, current, output);
    var stepped := if wanted > current + b.upLimit then current + b.upLimit
                   else if wanted < current - b.downLimit then current - b.downLimit
                   else wanted;
    if stepped > b.max then b.max else if stepped < b.min then b.min else stepped
  }

  lemma CeilDouble(n: int)
    requires n >= 1
    ensures Agg.Ceil(n as real * 2.0) == 2 * n
  {
    assert n as real * 2.0 == (2 * n) as real;
  }

  lemma CeilHalf(n: int)
    requires n >= 1
    ensures Agg.Ceil(n as real * 0.5) == (n + 1) / 2
  {
    var h := (n + 1) / 2;
    assert 2 * h == n || 2 * h == n + 1;
    assert (2 * h) as real == 2.0 * h as real;
  }

  /** What one period does, for each output of the formula: up by one exactly on 2.0 with an
      up-tolerance below 1 and room left, down by one exactly on 0.5 with a down-tolerance below
      0.5 and room left, otherwise nothing. */
  lemma StepByOutput(b: Bounds, current: int, output: real)
    requires WellBounded(b) && b.min <= current <= b.max && output in {0.5, 1.0, 2.0}
    ensures Next(b, current, output)
            == if output == 2.0 && b.upTolerance < 1.0 && current < b.max then current + 1
               else if output == 0.5 && b.downTolerance < 0.5 && current > b.min then current - 1
               else current
  {
    CeilDouble(current);
    CeilHalf(current);
    assert Agg.Ceil(current as real * 1.0) == current;
  }

  /** The halving signal alone never takes one replica to zero. */
  lemma HalvingKeepsOne(b: Bounds)
    requires b.upTolerance >= 0.0 && b.downTolerance >= 0.0
    ensures Wanted(b, 1, 0.5) == 1
  {
    CeilHalf(1);
  }

  /** One closed-loop period: readings and gate in, next replica count out. */
  function Period(metrics: seq<Metric>, b: Bounds, current: int, readings: seq<real>, gate: real): int
    requires |readings| == |metrics|
  {
    Next(b, current, Decide(metrics, b.min, b.max, readings, gate, current as real))
  }

  /** The count rises exactly when the gate is ready and every metric is above its threshold (and
      there is room and tolerance), falls exactly when every metric is below, and then by one. */
  lemma PeriodByReadings(metrics: seq<Metric>, b: Bounds, current: int, readings: seq<real>, gate: real)
    requires |readings| == |metrics| && Accepted(metrics, false)
    requires WellBounded(b) && b.min <= current <= b.max
    ensures var next := Period(metrics, b, current, readings, gate);
            && b.min <= next <= b.max && current - 1 <= next <= current + 1
            && (next > current <==> && gate == 1.0 && AllMeet(metrics, readings, Up)
                                    && b.upTolerance < 1.0 && current < b.max)
            && (next < current <==> && AllMeet(metrics, readings, Down)
                                    && b.downTolerance < 0.5 && current > b.min)
  {
    var output := Decide(metrics, b.min, b.max, readings, gate, current as real);
    S.AlwaysOnNeverParks(metrics, b.min, b.max, readings, gate, current as real);
    S.GuardsExclusive(metrics, false, readings);
    StepByOutput(b, current, output);
  }

  /** One period's inputs. */
  datatype Tick = Tick(readings: seq<real>, gate: real)

  predicate Fits(ticks: seq<Tick>, metrics: seq<Metric>) {
    forall i | 0 <= i < |ticks| :: |ticks[i].readings| == |metrics|
  }

  /** The replica count after a run of periods. */
  function RunTicks(metrics: seq<Metric>, b: Bounds, start: int, ticks: seq<Tick>): int
    requires Fits(ticks, metrics)
  {
    if ticks == [] then start
    else
      var last := ticks[|ticks| - 1];
      Period(metrics, b, RunTicks(metrics, b, start, ticks[..|ticks| - 1]), last.readings, last.gate)
  }

  /** Every run stays inside the bounds and drifts by at most one replica per period. */
  lemma {:induction false} RunStaysInBounds(metrics: seq<Metric>, b: Bounds, start: int, ticks: seq<Tick>)
    requires Fits(ticks, metrics) && Accepted(metrics, false)
    requires WellBounded(b) && b.min <= start <= b.max
    ensures var n := RunTicks(metrics, b, start, ticks);
            b.min <= n <= b.max && start - |ticks| <= n <= start + |ticks|
  {
    if ticks != [] {
      var last := |ticks| - 1;
      var init := ticks[..last];
      assert forall i | 0 <= i < last :: init[i] == ticks[i];
      RunStaysInBounds(metrics, b, start, init);
      PeriodByReadings(metrics, b, RunTicks(metrics, b, start, init), ticks[last].readings, ticks[last].gate);
    }
  }

  /** Sustained load above every threshold with a ready fleet reaches the maximum, one replica per
      period. */
  lemma {:induction false} SustainedLoadReachesMax(metrics: seq<Metric>, b: Bounds, start: int, ticks: seq<Tick>)
    requires Fits(ticks, metrics) && Accepted(metrics, false)
    requires WellBounded(b) && b.min <= start <= b.max && b.upTolerance < 1.0
    requires forall i | 0 <= i < |ticks| :: ticks[i].gate == 1.0 && AllMeet(metrics, ticks[i].readings, Up)
    ensures RunTicks(metrics, b, start, ticks) == if start + |ticks| < b.max then start + |ticks| else b.max
  {
    if ticks != [] {
      var last := |ticks| - 1;
      var init := ticks[..last];
      assert forall i | 0 <= i < last :: init[i] == ticks[i];
      SustainedLoadReachesMax(metrics, b, start, init);
      var n := RunTicks(metrics, b, start, init);
      PeriodByReadings(metrics, b, n, ticks[last].readings, ticks[last].gate);
    }
  }
}
