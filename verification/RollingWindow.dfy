/** The sample window of one cache entry: pruning, baseline choice and the windowed answer
    (pkg/scaler/metric_cache.go). Instants and durations are integers (nanoseconds). */
module RollingWindow {
  import opened Core
  import opened Telemetry

  datatype Sample = Sample(at: int, snap: Snapshot)

  /** Why a windowed query is held back instead of answered. */
  datatype Hold = Unavailable | WarmingUp

  ghost predicate Sorted(samples: seq<Sample>) {
    forall i, j | 0 <= i < j < |samples| :: samples[i].at <= samples[j].at
  }

  ghost predicate GapsAtLeast(samples: seq<Sample>, gap: int) {
    forall i, j | 0 <= i < j < |samples| && j == i + 1 :: samples[j].at - samples[i].at >= gap
  }

  ghost predicate GapsAtMost(samples: seq<Sample>, gap: int) {
    forall i, j | 0 <= i < j < |samples| && j == i + 1 :: samples[j].at - samples[i].at <= gap
  }

  function Newest(samples: seq<Sample>): Sample
    requires samples != []
  {
    samples[|samples| - 1]
  }

  // ---------------------------------------------------------------- pruning

  /** What is left after dropping every sample that is followed by one at or before `cutoff`. */
  function Prune(samples: seq<Sample>, cutoff: int): seq<Sample> {
    if |samples| <= 1 || cutoff < samples[1].at then samples else Prune(samples[1..], cutoff)
  }

  method PruneSamples(samples: seq<Sample>, now: int, window: int) returns (kept: seq<Sample>)
    ensures kept == Prune(samples, now - window)
  {
    if |samples| <= 1 {
      return samples;
    }
    var cutoff := now - window;
    var first := 0;
    while first < |samples| - 1 && samples[first + 1].at <= cutoff
      invariant 0 <= first < |samples|
      invariant Prune(samples[first..], cutoff) == Prune(samples, cutoff)
    {
      assert samples[first..][1..] == samples[first + 1..];
      first := first + 1;
    }
    kept := samples[first..];
  }

  /** Pruning keeps a suffix; the newest sample always survives; if anything was dropped the
      oldest survivor is at or before the cutoff; the one after it is strictly after the cutoff. */
  lemma {:induction false} PruneKeepsBaseline(samples: seq<Sample>, cutoff: int)
    requires samples != []
    ensures var kept := Prune(samples, cutoff);
            && 1 <= |kept| <= |samples|
            && kept == samples[|samples| - |kept|..]
            && (|kept| < |samples| ==> kept[0].at <= cutoff)
            && (|kept| >= 2 ==> cutoff < kept[1].at)
            && (|samples| >= 2 && cutoff < Newest(samples).at ==> |kept| >= 2)
  {
    if |samples| >= 2 && samples[1].at <= cutoff {
      PruneKeepsBaseline(samples[1..], cutoff);
    }
  }

  /** And no more is dropped than has to be: every sample from the second up to the oldest survivor is
      at or before the cutoff. */
  lemma {:induction false} DroppedAreFollowed(samples: seq<Sample>, cutoff: int, i: nat)
    requires 0 < i < |samples| && i <= |samples| - |Prune(samples, cutoff)|
    ensures samples[i].at <= cutoff
  {
    if i > 1 {
      DroppedAreFollowed(samples[1..], cutoff, i - 1);
    }
  }

  /** Stamps at least `gap` apart bound how many samples a window can hold. */
  lemma {:induction false} SpacedSpan(samples: seq<Sample>, gap: int)
    requires samples != []
    requires GapsAtLeast(samples, gap)
    ensures Newest(samples).at - samples[0].at >= (|samples| - 1) * gap
  {
    if |samples| > 1 {
      var init := samples[..|samples| - 1];
      SpacedSpan(init, gap);
      assert (|samples| - 1) * gap == (|init| - 1) * gap + gap;
    }
  }

  lemma SpacedCount(samples: seq<Sample>, window: int, gap: int)
    requires samples != [] && gap > 0 && GapsAtLeast(samples, gap)
    requires Newest(samples).at - samples[0].at < window
    ensures |samples| <= CeilDivide(window, gap)
  {
    SpacedSpan(samples, gap);
    CeilDiv(|samples|, window, gap);
  }

  lemma SurvivorsInsideWindow(samples: seq<Sample>, window: int)
    requires samples != [] && Sorted(samples) && window > 0
    ensures var now := Newest(samples).at;
            var kept := Prune(samples, now - window);
            forall i | 0 < i < |kept| :: now - window < kept[i].at <= now
  {
    PruneKeepsBaseline(samples, Newest(samples).at - window);
  }

  /** Just after a commit at `now`, an entry retains at most ceil(window / gap) + 1 samples,
      all but the oldest of them inside (now - window, now]. */
  lemma RetentionBound(samples: seq<Sample>, window: int, gap: int)
    requires samples != [] && Sorted(samples) && window > 0
    requires gap > 0 && GapsAtLeast(samples, gap)
    ensures |Prune(samples, Newest(samples).at - window)| <= CeilDivide(window, gap) + 1
  {
    var kept := Prune(samples, Newest(samples).at - window);
    PruneKeepsBaseline(samples, Newest(samples).at - window);
    SurvivorsInsideWindow(samples, window);
    if |kept| >= 2 {
      assert kept[1..] == samples[|samples| - |kept| + 1..];
      SpacedCount(kept[1..], window, gap);
    } else {
      CeilDiv(1, window, gap);
    }
  }

  /** ceil(a / b) */
  function CeilDivide(a: int, b: int): int
    requires b > 0
  {
    (a + b - 1) / b
  }

  lemma CeilDiv(n: int, window: int, gap: int)
    requires gap > 0 && (n - 1) * gap < window
    ensures n <= CeilDivide(window, gap)
  {
    var q := (window + gap - 1) / gap;
    var r := (window + gap - 1) % gap;
    assert window + gap - 1 == q * gap + r;
    assert (n - 1) * gap < q * gap;
    MulCancel(n - 1, q, gap);
  }

  lemma MulCancel(a: int, b: int, gap: int)
    requires gap > 0 && a * gap < b * gap
    ensures a < b
  {
    assert (b - a) * gap > 0;
  }

  // --------------------------------------------------------------- baseline

  /** Number of leading samples, the newest excluded, taken at or before `cutoff`. */
  function Leading(samples: seq<Sample>, cutoff: int): nat {
    if |samples| <= 1 || cutoff < samples[0].at then 0 else 1 + Leading(samples[1..], cutoff)
  }

  lemma {:induction false} LeadingBounds(samples: seq<Sample>, cutoff: int)
    requires samples != []
    ensures var n := Leading(samples, cutoff);
            && n < |samples|
            && (forall i | 0 <= i < n :: samples[i].at <= cutoff)
            && (n < |samples| - 1 ==> cutoff < samples[n].at)
  {
    if |samples| > 1 && samples[0].at <= cutoff {
      LeadingBounds(samples[1..], cutoff);
      var n := Leading(samples, cutoff);
      forall i | 0 <= i < n ensures samples[i].at <= cutoff {
        if i > 0 { assert samples[i] == samples[1..][i - 1]; }
      }
    }
  }

  lemma {:induction false} LeadingOfSuffix(history: seq<Sample>, k: nat, cutoff: int)
    requires Sorted(history) && k < |history| - 1
    requires history[k].at <= cutoff
    ensures Leading(history, cutoff) == k + Leading(history[k..], cutoff)
  {
    if k > 0 {
      assert history[0].at <= history[k].at;
      LeadingOfSuffix(history[1..], k - 1, cutoff);
      assert history[1..][k - 1..] == history[k..];
    }
  }

  function BaselineIndex(samples: seq<Sample>, window: int, maxSpan: int): (i: int)
    requires samples != []
    ensures 0 <= i < |samples|
  {
    var newest := Newest(samples);
    var n := Leading(samples, newest.at - window);
    LeadingBounds(samples, newest.at - window);
    if n == 0 then 0
    else if newest.at - samples[n - 1].at > maxSpan then n
    else n - 1
  }

  function Baseline(samples: seq<Sample>, window: int, maxSpan: int): Sample
    requires samples != []
  {
    samples[BaselineIndex(samples, window, maxSpan)]
  }

  method WindowBaseline(samples: seq<Sample>, window: int, maxSpan: int) returns (baseline: Sample)
    requires samples != []
    ensures baseline == Baseline(samples, window, maxSpan)
  {
    var newest := samples[|samples| - 1];
    var cutoff := newest.at - window;
    var idx := -1;
    var i := 0;
    while i < |samples| - 1 && samples[i].at <= cutoff
      invariant 0 <= i < |samples| && idx == i - 1
      invariant Leading(samples, cutoff) == i + Leading(samples[i..], cutoff)
    {
      assert samples[i..][1..] == samples[i + 1..];
      idx := i;
      i := i + 1;
    }
    if idx < 0 {
      return samples[0];
    } else if newest.at - samples[idx].at > maxSpan {
      return samples[idx + 1];
    } else {
      return samples[idx];
    }
  }

  /** The choice described declaratively: on a sorted window the baseline is the newest
      non-final sample at or before the window start, unless that one is too old (then the
      oldest sample inside the window) or there is none (then the oldest sample). */
  lemma BaselineIsNewestAtWindowStart(samples: seq<Sample>, window: int, maxSpan: int, i: int)
    requires Sorted(samples) && 0 <= i < |samples| - 1
    requires samples[i].at <= Newest(samples).at - window
    requires i + 1 < |samples| - 1 ==> Newest(samples).at - window < samples[i + 1].at
    ensures Baseline(samples, window, maxSpan)
            == if Newest(samples).at - samples[i].at > maxSpan then samples[i + 1] else samples[i]
  {
    var cutoff := Newest(samples).at - window;
    LeadingBounds(samples, cutoff);
    var next := samples[i + 1];
    LeadingOfSuffix(samples, i, cutoff);
  }

  /** When already the oldest sample is inside the window, it is the baseline. */
  lemma BaselineInsideWindowIsOldest(samples: seq<Sample>, window: int, maxSpan: int)
    requires samples != [] && (|samples| == 1 || Newest(samples).at - window < samples[0].at)
    ensures Baseline(samples, window, maxSpan) == samples[0]
  {
  }

  // ------------------------------------------------------------- the answer

  predicate Exposes(svc: ServiceMetrics, metric: string) {
    !svc.failed && metric in svc.histograms
  }

  function SumOf(services: seq<ServiceMetrics>, metric: string): real {
    if services == [] then 0.0
    else
      var svc := services[|services| - 1];
      SumOf(services[..|services| - 1], metric) +
      if Exposes(svc, metric) then svc.histograms[metric].sum else 0.0
  }

  function CountOf(services: seq<ServiceMetrics>, metric: string): int {
    if services == [] then 0
    else
      var svc := services[|services| - 1];
      CountOf(services[..|services| - 1], metric) +
      if Exposes(svc, metric) then svc.histograms[metric].count else 0
  }

  predicate Exposed(services: seq<ServiceMetrics>, metric: string) {
    exists i | 0 <= i < |services| :: Exposes(services[i], metric)
  }

  method HistogramSumCount(snap: Option<Snapshot>, metric: string)
    returns (sum: real, count: int, ok: bool)
    ensures snap.None? ==> sum == 0.0 && count == 0 && !ok
    ensures snap.Some? ==>
              && sum == SumOf(snap.value.services, metric)
              && count == CountOf(snap.value.services, metric)
              && ok == Exposed(snap.value.services, metric)
  {
    sum, count, ok := 0.0, 0, false;
    if snap.None? {
      return;
    }
    var services := snap.value.services;
    for i := 0 to |services|
      invariant sum == SumOf(services[..i], metric)
      invariant count == CountOf(services[..i], metric)
      invariant ok == exists j | 0 <= j < i :: Exposes(services[j], metric)
    {
      var svc := services[i];
      assert services[..i + 1][..i] == services[..i];
      if svc.failed {
        continue;
      }
      if metric !in svc.histograms {
        continue;
      }
      ok := true;
      assert Exposes(services[i], metric);
      sum := sum + svc.histograms[metric].sum;
      count := count + svc.histograms[metric].count;
    }
    assert services[..|services|] == services;
  }

  /** The totals add up over services: one that was scraped and exposes the histogram contributes its
      sum and count, any other nothing. */
  lemma HistogramTotalsAdd(services: seq<ServiceMetrics>, svc: ServiceMetrics, metric: string)
    ensures SumOf([], metric) == 0.0 && CountOf([], metric) == 0 && !Exposed([], metric)
    ensures !svc.failed && metric in svc.histograms ==>
              && SumOf(services + [svc], metric) == SumOf(services, metric) + svc.histograms[metric].sum
              && CountOf(services + [svc], metric) == CountOf(services, metric) + svc.histograms[metric].count
              && Exposed(services + [svc], metric)
    ensures svc.failed || metric !in svc.histograms ==>
              && SumOf(services + [svc], metric) == SumOf(services, metric)
              && CountOf(services + [svc], metric) == CountOf(services, metric)
              && (Exposed(services + [svc], metric) <==> Exposed(services, metric))
  {
    var all := services + [svc];
    assert all[..|services|] == services && all[|services|] == svc;
    assert forall i | 0 <= i < |services| :: all[i] == services[i];
  }

  /** Average observation between two snapshots of the same histogram, 0 for an idle window
      or a counter reset. */
  function WindowedValue(base: Snapshot, newest: Snapshot, metric: string): real {
    var dCount := CountOf(newest.services, metric) - CountOf(base.services, metric);
    var dSum := SumOf(newest.services, metric) - SumOf(base.services, metric);
    if !Exposed(newest.services, metric) || !Exposed(base.services, metric) then 0.0
    else if dCount <= 0 then 0.0
    else if dSum < 0.0 then 0.0
    else dSum / dCount as real
  }

  /** The value is 0 when either snapshot lacks the histogram, nothing was observed or a counter went
      back; otherwise it is the quotient of what the two totals grew by. */
  lemma WindowedValueOfTotals(base: Snapshot, newest: Snapshot, metric: string)
    ensures var dCount := CountOf(newest.services, metric) - CountOf(base.services, metric);
            var dSum := SumOf(newest.services, metric) - SumOf(base.services, metric);
            var v := WindowedValue(base, newest, metric);
            if Exposed(newest.services, metric) && Exposed(base.services, metric) && dCount > 0 && dSum >= 0.0
            then v * dCount as real == dSum
            else v == 0.0
  {
    var dCount := CountOf(newest.services, metric) - CountOf(base.services, metric);
    var dSum := SumOf(newest.services, metric) - SumOf(base.services, metric);
    if dCount > 0 {
      assert (dSum / dCount as real) * dCount as real == dSum;
    }
  }

  /** Go's integer division by five truncates toward zero. */
  function FourFifths(window: int): int {
    if window >= 0 then window * 4 / 5 else -((-window) * 4 / 5)
  }

  /** The windowed query over a sample list: staleness, coverage gate, then the value. */
  function Answer(samples: seq<Sample>, now: int, staleAfter: int, window: int, metric: string)
    : Result<real, Hold>
  {
    if samples == [] then Failure(Unavailable)
    else if now - Newest(samples).at > staleAfter then Failure(Unavailable)
    else if |samples| < 2 then Failure(WarmingUp)
    else
      var baseline := Baseline(samples, window, window + staleAfter);
      if Newest(samples).at - baseline.at < FourFifths(window) then Failure(WarmingUp)
      else Success(WindowedValue(baseline.snap, Newest(samples).snap, metric))
  }

  lemma FourFifthsInIntegers(n: int, window: nat)
    ensures n < FourFifths(window) <==> 5 * (n + 1) <= 4 * window
  {
  }

  /** Exactly what a query does, in plain integers: it finds the target unavailable without samples
      or when the newest one is older than `staleAfter`; otherwise it holds exactly when there is
      only one sample or the samples from the baseline on span less than four fifths of the window,
      rounded down to whole nanoseconds. */
  lemma AnswersExactlyWhen(samples: seq<Sample>, now: int, staleAfter: int, window: int, metric: string)
    requires window >= 0
    ensures Answer(samples, now, staleAfter, window, metric) == Failure(Unavailable) <==>
              samples == [] || now - samples[|samples| - 1].at > staleAfter
    ensures Answer(samples, now, staleAfter, window, metric) == Failure(WarmingUp) <==>
              && samples != [] && now - samples[|samples| - 1].at <= staleAfter
              && (|samples| == 1
                  || var span := samples[|samples| - 1].at - Baseline(samples, window, window + staleAfter).at;
                     5 * (span + 1) <= 4 * window)
    ensures Answer(samples, now, staleAfter, window, metric).Success? ==>
              && samples != []
              && Answer(samples, now, staleAfter, window, metric).value
                 == WindowedValue(Baseline(samples, window, window + staleAfter).snap,
                                  samples[|samples| - 1].snap, metric)
  {
    if |samples| >= 2 {
      FourFifthsInIntegers(Newest(samples).at - Baseline(samples, window, window + staleAfter).at, window);
    }
  }

  // ------------------------------------------- when pruning can be noticed

  /** Dropping the first k samples leaves the baseline where it was: all of them lie at or before
      the window start, and either the oldest retained sample does too or the youngest dropped one
      is too old to serve. */
  ghost predicate SameBaseline(history: seq<Sample>, k: nat, window: int, maxSpan: int)
    requires 0 < k < |history|
  {
    var newest := Newest(history).at;
    && AllBy(history, k, newest - window)
    && (history[k].at <= newest - window || newest - history[k - 1].at > maxSpan)
  }

  ghost predicate AllBy(history: seq<Sample>, k: nat, cutoff: int)
    requires k <= |history|
  {
    forall i | 0 <= i < k :: history[i].at <= cutoff
  }

  lemma {:induction false} LeadingSplit(history: seq<Sample>, k: nat, cutoff: int)
    requires k < |history|
    ensures if AllBy(history, k, cutoff)
            then Leading(history, cutoff) == k + Leading(history[k..], cutoff)
            else Leading(history, cutoff) < k
  {
    if k > 0 {
      var tail := history[1..];
      LeadingSplit(tail, k - 1, cutoff);
      assert tail[k - 1..] == history[k..];
      assert forall i | 0 <= i < k - 1 :: tail[i] == history[i + 1];
      assert forall i | 0 < i < k :: history[i] == tail[i - 1];
    }
  }

  /** The baseline survives the loss of the first k samples exactly under `SameBaseline`, in
      whatever order the samples were stamped. */
  lemma SuffixHasSameBaseline(history: seq<Sample>, k: nat, window: int, maxSpan: int)
    requires 0 < k < |history| - 1
    ensures k + BaselineIndex(history[k..], window, maxSpan) == BaselineIndex(history, window, maxSpan)
            <==> SameBaseline(history, k, window, maxSpan)
  {
    var kept, cutoff := history[k..], Newest(history).at - window;
    assert Newest(kept) == Newest(history);
    LeadingSplit(history, k, cutoff);
    if AllBy(history, k, cutoff) {
      SuffixLeading(history, k, cutoff);
      SuffixIndex(history, kept, k, window, maxSpan);
    }
  }

  lemma SuffixLeading(history: seq<Sample>, k: nat, cutoff: int)
    requires k < |history| - 1
    ensures var kept := history[k..];
            var m := Leading(kept, cutoff);
            && (m > 0 <==> history[k].at <= cutoff)
            && m <= |kept| && (m > 0 ==> kept[m - 1] == history[k + m - 1])
  {
    var kept := history[k..];
    assert kept[0] == history[k];
    LeadingBounds(kept, cutoff);
  }

  lemma SuffixIndex(history: seq<Sample>, kept: seq<Sample>, k: nat, window: int, maxSpan: int)
    requires 0 < k < |history| && kept != [] && Newest(kept) == Newest(history)
    requires var cutoff := Newest(history).at - window;
             var m := Leading(kept, cutoff);
             && Leading(history, cutoff) == k + m <= |history|
             && (m > 0 <==> history[k].at <= cutoff)
             && m <= |kept| && (m > 0 ==> kept[m - 1] == history[k + m - 1])
    ensures k + BaselineIndex(kept, window, maxSpan) == BaselineIndex(history, window, maxSpan)
            <==> history[k].at <= Newest(history).at - window || Newest(history).at - history[k - 1].at > maxSpan
  {
  }

  /** Two histories that differ in their snapshots only. */
  ghost predicate SameStamps(a: seq<Sample>, b: seq<Sample>) {
    |a| == |b| && forall i | 0 <= i < |a| :: a[i].at == b[i].at
  }

  lemma {:induction false} LeadingByStamps(a: seq<Sample>, b: seq<Sample>, cutoff: int)
    requires SameStamps(a, b)
    ensures Leading(a, cutoff) == Leading(b, cutoff)
  {
    if |a| > 1 {
      LeadingByStamps(a[1..], b[1..], cutoff);
    }
  }

  lemma IndexByStamps(a: seq<Sample>, b: seq<Sample>, window: int, maxSpan: int)
    requires SameStamps(a, b) && a != []
    ensures BaselineIndex(a, window, maxSpan) == BaselineIndex(b, window, maxSpan)
    ensures Baseline(a, window, maxSpan).at == Baseline(b, window, maxSpan).at
  {
    LeadingByStamps(a, b, Newest(a).at - window);
    LeadingBounds(a, Newest(a).at - window);
  }

  /** The coverage gate holds the answer back. */
  ghost predicate Warming(samples: seq<Sample>, staleAfter: int, window: int) {
    |samples| < 2
    || Newest(samples).at - Baseline(samples, window, window + staleAfter).at < FourFifths(window)
  }

  lemma WarmingByStamps(a: seq<Sample>, b: seq<Sample>, staleAfter: int, window: int)
    requires SameStamps(a, b)
    ensures Warming(a, staleAfter, window) <==> Warming(b, staleAfter, window)
  {
    if a != [] {
      IndexByStamps(a, b, window, window + staleAfter);
    }
  }

  /** What a query does, by its gates. */
  lemma AnswerByGates(samples: seq<Sample>, now: int, staleAfter: int, window: int, metric: string)
    requires samples != []
    ensures Answer(samples, now, staleAfter, window, metric)
            == if now - Newest(samples).at > staleAfter then Failure(Unavailable)
               else if Warming(samples, staleAfter, window) then Failure(WarmingUp)
               else Success(WindowedValue(Baseline(samples, window, window + staleAfter).snap,
                                          Newest(samples).snap, metric))
  {
  }

  /** Whatever was scraped at these stamps, every query of this window answers from the samples
      left after dropping k as it would from all of them: same value or same kind of error. */
  ghost predicate NeverNoticed(history: seq<Sample>, k: nat, now: int, staleAfter: int, window: int)
    requires k <= |history|
  {
    forall h: seq<Sample>, metric: string | SameStamps(h, history) ::
      Answer(h[k..], now, staleAfter, window, metric) == Answer(h, now, staleAfter, window, metric)
  }

  /** What decides that, from the stamps alone: nothing dropped, a stale target, an unmoved
      baseline, or a query that has to warm up either way. */
  ghost predicate Undisturbed(history: seq<Sample>, k: nat, now: int, staleAfter: int, window: int)
    requires k == 0 || k < |history|
  {
    || k == 0
    || now - Newest(history).at > staleAfter
    || (k < |history| - 1 && SameBaseline(history, k, window, window + staleAfter))
    || (Warming(history[k..], staleAfter, window) && Warming(history, staleAfter, window))
  }

  lemma UndisturbedAnswer(history: seq<Sample>, k: nat, now: int, staleAfter: int, window: int, metric: string)
    requires k == 0 || k < |history|
    requires Undisturbed(history, k, now, staleAfter, window)
    ensures Answer(history[k..], now, staleAfter, window, metric) == Answer(history, now, staleAfter, window, metric)
  {
    var kept := history[k..];
    if k == 0 {
      assert kept == history;
    } else {
      assert Newest(kept) == Newest(history);
      AnswerByGates(kept, now, staleAfter, window, metric);
      AnswerByGates(history, now, staleAfter, window, metric);
      if k < |history| - 1 && SameBaseline(history, k, window, window + staleAfter) {
        UnmovedBaseline(history, k, window, window + staleAfter);
      }
    }
  }

  lemma UnmovedBaseline(history: seq<Sample>, k: nat, window: int, maxSpan: int)
    requires 0 < k < |history| - 1 && SameBaseline(history, k, window, maxSpan)
    ensures Baseline(history[k..], window, maxSpan) == Baseline(history, window, maxSpan)
  {
    SuffixHasSameBaseline(history, k, window, maxSpan);
    var i := BaselineIndex(history[k..], window, maxSpan);
    assert history[k..][i] == history[k + i];
  }

  lemma UndisturbedByStamps(a: seq<Sample>, b: seq<Sample>, k: nat, now: int, staleAfter: int, window: int)
    requires SameStamps(a, b) && (k == 0 || k < |a|)
    requires Undisturbed(b, k, now, staleAfter, window)
    ensures Undisturbed(a, k, now, staleAfter, window)
  {
    if k > 0 {
      WarmingByStamps(a, b, staleAfter, window);
      WarmingByStamps(a[k..], b[k..], staleAfter, window);
    }
  }

  // A snapshot of one service whose histogram has the given count and sum.
  function OneService(count: nat, sum: real): Snapshot {
    var id := NamespacedName("ns", "a");
    Snapshot(id, [ServiceMetrics(id, map[], map["m" := Histogram([], count, sum)], false)])
  }

  lemma OneServiceTotals(count: nat, sum: real)
    ensures var services := OneService(count, sum).services;
            && CountOf(services, "m") == count && SumOf(services, "m") == sum && Exposed(services, "m")
  {
    var services := OneService(count, sum).services;
    assert services[..0] == [] && Exposes(services[0], "m");
  }

  /** Contents that tell sample u from every other. */
  function Marked(history: seq<Sample>, u: nat): seq<Sample> {
    seq(|history|, i requires 0 <= i < |history| =>
      Sample(history[i].at, if i == u then OneService(0, 0.0) else OneService(2, 4.0)))
  }

  lemma MarkedValue(history: seq<Sample>, u: nat, i: nat)
    requires u < |history| - 1 && i < |history|
    ensures var h := Marked(history, u);
            WindowedValue(h[i].snap, Newest(h).snap, "m") == if i == u then 2.0 else 0.0
  {
    OneServiceTotals(0, 0.0);
    OneServiceTotals(2, 4.0);
  }

  lemma MarkedBaselines(history: seq<Sample>, u: nat, k: nat, window: int, maxSpan: int)
    requires k < |history| && u < |history| - 1
    ensures var h := Marked(history, u);
            && SameStamps(h, history) && SameStamps(h[k..], history[k..]) && Newest(h[k..]) == Newest(h)
            && Baseline(h, window, maxSpan) == h[BaselineIndex(history, window, maxSpan)]
            && Baseline(h[k..], window, maxSpan) == h[k + BaselineIndex(history[k..], window, maxSpan)]
  {
    var h := Marked(history, u);
    IndexByStamps(h, history, window, maxSpan);
    IndexByStamps(h[k..], history[k..], window, maxSpan);
    var j := BaselineIndex(history[k..], window, maxSpan);
    assert h[k..][j] == h[k + j];
  }

  lemma MarkedAnswer(samples: seq<Sample>, h: seq<Sample>, now: int, staleAfter: int, window: int, v: real)
    requires SameStamps(h, samples) && samples != [] && now - Newest(samples).at <= staleAfter
    requires !Warming(samples, staleAfter, window)
    requires WindowedValue(Baseline(h, window, window + staleAfter).snap, Newest(h).snap, "m") == v
    ensures Answer(h, now, staleAfter, window, "m") == Success(v)
  {
    WarmingByStamps(h, samples, staleAfter, window);
    AnswerByGates(h, now, staleAfter, window, "m");
  }

  lemma MarkedSuffixValue(history: seq<Sample>, u: nat, k: nat, window: int, maxSpan: int)
    requires k < |history| && u < |history| - 1
    ensures var kept := Marked(history, u)[k..];
            && SameStamps(kept, history[k..]) && kept != []
            && WindowedValue(Baseline(kept, window, maxSpan).snap, Newest(kept).snap, "m")
               == if k + BaselineIndex(history[k..], window, maxSpan) == u then 2.0 else 0.0
  {
    MarkedBaselines(history, u, k, window, maxSpan);
    MarkedValue(history, u, k + BaselineIndex(history[k..], window, maxSpan));
  }

  lemma MarkedSuffixAnswer(history: seq<Sample>, u: nat, k: nat, now: int, staleAfter: int, window: int)
    requires k < |history| && u < |history| - 1 && now - Newest(history).at <= staleAfter
    requires !Warming(history[k..], staleAfter, window)
    ensures var j := k + BaselineIndex(history[k..], window, window + staleAfter);
            Answer(Marked(history, u)[k..], now, staleAfter, window, "m") == Success(if j == u then 2.0 else 0.0)
  {
    var kept, j := history[k..], k + BaselineIndex(history[k..], window, window + staleAfter);
    MarkedSuffixValue(history, u, k, window, window + staleAfter);
    assert Newest(kept) == Newest(history);
    MarkedAnswer(kept, Marked(history, u)[k..], now, staleAfter, window, if j == u then 2.0 else 0.0);
  }

  /** Two different baselines are told apart by some contents. */
  lemma MovedBaselineShows(history: seq<Sample>, k: nat, now: int, staleAfter: int, window: int)
    requires 0 < k < |history| - 1 && now - Newest(history).at <= staleAfter
    requires !Warming(history[k..], staleAfter, window) && !Warming(history, staleAfter, window)
    requires !SameBaseline(history, k, window, window + staleAfter)
    ensures exists h: seq<Sample> :: SameStamps(h, history) &&
              Answer(h[k..], now, staleAfter, window, "m") != Answer(h, now, staleAfter, window, "m")
  {
    var span := window + staleAfter;
    var i, j := BaselineIndex(history, window, span), k + BaselineIndex(history[k..], window, span);
    SuffixHasSameBaseline(history, k, window, span);
    var u := if i < |history| - 1 then i else j;
    MarkedSuffixAnswer(history, u, k, now, staleAfter, window);
    assert history[0..] == history && Marked(history, u)[0..] == Marked(history, u);
    MarkedSuffixAnswer(history, u, 0, now, staleAfter, window);
    assert SameStamps(Marked(history, u), history);
  }

  lemma DisturbedShows(history: seq<Sample>, k: nat, now: int, staleAfter: int, window: int)
    requires 0 < k < |history| && !Undisturbed(history, k, now, staleAfter, window)
    ensures exists h: seq<Sample> :: SameStamps(h, history) &&
              Answer(h[k..], now, staleAfter, window, "m") != Answer(h, now, staleAfter, window, "m")
  {
    if Warming(history[k..], staleAfter, window) != Warming(history, staleAfter, window) {
      assert Newest(history[k..]) == Newest(history);
      AnswerByGates(history, now, staleAfter, window, "m");
      AnswerByGates(history[k..], now, staleAfter, window, "m");
      assert SameStamps(history, history);
    } else {
      MovedBaselineShows(history, k, now, staleAfter, window);
    }
  }

  /** Exactly when pruning goes unnoticed, for stamps in any order. */
  lemma PrunedAnswerEqualsFullAnswer(history: seq<Sample>, k: nat, now: int, staleAfter: int, window: int)
    requires k == 0 || k < |history|
    ensures NeverNoticed(history, k, now, staleAfter, window)
            <==> Undisturbed(history, k, now, staleAfter, window)
  {
    if Undisturbed(history, k, now, staleAfter, window) {
      forall h: seq<Sample>, metric: string | SameStamps(h, history)
        ensures Answer(h[k..], now, staleAfter, window, metric) == Answer(h, now, staleAfter, window, metric)
      {
        UndisturbedByStamps(h, history, k, now, staleAfter, window);
        UndisturbedAnswer(h, k, now, staleAfter, window, metric);
      }
    } else {
      DisturbedShows(history, k, now, staleAfter, window);
    }
  }

  /** In a sorted history it goes unnoticed in particular when the oldest retained sample lies at or
      before the window start. */
  lemma ReachingIsUndisturbed(history: seq<Sample>, k: nat, now: int, staleAfter: int, window: int)
    requires Sorted(history) && window > 0 && (k == 0 || k < |history|)
    requires k == 0 || history[k].at <= Newest(history).at - window
    ensures Undisturbed(history, k, now, staleAfter, window)
  {
  }

  // -------------------------------------------- availability and span bound

  /** From sample j on the history is dense, and it starts at or before the window start. */
  ghost predicate DenseFrom(history: seq<Sample>, j: nat, gap: int, window: int) {
    && j < |history| && history[j].at <= Newest(history).at - window
    && GapsAtMost(history[j..], gap)
  }

  /** History dense for long enough, up to now, for a query of the given window at `now`; whatever
      outages there were before that do not matter. */
  ghost predicate Steady(history: seq<Sample>, now: int, staleAfter: int, window: int) {
    && history != [] && window > 0 && Sorted(history)
    && now - Newest(history).at <= staleAfter
    && exists j :: DenseFrom(history, j, staleAfter, window)
  }

  /** Some sample, the newest excluded, was taken at the window start or at most `staleAfter`
      before it. */
  ghost predicate LandsAtStart(history: seq<Sample>, staleAfter: int, window: int) {
    exists i | 0 <= i < |history| - 1 ::
      Newest(history).at - window - staleAfter <= history[i].at <= Newest(history).at - window
  }

  /** Exactly when a query is answered over at least its whole window. */
  lemma AnswersWholeWindowExactlyWhen(history: seq<Sample>, now: int, staleAfter: int, window: int, metric: string)
    requires Sorted(history) && history != [] && window > 0 && staleAfter >= 0
    ensures Answer(history, now, staleAfter, window, metric).Success?
            && Baseline(history, window, window + staleAfter).at <= Newest(history).at - window
            <==> now - Newest(history).at <= staleAfter && LandsAtStart(history, staleAfter, window)
  {
    var cutoff := Newest(history).at - window;
    var n := Leading(history, cutoff);
    LeadingBounds(history, cutoff);
    if LandsAtStart(history, staleAfter, window) {
      var i :| 0 <= i < |history| - 1 && cutoff - staleAfter <= history[i].at <= cutoff;
      assert i < n && history[i].at <= history[n - 1].at;
    }
    if Baseline(history, window, window + staleAfter).at <= cutoff {
      BaselineSpan(history, window, window + staleAfter);
      assert BaselineIndex(history, window, window + staleAfter) < |history| - 1;
    }
  }

  /** A dense stretch puts a sample there. */
  lemma DenseLandsAtStart(history: seq<Sample>, j: nat, staleAfter: int, window: int)
    requires Sorted(history) && window > 0 && DenseFrom(history, j, staleAfter, window)
    ensures staleAfter >= 0 && LandsAtStart(history, staleAfter, window)
  {
    var cutoff := Newest(history).at - window;
    LeadingBounds(history, cutoff);
    var n := Leading(history, cutoff);
    var tail := history[j..];
    assert j < n && tail[n - 1 - j] == history[n - 1] && tail[n - j] == history[n];
    assert history[n - 1].at <= cutoff < history[n].at;
  }

  /** In steady state a windowed query is always answered, over a span of at least the whole
      window. */
  lemma SteadyHistoryAlwaysAnswers(history: seq<Sample>, now: int, staleAfter: int, window: int,
                                   metric: string)
    requires Steady(history, now, staleAfter, window)
    ensures Answer(history, now, staleAfter, window, metric).Success?
    ensures Baseline(history, window, window + staleAfter).at <= Newest(history).at - window
  {
    var j :| DenseFrom(history, j, staleAfter, window);
    DenseLandsAtStart(history, j, staleAfter, window);
    AnswersWholeWindowExactlyWhen(history, now, staleAfter, window, metric);
  }

  lemma AnsweredIsFreshAndCovered(samples: seq<Sample>, now: int, staleAfter: int, window: int, metric: string)
    requires Answer(samples, now, staleAfter, window, metric).Success?
    ensures samples != [] && now - Newest(samples).at <= staleAfter && !Warming(samples, staleAfter, window)
  {
  }

  lemma UnmovedStart(history: seq<Sample>, k: nat, window: int, maxSpan: int)
    requires k < |history| && Baseline(history, window, maxSpan).at <= Newest(history).at - window
    requires k == 0 || (k < |history| - 1 && SameBaseline(history, k, window, maxSpan))
    ensures Baseline(history[k..], window, maxSpan).at <= Newest(history[k..]).at - window
  {
    assert Newest(history[k..]) == Newest(history);
    if k == 0 {
      assert history[k..] == history;
    } else {
      UnmovedBaseline(history, k, window, maxSpan);
    }
  }

  lemma AnsweredSuffix(history: seq<Sample>, k: nat, now: int, staleAfter: int, window: int, metric: string)
    requires k < |history| && Undisturbed(history, k, now, staleAfter, window)
    requires Answer(history, now, staleAfter, window, metric).Success?
    requires Baseline(history, window, window + staleAfter).at <= Newest(history).at - window
    ensures Answer(history[k..], now, staleAfter, window, metric).Success?
    ensures Baseline(history[k..], window, window + staleAfter).at <= Newest(history[k..]).at - window
  {
    AnsweredIsFreshAndCovered(history, now, staleAfter, window, metric);
    UndisturbedAnswer(history, k, now, staleAfter, window, metric);
    UnmovedStart(history, k, window, window + staleAfter);
  }

  /** So it is from the retained samples, whenever pruning goes unnoticed. */
  lemma SteadySuffixAnswers(history: seq<Sample>, k: nat, now: int, staleAfter: int, window: int, metric: string)
    requires Steady(history, now, staleAfter, window) && k < |history|
    requires Undisturbed(history, k, now, staleAfter, window)
    ensures var kept := history[k..];
            && Answer(kept, now, staleAfter, window, metric).Success?
            && Baseline(kept, window, window + staleAfter).at <= Newest(kept).at - window
  {
    SteadyHistoryAlwaysAnswers(history, now, staleAfter, window, metric);
    AnsweredSuffix(history, k, now, staleAfter, window, metric);
  }

  lemma BaselineSpan(samples: seq<Sample>, window: int, maxSpan: int)
    requires samples != [] && 0 <= window <= maxSpan
    ensures Newest(samples).at - Baseline(samples, window, maxSpan).at <= maxSpan
  {
    LeadingBounds(samples, Newest(samples).at - window);
  }

  /** An answer is never computed from stale data, over less than 4/5 of the window, or across
      more than the window plus the staleness allowance. */
  lemma AnswerSpanBound(samples: seq<Sample>, now: int, staleAfter: int, window: int, metric: string)
    requires staleAfter >= 0 && window >= 0
    requires Answer(samples, now, staleAfter, window, metric).Success?
    ensures |samples| >= 2
    ensures var newest := Newest(samples);
            var span := newest.at - Baseline(samples, window, window + staleAfter).at;
            && 4 * window < 5 * (span + 1) && span <= window + staleAfter
            && now - newest.at <= staleAfter
  {
    AnswersExactlyWhen(samples, now, staleAfter, window, metric);
    BaselineSpan(samples, window, window + staleAfter);
  }

  /** A gap longer than window + staleAfter makes the entry warm up again: the pre-outage
      samples contribute nothing until the window is covered by post-outage samples. */
  lemma OutageForcesWarmUp(samples: seq<Sample>, k: nat, now: int, staleAfter: int, window: int,
                           metric: string)
    requires Sorted(samples) && 0 < k < |samples|
    requires staleAfter >= 0 && window >= 2
    requires Newest(samples).at - samples[k - 1].at > window + staleAfter
    requires 5 * (Newest(samples).at - samples[k].at + 1) <= 4 * window
    ensures Answer(samples, now, staleAfter, window, metric).Failure?
  {
    FourFifthsInIntegers(Newest(samples).at - samples[k].at, window);
    var cutoff := Newest(samples).at - window;
    LeadingBounds(samples, cutoff);
    var i := BaselineIndex(samples, window, window + staleAfter);
    BaselineSpan(samples, window, window + staleAfter);
    assert forall j | 0 <= j < k :: samples[j].at <= samples[k - 1].at;
    assert i >= k && samples[k].at <= samples[i].at;
  }
}
