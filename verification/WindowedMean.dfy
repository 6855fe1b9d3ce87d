/** Why ΔSum / ΔCount is the right number: if every service keeps an append-only log of
    observations and exposes its running sum and count, the windowed value is the mean of
    exactly the observations made between the two scrapes. */
module WindowedMean {
  import opened Reals
  import opened Sequences
  import opened Telemetry
  import opened RollingWindow

  type Log = seq<real>

  function Total(xs: Log): real {
    if xs == [] then 0.0 else xs[0] + Total(xs[1..])
  }

  function Mean(xs: Log): real {
    if xs == [] then 0.0 else Total(xs) / |xs| as real
  }

  ghost predicate NonNegative(xs: Log) {
    forall i | 0 <= i < |xs| :: xs[i] >= 0.0
  }

  ghost predicate Within(xs: Log, lo: real, hi: real) {
    forall i | 0 <= i < |xs| :: lo <= xs[i] <= hi
  }

  lemma {:induction false} TotalConcat(xs: Log, ys: Log)
    ensures Total(xs + ys) == Total(xs) + Total(ys)
  {
    if xs == [] {
      assert xs + ys == ys;
    } else {
      assert (xs + ys)[1..] == xs[1..] + ys;
      TotalConcat(xs[1..], ys);
    }
  }

  lemma {:induction false} TotalBounds(xs: Log, lo: real, hi: real)
    requires Within(xs, lo, hi)
    ensures Times(lo, |xs|) <= Total(xs) <= Times(hi, |xs|)
  {
    if xs != [] {
      TotalBounds(xs[1..], lo, hi);
    }
  }

  /** A mean lies between any lower and upper bound of its observations. */
  lemma MeanBounds(xs: Log, lo: real, hi: real)
    requires xs != [] && Within(xs, lo, hi)
    ensures lo <= Mean(xs) <= hi
  {
    TotalBounds(xs, lo, hi);
    MeanBetween(Total(xs), |xs|, lo, hi);
  }

  // ------------------------------------------------ snapshots expose logs

  /** The services of a snapshot that expose the metric, in scrape order. */
  function Exposing(services: seq<ServiceMetrics>, metric: string): seq<ServiceMetrics> {
    if services == [] then []
    else
      var svc := services[|services| - 1];
      Exposing(services[..|services| - 1], metric) + if Exposes(svc, metric) then [svc] else []
  }

  function Ids(services: seq<ServiceMetrics>): seq<NamespacedName> {
    seq(|services|, i requires 0 <= i < |services| => services[i].id)
  }

  ghost predicate Distinct<T>(xs: seq<T>) {
    forall i, j | 0 <= i < j < |xs| :: xs[i] != xs[j]
  }

  /** The services of a snapshot that expose the metric. */
  function Scraped(snap: Snapshot, metric: string): seq<NamespacedName> {
    Ids(Exposing(snap.services, metric))
  }

  /** `snap` was scraped when the logs were as given: the services it reached expose the metric,
      each once, with the sum and count of its log. Others may have gone unscraped. */
  ghost predicate Shows(snap: Snapshot, metric: string, logs: map<NamespacedName, Log>) {
    && Distinct(Scraped(snap, metric))
    && (forall svc | svc in Exposing(snap.services, metric) :: LogMatches(svc, metric, logs))
  }

  ghost function LogTotal(ids: seq<NamespacedName>, logs: map<NamespacedName, Log>): real {
    if ids == [] then 0.0
    else LogTotal(ids[..|ids| - 1], logs) + Total(LogOf(logs, ids[|ids| - 1]))
  }

  ghost function LogCount(ids: seq<NamespacedName>, logs: map<NamespacedName, Log>): int {
    if ids == [] then 0
    else LogCount(ids[..|ids| - 1], logs) + |LogOf(logs, ids[|ids| - 1])|
  }

  /** A service that was not running yet has an empty log. */
  function LogOf(logs: map<NamespacedName, Log>, id: NamespacedName): Log {
    if id in logs then logs[id] else []
  }

  ghost predicate LogMatches(svc: ServiceMetrics, metric: string, logs: map<NamespacedName, Log>) {
    && svc.id in logs && metric in svc.histograms
    && svc.histograms[metric].sum == Total(logs[svc.id])
    && svc.histograms[metric].count == |logs[svc.id]|
  }

  lemma LogsSnoc(ids: seq<NamespacedName>, id: NamespacedName, logs: map<NamespacedName, Log>)
    ensures LogTotal(ids + [id], logs) == LogTotal(ids, logs) + Total(LogOf(logs, id))
    ensures LogCount(ids + [id], logs) == LogCount(ids, logs) + |LogOf(logs, id)|
  {
    assert (ids + [id])[..|ids|] == ids;
  }

  lemma {:induction false} ExposedIffExposing(services: seq<ServiceMetrics>, metric: string)
    ensures Exposed(services, metric) <==> Exposing(services, metric) != []
  {
    if services != [] {
      var init := services[..|services| - 1];
      ExposedIffExposing(init, metric);
      assert forall i | 0 <= i < |init| :: services[i] == init[i];
    }
  }

  lemma {:induction false} ExposingPrefix(services: seq<ServiceMetrics>, metric: string,
                                          logs: map<NamespacedName, Log>)
    requires forall svc | svc in Exposing(services, metric) :: LogMatches(svc, metric, logs)
    ensures SumOf(services, metric) == LogTotal(Ids(Exposing(services, metric)), logs)
    ensures CountOf(services, metric) == LogCount(Ids(Exposing(services, metric)), logs)
  {
    if services != [] {
      var init, svc := services[..|services| - 1], services[|services| - 1];
      var before := Exposing(init, metric);
      ExposingPrefix(init, metric, logs);
      if Exposes(svc, metric) {
        assert Exposing(services, metric) == before + [svc] && (before + [svc])[|before|] == svc;
        assert LogMatches(svc, metric, logs);
        assert Ids(before + [svc]) == Ids(before) + [svc.id];
        LogsSnoc(Ids(before), svc.id, logs);
      } else {
        assert Exposing(services, metric) == before;
      }
    }
  }

  lemma {:induction false} LogsConcat(xs: seq<NamespacedName>, ys: seq<NamespacedName>,
                                      logs: map<NamespacedName, Log>)
    ensures LogTotal(xs + ys, logs) == LogTotal(xs, logs) + LogTotal(ys, logs)
    ensures LogCount(xs + ys, logs) == LogCount(xs, logs) + LogCount(ys, logs)
  {
    if ys == [] {
      assert xs + ys == xs;
    } else {
      var all := xs + ys;
      assert all[..|all| - 1] == xs + ys[..|ys| - 1];
      LogsConcat(xs, ys[..|ys| - 1], logs);
    }
  }

  lemma LogsWithout(xs: seq<NamespacedName>, j: nat, logs: map<NamespacedName, Log>)
    requires j < |xs|
    ensures LogTotal(xs, logs) == Total(LogOf(logs, xs[j])) + LogTotal(Without(xs, j), logs)
    ensures LogCount(xs, logs) == |LogOf(logs, xs[j])| + LogCount(Without(xs, j), logs)
  {
    var mid := [xs[j]];
    assert xs == xs[..j] + (mid + xs[j + 1..]);
    LogsConcat(xs[..j], mid + xs[j + 1..], logs);
    LogsConcat(mid, xs[j + 1..], logs);
    LogsConcat(xs[..j], xs[j + 1..], logs);
    assert mid[..0] == [];
    assert LogTotal(mid, logs) == LogTotal(mid[..0], logs) + Total(LogOf(logs, xs[j]));
  }

  lemma WithoutDistinct(xs: seq<NamespacedName>, j: nat)
    requires Distinct(xs) && j < |xs|
    ensures Distinct(Without(xs, j))
    ensures forall x :: x in Without(xs, j) <==> x in xs && x != xs[j]
  {
    var ys := Without(xs, j);
    forall x | x in xs && x != xs[j] ensures x in ys {
      var k :| 0 <= k < |xs| && xs[k] == x;
      assert x == if k < j then ys[k] else ys[k - 1];
    }
  }

  /** Scrape order does not matter. */
  lemma {:induction false} OrderIndependent(xs: seq<NamespacedName>, ys: seq<NamespacedName>,
                                            logs: map<NamespacedName, Log>)
    requires Distinct(xs) && Distinct(ys) && forall id :: id in xs <==> id in ys
    ensures LogTotal(xs, logs) == LogTotal(ys, logs)
    ensures LogCount(xs, logs) == LogCount(ys, logs)
    decreases |ys|
  {
    assert forall i | 0 <= i < |xs| :: xs[i] in ys;
    if ys != [] {
      var last := |ys| - 1;
      assert ys[last] in xs;
      var j :| 0 <= j < |xs| && xs[j] == ys[last];
      LogsWithout(ys, last, logs);
      LogsWithout(xs, j, logs);
      WithoutDistinct(xs, j);
      WithoutDistinct(ys, last);
      OrderIndependent(Without(xs, j), Without(ys, last), logs);
    }
  }

  /** The members of xs that are, or are not, in ys. */
  function Both(xs: seq<NamespacedName>, ys: seq<NamespacedName>): seq<NamespacedName> {
    if xs == [] then []
    else
      var x := xs[|xs| - 1];
      Both(xs[..|xs| - 1], ys) + if x in ys then [x] else []
  }

  function OnlyIn(xs: seq<NamespacedName>, ys: seq<NamespacedName>): seq<NamespacedName> {
    if xs == [] then []
    else
      var x := xs[|xs| - 1];
      OnlyIn(xs[..|xs| - 1], ys) + if x in ys then [] else [x]
  }

  lemma BothSnoc(xs: seq<NamespacedName>, x: NamespacedName, ys: seq<NamespacedName>)
    ensures if x in ys then Both(xs + [x], ys) == Both(xs, ys) + [x] && OnlyIn(xs + [x], ys) == OnlyIn(xs, ys)
            else Both(xs + [x], ys) == Both(xs, ys) && OnlyIn(xs + [x], ys) == OnlyIn(xs, ys) + [x]
  {
    assert (xs + [x])[..|xs|] == xs;
  }

  ghost predicate Splits(xs: seq<NamespacedName>, both: seq<NamespacedName>, only: seq<NamespacedName>,
                         logs: map<NamespacedName, Log>) {
    && LogTotal(xs, logs) == LogTotal(both, logs) + LogTotal(only, logs)
    && LogCount(xs, logs) == LogCount(both, logs) + LogCount(only, logs)
  }

  lemma SplitSnoc(xs: seq<NamespacedName>, x: NamespacedName, both: seq<NamespacedName>,
                  only: seq<NamespacedName>, logs: map<NamespacedName, Log>)
    requires Splits(xs, both, only, logs)
    ensures Splits(xs + [x], both + [x], only, logs) && Splits(xs + [x], both, only + [x], logs)
  {
    LogsSnoc(xs, x, logs);
    LogsSnoc(both, x, logs);
    LogsSnoc(only, x, logs);
  }

  /** The totals of xs split into those of its members inside and outside ys. */
  ghost predicate SplitsBy(xs: seq<NamespacedName>, ys: seq<NamespacedName>, logs: map<NamespacedName, Log>) {
    Splits(xs, Both(xs, ys), OnlyIn(xs, ys), logs)
  }

  lemma SplitNext(xs: seq<NamespacedName>, x: NamespacedName, ys: seq<NamespacedName>,
                  logs: map<NamespacedName, Log>)
    requires SplitsBy(xs, ys, logs)
    ensures SplitsBy(xs + [x], ys, logs)
  {
    BothSnoc(xs, x, ys);
    SplitSnoc(xs, x, Both(xs, ys), OnlyIn(xs, ys), logs);
  }

  lemma {:induction false} SplitLogs(xs: seq<NamespacedName>, ys: seq<NamespacedName>,
                                     logs: map<NamespacedName, Log>)
    ensures SplitsBy(xs, ys, logs)
  {
    if xs == [] {
      assert Splits([], [], [], logs);
    } else {
      var n := |xs| - 1;
      var init, x := xs[..n], xs[n];
      assert xs == init + [x];
      SplitLogs(init, ys, logs);
      SplitNext(init, x, ys, logs);
    }
  }

  lemma {:induction false} BothMembers(xs: seq<NamespacedName>, ys: seq<NamespacedName>)
    ensures forall id :: id in Both(xs, ys) <==> id in xs && id in ys
    ensures forall id :: id in OnlyIn(xs, ys) <==> id in xs && id !in ys
  {
    if xs != [] {
      var init, x := xs[..|xs| - 1], xs[|xs| - 1];
      BothMembers(init, ys);
      assert init + [x] == xs;
    }
  }

  lemma DistinctPush(xs: seq<NamespacedName>, x: NamespacedName)
    requires Distinct(xs) && x !in xs
    ensures Distinct(xs + [x])
  {
  }

  lemma {:induction false} BothDistinct(xs: seq<NamespacedName>, ys: seq<NamespacedName>)
    requires Distinct(xs)
    ensures Distinct(Both(xs, ys))
  {
    if xs != [] {
      var init, x := xs[..|xs| - 1], xs[|xs| - 1];
      BothDistinct(init, ys);
      BothMembers(init, ys);
      assert x !in init;
      if x in ys {
        DistinctPush(Both(init, ys), x);
      }
    }
  }

  /** Two listings differ in their totals by what only one of them lists. */
  lemma ListingsDiffer(xs: seq<NamespacedName>, ys: seq<NamespacedName>, logs: map<NamespacedName, Log>)
    requires Distinct(xs) && Distinct(ys)
    ensures LogTotal(xs, logs) - LogTotal(ys, logs)
            == LogTotal(OnlyIn(xs, ys), logs) - LogTotal(OnlyIn(ys, xs), logs)
    ensures LogCount(xs, logs) - LogCount(ys, logs)
            == LogCount(OnlyIn(xs, ys), logs) - LogCount(OnlyIn(ys, xs), logs)
  {
    SplitLogs(xs, ys, logs);
    SplitLogs(ys, xs, logs);
    BothMembers(xs, ys);
    BothMembers(ys, xs);
    BothDistinct(xs, ys);
    BothDistinct(ys, xs);
    OrderIndependent(Both(xs, ys), Both(ys, xs), logs);
  }

  // --------------------------------------------------------- the theorem

  /** Everything observed between the two scrapes, service by service. */
  ghost function Between(ids: seq<NamespacedName>, before: map<NamespacedName, Log>,
                         after: map<NamespacedName, Log>): Log
    requires forall id | id in ids :: |LogOf(before, id)| <= |LogOf(after, id)|
  {
    if ids == [] then []
    else
      var id := ids[|ids| - 1];
      Between(ids[..|ids| - 1], before, after) + LogOf(after, id)[|LogOf(before, id)|..]
  }

  /** Logs only grow. */
  ghost predicate Extends(before: map<NamespacedName, Log>, after: map<NamespacedName, Log>) {
    forall id | id in after :: LogOf(before, id) <= after[id]
  }

  lemma {:induction false} BetweenTotals(ids: seq<NamespacedName>, before: map<NamespacedName, Log>,
                                         after: map<NamespacedName, Log>)
    requires Extends(before, after) && forall id | id in ids :: id in after
    ensures Total(Between(ids, before, after)) == LogTotal(ids, after) - LogTotal(ids, before)
    ensures |Between(ids, before, after)| == LogCount(ids, after) - LogCount(ids, before)
    ensures (forall id | id in after :: NonNegative(after[id]))
            ==> NonNegative(Between(ids, before, after))
  {
    if ids != [] {
      var init, id := ids[..|ids| - 1], ids[|ids| - 1];
      BetweenTotals(init, before, after);
      var was, now := LogOf(before, id), after[id];
      assert now == was + now[|was|..];
      TotalConcat(was, now[|was|..]);
      TotalConcat(Between(init, before, after), now[|was|..]);
    }
  }

  lemma {:induction false} TotalNonNegative(xs: Log)
    requires NonNegative(xs)
    ensures Total(xs) >= 0.0
  {
    if xs != [] {
      TotalNonNegative(xs[1..]);
    }
  }

  lemma SumsFromLogs(snap: Snapshot, metric: string, logs: map<NamespacedName, Log>)
    requires Shows(snap, metric, logs)
    ensures var ids := Scraped(snap, metric);
            && SumOf(snap.services, metric) == LogTotal(ids, logs)
            && CountOf(snap.services, metric) == LogCount(ids, logs)
            && (Exposed(snap.services, metric) <==> ids != [])
            && (forall id | id in ids :: id in logs)
  {
    ExposingPrefix(snap.services, metric, logs);
    ExposedIffExposing(snap.services, metric);
    var exposing, ids := Exposing(snap.services, metric), Scraped(snap, metric);
    forall id | id in ids ensures id in logs {
      var i :| 0 <= i < |ids| && ids[i] == id;
      assert exposing[i] in exposing;
    }
  }

  /** `was` and `now` are all logs at the two scrapes, of services scraped or not; logs only grow. */
  ghost predicate Consistent(base: Snapshot, newest: Snapshot, metric: string,
                             was: map<NamespacedName, Log>, now: map<NamespacedName, Log>) {
    && Shows(base, metric, was) && Shows(newest, metric, now)
    && Extends(was, now)
    && (forall id | id in now :: NonNegative(now[id]))
  }

  /** What the services of the newest scrape observed between the two scrapes, in the order that
      scrape lists them. */
  ghost function Observed(newest: Snapshot, metric: string, was: map<NamespacedName, Log>,
                          now: map<NamespacedName, Log>): Log
    requires Shows(newest, metric, now) && Extends(was, now)
  {
    SumsFromLogs(newest, metric, now);
    Between(Scraped(newest, metric), was, now)
  }

  /** Services only the newest scrape reached: what they had observed before the baseline enters
      the difference. */
  function Hidden(base: Snapshot, newest: Snapshot, metric: string): seq<NamespacedName> {
    OnlyIn(Scraped(newest, metric), Scraped(base, metric))
  }

  /** Services only the baseline scrape reached: what they had observed by then is subtracted. */
  function Lost(base: Snapshot, newest: Snapshot, metric: string): seq<NamespacedName> {
    OnlyIn(Scraped(base, metric), Scraped(newest, metric))
  }

  /** The count and the sum by which the difference misses what was observed in between. */
  ghost function SkewCount(base: Snapshot, newest: Snapshot, metric: string, was: map<NamespacedName, Log>): int {
    LogCount(Hidden(base, newest, metric), was) - LogCount(Lost(base, newest, metric), was)
  }

  ghost function SkewTotal(base: Snapshot, newest: Snapshot, metric: string, was: map<NamespacedName, Log>): real {
    LogTotal(Hidden(base, newest, metric), was) - LogTotal(Lost(base, newest, metric), was)
  }

  /** The difference of the snapshots is what was observed in between, plus what the hidden
      services had observed before the baseline, minus what the lost ones had. */
  lemma DeltasAreObserved(base: Snapshot, newest: Snapshot, metric: string,
                          was: map<NamespacedName, Log>, now: map<NamespacedName, Log>)
    requires Consistent(base, newest, metric, was, now)
    ensures var seen := Observed(newest, metric, was, now);
            && CountOf(newest.services, metric) - CountOf(base.services, metric)
               == |seen| + SkewCount(base, newest, metric, was)
            && SumOf(newest.services, metric) - SumOf(base.services, metric)
               == Total(seen) + SkewTotal(base, newest, metric, was)
            && Total(seen) >= 0.0
  {
    var few, many := Scraped(base, metric), Scraped(newest, metric);
    SumsFromLogs(base, metric, was);
    SumsFromLogs(newest, metric, now);
    BetweenTotals(many, was, now);
    ListingsDiffer(many, few, was);
    TotalNonNegative(Between(many, was, now));
  }

  /** When a skewed quotient is still the mean of n observations with the given total. */
  predicate Unskewed(exposed: bool, n: nat, total: real, skewCount: int, skewTotal: real) {
    if !exposed || n + skewCount <= 0 || total + skewTotal < 0.0 then total == 0.0
    else if n == 0 then skewTotal == 0.0
    else skewTotal * n as real == total * skewCount as real
  }

  /** Both snapshots have some service exposing the metric. */
  predicate BothExposed(base: Snapshot, newest: Snapshot, metric: string) {
    Exposed(base.services, metric) && Exposed(newest.services, metric)
  }

  /** The skew of two scrapes does not tilt the mean of what was seen between them. */
  ghost predicate Untilted(base: Snapshot, newest: Snapshot, metric: string, was: map<NamespacedName, Log>,
                           seen: Log) {
    Unskewed(BothExposed(base, newest, metric), |seen|, Total(seen), SkewCount(base, newest, metric, was),
             SkewTotal(base, newest, metric, was))
  }

  /** Exactly when the windowed value is the mean of what was observed between the scrapes: the
      earlier observations of hidden services, less those of lost ones, must not tilt it. */
  lemma WindowedValueIsTrueMean(base: Snapshot, newest: Snapshot, metric: string,
                                was: map<NamespacedName, Log>, now: map<NamespacedName, Log>)
    requires Consistent(base, newest, metric, was, now)
    ensures var seen := Observed(newest, metric, was, now);
            WindowedValue(base, newest, metric) == Mean(seen) <==> Untilted(base, newest, metric, was, seen)
  {
    var seen := Observed(newest, metric, was, now);
    DeltasAreObserved(base, newest, metric, was, now);
    DeltasDecide(base, newest, metric, seen, SkewCount(base, newest, metric, was),
                 SkewTotal(base, newest, metric, was));
  }

  lemma DeltasDecide(base: Snapshot, newest: Snapshot, metric: string, seen: Log, c: int, s: real)
    requires CountOf(newest.services, metric) - CountOf(base.services, metric) == |seen| + c
    requires SumOf(newest.services, metric) - SumOf(base.services, metric) == Total(seen) + s
    ensures WindowedValue(base, newest, metric) == Mean(seen) <==>
              Unskewed(BothExposed(base, newest, metric), |seen|, Total(seen), c, s)
  {
    ValueIsQuotient(base, newest, metric);
    SkewedMean(BothExposed(base, newest, metric), |seen|, Total(seen), c, s);
  }

  function Quotient(exposed: bool, dCount: int, dSum: real): real {
    if !exposed || dCount <= 0 || dSum < 0.0 then 0.0 else dSum / dCount as real
  }

  lemma ValueIsQuotient(base: Snapshot, newest: Snapshot, metric: string)
    ensures WindowedValue(base, newest, metric)
            == Quotient(BothExposed(base, newest, metric),
                        CountOf(newest.services, metric) - CountOf(base.services, metric),
                        SumOf(newest.services, metric) - SumOf(base.services, metric))
  {
  }

  lemma SkewedMean(exposed: bool, n: nat, total: real, c: int, s: real)
    requires n == 0 ==> total == 0.0
    ensures Quotient(exposed, n + c, total + s) == (if n == 0 then 0.0 else total / n as real)
            <==> Unskewed(exposed, n, total, c, s)
  {
    if !exposed || n + c <= 0 || total + s < 0.0 {
      if n > 0 { ZeroQuotient(total, n); }
    } else if n > 0 {
      CrossMultiplied(n, total, c, s);
    } else {
      ZeroQuotient(s, c);
    }
  }

  lemma CrossMultiplied(n: nat, total: real, c: int, s: real)
    requires n > 0 && n + c > 0
    ensures (total + s) / (n + c) as real == total / n as real <==> s * n as real == total * c as real
  {
    var a, b := n as real, c as real;
    assert (n + c) as real == a + b;
    SameRatio(total + s, a + b, total, a);
    assert (total + s) * a == total * a + s * a && total * (a + b) == total * a + total * b;
  }

  lemma ZeroQuotient(t: real, n: int)
    requires n > 0
    ensures t / n as real == 0.0 <==> t == 0.0
  {
    var q := t / n as real;
    assert q * n as real == t;
  }

  /** Nothing a hidden or lost service observed before the baseline: no restarts, and every service
      scraped once it had observed something. */
  ghost predicate NothingHidden(base: Snapshot, newest: Snapshot, metric: string, was: map<NamespacedName, Log>) {
    && (forall id | id in Scraped(newest, metric) && id !in Scraped(base, metric) :: LogOf(was, id) == [])
    && (forall id | id in Scraped(base, metric) && id !in Scraped(newest, metric) :: LogOf(was, id) == [])
  }

  lemma {:induction false} SilentLogs(ids: seq<NamespacedName>, logs: map<NamespacedName, Log>)
    requires forall id | id in ids :: LogOf(logs, id) == []
    ensures LogTotal(ids, logs) == 0.0 && LogCount(ids, logs) == 0
  {
    if ids != [] {
      SilentLogs(ids[..|ids| - 1], logs);
    }
  }

  lemma NothingHiddenIsUnskewed(base: Snapshot, newest: Snapshot, metric: string, was: map<NamespacedName, Log>)
    requires NothingHidden(base, newest, metric, was)
    ensures SkewCount(base, newest, metric, was) == 0 && SkewTotal(base, newest, metric, was) == 0.0
  {
    BothMembers(Scraped(newest, metric), Scraped(base, metric));
    BothMembers(Scraped(base, metric), Scraped(newest, metric));
    SilentLogs(Hidden(base, newest, metric), was);
    SilentLogs(Lost(base, newest, metric), was);
  }

  lemma NoSkewIsUnskewed(n: nat, total: real)
    requires total >= 0.0 && (n == 0 ==> total == 0.0)
    ensures Unskewed(true, n, total, 0, 0.0)
  {
  }

  /** So it always is the mean when the same services were scraped both times, or the others had
      observed nothing yet. */
  lemma NothingHiddenIsTrueMean(base: Snapshot, newest: Snapshot, metric: string,
                                was: map<NamespacedName, Log>, now: map<NamespacedName, Log>)
    requires Consistent(base, newest, metric, was, now) && BothExposed(base, newest, metric)
    requires NothingHidden(base, newest, metric, was)
    ensures WindowedValue(base, newest, metric) == Mean(Observed(newest, metric, was, now))
  {
    var seen := Observed(newest, metric, was, now);
    NothingHiddenIsUnskewed(base, newest, metric, was);
    DeltasAreObserved(base, newest, metric, was, now);
    NoSkewIsUnskewed(|seen|, Total(seen));
    WindowedValueIsTrueMean(base, newest, metric, was, now);
  }

  /** And then the answer never leaves the range of what was observed. */
  lemma WindowedValueWithinObservations(base: Snapshot, newest: Snapshot, metric: string,
                                        was: map<NamespacedName, Log>,
                                        now: map<NamespacedName, Log>, lo: real, hi: real)
    requires Consistent(base, newest, metric, was, now) && BothExposed(base, newest, metric)
    requires NothingHidden(base, newest, metric, was)
    requires var seen := Observed(newest, metric, was, now);
             seen != [] && Within(seen, lo, hi)
    ensures lo <= WindowedValue(base, newest, metric) <= hi
  {
    NothingHiddenIsTrueMean(base, newest, metric, was, now);
    MeanBounds(Observed(newest, metric, was, now), lo, hi);
  }

  // ------------------------------------------ where the mean is not true

  function Exposition(id: NamespacedName, log: Log): ServiceMetrics {
    ServiceMetrics(id, map[], map["m" := Histogram([], |log|, Total(log))], false)
  }

  lemma TwoServices(a: ServiceMetrics, b: ServiceMetrics)
    ensures Exposing([a, b], "m") == (if Exposes(a, "m") then [a] else []) + (if Exposes(b, "m") then [b] else [])
  {
    var s := [a, b];
    assert s[..1] == [a] && s[..1][..0] == [];
    assert Exposing(s[..1], "m") == if Exposes(a, "m") then [a] else [];
  }

  /** A service that was already observing but could not be scraped at the baseline is counted with
      its whole lifetime. Here service a observed 1.0 between the scrapes; b, unreachable at the
      baseline, observed nothing in between but 9.0 long before; and the answer is 5.0. */
  lemma UnscrapedBaselineSkewsTheMean()
    ensures var a, b := NamespacedName("ns", "a"), NamespacedName("ns", "b");
            var was: map<NamespacedName, Log> := map[a := [1.0], b := [9.0]];
            var now: map<NamespacedName, Log> := map[a := [1.0, 1.0], b := [9.0]];
            var base := Snapshot(a, [Exposition(a, was[a]), ServiceMetrics(b, map[], map[], true)]);
            var newest := Snapshot(a, [Exposition(a, now[a]), Exposition(b, now[b])]);
            && Consistent(base, newest, "m", was, now)
            && Observed(newest, "m", was, now) == [1.0] && Mean([1.0]) == 1.0
            && WindowedValue(base, newest, "m") == 5.0
  {
    var a, b := NamespacedName("ns", "a"), NamespacedName("ns", "b");
    var was: map<NamespacedName, Log> := map[a := [1.0], b := [9.0]];
    var now: map<NamespacedName, Log> := map[a := [1.0, 1.0], b := [9.0]];
    var base := Snapshot(a, [Exposition(a, was[a]), ServiceMetrics(b, map[], map[], true)]);
    var newest := Snapshot(a, [Exposition(a, now[a]), Exposition(b, now[b])]);
    assert "a" != "b";
    TwoServices(base.services[0], base.services[1]);
    TwoServices(newest.services[0], newest.services[1]);
    assert Scraped(base, "m") == [a] && Scraped(newest, "m") == [a, b];
    SkewedLogs(a, b, was, now);
    SkewedObserved(a, b, was, now, newest);
    SkewedValue(a, b, was, now, base, newest);
    assert [1.0][1..] == [];
  }

  lemma SkewedLogs(a: NamespacedName, b: NamespacedName, was: map<NamespacedName, Log>,
                   now: map<NamespacedName, Log>)
    requires a != b && was == map[a := [1.0], b := [9.0]] && now == map[a := [1.0, 1.0], b := [9.0]]
    ensures Extends(was, now) && forall id | id in now :: NonNegative(now[id])
  {
    assert was[a] <= now[a] && was[b] <= now[b];
  }

  lemma SkewedObserved(a: NamespacedName, b: NamespacedName, was: map<NamespacedName, Log>,
                       now: map<NamespacedName, Log>, newest: Snapshot)
    requires a != b && was == map[a := [1.0], b := [9.0]] && now == map[a := [1.0, 1.0], b := [9.0]]
    requires Scraped(newest, "m") == [a, b] && Shows(newest, "m", now) && Extends(was, now)
    ensures Observed(newest, "m", was, now) == [1.0]
  {
    assert [a, b][..1] == [a] && [a][..0] == [];
    assert Between([a], was, now) == [1.0, 1.0][1..] == [1.0];
    assert Between([a, b], was, now) == Between([a], was, now) + [9.0][1..];
  }

  lemma SkewedValue(a: NamespacedName, b: NamespacedName, was: map<NamespacedName, Log>,
                    now: map<NamespacedName, Log>, base: Snapshot, newest: Snapshot)
    requires a != b && was == map[a := [1.0], b := [9.0]] && now == map[a := [1.0, 1.0], b := [9.0]]
    requires Scraped(base, "m") == [a] && Scraped(newest, "m") == [a, b]
    requires Shows(base, "m", was) && Shows(newest, "m", now)
    ensures WindowedValue(base, newest, "m") == 5.0
  {
    SumsFromLogs(base, "m", was);
    SumsFromLogs(newest, "m", now);
    assert [a, b] == [a] + [b] && [a] == [] + [a];
    LogsSnoc([], a, was);
    LogsSnoc([], a, now);
    LogsSnoc([a], b, now);
    assert [1.0, 1.0][1..] == [1.0] && [1.0][1..] == [] && [9.0][1..] == [];
    assert Total([1.0]) == 1.0 && Total([1.0, 1.0]) == 2.0 && Total([9.0]) == 9.0;
  }
}
