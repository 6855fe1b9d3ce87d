# KEDA Kaito Scaler: rolling metric cache, scaling formula and reconciler

The KEDA Kaito Scaler turns annotations on an `InferenceSet` into a KEDA `ScaledObject`, keeps that
object reconciled, and answers KEDA's metric queries from a cache of scraped snapshots. This project
models its four linked parts and proves what they promise.

**Rolling metric cache** (`RollingWindow`, `WindowedMean`, `EntryKeys`, `CacheModel`,
`MetricCaches`). An entry keeps a pruned list of timed snapshots. `CacheModel` has one step per
critical section, so a run of steps is any interleaving of the poller with concurrent requests; each
abstract entry also remembers everything ever committed to it. `MetricCaches.MetricCache` is the
object with its mutable entries. Its invariant says that its state is what its recorded steps lead
to, so every theorem about runs holds of the object. The central results: exactly when the pruned
samples answer what the complete history would; a warmed-up target is always answered; no answer is
stale or stretches over an outage; and exactly when the windowed average is the mean of what was
actually observed.

**Annotations to formula** (`Numbers`, `ExprLang`, `FormulaText`, `FormulaMeaning`, `Provisioner`,
`Formula`, `Decision`, `DecisionSafety`, `FormulaOutcome`). `Provisioner` validates a metric list,
`Formula` prints it as characters, and `ExprLang` is a lexer, parser, type check and evaluator for the
fragment of expr-lang those texts use. `Decision.Decide` is the scaling policy stated from the metric list alone.
The central result is that lexing, parsing and evaluating the printed characters gives the policy's
decision for every accepted configuration and every assignment of readings, exactly when no printed
threshold has a reserved name or an integer literal too large for the language. `FormulaOutcome` says
what that number is straight from readings and thresholds.

**Serving and composition** (`Triggers`, `Scaler`, `Aggregators`, `HistogramMerge`, `EndToEnd`,
`HpaLoop`, `LiveObject`; `Reals` and `Sequences` hold shared facts). The emitted trigger metadata is
parsed back by the scaler; the values `GetMetrics` serves are bound under the trigger names; KEDA's
number over them is the decision. Facts about the decision then become facts about the whole chain,
from cached scrape to replica count.

**Reconciler** (`ScaledObjects`, `Reconciler`, `Reconcile`). A store of API objects whose calls may
fail, before or after taking effect. Every attempt, however it ends, makes progress or changes
nothing; success is convergence; convergence is a fixpoint.

Time is an unbounded number of nanoseconds and `float64` is a real number. Parsers the program
imports (YAML, `ParseFloat`, `ParseDuration`, `Quantity`) are parameters or have already been
applied. A threshold is an exact decimal, printed as its text.

## Findings

Places where the code does less than its comments or documentation suggest. Each has a lemma with a
concrete input or an exact condition.

- Metric names that sanitize to an expr-lang reserved word (`in`, `let`, `not`, ...) pass
  validation, and so do thresholds that print as an integer above int64 (1e19), but their formulas do
  not compile (`Decision.ReservedNameIsAccepted`, `Decision.HugeThresholdIsAccepted`; exact condition
  in `Decision.FormulaMeansDecision`).
- An explicit `sum` over `modelpod` passes validation, but the scaler refuses its trigger because no
  threshold is emitted (`Triggers.ModelPodSumIsRefused`; exact condition in
  `Triggers.MetadataRoundTrip`).
- A cache window is multiplied by one second in 64 bits, so a window whose nanoseconds do not fit an
  int64 is not the one the scaler uses (`Triggers.HugeWindowWraps`; exact condition in
  `Triggers.MetadataRoundTrip`).
- Pruning can be noticed by a query wider than the window the samples were pruned to
  (`CacheModel.WiderQueryMayWarmUpAgain`), and when two refreshes commit out of the order of their
  stamps, which is possible because the stamp is read before the lock is taken
  (`CacheModel.OutOfOrderCommitIsVisible`). `CacheModel.PruningIsInvisible` gives the exact condition
  on the stamps.
- A service that was already observing but could not be scraped at the baseline counts with its
  whole lifetime (`WindowedMean.UnscrapedBaselineSkewsTheMean`; exact condition in
  `WindowedMean.WindowedValueIsTrueMean`).
- Compensation for missing services keeps the scale-down direction always, the scale-up direction
  only under an exact condition (`Aggregators.ScaleUpKeptExactlyWhen`,
  `Aggregators.ScaleUpDirectionCanBeLost`).
- Cache keys of different endpoints coincide when a port contains the separator
  (`EntryKeys.PortSeparatorCollides`; exact condition in `EntryKeys.KeyIsStolenExactlyWhen`).
- A drifted `SelectPolicy` alone is never noticed (`ScaledObjects.SelectPolicyDriftIsInvisible`).
- The cooldown annotations take any non-negative int32 and become the HPA's policy periods, which the
  autoscaling/v2 API limits to 1 to 1800 seconds (`ScaledObjects.ZeroCooldownIsAccepted`; exact
  condition in `ScaledObjects.PeriodsInRangeExactlyWhen`).
- The program's own README.md, line 172, and the comment at auto_provision_controller.go:454 say
  `spec.nodeCountLimit` is used when `max-replicas` is absent; the code lets the limit override the
  annotation (`Reconcile.NodeLimitOverridesAnnotation`, and `Reconcile.NodeLimitBeatsSmallerAnnotation`
  for an instance; `Reconcile.AnnotationBoundsExactlyWhen` says exactly when the annotation still bounds
  the maximum).

## Model

| member | source | states |
|---|---|---|
| RollingWindow.PruneSamples | pkg/scaler/metric_cache.go:437-450 | the index loop drops exactly the samples that are followed by one at or before the cutoff |
| RollingWindow.PruneKeepsBaseline | pkg/scaler/metric_cache.go:431-450 | pruning keeps a suffix with the newest sample; once anything is dropped the oldest survivor is at or before the cutoff and the next one after it; two samples survive whenever the newest is past the cutoff |
| RollingWindow.DroppedAreFollowed | pkg/scaler/metric_cache.go:431-450 | no more is dropped than has to be: every sample from the second up to the oldest survivor is at or before the cutoff |
| RollingWindow.SurvivorsInsideWindow | pkg/scaler/metric_cache.go:431-450 | every survivor but the oldest lies inside (now - window, now] |
| RollingWindow.RetentionBound | pkg/scaler/metric_cache.go:431-450 | samples at least `gap` apart leave at most ceil(window / gap) + 1 survivors |
| RollingWindow.WindowBaseline | pkg/scaler/metric_cache.go:404-429 | the loop returns the chosen baseline sample, which belongs to the window |
| RollingWindow.BaselineIsNewestAtWindowStart | pkg/scaler/metric_cache.go:404-429 | the baseline is the newest non-final sample at or before the window start, unless that one is older than the allowed span, and then its successor |
| RollingWindow.BaselineInsideWindowIsOldest | pkg/scaler/metric_cache.go:404-429 | when already the oldest sample is inside the window, it is the baseline |
| RollingWindow.HistogramSumCount | pkg/scaler/metric_cache.go:287-308 | totals sum and count over the scraped services exposing the histogram; not ok exactly when none does |
| RollingWindow.HistogramTotalsAdd | pkg/scaler/metric_cache.go:287-308 | one more service adds its sum and count exactly when it was scraped and exposes the histogram |
| RollingWindow.WindowedValueOfTotals | pkg/scaler/metric_cache.go:257-271 | the value times the growth in count is the growth in sum; it is 0 when either snapshot lacks the histogram, nothing was observed or a counter went back |
| RollingWindow.AnswersExactlyWhen | pkg/scaler/metric_cache.go:235-255 | in plain integers: unavailable exactly without a sample or past `staleAfter`, warming up exactly with a single sample or when 5 * (span + 1) <= 4 * window |
| RollingWindow.SuffixHasSameBaseline | pkg/scaler/metric_cache.go:404-429 | dropping the first samples leaves the baseline where it was exactly when they all lie at or before the window start and either the oldest retained one does too or the last dropped one is too old to serve, for stamps in any order |
| RollingWindow.PrunedAnswerEqualsFullAnswer | pkg/scaler/metric_cache.go:219-271 | whatever was scraped at the given stamps, answering without the first k samples gives the same value or the same kind of error, exactly when nothing was dropped, the target is stale, the baseline is unmoved, or the query warms up either way |
| RollingWindow.SteadySuffixAnswers | pkg/scaler/metric_cache.go:235-255 | the retained samples of such a history answer, over at least the whole window, whenever pruning goes unnoticed |
| RollingWindow.SteadyHistoryAlwaysAnswers | pkg/scaler/metric_cache.go:235-255 | a history whose last stretch reaches back a window with gaps and age at most `staleAfter`, whatever outages came before, is always answered, over at least the whole window |
| RollingWindow.AnswersWholeWindowExactlyWhen | pkg/scaler/metric_cache.go:235-255 | a query is answered over at least its whole window exactly when the target is fresh and some earlier sample landed at the window start or at most `staleAfter` before it |
| RollingWindow.AnswerSpanBound | pkg/scaler/metric_cache.go:228-255 | an answer is never from a sample older than `staleAfter`; its span satisfies 4 * window < 5 * (span + 1) and is at most window + `staleAfter` |
| RollingWindow.OutageForcesWarmUp | pkg/scaler/metric_cache.go:404-429 | after a scrape outage longer than the allowance no answer stretches across it: the entry warms up again |
| WindowedMean.MeanBounds | pkg/scaler/metric_cache.go:199-218 | a mean lies between any bounds of its observations |
| WindowedMean.OrderIndependent | pkg/scaler/metric_cache.go:290-308 | the totals over observation logs do not depend on scrape order |
| WindowedMean.ListingsDiffer | pkg/scaler/metric_cache.go:290-308 | two scrapes of the same logs differ in their totals by what only one of them reached |
| WindowedMean.DeltasAreObserved | pkg/scaler/metric_cache.go:257-271 | differencing two snapshots of growing logs yields what was observed in between, plus the earlier observations of services scraped only now, minus those of services scraped only then |
| WindowedMean.WindowedValueIsTrueMean | pkg/scaler/metric_cache.go:257-271 | the windowed value is the mean of the observations made between baseline and newest exactly when that skew does not tilt it (cross products agree, with the program's 0 cases spelled out) |
| WindowedMean.NothingHiddenIsTrueMean | pkg/scaler/metric_cache.go:257-271 | so it always is the mean when the same services were scraped both times, or the others had observed nothing yet |
| WindowedMean.WindowedValueWithinObservations | pkg/scaler/metric_cache.go:257-271 | and then it lies between the smallest and the largest of them |
| WindowedMean.UnscrapedBaselineSkewsTheMean | pkg/scaler/metric_cache.go:257-271 | logs and two scrapes of them where the only observation in between is 1.0 and the answer is 5.0, because one service was unreachable at the baseline |
| EntryKeys.DecodeEntryKey | pkg/scaler/metric_cache.go:125-133 | a decoder recovers all six components from the printed key exactly when no component contains the separator that ends it; the path is arbitrary |
| EntryKeys.KeysDoNotCollide | pkg/scaler/metric_cache.go:125-133 | two targets whose components are free of the separators that end them share an entry exactly when they agree on all six; a target that agrees with such a target is such a target itself |
| EntryKeys.KeysTellTargetsApart | pkg/scaler/metric_cache.go:125-133 | with names and components free of the separators, two targets share an entry exactly when InferenceSet, protocol, port, path and source agree |
| EntryKeys.KeyIsStolenExactlyWhen | pkg/scaler/metric_cache.go:125-133 | exactly the targets that are not separable have the key of a different, separable target |
| EntryKeys.PortSeparatorCollides | pkg/scaler/metric_cache.go:125-133 | with the separator inside a port two different targets share an entry |
| CacheModel.CommitKeepsInv | pkg/scaler/metric_cache.go:387-394 | a commit keeps the entry invariant: retained samples are a suffix of the history that covers whatever was dropped |
| CacheModel.RunInv | pkg/scaler/metric_cache.go:141-168 | every cache reachable by any interleaving of register, commit, evict, sweep and touch satisfies the invariant |
| CacheModel.PruningIsInvisible | pkg/scaler/metric_cache.go:219-271 | after any run, with stamps in any order, an entry holds its history without the first samples, and pruning can never be noticed by a query of this window exactly when the stamps leave the baseline unmoved, the target stale, or the query warming up either way |
| CacheModel.DropWindowsComeFromDrops | pkg/scaler/metric_cache.go:387-394 | every window counted as pruned to was in force at a commit of the run that dropped a sample |
| CacheModel.BaseWindowIsLeast | pkg/scaler/metric_cache.go:141-168 | over an entry's life nothing was dropped exactly when no commit dropped anything, and otherwise the recorded window is the least one in force at those commits |
| CacheModel.SettledIsUndisturbed | pkg/scaler/metric_cache.go:387-394 | with commits in order, pruning goes unnoticed by every query no wider than each window in force when samples were dropped, and by every query whose start the oldest sample reaches |
| CacheModel.SettledQueryAnswersFully | pkg/scaler/metric_cache.go:219-271 | so such a query answers as the complete history would |
| CacheModel.SteadyEntryAlwaysAnswers | pkg/scaler/metric_cache.go:235-255 | after any run, a query no wider than each window in force when samples were dropped is, on an entry steady since some sample at or before the window start, never warming up and never unavailable, and its baseline is at or before the window start |
| CacheModel.WindowOnlyGrows | pkg/scaler/metric_cache.go:141-168 | while an entry lives its window never shrinks and its history only extends |
| CacheModel.SweepRemovesExactlyIdle | pkg/scaler/metric_cache.go:328-341 | a sweep removes exactly the entries not accessed for longer than both the ttl and their window, and leaves the others unchanged |
| CacheModel.RegisteredEntry | pkg/scaler/metric_cache.go:141-160 | registering gives an unknown key an empty entry for the target and window, accessed now, widens and renews a known one without touching its samples, and changes nothing else |
| CacheModel.TouchedEntry | pkg/scaler/metric_cache.go:222-233 | a windowed query renews the access time of its own entry and changes nothing else |
| CacheModel.RequestedEntrySurvives | pkg/scaler/metric_cache.go:141-160 | an entry requested at one time survives a sweep at another exactly when no more than the ttl, or its window, lies between |
| CacheModel.CommitRetention | pkg/scaler/metric_cache.go:387-394 | just after an in-order commit every retained sample but the oldest is inside the window, and samples `gap` apart number at most ceil(window / gap) + 1 |
| CacheModel.HistoryStampsComeFromCommits | pkg/scaler/metric_cache.go:387-394 | every stamp in an entry was read by some commit of the run |
| CacheModel.InOrderRunsAreSorted | pkg/scaler/metric_cache.go:387-394 | when commits land in the order of their stamps every reachable history is sorted |
| CacheModel.WiderQueryMayWarmUpAgain | pkg/scaler/metric_cache.go:141-168 | a run in which a wider query finds the samples pruned away although the full history would answer |
| CacheModel.OutOfOrderCommitIsVisible | pkg/scaler/metric_cache.go:380-394 | a run with a late commit where the pruned samples answer and the full history would not |
| MetricCaches.CacheEntry.Renew | pkg/scaler/metric_cache.go:155-160 | renewing an entry widens its window if asked and refreshes its access time, nothing else |
| MetricCaches.CacheEntry.Append | pkg/scaler/metric_cache.go:391-394 | appending extends the history by the stamped snapshot and re-prunes the retained samples |
| MetricCaches.RefreshOutcomes | pkg/scaler/metric_cache.go:353-395 | a refresh evicts exactly when the InferenceSet is gone, extends the history exactly when a scrape got through, and touches no other entry |
| MetricCaches.FirstRequestIsServed | pkg/scaler/metric_cache.go:135-197 | the first request for a target is answered from its own seeding scrape, for as long as that stays fresh |
| MetricCaches.KnownTargetIsNotScraped | pkg/scaler/metric_cache.go:135-168 | a request for a tracked target leaves its samples alone, widens its window and counts as an access |
| MetricCaches.CurrentIsRecent | pkg/scaler/metric_cache.go:170-197 | in every reachable cache the served snapshot is the last one committed to that entry and at most `staleAfter` old |
| MetricCaches.PollKeepsLiveTargets | pkg/scaler/metric_cache.go:327-351 | a poll keeps a target exactly when it was tracked, its InferenceSet still exists and it was accessed within the ttl or its window |
| MetricCaches.PolledStep | pkg/scaler/metric_cache.go:342-351 | refreshing one more pending target brings the cache one step closer to the fully polled cache, in whatever order |
| MetricCaches.MetricCache.constructor | pkg/scaler/metric_cache.go:107-117 | a new cache is empty, with a ttl of 20 minutes and a staleness of 45 seconds |
| MetricCaches.MetricCache.Register | pkg/scaler/metric_cache.go:141-160 | performs the register step on the mutable entries and reports whether the target is new |
| MetricCaches.MetricCache.Commit | pkg/scaler/metric_cache.go:387-394 | stamp and append as one step: the view becomes the commit step of the old view, or stays when the entry is gone |
| MetricCaches.MetricCache.Evict | pkg/scaler/metric_cache.go:397-402 | removes exactly the one entry |
| MetricCaches.MetricCache.SweepIdle | pkg/scaler/metric_cache.go:328-341 | the loop performs the sweep step and reports the keys that remain |
| MetricCaches.MetricCache.DropIdle | pkg/scaler/metric_cache.go:328-341 | an entry survives the loop exactly when it is not idle, unchanged |
| MetricCaches.MetricCache.Touch | pkg/scaler/metric_cache.go:222-233 | a windowed query refreshes the access time of its own entry only |
| MetricCaches.MetricCache.Aggregate | pkg/scaler/metric_cache.go:219-271 | answers as specified from the entry's samples and leaves only the access time changed |
| MetricCaches.MetricCache.AnswerFrom | pkg/scaler/metric_cache.go:235-271 | the gates and the subtraction give the specified answer or the specified kind of hold |
| MetricCaches.MetricCache.ServesCompleteHistory | pkg/scaler/metric_cache.go:219-271 | what the object serves is what its complete commit history gives, unless the stamps of that history say otherwise |
| MetricCaches.MetricCache.Refresh | pkg/scaler/metric_cache.go:353-395 | the view becomes the refreshed view for the given outcome of lookup and scrape; no entry is shared or invented |
| MetricCaches.MetricCache.Ensure | pkg/scaler/metric_cache.go:135-168 | registers a target and seeds it exactly when it is new |
| MetricCaches.MetricCache.Current | pkg/scaler/metric_cache.go:170-197 | registers, then returns the newest snapshot exactly when it is fresh |
| MetricCaches.MetricCache.Poll | pkg/scaler/metric_cache.go:327-351 | sweeps, then refreshes every remaining target, in any order, with one outcome |
| Numbers.AtoiOfItoa | pkg/scaledobject/provisioner.go:478-490 | a printed integer reads back as itself |
| Numbers.AtoiOfMinus | pkg/scaledobject/provisioner.go:596-606 | a minus and digits read as the negated number they spell, down to the least int64, and as nothing below it |
| Numbers.AtoiRefuses | pkg/scaledobject/provisioner.go:596-606 | what is neither digits nor a sign and digits reads as nothing |
| Numbers.FractionsArePositional | pkg/scaledobject/provisioner.go:576-589 | each digit after the point counts a tenth of what it would one place to the left |
| Numbers.DigitsArePositional | pkg/scaledobject/provisioner.go:596-606 | digits are positional |
| FormulaText.LexTree | pkg/scaledobject/provisioner.go:640-719 | the characters of any printed decision tree lex to the tree's tokens |
| FormulaMeaning.ParseTree | pkg/scaledobject/provisioner.go:640-719 | those tokens parse to the tree's expression, whatever may follow |
| FormulaMeaning.CompileText | pkg/scaledobject/provisioner.go:608-719 | a printed tree compiles exactly when none of its variables is a reserved word and every integer literal fits an int64, and then to its own expression |
| FormulaMeaning.EvalTree | pkg/scaledobject/provisioner.go:640-719 | that expression evaluates to the tree's meaning |
| FormulaMeaning.TextMeansTree | pkg/scaledobject/provisioner.go:608-719 | printing a decision tree and evaluating the text computes the tree's meaning for every assignment, exactly when it compiles |
| Provisioner.FormulaVarName | pkg/scaledobject/provisioner.go:608-629 | the loop sanitizes character by character, guarding a leading digit |
| Provisioner.VarNameIsName | pkg/scaledobject/provisioner.go:608-629 | every sanitized name of a named metric is a valid identifier |
| Provisioner.VarNameChars | pkg/scaledobject/provisioner.go:608-629 | ASCII letters and digits stay, every other character becomes an underscore, and a leading digit gets one in front |
| Provisioner.ValidateActivationRules | pkg/scaledobject/provisioner.go:549-574 | passes exactly the lists that can wake and that observe the backend before parking |
| Provisioner.CheckEntry | pkg/scaledobject/provisioner.go:387-490 | the checks on one entry report the first rule it breaks, and its variable name |
| Provisioner.AggregationExactlyWhen | pkg/scaledobject/provisioner.go:241-271 | the aggregation of an entry, for every type, source and spelled-out or derived choice, and when there is none |
| Provisioner.ThresholdsPassExactlyWhen | pkg/scaledobject/provisioner.go:422-473 | the thresholds of an entry pass exactly when finite, paired, ordered, suited to the minimum and to the source |
| Provisioner.EntryPassesExactlyWhen | pkg/scaledobject/provisioner.go:387-490 | an entry passes exactly when its name, source, aggregation, variable, thresholds and window are in order |
| Provisioner.MetricFields | pkg/scaledobject/provisioner.go:478-501 | a passing entry keeps its name and thresholds, gets its source and aggregation, and a window of 300 seconds when a histogram names none |
| Provisioner.ParsesExactlyWhen | pkg/scaledobject/provisioner.go:354-547 | a list parses exactly when every entry passes and, under scale-to-zero, some entry can wake and some model-pod entry can park |
| Provisioner.ParseMetrics | pkg/scaledobject/provisioner.go:354-547 | accepts exactly the lists every entry of which passes and that can wake and observe under scale-to-zero; otherwise names the first offending entry |
| Provisioner.ParsedIsAccepted | pkg/scaledobject/provisioner.go:386-527 | what passes validation has paired ordered thresholds, paired activation, distinct variable names clear of the reserved ones |
| Provisioner.AcceptedIsParsed | pkg/scaledobject/provisioner.go:386-527 | conversely, every such metric list is the result of parsing some annotation |
| Formula.BuildAlwaysOnFormula | pkg/scaledobject/provisioner.go:640-658 | the loop prints exactly the text of the band's decision tree |
| Formula.BuildScaleToZeroFormula | pkg/scaledobject/provisioner.go:660-705 | the loop prints exactly the text of the tree with the 0-replica branch, the park branch and the collapsed or banded rest |
| Formula.BuildFormula | pkg/scaledobject/provisioner.go:631-638 | for every accepted configuration the text is that of its decision tree |
| Formula.TextOfOneMetric | pkg/scaledobject/provisioner.go:640-658 | the formula of one banded metric, character by character |
| Formula.TextOfQueueAndRunning | pkg/scaledobject/provisioner.go:660-705 | the scale-to-zero formula of a router metric that wakes and parks and a model-pod metric that parks and has a band, character by character |
| Decision.TreeMeaning | pkg/scaledobject/provisioner.go:640-719 | the decision tree means the policy stated from the metric list: any-of to wake, all-of to park, gate and all-of to grow, all-of to shrink |
| Decision.CleanFormula | pkg/scaledobject/provisioner.go:608-629 | a formula compiles exactly when every threshold it prints belongs to a metric with an unreserved name and prints as a literal in range |
| Decision.FormulaMeansDecision | pkg/scaledobject/provisioner.go:608-719 | evaluating the emitted characters gives the policy's decision for all readings, exactly when every printed threshold has an unreserved name and a literal in range, and nothing otherwise |
| Decision.ReservedNameIsAccepted | pkg/scaledobject/provisioner.go:386-472 | an accepted configuration whose formula has no value |
| Decision.HugeThresholdIsAccepted | pkg/scaledobject/provisioner.go:576-589 | the threshold 1e19 is accepted, prints as an integer above int64, and leaves the formula without a value |
| FormulaOutcome.ComputesExactlyWhen | pkg/scaledobject/provisioner.go:608-719 | the emitted text computes a number exactly when every threshold it prints has a free name and a literal that fits, said of the metric's own fields |
| FormulaOutcome.WakesExactlyWhen | pkg/scaledobject/provisioner.go:660-705 | at zero replicas the emitted text gives 1.0 exactly when some reading exceeds its activation threshold, else 0.0 |
| FormulaOutcome.RunningExactlyWhen | pkg/scaledobject/provisioner.go:660-705 | above zero replicas it gives 0.0 exactly when every reading with a deactivation threshold is at or below it, and otherwise 2.0 and 0.5 exactly when ready with every band exceeded, or every band undercut |
| FormulaOutcome.AlwaysOnExactlyWhen | pkg/scaledobject/provisioner.go:640-658 | without scale-to-zero it gives 2.0 exactly when ready with every reading above its band, 0.5 exactly when every reading is below, else 1.0 |
| DecisionSafety.QueuedWorkKeepsActive | pkg/scaledobject/provisioner.go:660-705 | one metric above its activation threshold keeps the decision above the activation target, whatever every other input says |
| DecisionSafety.NoReadingWakesAndParks | pkg/scaledobject/provisioner.go:549-574 | readings that wake a parked workload never park a running one with the same router view |
| DecisionSafety.ParkingObservesBackend | pkg/scaledobject/provisioner.go:560-574 | parking implies some backend metric was observed at or below its deactivation threshold |
| DecisionSafety.AlwaysOnNeverParks | pkg/scaledobject/provisioner.go:640-658 | with a minimum of at least 1 the decision is one of the three positive multipliers |
| DecisionSafety.GuardsExclusive | pkg/scaledobject/provisioner.go:436-473 | the scale-up and scale-down guards never hold together |
| DecisionSafety.BranchOrderIrrelevant | pkg/scaledobject/provisioner.go:646-705 | the whole formula with the two scaling branches swapped, also where the band is nested in the parking test, evaluates to the same number for every accepted configuration and reading, or neither compiles |
| DecisionSafety.BandOrderIrrelevant | pkg/scaledobject/provisioner.go:640-658 | the band itself and its swapped form have one meaning in every environment, and compile alike |
| DecisionSafety.InsideBandHolds | pkg/scaledobject/provisioner.go:640-658 | one banded metric between its thresholds holds the replica count |
| DecisionSafety.NeverPrintsPlaceholder | pkg/scaledobject/provisioner.go:707-719 | the word of the placeholder is among the tokens of an accepted configuration's formula exactly when a metric whose threshold is printed is itself named that way |
| Aggregators.SumAggregate | pkg/aggregator/service_sum_aggregator.go:59-116 | the loop returns the compensated, clamped total, or the error for no snapshot, no scraped service |
| Aggregators.ServiceAverageAggregate | pkg/aggregator/service_avg_aggregator.go:62-121 | the loop returns the mean over the scraped services, or the error for no snapshot, no scraped service, no exposure |
| Aggregators.TotalsAdd | pkg/aggregator/service_sum_aggregator.go:59-116 | one more service adds its value when scraped, 0 when it does not expose the metric, and nothing at all when its scrape failed |
| Aggregators.ReductionsFailExactlyWhen | pkg/aggregator/service_avg_aggregator.go:62-121 | a sum fails exactly when no service was scraped, an average also when no scraped one exposes the metric |
| Aggregators.SumAnswer | pkg/aggregator/service_sum_aggregator.go:85-115 | the sum without division: each failed service counts with the threshold exactly when the scraped ones sum to less than the threshold each |
| Aggregators.AverageAnswer | pkg/aggregator/service_avg_aggregator.go:100-121 | the average times the number of scraped services is their sum, and a negative sum averages to 0 |
| Aggregators.AverageWithinReadings | pkg/aggregator/service_avg_aggregator.go:62-121 | the average lies between the smallest and largest reading of the scraped services |
| Aggregators.CompensationKeepsScaleDown | pkg/aggregator/service_sum_aggregator.go:85-115 | below the threshold, failed services shift the desired count by exactly their number and never beyond the number of services |
| Aggregators.NoCompensationAboveThreshold | pkg/aggregator/service_sum_aggregator.go:85-115 | at or above the threshold, and always at threshold 0, the result is the plain sum |
| Aggregators.ScaleUpKeptExactlyWhen | pkg/aggregator/service_sum_aggregator.go:85-115 | with missing services the scale-up direction survives exactly when the scraped load exceeds all services but one at the threshold |
| Aggregators.ScaleUpDirectionCanBeLost | pkg/aggregator/service_sum_aggregator.go:85-115 | one service at its threshold and two missing ask for a single replica |
| Aggregators.ReductionsOrderIndependent | pkg/aggregator/service_sum_aggregator.go:59-116 | sum and average do not depend on the order of the services |
| HistogramMerge.SortSorts | pkg/metricsource/parse.go:92-97 | sorting distinct bounds gives a strictly increasing permutation |
| HistogramMerge.MergeHistogram | pkg/metricsource/parse.go:66-105 | the loops produce the merge: a strictly sorted ladder of per-bound sums, the summed sum, and as count the +Inf bucket when present, else the summed sample count |
| HistogramMerge.LadderUnique | pkg/metricsource/parse.go:66-105 | a family has only one merged ladder, whatever order the map is walked in |
| HistogramMerge.MergeOrderIndependent | pkg/metricsource/parse.go:66-105 | the merge does not depend on the order of the series |
| HistogramMerge.MergedLadderIsCumulative | pkg/metricsource/parse.go:66-105 | series with common bounds and non-decreasing counts merge to non-decreasing counts |
| HistogramMerge.MergedBoundsAscend | pkg/metricsource/parse.go:92-97 | merged finite bounds strictly ascend, +Inf comes last |
| HistogramMerge.MergeOfOne | pkg/metricsource/parse.go:66-105 | the merge of one series has its buckets, its sum, and the count of its +Inf bucket or else its own |
| HistogramMerge.MergesAdd | pkg/metricsource/parse.go:66-105 | merging two families adds sums and, bound by bound, counts |
| HistogramMerge.ScalarsAdd | pkg/metricsource/parse.go:30-60 | the value of a scalar family is the sum of what its metrics carry |
| HistogramMerge.SumScalars | pkg/metricsource/parse.go:30-60 | gauges and counters of a family are summed, and reported only if one has a value |
| HistogramMerge.ParseFamilies | pkg/metricsource/parse.go:30-60 | every family contributes exactly its own entry to one of the two maps and nothing else appears |
| Triggers.BuildTriggers | pkg/scaledobject/provisioner.go:726-803 | the loop emits one trigger per metric, then the gate, then under scale-to-zero the replica count |
| Triggers.TriggerNamesDistinct | pkg/scaledobject/provisioner.go:726-803 | trigger names are valid identifiers and pairwise distinct, the reserved ones included |
| Triggers.MetadataRoundTrip | pkg/scaler/scaler.go:349-473 | the scaler accepts an emitted trigger exactly when it is not a model-pod sum, and recovers every field, the window exactly when it fits 64-bit nanoseconds |
| Triggers.ParsesMetadataExactlyWhen | pkg/scaler/scaler.go:349-473 | exactly which trigger metadata is accepted, whoever wrote it |
| Triggers.ParsedFields | pkg/scaler/scaler.go:349-473 | each field is the given value or its default |
| Triggers.HugeWindowWraps | pkg/scaler/scaler.go:429-441 | an accepted histogram with a window of 9223372037 seconds is read back with a negative one |
| Triggers.SyntheticTriggersParse | pkg/scaledobject/provisioner.go:768-803 | the gate and replica-count triggers are accepted back as what they are |
| Triggers.ModelPodSumIsRefused | pkg/scaler/scaler.go:384-399 | an accepted metric whose trigger the scaler refuses for want of a threshold |
| Triggers.DefaultAggregationIsServed | pkg/scaledobject/provisioner.go:241-271 | a metric that names no aggregation is always accepted back |
| Scaler.HasModelService | pkg/scaler/scaler.go:330-347 | the loop finds a Service, reports the first lookup error before one, or reports none |
| Scaler.NoModelService | pkg/scaler/scaler.go:330-347 | no Service is reported exactly when every workspace's Service is known to be missing |
| Scaler.ModelServiceFound | pkg/scaler/scaler.go:330-347 | a Service is reported exactly when some workspace has one and all before it are known to have none |
| Scaler.UnscrapedZeroExactlyWhen | pkg/scaler/scaler.go:220-255 | a model-pod metric is answered 0 without scraping exactly at zero desired replicas, or with the fallback and no Service at all |
| Scaler.SyntheticValues | pkg/scaler/scaler.go:495-518 | the gate is 1 exactly when at least the desired replicas are ready, the count is the desired number, 1 by default, and a model-pod metric at zero replicas is 0 |
| Scaler.UnservedExactlyWhen | pkg/scaler/scaler.go:257-282 | exactly when a scraped metric is refused as unknown or reported unavailable |
| Scaler.ReducedFromSnapshot | pkg/scaler/scaler.go:283-316 | a fresh snapshot is summed with the trigger's own threshold, except for the router's, or averaged over services |
| Scaler.RequestKeepsTargetAlive | pkg/scaler/scaler.go:266-316 | a scraped request renews its own target and touches no other; any other request changes nothing |
| Scaler.TargetNamedByTrigger | pkg/scaler/scaler.go:266-276 | the target a request registers and reads is the one its trigger names |
| Scaler.KaitoScaler.GetMetrics | pkg/scaler/scaler.go:196-316 | drives the mutable cache and returns exactly the specified value or error, leaving the specified cache |
| Scaler.KaitoScaler.ServeFromCache | pkg/scaler/scaler.go:266-316 | the cached path: newest snapshot, router sums without compensation, windowed average from the cache |
| EndToEnd.BindingIsEnv | pkg/scaledobject/provisioner.go:726-803 | binding every emitted trigger to its value is exactly the environment the decision is stated over |
| EndToEnd.KedaComputesDecision | pkg/scaledobject/provisioner.go:608-803 | KEDA's number, from the emitted text and the served values alone, is the policy's decision |
| EndToEnd.RouterReadingServed | pkg/scaler/scaler.go:196-316 | a router trigger is answered from the cache of its own target in every state of the InferenceSet |
| EndToEnd.RouterSumIsPlainTotal | pkg/scaler/scaler.go:295-306 | a router sum is the uncompensated total over the pods that answered |
| EndToEnd.DefaultRouterGaugeServesTotal | pkg/scaledobject/provisioner.go:241-271 | a router gauge that names no aggregation is served as that total |
| EndToEnd.QueuedRouterWorkVetoesParking | pkg/scaler/scaler.go:196-316 | when all triggers answer, router metrics are answered from the cache of their own target, and one of those readings above its activation threshold puts KEDA's number above the activation target, in every state of the InferenceSet |
| EndToEnd.SyntheticAnswers | pkg/scaler/scaler.go:196-218 | the gate's value and the replica count bound in the formula are those of the InferenceSet each was answered from |
| EndToEnd.NoScaleUpBeforeReady | pkg/scaler/scaler.go:495-518 | KEDA's number is 2.0 only if every desired replica was ready when the gate was answered |
| EndToEnd.EveryTriggerAnswersAtZero | pkg/scaler/scaler.go:220-255 | at zero replicas every trigger of a model-pod configuration answers without a scrape |
| EndToEnd.RaisedMinimumReactivates | pkg/scaledobject/provisioner.go:640-658 | and KEDA's number over those answers is above the activation target, so the workload returns to its minimum |
| EndToEnd.SteadyWindowedTriggerAnswers | pkg/scaler/scaler.go:266-316 | in steady state a windowed trigger of a tracked target always answers |
| EndToEnd.ServedWindowIsTrueMean | pkg/scaler/metric_cache.go:219-271 | when a windowed trigger's value is the mean of the observations between the newest scrape and the baseline the complete, unpruned history selects: exactly when the skew of the two scrapes does not tilt it |
| EndToEnd.ServedAverageWithinReadings | pkg/scaler/scaler.go:295-316 | what a per-service-average trigger is served lies within the readings of the scraped services |
| HpaLoop.BuiltBoundsMoveOnePod | pkg/scaledobject/provisioner.go:842-871 | the HPA configuration moves at most one pod per period, with each tolerance on its own direction |
| HpaLoop.StepByOutput | pkg/scaledobject/provisioner.go:62-78 | one period moves up by one exactly on 2.0 and down by one exactly on 0.5, given room and tolerance |
| HpaLoop.HalvingKeepsOne | pkg/scaledobject/provisioner.go:62-78 | the 0.5 multiplier alone never takes one replica to zero |
| HpaLoop.PeriodByReadings | pkg/scaledobject/provisioner.go:640-658 | the count rises exactly when the gate is ready and all metrics are above, falls exactly when all are below, by one and inside the bounds |
| HpaLoop.RunStaysInBounds | pkg/scaledobject/provisioner.go:62-78 | every run stays in [min, max] and moves by at most one per period |
| HpaLoop.SustainedLoadReachesMax | pkg/scaledobject/provisioner.go:62-78 | sustained load reaches the maximum, one replica per period |
| LiveObject.StoredFormulaDecides | pkg/scaledobject/provisioner.go:873-926 | in a converged namespace the stored formula over the stored triggers computes the decision of the annotations |
| ScaledObjects.GlobalsInRange | pkg/scaledobject/provisioner.go:504-546 | accepted stabilization windows are in the API's range, cooldowns are non-negative int32, and the scale-to-zero cooldowns exist exactly under scale-to-zero |
| ScaledObjects.GlobalsAcceptedExactlyWhen | pkg/scaledobject/provisioner.go:504-546 | the global annotations are accepted exactly when each is well-formed and in range and the cooldowns of scale-to-zero come only with it |
| ScaledObjects.AnnotationsReachTheObject | pkg/scaledobject/provisioner.go:837-871 | each annotation, or its default, ends up in the rules of its own direction, one pod per cooldown |
| ScaledObjects.PeriodsInRangeExactlyWhen | pkg/scaledobject/provisioner.go:837-871 | the built policies have periods the HPA API takes exactly when both cooldown annotations read as 1 to 1800 seconds |
| ScaledObjects.ZeroCooldownIsAccepted | pkg/scaledobject/provisioner.go:596-606 | a scale-up cooldown of "0" is accepted and becomes a policy period of 0 seconds |
| ScaledObjects.BuildScaledObjectSpec | pkg/scaledobject/provisioner.go:873-926 | the assembled spec, field by field: bounds, polling, cooldowns, triggers, the printed formula with its target and activation target, the HPA behavior and the scale target |
| ScaledObjects.SpecChangedIff | pkg/controllers/autoprovision/auto_provision_controller.go:312-376 | the change test is inequality of the managed projections, hence an equivalence |
| ScaledObjects.UnchangedExactlyWhen | pkg/controllers/autoprovision/auto_provision_controller.go:312-376 | field by field, when an object counts as up to date |
| ScaledObjects.ReconciledIsFixpoint | pkg/controllers/autoprovision/auto_provision_controller.go:270-310 | reconciling reaches the desired projection, keeps the scale target and every other unmanaged field, and a second pass finds nothing |
| ScaledObjects.SelectPolicyDriftIsInvisible | pkg/controllers/autoprovision/auto_provision_controller.go:348-369 | a drifted select policy is neither noticed nor repaired |
| Reconciler.Controller.ListManagedScaledObjects | pkg/controllers/autoprovision/auto_provision_controller.go:202-221 | lists exactly the objects whose controller reference has this InferenceSet's UID and kind, each once |
| Reconciler.Controller.ReconcileTo | pkg/controllers/autoprovision/auto_provision_controller.go:270-310 | a successful call writes exactly when a managed field differs, and converges; a failed one never loses ground |
| Reconciler.Controller.SyncDesired | pkg/controllers/autoprovision/auto_provision_controller.go:247-268 | creates, deduplicates or updates; objects with no controller, another UID or another kind are left as they were; every effective write is progress even when the call fails part-way; success is convergence; the survivor is the oldest and keeps everything but its managed fields; a converged store is not written to |
| Reconciler.Controller.DeleteSurplus | pkg/controllers/autoprovision/auto_provision_controller.go:255-266 | deletes all but the first listed object, stopping at the first error, and never the last one |
| Reconciler.SortPutsOldestFirst | pkg/controllers/autoprovision/auto_provision_controller.go:255-260 | the stable sort puts the first listed of the oldest objects in front, so that is the survivor |
| Reconciler.Controller.Attempt | pkg/controllers/autoprovision/auto_provision_controller.go:130-155 | one list-then-sync attempt is progress; on a healthy API it succeeds exactly when something is already managed or no foreign object has the name |
| Reconciler.Controller.CleanupManagedScaledObjects | pkg/controllers/autoprovision/auto_provision_controller.go:227-245 | tear-down removes managed objects only, and success leaves none that is not already being deleted |
| Reconciler.MeasureZero | pkg/controllers/autoprovision/auto_provision_controller.go:247-310 | nothing is left to do exactly when one managed object carries the desired fields |
| Reconciler.ConvergedExactlyWhen | pkg/controllers/autoprovision/auto_provision_controller.go:247-310 | convergence, over the fields: one object has this UID and kind as controller, no other one has, and it counts as up to date |
| Reconciler.ProgressLeavesOthers | pkg/controllers/autoprovision/auto_provision_controller.go:247-310 | progress leaves every object with no controller, another UID or another kind as it was, and does not take the last own one |
| Reconciler.RunsConverge | pkg/controllers/autoprovision/auto_provision_controller.go:247-310 | over any run of attempts, however the API's health changes, foreign objects are untouched, the last managed object is never lost, and every write lowers the remaining work |
| Reconciler.RunWritesBounded | pkg/controllers/autoprovision/auto_provision_controller.go:247-310 | no run makes more writes than there was work, at most one per object owned at the start (or one to create it), and one that makes as many has converged |
| Reconciler.ConvergedStays | pkg/controllers/autoprovision/auto_provision_controller.go:247-310 | once converged, no later attempt changes anything |
| Reconciler.OneHealthyAttemptConverges | pkg/controllers/autoprovision/auto_provision_controller.go:247-310 | a run with one attempt on a healthy API has converged, whatever failed before and after, unless nothing was managed at the start and the name was taken |
| Reconciler.Controller.AttemptRepeatedly | pkg/controllers/autoprovision/auto_provision_controller.go:83-155 | repeated attempts under changing API health are such a run: its writes, its progress and its convergence are those of the calls made |
| Reconcile.ResolveMinReplicas | pkg/controllers/autoprovision/auto_provision_controller.go:428-441 | the minimum is always a non-negative int32 |
| Reconcile.ScaleToZeroExactlyWhen | pkg/controllers/autoprovision/auto_provision_controller.go:428-441 | scale-to-zero is requested exactly by an annotation that reads as 0 |
| Reconcile.AnnotationsRead | pkg/controllers/autoprovision/auto_provision_controller.go:428-484 | what the provisioning, policy and replica annotations mean, key by key |
| Reconcile.MaxReplicasRead | pkg/controllers/autoprovision/auto_provision_controller.go:157-198 | the maximum without a node-count limit, and exactly when it is undecided with one |
| Reconcile.FirstNonZeroIsFirst | pkg/controllers/autoprovision/auto_provision_controller.go:174-184 | the node count is that of the first workspace that has one |
| Reconcile.ResolveMaxReplicas | pkg/controllers/autoprovision/auto_provision_controller.go:157-198 | the scan takes the first workspace with a node count; a resolved maximum is a positive int32 |
| Reconcile.NodeLimitOverridesAnnotation | pkg/controllers/autoprovision/auto_provision_controller.go:157-198 | with a node-count limit no annotation has a part in the maximum |
| Reconcile.NodeLimitBeatsSmallerAnnotation | pkg/controllers/autoprovision/auto_provision_controller.go:157-198 | with max-replicas "3" and eight nodes at one node each, the maximum is 8 |
| Reconcile.AnnotationBoundsExactlyWhen | pkg/controllers/autoprovision/auto_provision_controller.go:157-198 | the maximum is at most an annotation reading v exactly when there is no node-count limit, v is at the field's maximum, or v + 1 replicas need more nodes than the limit; without a limit the maximum is v, clamped |
| Reconcile.NodeLimitIsTight | pkg/controllers/autoprovision/auto_provision_controller.go:185-198 | the maximum is the most replicas whose nodes fit the limit |
| Reconcile.AnnotationRangeIsProper | pkg/controllers/autoprovision/auto_provision_controller.go:453-478 | without a limit, a validated range stays ordered after both bounds are clamped to int32 |
| Reconcile.MakePlan | pkg/controllers/autoprovision/auto_provision_controller.go:83-128 | a sync is planned exactly when auto-provisioning is requested, the range, policy, metric list and settings are accepted, and the maximum is known and not below the minimum; retry, requeue and tear-down likewise have their exact conditions |
| Reconcile.BuildScaledObject | pkg/scaledobject/provisioner.go:888-926 | the created object has the InferenceSet's name, is controlled by it, scales it and is marked as managed |
| Reconcile.ReconcileOnce | pkg/controllers/autoprovision/auto_provision_controller.go:83-155 | one pass does what is planned, never touches foreign objects, never loses the last managed object while requested, converges on success and writes nothing when converged; on a healthy API it fails exactly when workspaces cannot be listed, or nothing is managed and a foreign object has the name |

## Left out

- HTTP scraping, Prometheus text parsing, URL building and the listing of pods and workspaces: a scrape is an arbitrary snapshot or a failure.
- YAML decoding, `strconv` float parsing and printing, `resource.Quantity`, `time.ParseDuration`: decoded metric specs, exact decimals and parser functions are inputs.
- The gRPC server, `IsActive`, `GetMetricSpec`, `StreamIsActive`, health, TLS and certificate rotation, manager wiring, options: plumbing.
- Events, logs, error texts, watch predicates, rate limiting and requeue delays.
- Floating-point rounding, NaN and infinities in readings; `uint64` wrap in histogram counts; `int64` wrap of durations inside the cache (the wrap in metadata parsing is modelled).
- KEDA and the HPA beyond the contract the comments state: ceil of the ratio, a deadband, pods per period, active strictly above the activation target. The reserved words, and the int64 range of literals without a point, are those of the expr-lang language, and the range of a policy's period is that of the autoscaling/v2 API; neither is part of this model.
- The combine policy registry holds only AND, so other policies are rejected and the policy is not a parameter of the formula.
- Informer staleness and edits to ScaledObjects by others between list and write: each attempt lists the true store. Between attempts only the API's health changes. Objects held by a finalizer after deletion are not modelled as lingering.
- The mutex and the goroutines: each method of `MetricCaches.MetricCache` is a sequence of critical sections run without interruption; the interleavings are those of `CacheModel.Run`.
- MetricCaches.MetricCache.Refresh: the lookup, the scrape and the clock read after it are parameters, and the entry is not evicted between lookup and commit (that interleaving is in `CacheModel.Run`).
- CacheModel.SettledIsUndisturbed: needs the entry's stamps in order, which the program guarantees only when commits do not overlap; `CacheModel.PruningIsInvisible` is the exact statement without it.
- WindowedMean.WindowedValueIsTrueMean: counter resets are not modelled beyond the clamp to 0, and observations a service made in between count only if the newest scrape reached it.
- HistogramMerge.SortSorts: the sort is an insertion sort on values, where the program calls the library sort on a slice in place.
- The scrape timeout, which is not part of a cache key, only shapes scrapes.
