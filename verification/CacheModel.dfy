/** The metric cache as a state machine over values: every critical section of
    pkg/scaler/metric_cache.go is one step, so a run is any interleaving of the poller and of
    concurrent requests. Each entry also carries the complete history of its commits. */
module CacheModel {
  import opened Core
  import opened Telemetry
  import opened RollingWindow
  import opened EntryKeys

  /** `history` is everything committed since registration, and `baseWindow` the smallest window
      in force at a commit that dropped samples (the current window while nothing has been
      dropped); neither is stored by the program. */
  datatype Entry = Entry(target: Target, window: int, lastAccess: int, samples: seq<Sample>,
                         history: seq<Sample>, baseWindow: int)

  type Cache = map<string, Entry>

  datatype Step =
    | Register(target: Target, window: int, now: int)
    | Commit(key: string, stamp: int, snap: Snapshot)
    | Evict(key: string)
    | SweepIdle(now: int)
    | Touch(key: string, now: int)

  function Fresh(target: Target, window: int, now: int): Entry {
    Entry(target, window, now, [], [], window)
  }

  predicate NothingDropped(e: Entry) {
    |e.samples| == |e.history|
  }

  function Widen(e: Entry, window: int, now: int): Entry {
    var wider := if window > e.window then window else e.window;
    e.(window := wider, lastAccess := now, baseWindow := if NothingDropped(e) then wider else e.baseWindow)
  }

  function Committed(e: Entry, stamp: int, snap: Snapshot): Entry {
    var s := Sample(stamp, snap);
    e.(samples := Prune(e.samples + [s], stamp - e.window), history := e.history + [s])
  }

  predicate Idle(e: Entry, now: int, ttl: int) {
    now - e.lastAccess > (if e.window > ttl then e.window else ttl)
  }

  function Apply(c: Cache, step: Step, ttl: int): Cache {
    match step
    case Register(target, window, now) =>
      var key := EntryKey(target);
      c[key := if key in c then Widen(c[key], window, now) else Fresh(target, window, now)]
    case Commit(key, stamp, snap) =>
      if key in c then c[key := Committed(c[key], stamp, snap)] else c
    case Evict(key) => c - {key}
    case SweepIdle(now) => map key | key in c && !Idle(c[key], now, ttl) :: c[key]
    case Touch(key, now) =>
      if key in c then c[key := c[key].(lastAccess := now)] else c
  }

  function Run(steps: seq<Step>, ttl: int): Cache {
    if steps == [] then map[]
    else Apply(Run(steps[..|steps| - 1], ttl), steps[|steps| - 1], ttl)
  }

  lemma RunSnoc(past: seq<Step>, step: Step, ttl: int)
    ensures Run(past + [step], ttl) == Apply(Run(past, ttl), step, ttl)
  {
    assert (past + [step])[..|past|] == past;
  }

  // -------------------------------------------------------------- invariant

  /** What every entry satisfies however the steps interleave. The clauses about the dropped
      prefix need stamps committed in order; `Sorted(history)` says so. */
  ghost predicate EntryInv(e: Entry) {
    && e.baseWindow <= e.window && (NothingDropped(e) ==> e.baseWindow == e.window)
    && |e.samples| <= |e.history|
    && e.samples == e.history[|e.history| - |e.samples|..]
    && (e.history != [] ==> e.samples != [])
    && (Sorted(e.history) ==> OldestInv(e))
  }

  /** Whatever was dropped is covered by the oldest retained sample. */
  ghost predicate OldestInv(e: Entry) {
    && (|e.samples| < |e.history| ==>
          e.samples != [] && e.samples[0].at <= Newest(e.samples).at - e.baseWindow)
    && (e.baseWindow > 0 && |e.history| >= 2 ==> |e.samples| >= 2)
  }

  ghost predicate CacheInv(c: Cache) {
    forall key | key in c :: EntryInv(c[key]) && EntryKey(c[key].target) == key
  }

  lemma SortedPrefix(samples: seq<Sample>, s: Sample)
    requires Sorted(samples + [s])
    ensures Sorted(samples)
    ensures samples != [] ==> Newest(samples).at <= s.at
  {
    var all := samples + [s];
    assert forall i | 0 <= i < |samples| :: all[i] == samples[i];
    assert all[|samples|] == s;
  }

  lemma SuffixExtends(xs: seq<Sample>, ys: seq<Sample>, k: nat, s: Sample)
    requires k <= |ys| && xs == ys[k..]
    ensures xs + [s] == (ys + [s])[k..]
  {
  }

  lemma SuffixOfSuffix(xs: seq<Sample>, j: nat, ys: seq<Sample>, k: nat, zs: seq<Sample>)
    requires j <= |ys| && xs == ys[j..] && k <= |zs| && ys == zs[k..]
    ensures |xs| == |zs| - (j + k) && xs == zs[j + k..]
  {
  }

  lemma PrunedSuffix(samples: seq<Sample>, cutoff: int, k: nat, history: seq<Sample>)
    requires k <= |history| && samples == history[k..] && samples != []
    ensures var kept := Prune(samples, cutoff);
            && 1 <= |kept| <= |history| && kept == history[|history| - |kept|..]
            && Newest(kept) == Newest(samples)
  {
    PruneKeepsBaseline(samples, cutoff);
    var kept := Prune(samples, cutoff);
    SuffixOfSuffix(kept, |samples| - |kept|, samples, k, history);
  }

  /** The clauses of `EntryInv` that do not mention the order of stamps. */
  lemma CommitKeepsSuffix(e: Entry, stamp: int, snap: Snapshot)
    requires |e.samples| <= |e.history| && e.samples == e.history[|e.history| - |e.samples|..]
    ensures var e' := Committed(e, stamp, snap);
            && 1 <= |e'.samples| <= |e'.history|
            && e'.samples == e'.history[|e'.history| - |e'.samples|..]
            && Newest(e'.samples) == Sample(stamp, snap)
  {
    var k := |e.history| - |e.samples|;
    var appended := e.samples + [Sample(stamp, snap)];
    SuffixExtends(e.samples, e.history, k, Sample(stamp, snap));
    PrunedSuffix(appended, stamp - e.window, k, e.history + [Sample(stamp, snap)]);
  }

  lemma OldestSurvivor(samples: seq<Sample>, s: Sample, cutoff: int)
    ensures var kept := Prune(samples + [s], cutoff);
            && 1 <= |kept| <= |samples| + 1
            && (|kept| <= |samples| ==> kept[0].at <= cutoff)
            && (|kept| == |samples| + 1 && samples != [] ==> kept[0] == samples[0])
            && (samples != [] && cutoff < s.at ==> |kept| >= 2)
  {
    PruneKeepsBaseline(samples + [s], cutoff);
  }

  /** The oldest survivor after an in-order commit. */
  lemma CommitKeepsOldest(e: Entry, stamp: int, snap: Snapshot)
    requires EntryInv(e) && Sorted(e.history + [Sample(stamp, snap)])
    ensures OldestInv(Committed(e, stamp, snap))
  {
    SortedPrefix(e.history, Sample(stamp, snap));
    assert e.samples != [] ==> Newest(e.samples) == Newest(e.history);
    OldestSurvivor(e.samples, Sample(stamp, snap), stamp - e.window);
    CommitKeepsSuffix(e, stamp, snap);
  }

  lemma CommitCounts(e: Entry, stamp: int, snap: Snapshot)
    requires |e.samples| <= |e.history|
    ensures var e' := Committed(e, stamp, snap);
            && (NothingDropped(e') ==> NothingDropped(e))
            && e'.baseWindow == e.baseWindow && e'.window == e.window
  {
    OldestSurvivor(e.samples, Sample(stamp, snap), stamp - e.window);
  }

  lemma CommitKeepsInv(e: Entry, stamp: int, snap: Snapshot)
    requires EntryInv(e)
    ensures EntryInv(Committed(e, stamp, snap))
  {
    CommitKeepsSuffix(e, stamp, snap);
    CommitCounts(e, stamp, snap);
    assert Committed(e, stamp, snap).history == e.history + [Sample(stamp, snap)];
    if Sorted(e.history + [Sample(stamp, snap)]) {
      CommitKeepsOldest(e, stamp, snap);
    }
  }

  lemma WidenKeepsInv(e: Entry, window: int, now: int)
    requires EntryInv(e)
    ensures EntryInv(Widen(e, window, now))
  {
  }

  lemma TouchKeepsInv(e: Entry, now: int)
    requires EntryInv(e)
    ensures EntryInv(e.(lastAccess := now))
  {
  }

  /** What a step does to the entry of one key. */
  lemma StepOnEntry(c: Cache, step: Step, ttl: int, key: string)
    requires key in Apply(c, step, ttl)
    ensures var e := Apply(c, step, ttl)[key];
            match step
            case Register(target, window, now) =>
              if EntryKey(target) == key then
                e == if key in c then Widen(c[key], window, now) else Fresh(target, window, now)
              else key in c && e == c[key]
            case Commit(k, stamp, snap) =>
              key in c && e == if k == key then Committed(c[key], stamp, snap) else c[key]
            case Touch(k, now) =>
              key in c && e == if k == key then c[key].(lastAccess := now) else c[key]
            case _ => key in c && e == c[key]
  {
  }

  lemma FreshInv(target: Target, window: int, now: int)
    ensures EntryInv(Fresh(target, window, now))
  {
  }

  lemma StepKeepsInv(c: Cache, step: Step, ttl: int, key: string)
    requires key in Apply(c, step, ttl)
    requires key in c ==> EntryInv(c[key]) && EntryKey(c[key].target) == key
    ensures var e := Apply(c, step, ttl)[key]; EntryInv(e) && EntryKey(e.target) == key
  {
    StepOnEntry(c, step, ttl, key);
    match step
    case Register(target, window, now) =>
      if key in c { WidenKeepsInv(c[key], window, now); }
      FreshInv(target, window, now);
    case Commit(k, stamp, snap) => CommitKeepsInv(c[key], stamp, snap);
    case Touch(k, now) => TouchKeepsInv(c[key], now);
    case _ =>
  }

  lemma ApplyKeepsInv(c: Cache, step: Step, ttl: int)
    requires CacheInv(c)
    ensures CacheInv(Apply(c, step, ttl))
  {
    forall key | key in Apply(c, step, ttl)
      ensures var e := Apply(c, step, ttl)[key]; EntryInv(e) && EntryKey(e.target) == key
    {
      StepKeepsInv(c, step, ttl, key);
    }
  }

  /** Every reachable cache satisfies the invariant, for every interleaving. */
  lemma {:induction false} RunInv(steps: seq<Step>, ttl: int)
    ensures CacheInv(Run(steps, ttl))
  {
    if steps != [] {
      RunInv(steps[..|steps| - 1], ttl);
      ApplyKeepsInv(Run(steps[..|steps| - 1], ttl), steps[|steps| - 1], ttl);
    }
  }

  // -------------------------------------------------------------- theorems

  /** How many of its samples an entry has dropped. */
  function Dropped(e: Entry): int {
    |e.history| - |e.samples|
  }

  /** Exactly when pruning can be noticed. After any run, with stamps in any order, an entry holds
      its history without the first samples; and whatever those scrapes contained, a query of this
      window answers from what is left as it would from the complete history, exactly when the
      stamps satisfy `Undisturbed`. */
  lemma PruningIsInvisible(steps: seq<Step>, ttl: int, key: string, now: int, staleAfter: int, window: int)
    requires key in Run(steps, ttl)
    ensures var e := Run(steps, ttl)[key];
            var k := Dropped(e);
            && (k == 0 || 0 < k < |e.history|)
            && e.samples == e.history[k..]
            && (NeverNoticed(e.history, k, now, staleAfter, window)
                <==> Undisturbed(e.history, k, now, staleAfter, window))
  {
    RunInv(steps, ttl);
    var e := Run(steps, ttl)[key];
    PrunedAnswerEqualsFullAnswer(e.history, Dropped(e), now, staleAfter, window);
  }

  // ---------------------------------------------------- the windows in force

  /** The step commits to the entry and drops at least one of its samples. */
  predicate Drops(c: Cache, step: Step, key: string) {
    && step.Commit? && step.key == key && key in c
    && |Committed(c[key], step.stamp, step.snap).samples| <= |c[key].samples|
  }

  /** The windows in force at the commits that dropped samples, over the entry's present life. */
  ghost function DropWindows(steps: seq<Step>, ttl: int, key: string): set<int> {
    if steps == [] || key !in Run(steps, ttl) then {}
    else
      var prev, step := steps[..|steps| - 1], steps[|steps| - 1];
      var c := Run(prev, ttl);
      DropWindows(prev, ttl, key) + if Drops(c, step, key) then {c[key].window} else {}
  }

  /** Each of them is the window some step of the run found in force. */
  lemma {:induction false} DropWindowsComeFromDrops(steps: seq<Step>, ttl: int, key: string, w: int)
    requires w in DropWindows(steps, ttl, key)
    ensures exists i | 0 <= i < |steps| ::
              Drops(Run(steps[..i], ttl), steps[i], key) && Run(steps[..i], ttl)[key].window == w
  {
    var n := |steps| - 1;
    var prev := steps[..n];
    if w in DropWindows(prev, ttl, key) {
      DropWindowsComeFromDrops(prev, ttl, key, w);
      var i :| 0 <= i < n && Drops(Run(prev[..i], ttl), prev[i], key) && Run(prev[..i], ttl)[key].window == w;
      assert prev[..i] == steps[..i] && prev[i] == steps[i];
    } else {
      assert Drops(Run(steps[..n], ttl), steps[n], key);
    }
  }

  /** `baseWindow` is the least of them, and nothing was dropped exactly when there are none. */
  ghost predicate LeastWindow(e: Entry, windows: set<int>) {
    && (NothingDropped(e) <==> windows == {})
    && (!NothingDropped(e) ==> e.baseWindow in windows)
    && forall w | w in windows :: e.baseWindow <= w
  }

  lemma CommitLeast(e: Entry, stamp: int, snap: Snapshot, windows: set<int>)
    requires |e.samples| <= |e.history| && e.baseWindow <= e.window
    requires NothingDropped(e) ==> e.baseWindow == e.window
    requires LeastWindow(e, windows)
    ensures var e' := Committed(e, stamp, snap);
            LeastWindow(e', windows + if |e'.samples| <= |e.samples| then {e.window} else {})
  {
    OldestSurvivor(e.samples, Sample(stamp, snap), stamp - e.window);
    var e' := Committed(e, stamp, snap);
    assert |e'.history| == |e.history| + 1 && e'.baseWindow == e.baseWindow;
    if |e'.samples| > |e.samples| {
      assert NothingDropped(e') <==> NothingDropped(e);
      assert windows + {} == windows;
    } else {
      assert e.window in windows + {e.window};
    }
  }

  lemma WidenLeast(e: Entry, window: int, now: int, windows: set<int>)
    requires EntryInv(e) && LeastWindow(e, windows)
    ensures LeastWindow(Widen(e, window, now), windows)
  {
  }

  lemma StepLeast(c: Cache, step: Step, ttl: int, key: string, windows: set<int>)
    requires key in c && key in Apply(c, step, ttl) && EntryInv(c[key]) && LeastWindow(c[key], windows)
    ensures LeastWindow(Apply(c, step, ttl)[key], windows + if Drops(c, step, key) then {c[key].window} else {})
  {
    StepOnEntry(c, step, ttl, key);
    assert windows + {} == windows;
    match step
    case Register(target, window, now) => WidenLeast(c[key], window, now, windows);
    case Commit(k, stamp, snap) => CommitLeast(c[key], stamp, snap, windows);
    case _ =>
  }

  lemma {:induction false} BaseWindowIsLeast(steps: seq<Step>, ttl: int, key: string)
    requires key in Run(steps, ttl)
    ensures LeastWindow(Run(steps, ttl)[key], DropWindows(steps, ttl, key))
  {
    var prev, step := steps[..|steps| - 1], steps[|steps| - 1];
    var c := Run(prev, ttl);
    if key in c {
      RunInv(prev, ttl);
      BaseWindowIsLeast(prev, ttl, key);
      StepLeast(c, step, ttl, key, DropWindows(prev, ttl, key));
    } else {
      StepOnEntry(c, step, ttl, key);
    }
  }

  /** A query of this window is settled: samples were only ever dropped while a window at least
      that wide was in force, or the oldest retained sample lies at or before the window start. */
  ghost predicate Settles(steps: seq<Step>, ttl: int, key: string, window: int)
    requires key in Run(steps, ttl)
  {
    var e := Run(steps, ttl)[key];
    || (forall w | w in DropWindows(steps, ttl, key) :: window <= w)
    || (e.samples != [] && e.samples[0].at <= Newest(e.samples).at - window)
  }

  lemma DroppedSplit(e: Entry)
    requires |e.samples| <= |e.history| && e.samples == e.history[|e.history| - |e.samples|..]
    requires e.history != [] ==> e.samples != []
    ensures var k := Dropped(e);
            && (k == 0 || 0 < k < |e.history|)
            && (k > 0 ==> e.samples[0] == e.history[k] && Newest(e.samples) == Newest(e.history))
  {
  }

  lemma EntryHolds(steps: seq<Step>, ttl: int, key: string)
    requires key in Run(steps, ttl)
    ensures EntryInv(Run(steps, ttl)[key])
  {
    RunInv(steps, ttl);
  }

  lemma SettledBase(steps: seq<Step>, ttl: int, key: string, window: int)
    requires key in Run(steps, ttl) && Settles(steps, ttl, key, window)
    ensures var e := Run(steps, ttl)[key];
            || NothingDropped(e) || window <= e.baseWindow
            || (e.samples != [] && e.samples[0].at <= Newest(e.samples).at - window)
  {
    BaseWindowIsLeast(steps, ttl, key);
  }

  /** What is left of a settled entry reaches the window start. */
  lemma SettledReaches(steps: seq<Step>, ttl: int, key: string, window: int)
    requires key in Run(steps, ttl) && Sorted(Run(steps, ttl)[key].history)
    requires Settles(steps, ttl, key, window)
    ensures var e := Run(steps, ttl)[key];
            var k := Dropped(e);
            && (k == 0 || 0 < k < |e.history|)
            && (k > 0 ==> e.history[k].at <= Newest(e.history).at - window)
  {
    EntryHolds(steps, ttl, key);
    SettledBase(steps, ttl, key, window);
    DroppedSplit(Run(steps, ttl)[key]);
  }

  /** In particular it goes unnoticed when the commits landed in order and the query is settled. */
  lemma SettledIsUndisturbed(steps: seq<Step>, ttl: int, key: string, now: int, staleAfter: int, window: int)
    requires key in Run(steps, ttl) && Sorted(Run(steps, ttl)[key].history)
    requires window > 0 && Settles(steps, ttl, key, window)
    ensures var e := Run(steps, ttl)[key];
            && (Dropped(e) == 0 || 0 < Dropped(e) < |e.history|)
            && Undisturbed(e.history, Dropped(e), now, staleAfter, window)
  {
    var e := Run(steps, ttl)[key];
    SettledReaches(steps, ttl, key, window);
    ReachingIsUndisturbed(e.history, Dropped(e), now, staleAfter, window);
  }

  /** So a query no wider than every window its samples were pruned to answers as the complete
      history would. */
  lemma SettledQueryAnswersFully(steps: seq<Step>, ttl: int, key: string, now: int, staleAfter: int,
                                 window: int, metric: string)
    requires key in Run(steps, ttl) && Sorted(Run(steps, ttl)[key].history)
    requires window > 0 && Settles(steps, ttl, key, window)
    ensures var e := Run(steps, ttl)[key];
            Answer(e.samples, now, staleAfter, window, metric) == Answer(e.history, now, staleAfter, window, metric)
  {
    var e := Run(steps, ttl)[key];
    PruningIsInvisible(steps, ttl, key, now, staleAfter, window);
    SettledIsUndisturbed(steps, ttl, key, now, staleAfter, window);
    UndisturbedAnswer(e.history, Dropped(e), now, staleAfter, window, metric);
  }

  /** Once warmed up, with scrapes landing at most `staleAfter` apart, a windowed query is
      always answered however often the entry was pruned. */
  lemma SteadyEntryAlwaysAnswers(steps: seq<Step>, ttl: int, key: string, now: int, staleAfter: int,
                                 window: int, metric: string)
    requires key in Run(steps, ttl)
    requires Settles(steps, ttl, key, window)
    requires Steady(Run(steps, ttl)[key].history, now, staleAfter, window)
    ensures var samples := Run(steps, ttl)[key].samples;
            && Answer(samples, now, staleAfter, window, metric).Success?
            && samples != []
            && Baseline(samples, window, window + staleAfter).at <= Newest(samples).at - window
  {
    var e := Run(steps, ttl)[key];
    PruningIsInvisible(steps, ttl, key, now, staleAfter, window);
    SettledIsUndisturbed(steps, ttl, key, now, staleAfter, window);
    SteadySuffixAnswers(e.history, Dropped(e), now, staleAfter, window, metric);
  }

  /** While an entry lives its window only grows, and so does `baseWindow`, which is fixed
      by the first drop; its history only extends. */
  lemma WindowOnlyGrows(c: Cache, step: Step, ttl: int, key: string)
    requires key in c && key in Apply(c, step, ttl) && EntryInv(c[key])
    ensures var (e, e') := (c[key], Apply(c, step, ttl)[key]);
            && e.window <= e'.window
            && e.baseWindow <= e'.baseWindow
            && (!NothingDropped(e) ==> e'.baseWindow == e.baseWindow)
            && e.target == e'.target
            && e.history <= e'.history
  {
  }

  /** What registering does: an unknown key gets an entry for the target and window, accessed now and
      without samples; a known one keeps its target and samples, has its window widened if asked
      and counts as accessed now; and nothing else changes. */
  lemma RegisteredEntry(c: Cache, target: Target, window: int, now: int, ttl: int)
    ensures var (key, c') := (EntryKey(target), Apply(c, Register(target, window, now), ttl));
            && key in c' && c'[key].lastAccess == now
            && (key !in c ==> c'[key].target == target && c'[key].window == window
                              && c'[key].samples == [] && c'[key].history == [])
            && (key in c ==> && c'[key].target == c[key].target && c'[key].samples == c[key].samples
                             && c'[key].history == c[key].history
                             && c'[key].window == (if window > c[key].window then window else c[key].window))
            && c' - {key} == c - {key}
  {
    var key := EntryKey(target);
    assert Apply(c, Register(target, window, now), ttl) - {key} == c - {key};
  }

  /** A windowed query only renews the access time of its own entry. */
  lemma TouchedEntry(c: Cache, key: string, now: int, ttl: int)
    ensures key !in c ==> Apply(c, Touch(key, now), ttl) == c
    ensures key in c ==>
              var c' := Apply(c, Touch(key, now), ttl);
              && key in c' && c'[key].lastAccess == now
              && c'[key].target == c[key].target && c'[key].window == c[key].window
              && c'[key].samples == c[key].samples && c'[key].history == c[key].history
              && c' - {key} == c - {key}
  {
    assert Apply(c, Touch(key, now), ttl) - {key} == c - {key};
  }

  /** So an entry requested at `now` survives a sweep at t exactly when that is no more than the ttl,
      or no more than its window, later. */
  lemma RequestedEntrySurvives(c: Cache, target: Target, window: int, now: int, t: int, ttl: int)
    ensures var key := EntryKey(target);
            var requested := Apply(c, Register(target, window, now), ttl);
            && key in requested
            && (key in Apply(requested, SweepIdle(t), ttl) <==>
                  t - now <= ttl || t - now <= (if key in c && c[key].window > window then c[key].window else window))
  {
    RegisteredEntry(c, target, window, now, ttl);
    SweepRemovesExactlyIdle(Apply(c, Register(target, window, now), ttl), t, ttl, EntryKey(target));
  }

  /** A sweep removes exactly the entries not accessed for longer than max(ttl, window). */
  lemma SweepRemovesExactlyIdle(c: Cache, now: int, ttl: int, key: string)
    requires key in c
    ensures key !in Apply(c, SweepIdle(now), ttl)
            <==> now - c[key].lastAccess > ttl && now - c[key].lastAccess > c[key].window
    ensures key in Apply(c, SweepIdle(now), ttl) ==> Apply(c, SweepIdle(now), ttl)[key] == c[key]
  {
  }

  lemma SuffixOrder(history: seq<Sample>, k: nat, gap: int)
    requires k <= |history| && Sorted(history) && GapsAtLeast(history, gap)
    ensures Sorted(history[k..]) && GapsAtLeast(history[k..], gap)
  {
  }

  lemma AppendedOrder(e: Entry, s: Sample, gap: int)
    requires |e.samples| <= |e.history| && e.samples == e.history[|e.history| - |e.samples|..]
    requires Sorted(e.history + [s]) && GapsAtLeast(e.history + [s], gap)
    ensures Sorted(e.samples + [s]) && GapsAtLeast(e.samples + [s], gap)
  {
    var k := |e.history| - |e.samples|;
    SuffixExtends(e.samples, e.history, k, s);
    SuffixOrder(e.history + [s], k, gap);
  }

  /** Just after any in-order commit every retained sample but the oldest is inside the
      window, and samples at least `gap` apart number at most ceil(window / gap) + 1. */
  lemma CommitRetention(e: Entry, stamp: int, snap: Snapshot, gap: int)
    requires EntryInv(e) && e.window > 0
    requires Sorted(e.history + [Sample(stamp, snap)])
    requires gap > 0 && GapsAtLeast(e.history + [Sample(stamp, snap)], gap)
    ensures var kept := Committed(e, stamp, snap).samples;
            && (forall i | 0 < i < |kept| :: stamp - e.window < kept[i].at <= stamp)
            && |kept| <= CeilDivide(e.window, gap) + 1
  {
    AppendedOrder(e, Sample(stamp, snap), gap);
    AppendedRetention(e.samples, Sample(stamp, snap), e.window, gap);
  }

  lemma AppendedRetention(samples: seq<Sample>, s: Sample, window: int, gap: int)
    requires window > 0 && gap > 0
    requires Sorted(samples + [s]) && GapsAtLeast(samples + [s], gap)
    ensures var kept := Prune(samples + [s], s.at - window);
            && (forall i | 0 < i < |kept| :: s.at - window < kept[i].at <= s.at)
            && |kept| <= CeilDivide(window, gap) + 1
  {
    SurvivorsInsideWindow(samples + [s], window);
    RetentionBound(samples + [s], window, gap);
  }

  // ------------------------------------------------- stamps and interleaving

  /** Commits happen in the order of their stamps, as they do when reading the clock and
      appending are one critical section. */
  ghost predicate CommitsInOrder(steps: seq<Step>) {
    forall i, j | 0 <= i < j < |steps| && steps[i].Commit? && steps[j].Commit? ::
      steps[i].stamp <= steps[j].stamp
  }

  lemma HistoryExtends(c: Cache, step: Step, ttl: int, key: string)
    requires key in c && key in Apply(c, step, ttl)
    ensures c[key].history <= Apply(c, step, ttl)[key].history
  {
  }

  lemma {:induction false} HistoryStampsComeFromCommits(steps: seq<Step>, ttl: int, key: string, i: nat)
    requires key in Run(steps, ttl) && i < |Run(steps, ttl)[key].history|
    ensures exists j | 0 <= j < |steps| ::
              steps[j].Commit? && steps[j].stamp == Run(steps, ttl)[key].history[i].at
  {
    var prev, step := steps[..|steps| - 1], steps[|steps| - 1];
    var c := Run(prev, ttl);
    if key in c && i < |c[key].history| {
      HistoryExtends(c, step, ttl, key);
      HistoryStampsComeFromCommits(prev, ttl, key, i);
      var j :| 0 <= j < |prev| && prev[j].Commit? && prev[j].stamp == c[key].history[i].at;
      assert steps[j] == prev[j];
    } else {
      assert steps[|steps| - 1].Commit?;
    }
  }

  /** With commits in order every entry's history is sorted, so the theorems above apply. */
  lemma {:induction false} InOrderRunsAreSorted(steps: seq<Step>, ttl: int, key: string)
    requires CommitsInOrder(steps) && key in Run(steps, ttl)
    ensures Sorted(Run(steps, ttl)[key].history)
  {
    var prev, step := steps[..|steps| - 1], steps[|steps| - 1];
    var c := Run(prev, ttl);
    assert forall i | 0 <= i < |prev| :: steps[i] == prev[i];
    if key in c {
      InOrderRunsAreSorted(prev, ttl, key);
      if step.Commit? && step.key == key {
        forall i | 0 <= i < |c[key].history| ensures c[key].history[i].at <= step.stamp {
          HistoryStampsComeFromCommits(prev, ttl, key, i);
        }
      }
    }
  }

  // ------------------------------------------------------ the limit of the claim

  lemma PruneTo(a: Sample, b: Sample, c: Sample, cutoff: int)
    requires b.at <= cutoff < c.at
    ensures Prune([a, b] + [c], cutoff) == [b, c]
  {
    assert ([a, b] + [c])[1..] == [b, c];
    assert Prune([b, c], cutoff) == [b, c];
  }

  lemma ThreeNarrowCommits(snap: Snapshot, target: Target, key: string)
    requires key == EntryKey(target)
    ensures var (a, b, c) := (Sample(0, snap), Sample(200, snap), Sample(270, snap));
            var s := Apply(Apply(Apply(map[], Register(target, 60, 0), 1200), Commit(key, 0, snap), 1200),
                           Commit(key, 200, snap), 1200);
            key in s && s[key] == Entry(target, 60, 0, [a, b], [a, b], 60)
            && Apply(s, Commit(key, 270, snap), 1200)[key] == Entry(target, 60, 0, [b, c], [a, b, c], 60)
  {
    var (a, b, c) := (Sample(0, snap), Sample(200, snap), Sample(270, snap));
    var d1 := Apply(map[], Register(target, 60, 0), 1200);
    assert d1[key] == Fresh(target, 60, 0);
    var d2 := Apply(d1, Commit(key, 0, snap), 1200);
    assert d2[key] == Entry(target, 60, 0, [a], [a], 60);
    var d3 := Apply(d2, Commit(key, 200, snap), 1200);
    assert d3[key] == Entry(target, 60, 0, [a, b], [a, b], 60);
    PruneTo(a, b, c, 210);
    assert [a, b] + [c] == [a, b, c];
  }

  lemma ThenWider(s: Cache, snap: Snapshot, target: Target, key: string)
    requires key == EntryKey(target) && key in s
    requires var (a, b, c) := (Sample(0, snap), Sample(200, snap), Sample(270, snap));
             s[key] == Entry(target, 60, 0, [b, c], [a, b, c], 60)
    ensures var (a, b, c, d) := (Sample(0, snap), Sample(200, snap), Sample(270, snap), Sample(300, snap));
            var t := Apply(Apply(s, Register(target, 300, 270), 1200), Commit(key, 300, snap), 1200);
            key in t && t[key] == Entry(target, 300, 270, [b, c, d], [a, b, c, d], 60)
  {
    var (a, b, c, d) := (Sample(0, snap), Sample(200, snap), Sample(270, snap), Sample(300, snap));
    assert Apply(s, Register(target, 300, 270), 1200)[key] == Entry(target, 300, 270, [b, c], [a, b, c], 60);
    assert [b, c] + [d] == [b, c, d] && [a, b, c] + [d] == [a, b, c, d];
  }

  /** The condition on the query window is needed. An entry registered for a 60 s window is pruned
      to it; when a 300 s trigger then joins the same target the older samples are gone, and
      the query warms up although the full history would answer it. */
  lemma WiderQueryMayWarmUpAgain(snap: Snapshot, target: Target)
    ensures var key := EntryKey(target);
            var steps := [Register(target, 60, 0), Commit(key, 0, snap), Commit(key, 200, snap)]
                         + [Commit(key, 270, snap), Register(target, 300, 270), Commit(key, 300, snap)];
            && key in Run(steps, 1200)
            && var e := Run(steps, 1200)[key];
            && Answer(e.samples, 300, 45, 300, "m") == Failure(WarmingUp)
            && Answer(e.history, 300, 45, 300, "m").Success?
  {
    var key := EntryKey(target);
    var start := [Register(target, 60, 0), Commit(key, 0, snap), Commit(key, 200, snap)];
    RunOfThree(start[0], start[1], start[2], 1200);
    RunOnThree(start, Commit(key, 270, snap), Register(target, 300, 270), Commit(key, 300, snap), 1200);
    ThreeNarrowCommits(snap, target, key);
    ThenWider(Apply(Run(start, 1200), Commit(key, 270, snap), 1200), snap, target, key);
    var (a, b, c, d) := (Sample(0, snap), Sample(200, snap), Sample(270, snap), Sample(300, snap));
    assert [a, b, c, d][1..] == [b, c, d];
  }

  lemma RunOnThree(past: seq<Step>, s: Step, t: Step, u: Step, ttl: int)
    ensures Run(past + [s, t, u], ttl) == Apply(Apply(Apply(Run(past, ttl), s, ttl), t, ttl), u, ttl)
  {
    RunSnoc(past, s, ttl);
    RunSnoc(past + [s], t, ttl);
    RunSnoc(past + [s] + [t], u, ttl);
    SplitThree(past, s, t, u);
  }

  lemma SplitThree(past: seq<Step>, s: Step, t: Step, u: Step)
    ensures past + [s, t, u] == past + [s] + [t] + [u]
  {
  }

  lemma RunOfThree(s: Step, t: Step, u: Step, ttl: int)
    ensures Run([s, t, u], ttl) == Apply(Apply(Apply(map[], s, ttl), t, ttl), u, ttl)
  {
    RunOnThree([], s, t, u, ttl);
    assert [] + [s, t, u] == [s, t, u];
  }

  /** Committing in order is needed too. The program reads the clock before it takes the lock, so
      two concurrent refreshes may append out of order; here a commit stamped 40 lands after one
      stamped 100, and the pruned samples answer where the full history would hold. */
  lemma OutOfOrderCommitIsVisible(snap: Snapshot, target: Target)
    ensures var key := EntryKey(target);
            var steps := [Register(target, 60, 0)] + [Commit(key, 100, snap), Commit(key, 40, snap),
                                                      Commit(key, 130, snap)];
            && key in Run(steps, 1200)
            && var e := Run(steps, 1200)[key];
            && Answer(e.samples, 130, 45, 60, "m").Success?
            && Answer(e.history, 130, 45, 60, "m") == Failure(WarmingUp)
  {
    var key := EntryKey(target);
    var start := [Register(target, 60, 0)];
    var (a, b, c) := (Sample(100, snap), Sample(40, snap), Sample(130, snap));
    assert start[..0] == [];
    assert Run(start, 1200) == map[key := Fresh(target, 60, 0)];
    RunOnThree(start, Commit(key, 100, snap), Commit(key, 40, snap), Commit(key, 130, snap), 1200);
    PruneTo(a, b, c, 70);
    var c1 := Apply(Run(start, 1200), Commit(key, 100, snap), 1200);
    assert c1[key] == Entry(target, 60, 0, [a], [a], 60);
    var c2 := Apply(c1, Commit(key, 40, snap), 1200);
    assert c2[key] == Entry(target, 60, 0, [a, b], [a, b], 60);
    assert Apply(c2, Commit(key, 130, snap), 1200)[key] == Entry(target, 60, 0, [b, c], [a, b] + [c], 60);
    var steps := start + [Commit(key, 100, snap), Commit(key, 40, snap), Commit(key, 130, snap)];
    assert Run(steps, 1200)[key] == Entry(target, 60, 0, [b, c], [a, b, c], 60);
    assert [b, c][1..] == [c] && Leading([c], 70) == 0;
    assert Leading([b, c], 70) == 1;
    assert BaselineIndex([b, c], 60, 105) == 0;
  }
}
