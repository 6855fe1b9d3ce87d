/** The cache object itself (pkg/scaler/metric_cache.go): a map of mutable entries. Each method
    is one critical section, or a sequence of them, and is proved to perform the matching
    step of CacheModel on the abstract view. */
module MetricCaches {
  import opened Core
  import opened Telemetry
  import opened RollingWindow
  import opened EntryKeys
  import opened CacheModel

  const DEFAULT_POLL_INTERVAL := 15_000_000_000
  const DEFAULT_STALE_AFTER := 3 * DEFAULT_POLL_INTERVAL
  const DEFAULT_TTL := 1_200_000_000_000

  /** Outcome of looking the InferenceSet up, of scraping it, and the clock after the scrape. */
  datatype Lookup = Found | NotFound | LookupFailed
  datatype Scrape = Scraped(snap: Snapshot) | ScrapeFailed
  datatype World = World(lookup: Lookup, scrape: Scrape, stamp: int)

  class CacheEntry {
    const target: Target
    var window: int
    var lastAccess: int
    var samples: seq<Sample>
    ghost var history: seq<Sample>
    ghost var baseWindow: int

    constructor (target: Target, window: int, now: int)
      ensures View() == Fresh(target, window, now)
    {
      this.target, this.window, this.lastAccess, this.samples := target, window, now, [];
      this.history, this.baseWindow := [], window;
    }

    ghost function View(): Entry
      reads this
    {
      Entry(target, window, lastAccess, samples, history, baseWindow)
    }

    method Renew(window: int, now: int)
      modifies this
      ensures View() == Widen(old(View()), window, now)
    {
      if window > this.window {
        this.window := window;
      }
      lastAccess := now;
      if |samples| == |history| {
        baseWindow := this.window;
      }
    }

    method Access(now: int)
      modifies this
      ensures View() == old(View()).(lastAccess := now)
    {
      lastAccess := now;
    }

    method Append(stamp: int, snap: Snapshot)
      modifies this
      ensures View() == Committed(old(View()), stamp, snap)
    {
      var kept := PruneSamples(samples + [Sample(stamp, snap)], stamp, window);
      samples := kept;
      history := history + [Sample(stamp, snap)];
    }
  }

  /** One refresh of one entry: evicted (None), left alone, or extended by a snapshot. */
  function RefreshedEntry(e: Entry, w: World, sources: set<string>): Option<Entry> {
    if w.lookup.NotFound? then None
    else if w.lookup.LookupFailed? || e.target.source !in sources || w.scrape.ScrapeFailed? then Some(e)
    else Some(Committed(e, w.stamp, w.scrape.snap))
  }

  function Refreshed(c: Cache, key: string, w: World, sources: set<string>): Cache {
    if key !in c then c
    else match RefreshedEntry(c[key], w, sources)
      case None => c - {key}
      case Some(e) => c[key := e]
  }

  /** The cache after registering a target, seeding it when it is new. */
  function Ensured(c: Cache, target: Target, window: int, now: int, w: World, ttl: int,
                   sources: set<string>): Cache
  {
    var registered := Apply(c, Register(target, window, now), ttl);
    if EntryKey(target) in c then registered
    else Refreshed(registered, EntryKey(target), w, sources)
  }

  /** The cache once every target of `swept` outside `pending` has been refreshed. */
  function Polled(swept: Cache, pending: set<string>, world: string -> World, sources: set<string>)
    : Cache
  {
    map key | key in swept && (key in pending || RefreshedEntry(swept[key], world(key), sources).Some?)
      :: if key in pending then swept[key] else RefreshedEntry(swept[key], world(key), sources).value
  }

  lemma PolledStep(swept: Cache, pending: set<string>, key: string, world: string -> World,
                   sources: set<string>)
    requires key in pending && pending <= swept.Keys
    ensures Refreshed(Polled(swept, pending, world, sources), key, world(key), sources)
            == Polled(swept, pending - {key}, world, sources)
  {
    var c := Polled(swept, pending, world, sources);
    assert c[key] == swept[key];
  }

  /** The newest snapshot of a target if it is fresh enough to serve. */
  function FreshSnapshot(c: Cache, key: string, now: int, staleAfter: int): Option<Snapshot> {
    if key !in c || c[key].samples == [] || now - Newest(c[key].samples).at > staleAfter then None
    else Some(Newest(c[key].samples).snap)
  }

  function WindowedAnswer(c: Cache, target: Target, now: int, staleAfter: int, window: int,
                          metric: string): Result<real, Hold>
  {
    var key := EntryKey(target);
    if key in c then Answer(c[key].samples, now, staleAfter, window, metric)
    else Failure(Unavailable)
  }

  /** A refresh evicts the entry exactly when its InferenceSet is gone, extends its history by the
      stamped snapshot exactly when the scrape got through, and touches no other entry. */
  lemma RefreshOutcomes(c: Cache, key: string, w: World, sources: set<string>)
    requires key in c
    ensures var c' := Refreshed(c, key, w, sources);
            && (key !in c' <==> w.lookup.NotFound?)
            && (key in c' ==>
                  if w.lookup.Found? && c[key].target.source in sources && w.scrape.Scraped? then
                    && c'[key].history == c[key].history + [Sample(w.stamp, w.scrape.snap)]
                    && c'[key].samples != [] && Newest(c'[key].samples) == Sample(w.stamp, w.scrape.snap)
                  else c'[key] == c[key])
            && c' - {key} == c - {key}
  {
    if w.scrape.Scraped? {
      PruneKeepsBaseline(c[key].samples + [Sample(w.stamp, w.scrape.snap)], w.stamp - c[key].window);
    }
    assert Refreshed(c, key, w, sources) - {key} == c - {key};
  }

  /** Seeding: the very first request for a target is answered from its own scrape, for as long as
      that scrape stays fresh. */
  lemma FirstRequestIsServed(c: Cache, target: Target, window: int, now: int, w: World, ttl: int,
                             sources: set<string>, later: int, staleAfter: int)
    requires EntryKey(target) !in c && target.source in sources
    requires w.lookup.Found? && w.scrape.Scraped?
    ensures FreshSnapshot(Ensured(c, target, window, now, w, ttl, sources), EntryKey(target), later, staleAfter)
            == if later - w.stamp <= staleAfter then Some(w.scrape.snap) else None
  {
    var key := EntryKey(target);
    var registered := Apply(c, Step.Register(target, window, now), ttl);
    assert registered[key] == Fresh(target, window, now);
    RefreshOutcomes(registered, key, w, sources);
  }

  /** A target that is already tracked is not scraped by a request: its samples stay, its window widens and
      it counts as accessed. */
  lemma KnownTargetIsNotScraped(c: Cache, target: Target, window: int, now: int, w: World, ttl: int,
                                sources: set<string>)
    requires EntryKey(target) in c
    ensures var key := EntryKey(target);
            var c' := Ensured(c, target, window, now, w, ttl, sources);
            && key in c' && c'[key].samples == c[key].samples && c'[key].history == c[key].history
            && c'[key].lastAccess == now && c'[key].window >= window && c'[key].window >= c[key].window
            && c' - {key} == c - {key}
  {
    RegisteredEntry(c, target, window, now, ttl);
  }

  /** The newest sample of an entry is served as current exactly while it is at most `staleAfter`
      old. */
  lemma CurrentExactlyWhen(c: Cache, key: string, now: int, staleAfter: int)
    ensures FreshSnapshot(c, key, now, staleAfter)
            == if key in c && c[key].samples != []
                  && now - c[key].samples[|c[key].samples| - 1].at <= staleAfter
               then Some(c[key].samples[|c[key].samples| - 1].snap)
               else None
  {
  }

  /** Whatever is served as current was committed to that entry and is at most `staleAfter` old. */
  lemma CurrentIsRecent(steps: seq<Step>, ttl: int, key: string, later: int, staleAfter: int)
    requires FreshSnapshot(Run(steps, ttl), key, later, staleAfter).Some?
    ensures key in Run(steps, ttl) && Run(steps, ttl)[key].history != []
    ensures var last := Newest(Run(steps, ttl)[key].history);
            && FreshSnapshot(Run(steps, ttl), key, later, staleAfter) == Some(last.snap)
            && later - last.at <= staleAfter
  {
    RunInv(steps, ttl);
  }

  /** A poll keeps a target exactly when it was tracked, not idle, and its InferenceSet still
      exists. */
  lemma PollKeepsLiveTargets(c: Cache, now: int, ttl: int, world: string -> World, sources: set<string>, key: string)
    ensures key in Polled(Apply(c, Step.SweepIdle(now), ttl), {}, world, sources)
            <==> && key in c && !world(key).lookup.NotFound?
                 && (now - c[key].lastAccess <= ttl || now - c[key].lastAccess <= c[key].window)
  {
  }

  class MetricCache {
    const sources: set<string>
    const ttl: int
    const staleAfter: int
    var entries: map<string, CacheEntry>
    ghost var steps: seq<Step>  // every critical section performed so far

    constructor (sources: set<string>)
      ensures Valid() && View() == map[] && steps == []
      ensures this.sources == sources
      ensures ttl == 20 * 60 * 1_000_000_000 && staleAfter == 45 * 1_000_000_000
    {
      this.sources, ttl, staleAfter, entries := sources, DEFAULT_TTL, DEFAULT_STALE_AFTER, map[];
      steps := [];
    }

    ghost function View(): Cache
      reads this`entries, entries.Values
    {
      map key | key in entries :: entries[key].View()
    }

    /** Entries are not shared between keys, and the cache is what the recorded steps lead to,
        so everything CacheModel proves of runs holds of it. */
    ghost predicate Valid()
      reads this, entries.Values
    {
      && Unshared()
      && View() == Run(steps, ttl)
    }

    ghost predicate Unshared()
      reads this`entries
    {
      forall k1, k2 | k1 in entries && k2 in entries && k1 != k2 :: entries[k1] != entries[k2]
    }

    // ------------------------------------------------- critical sections

    method Register(target: Target, window: int, now: int) returns (created: bool)
      requires Valid()
      modifies this, entries.Values
      ensures Valid() && fresh(entries.Values - old(entries.Values))
      ensures View() == Apply(old(View()), Step.Register(target, window, now), ttl)
      ensures created <==> EntryKey(target) !in old(View())
    {
      created := Admit(target, window, now);
      RunSnoc(steps, Step.Register(target, window, now), ttl);
      steps := steps + [Step.Register(target, window, now)];
    }

    method Admit(target: Target, window: int, now: int) returns (created: bool)
      requires Unshared()
      modifies this`entries, entries.Values
      ensures Unshared() && fresh(entries.Values - old(entries.Values))
      ensures View() == Apply(old(View()), Step.Register(target, window, now), ttl)
      ensures created <==> EntryKey(target) !in old(View())
    {
      var key := EntryKey(target);
      created := key !in entries;
      if created {
        var e := new CacheEntry(target, window, now);
        entries := entries[key := e];
      } else {
        entries[key].Renew(window, now);
      }
    }

    method Commit(key: string, stamp: int, snap: Snapshot)
      requires Valid()
      modifies this`steps, entries.Values
      ensures Valid()
      ensures View() == Apply(old(View()), Step.Commit(key, stamp, snap), ttl)
    {
      AppendTo(key, stamp, snap);
      RunSnoc(steps, Step.Commit(key, stamp, snap), ttl);
      steps := steps + [Step.Commit(key, stamp, snap)];
    }

    method AppendTo(key: string, stamp: int, snap: Snapshot)
      requires Unshared()
      modifies entries.Values
      ensures View() == Apply(old(View()), Step.Commit(key, stamp, snap), ttl)
    {
      if key in entries {
        entries[key].Append(stamp, snap);
      }
    }

    method Evict(key: string)
      requires Valid()
      modifies this
      ensures Valid() && entries == old(entries) - {key}
      ensures View() == Apply(old(View()), Step.Evict(key), ttl)
    {
      ghost var before := View();
      entries := entries - {key};
      assert View() == Apply(before, Step.Evict(key), ttl);
      RunSnoc(steps, Step.Evict(key), ttl);
      steps := steps + [Step.Evict(key)];
    }

    /** Drops idle targets and reports the keys that remain. */
    method SweepIdle(now: int) returns (live: set<string>)
      requires Valid()
      modifies this
      ensures Valid() && entries.Values <= old(entries.Values)
      ensures View() == Apply(old(View()), Step.SweepIdle(now), ttl)
      ensures live == View().Keys
    {
      ghost var before := View();
      live := DropIdle(now);
      SweptView(before, now);
      RunSnoc(steps, Step.SweepIdle(now), ttl);
      steps := steps + [Step.SweepIdle(now)];
    }

    lemma SweptView(before: Cache, now: int)
      requires forall k | k in entries :: k in before && entries[k].View() == before[k]
      requires forall k | k in before :: k in entries <==> !Idle(before[k], now, ttl)
      ensures View() == Apply(before, Step.SweepIdle(now), ttl)
    {
    }

    method DropIdle(now: int) returns (live: set<string>)
      modifies this`entries
      ensures entries.Keys == live
      ensures forall k | k in entries :: k in old(entries) && entries[k] == old(entries[k])
      ensures forall k | k in old(entries) :: k in live <==> !Idle(old(entries[k].View()), now, ttl)
    {
      live := {};
      var pending := entries.Keys;
      while pending != {}
        invariant entries.Keys == live + pending && live !! pending
        invariant forall k | k in entries :: k in old(entries) && entries[k] == old(entries[k])
        invariant forall k | k in old(entries) && k !in pending ::
                    k in live <==> !Idle(old(entries[k].View()), now, ttl)
        decreases pending
      {
        var k :| k in pending;
        pending := pending - {k};
        var idle := IsIdle(entries[k], now);
        if idle {
          entries := entries - {k};
        } else {
          live := live + {k};
        }
      }
    }

    method IsIdle(e: CacheEntry, now: int) returns (idle: bool)
      ensures idle <==> Idle(e.View(), now, ttl)
    {
      var idleThreshold := ttl;
      if e.window > idleThreshold {
        idleThreshold := e.window;
      }
      idle := now - e.lastAccess > idleThreshold;
    }

    /** The windowed-average query. */
    method Aggregate(target: Target, metric: string, window: int, now: int)
      returns (r: Result<real, Hold>)
      requires Valid()
      modifies this`steps, entries.Values
      ensures Valid()
      ensures View() == Apply(old(View()), Step.Touch(EntryKey(target), now), ttl)
      ensures r == WindowedAnswer(old(View()), target, now, staleAfter, window, metric)
    {
      Touch(EntryKey(target), now);
      if EntryKey(target) !in entries {
        return Failure(Unavailable);
      }
      r := AnswerFrom(entries[EntryKey(target)].samples, metric, window, now);
    }

    method Touch(key: string, now: int)
      requires Valid()
      modifies this`steps, entries.Values
      ensures Valid()
      ensures View() == Apply(old(View()), Step.Touch(key, now), ttl)
    {
      AccessEntry(key, now);
      RunSnoc(steps, Step.Touch(key, now), ttl);
      steps := steps + [Step.Touch(key, now)];
    }

    method AccessEntry(key: string, now: int)
      requires Unshared()
      modifies entries.Values
      ensures View() == Apply(old(View()), Step.Touch(key, now), ttl)
    {
      if key in entries {
        entries[key].Access(now);
      }
    }

    method AnswerFrom(samples: seq<Sample>, metric: string, window: int, now: int)
      returns (r: Result<real, Hold>)
      ensures r == Answer(samples, now, staleAfter, window, metric)
    {
      if |samples| == 0 {
        return Failure(Unavailable);
      }
      var newest := samples[|samples| - 1];
      if now - newest.at > staleAfter {
        return Failure(Unavailable);
      }
      if |samples| < 2 {
        return Failure(WarmingUp);
      }
      var baseline := WindowBaseline(samples, window, window + staleAfter);
      if newest.at - baseline.at < FourFifths(window) {
        return Failure(WarmingUp);
      }
      var newSum, newCount, okNew := HistogramSumCount(Some(newest.snap), metric);
      var baseSum, baseCount, okBase := HistogramSumCount(Some(baseline.snap), metric);
      if !okNew || !okBase {
        return Success(0.0);
      }
      var dCount := newCount - baseCount;
      if dCount <= 0 {
        return Success(0.0);
      }
      var dSum := newSum - baseSum;
      if dSum < 0.0 {
        return Success(0.0);
      }
      return Success(dSum / dCount as real);
    }

    /** What the object serves is what its complete commit history gives, unless the stamps of that
        history say otherwise. */
    lemma ServesCompleteHistory(target: Target, now: int, window: int, metric: string)
      requires Valid() && EntryKey(target) in View()
      ensures var e := View()[EntryKey(target)];
              && (Dropped(e) == 0 || 0 < Dropped(e) < |e.history|)
              && (Undisturbed(e.history, Dropped(e), now, staleAfter, window) ==>
                    WindowedAnswer(View(), target, now, staleAfter, window, metric)
                    == Answer(e.history, now, staleAfter, window, metric))
    {
      var e := View()[EntryKey(target)];
      PruningIsInvisible(steps, ttl, EntryKey(target), now, staleAfter, window);
      if Undisturbed(e.history, Dropped(e), now, staleAfter, window) {
        UndisturbedAnswer(e.history, Dropped(e), now, staleAfter, window, metric);
      }
    }

    // ------------------------------------------- sequences of critical sections

    method Refresh(key: string, w: World)
      requires Valid()
      modifies this, entries.Values
      ensures Valid() && entries.Values <= old(entries.Values)
      ensures View() == Refreshed(old(View()), key, w, sources)
    {
      if key !in entries {
        return;
      }
      var e := entries[key];
      ghost var before := View();
      if w.lookup.NotFound? {
        Evict(key);
        return;
      }
      if w.lookup.LookupFailed? || e.target.source !in sources || w.scrape.ScrapeFailed? {
        assert before[key := before[key]] == before;
        return;
      }
      Commit(key, w.stamp, w.scrape.snap);
    }

    method Ensure(target: Target, window: int, now: int, w: World)
      requires Valid()
      modifies this, entries.Values
      ensures Valid() && fresh(entries.Values - old(entries.Values))
      ensures View() == Ensured(old(View()), target, window, now, w, ttl, sources)
    {
      var created := Register(target, window, now);
      if created {
        Refresh(EntryKey(target), w);
      }
    }

    /** Registers the target and reads its newest snapshot; `later` is the clock at the read. */
    method Current(target: Target, window: int, now: int, w: World, later: int)
      returns (snap: Option<Snapshot>)
      requires Valid()
      modifies this, entries.Values
      ensures Valid() && fresh(entries.Values - old(entries.Values))
      ensures View() == Ensured(old(View()), target, window, now, w, ttl, sources)
      ensures snap == FreshSnapshot(View(), EntryKey(target), later, staleAfter)
    {
      Ensure(target, window, now, w);
      var key := EntryKey(target);
      if key !in entries {
        return None;
      }
      var e := entries[key];
      if |e.samples| == 0 {
        return None;
      }
      var newest := e.samples[|e.samples| - 1];
      if later - newest.at > staleAfter {
        return None;
      }
      return Some(newest.snap);
    }

    /** One poll: sweep, then refresh each remaining target in any order. */
    method Poll(now: int, world: string -> World)
      requires Valid()
      modifies this, entries.Values
      ensures Valid() && entries.Values <= old(entries.Values)
      ensures View() == Polled(Apply(old(View()), Step.SweepIdle(now), ttl), {}, world, sources)
    {
      var pending := SweepIdle(now);
      ghost var swept := View();
      assert swept == Polled(swept, pending, world, sources);
      while pending != {}
        invariant Valid() && entries.Values <= old(entries.Values)
        invariant pending <= swept.Keys
        invariant View() == Polled(swept, pending, world, sources)
        decreases pending
      {
        var k :| k in pending;
        PolledStep(swept, pending, k, world, sources);
        Refresh(k, world(k));
        pending := pending - {k};
      }
    }
  }
}
