/** Folding the label-set series of one histogram family into a single cumulative histogram, and
    parsed families into a service's metrics (pkg/metricsource/parse.go). */
module HistogramMerge {
  import opened Core
  import opened Sequences
  import opened Telemetry

  datatype Series = Series(buckets: seq<Bucket>, sampleCount: nat, sampleSum: real)

  predicate Below(a: Bound, b: Bound) {
    match (a, b)
    case (Finite(x), Finite(y)) => x < y
    case (Finite(_), PosInf) => true
    case _ => false
  }

  // ------------------------------------------------------------ specification

  predicate HasBound(buckets: seq<Bucket>, le: Bound) {
    exists i | 0 <= i < |buckets| :: buckets[i].le == le
  }

  predicate FamilyHasBound(family: seq<Series>, le: Bound) {
    exists i | 0 <= i < |family| :: HasBound(family[i].buckets, le)
  }

  /** Total of one series' buckets at a bound. */
  function CountIn(buckets: seq<Bucket>, le: Bound): nat {
    if buckets == [] then 0
    else
      var b := buckets[|buckets| - 1];
      CountIn(buckets[..|buckets| - 1], le) + if b.le == le then b.cumulativeCount else 0
  }

  function CountAt(family: seq<Series>, le: Bound): nat {
    if family == [] then 0
    else CountAt(family[..|family| - 1], le) + CountIn(family[|family| - 1].buckets, le)
  }

  function SampleCount(family: seq<Series>): nat {
    if family == [] then 0
    else SampleCount(family[..|family| - 1]) + family[|family| - 1].sampleCount
  }

  function SampleSum(family: seq<Series>): real {
    if family == [] then 0.0
    else SampleSum(family[..|family| - 1]) + family[|family| - 1].sampleSum
  }

  ghost predicate StrictlySorted(buckets: seq<Bucket>) {
    forall i, j | 0 <= i < j < |buckets| :: Below(buckets[i].le, buckets[j].le)
  }

  /** The ladder: exactly the bounds of the family, in order, each with the sum over series. */
  ghost predicate IsLadder(family: seq<Series>, buckets: seq<Bucket>) {
    && StrictlySorted(buckets)
    && (forall le :: HasBound(buckets, le) <==> FamilyHasBound(family, le))
    && (forall i | 0 <= i < |buckets| :: buckets[i].cumulativeCount == CountAt(family, buckets[i].le))
  }

  /** `h` is the merge of the family: its count is the +Inf bucket when there is one. */
  ghost predicate IsMerge(family: seq<Series>, h: Histogram) {
    && IsLadder(family, h.buckets)
    && h.sum == SampleSum(family)
    && h.count == if FamilyHasBound(family, PosInf) then CountAt(family, PosInf) else SampleCount(family)
  }

  // ----------------------------------------------------------------- sorting

  function Insert(b: Bucket, sorted: seq<Bucket>): seq<Bucket> {
    if sorted == [] || Below(b.le, sorted[0].le) then [b] + sorted
    else [sorted[0]] + Insert(b, sorted[1..])
  }

  /** sort.Slice by upper bound. */
  function SortByBound(buckets: seq<Bucket>): seq<Bucket> {
    if buckets == [] then [] else Insert(buckets[0], SortByBound(buckets[1..]))
  }

  lemma {:induction false} InsertKeeps(b: Bucket, sorted: seq<Bucket>)
    ensures multiset(Insert(b, sorted)) == multiset{b} + multiset(sorted)
    ensures forall x | x in Insert(b, sorted) :: x == b || x in sorted
  {
    if sorted != [] && !Below(b.le, sorted[0].le) {
      assert sorted == [sorted[0]] + sorted[1..];
      InsertKeeps(b, sorted[1..]);
    }
  }

  lemma {:induction false} InsertSorted(b: Bucket, sorted: seq<Bucket>)
    requires StrictlySorted(sorted) && !HasBound(sorted, b.le)
    ensures StrictlySorted(Insert(b, sorted))
  {
    if sorted != [] && !Below(b.le, sorted[0].le) {
      var rest := sorted[1..];
      assert forall i | 0 <= i < |rest| :: rest[i] == sorted[i + 1];
      InsertSorted(b, rest);
      InsertKeeps(b, rest);
      var tail := Insert(b, rest);
      forall i | 0 <= i < |tail| ensures Below(sorted[0].le, tail[i].le) {
        assert tail[i] == b || tail[i] in rest;
      }
    }
  }

  ghost predicate DistinctBounds(buckets: seq<Bucket>) {
    forall i, j | 0 <= i < j < |buckets| :: buckets[i].le != buckets[j].le
  }

  lemma {:induction false} SortSorts(buckets: seq<Bucket>)
    requires DistinctBounds(buckets)
    ensures StrictlySorted(SortByBound(buckets))
    ensures multiset(SortByBound(buckets)) == multiset(buckets)
  {
    if buckets != [] {
      var rest, sorted := buckets[1..], SortByBound(buckets[1..]);
      assert buckets == [buckets[0]] + rest;
      assert forall i | 0 <= i < |rest| :: rest[i] == buckets[i + 1];
      SortSorts(rest);
      forall i | 0 <= i < |sorted| ensures sorted[i].le != buckets[0].le {
        assert sorted[i] in multiset(sorted);
        assert sorted[i] in rest;
      }
      InsertSorted(buckets[0], sorted);
      InsertKeeps(buckets[0], sorted);
    }
  }

  // ----------------------------------------------------------------- merging

  function Lookup(m: map<Bound, nat>, le: Bound): nat {
    if le in m then m[le] else 0
  }

  /** The series present in a family; a metric without a histogram is skipped. */
  function Present(family: seq<Option<Series>>): seq<Series> {
    if family == [] then []
    else
      var last := family[|family| - 1];
      Present(family[..|family| - 1]) + if last.Some? then [last.value] else []
  }

  ghost predicate Tallies(counts: map<Bound, nat>, family: seq<Series>) {
    && (forall le :: le in counts <==> FamilyHasBound(family, le))
    && (forall le :: Lookup(counts, le) == CountAt(family, le))
  }

  lemma FamilySnoc(family: seq<Series>, s: Series)
    ensures forall le :: FamilyHasBound(family + [s], le) <==> FamilyHasBound(family, le) || HasBound(s.buckets, le)
    ensures forall le :: CountAt(family + [s], le) == CountAt(family, le) + CountIn(s.buckets, le)
    ensures SampleCount(family + [s]) == SampleCount(family) + s.sampleCount
    ensures SampleSum(family + [s]) == SampleSum(family) + s.sampleSum
  {
    var all := family + [s];
    assert all[..|family|] == family && all[|family|] == s;
    forall le ensures FamilyHasBound(all, le) <==> FamilyHasBound(family, le) || HasBound(s.buckets, le) {
      assert forall i | 0 <= i < |family| :: all[i] == family[i];
    }
  }

  lemma BucketSnoc(buckets: seq<Bucket>, i: nat)
    requires i < |buckets|
    ensures forall le :: HasBound(buckets[..i + 1], le) <==> HasBound(buckets[..i], le) || le == buckets[i].le
    ensures forall le :: CountIn(buckets[..i + 1], le)
                         == CountIn(buckets[..i], le) + if buckets[i].le == le then buckets[i].cumulativeCount else 0
  {
    var more := buckets[..i + 1];
    assert more[..i] == buckets[..i] && more[i] == buckets[i];
    forall le ensures HasBound(more, le) <==> HasBound(buckets[..i], le) || le == buckets[i].le {
      assert forall j | 0 <= j < i :: more[j] == buckets[..i][j];
    }
  }

  method AddSeries(counts: map<Bound, nat>, ghost family: seq<Series>, s: Series)
    returns (r: map<Bound, nat>)
    requires Tallies(counts, family)
    ensures Tallies(r, family + [s])
  {
    r := counts;
    for i := 0 to |s.buckets|
      invariant forall le :: le in r <==> FamilyHasBound(family, le) || HasBound(s.buckets[..i], le)
      invariant forall le :: Lookup(r, le) == CountAt(family, le) + CountIn(s.buckets[..i], le)
    {
      BucketSnoc(s.buckets, i);
      var b := s.buckets[i];
      r := r[b.le := Lookup(r, b.le) + b.cumulativeCount];
    }
    assert s.buckets[..|s.buckets|] == s.buckets;
    FamilySnoc(family, s);
  }

  /** The map's entries as buckets, in no particular order. */
  method Collect(counts: map<Bound, nat>) returns (buckets: seq<Bucket>)
    ensures DistinctBounds(buckets)
    ensures forall i | 0 <= i < |buckets| ::
              buckets[i].le in counts && buckets[i].cumulativeCount == counts[buckets[i].le]
    ensures forall le | le in counts :: HasBound(buckets, le)
  {
    buckets := [];
    var pending := counts.Keys;
    while pending != {}
      invariant pending <= counts.Keys
      invariant DistinctBounds(buckets)
      invariant forall i | 0 <= i < |buckets| ::
                  && buckets[i].le in counts && buckets[i].le !in pending
                  && buckets[i].cumulativeCount == counts[buckets[i].le]
      invariant forall le | le in counts && le !in pending :: HasBound(buckets, le)
      decreases pending
    {
      var le :| le in pending;
      pending := pending - {le};
      ghost var before := buckets;
      buckets := buckets + [Bucket(le, counts[le])];
      assert buckets[|before|].le == le;
      forall l | l in counts && l !in pending ensures HasBound(buckets, l) {
        if l != le {
          var i :| 0 <= i < |before| && before[i].le == l;
          assert buckets[i].le == l;
        }
      }
    }
  }

  method MergeHistogram(family: seq<Option<Series>>) returns (r: Option<Histogram>)
    ensures r.None? <==> Present(family) == []
    ensures r.Some? ==> IsMerge(Present(family), r.value)
  {
    var bucketCounts: map<Bound, nat> := map[];
    var totalCount: nat := 0;
    var totalSum := 0.0;
    var found := false;
    for i := 0 to |family|
      invariant Tallies(bucketCounts, Present(family[..i]))
      invariant totalCount == SampleCount(Present(family[..i]))
      invariant totalSum == SampleSum(Present(family[..i]))
      invariant found <==> Present(family[..i]) != []
    {
      assert family[..i + 1][..i] == family[..i];
      if family[i].None? {
        assert Present(family[..i + 1]) == Present(family[..i]);
        continue;
      }
      var h := family[i].value;
      found := true;
      FamilySnoc(Present(family[..i]), h);
      totalCount := totalCount + h.sampleCount;
      totalSum := totalSum + h.sampleSum;
      bucketCounts := AddSeries(bucketCounts, Present(family[..i]), h);
    }
    assert family[..|family|] == family;
    if !found {
      return None;
    }
    var h := Assemble(bucketCounts, totalCount, totalSum, Present(family));
    return Some(h);
  }

  /** The collected counts as a sorted ladder, with the totals. */
  method Assemble(counts: map<Bound, nat>, sampleCount: nat, sampleSum: real, ghost family: seq<Series>)
    returns (h: Histogram)
    requires Tallies(counts, family) && sampleCount == SampleCount(family) && sampleSum == SampleSum(family)
    ensures IsMerge(family, h)
  {
    var unsorted := Collect(counts);
    var buckets := SortByBound(unsorted);
    SortSorts(unsorted);
    SortedCollection(family, counts, unsorted, buckets);
    LastIsInfinite(family, buckets);
    var count := sampleCount;
    if |buckets| > 0 && buckets[|buckets| - 1].le == PosInf {
      count := buckets[|buckets| - 1].cumulativeCount;
    }
    return Histogram(buckets, count, sampleSum);
  }

  lemma SortedCollection(family: seq<Series>, counts: map<Bound, nat>, unsorted: seq<Bucket>, buckets: seq<Bucket>)
    requires Tallies(counts, family) && StrictlySorted(buckets) && multiset(buckets) == multiset(unsorted)
    requires forall i | 0 <= i < |unsorted| ::
               unsorted[i].le in counts && unsorted[i].cumulativeCount == counts[unsorted[i].le]
    requires forall le | le in counts :: HasBound(unsorted, le)
    ensures IsLadder(family, buckets)
  {
    forall i | 0 <= i < |buckets|
      ensures buckets[i].le in counts && buckets[i].cumulativeCount == CountAt(family, buckets[i].le)
    {
      assert buckets[i] in multiset(unsorted);
      var j :| 0 <= j < |unsorted| && unsorted[j] == buckets[i];
      assert Lookup(counts, buckets[i].le) == CountAt(family, buckets[i].le);
    }
    forall le | le in counts ensures HasBound(buckets, le) {
      var j :| 0 <= j < |unsorted| && unsorted[j].le == le;
      assert unsorted[j] in multiset(buckets);
      var i :| 0 <= i < |buckets| && buckets[i] == unsorted[j];
    }
  }

  lemma LastIsInfinite(family: seq<Series>, buckets: seq<Bucket>)
    requires IsLadder(family, buckets)
    ensures (buckets != [] && buckets[|buckets| - 1].le == PosInf) <==> FamilyHasBound(family, PosInf)
  {
    if HasBound(buckets, PosInf) {
      var i :| 0 <= i < |buckets| && buckets[i].le == PosInf;
      var last := buckets[|buckets| - 1];
      assert !Below(buckets[i].le, last.le);
    }
  }

  // -------------------------------------------------------------- properties

  lemma TotalsOfOne(s: Series, le: Bound)
    ensures SampleCount([s]) == s.sampleCount && SampleSum([s]) == s.sampleSum
    ensures CountAt([s], le) == CountIn(s.buckets, le)
    ensures FamilyHasBound([s], le) <==> HasBound(s.buckets, le)
  {
    assert [s][..0] == [] && [s][0] == s;
  }

  /** The merge of a single series has its buckets, its sum, and the count of its +Inf bucket or, without
      one, its own. */
  lemma MergeOfOne(s: Series, h: Histogram)
    requires IsMerge([s], h) && DistinctBounds(s.buckets)
    ensures h.sum == s.sampleSum
    ensures forall b :: b in h.buckets <==> b in s.buckets
    ensures if exists b :: b in s.buckets && b.le == PosInf then Bucket(PosInf, h.count) in s.buckets
            else h.count == s.sampleCount
  {
    forall le
      ensures CountAt([s], le) == CountIn(s.buckets, le)
      ensures FamilyHasBound([s], le) <==> HasBound(s.buckets, le)
    {
      TotalsOfOne(s, le);
    }
    TotalsOfOne(s, PosInf);
    forall i | 0 <= i < |s.buckets| ensures CountIn(s.buckets, s.buckets[i].le) == s.buckets[i].cumulativeCount {
      CountOfDistinct(s.buckets, i);
    }
    forall b | b in s.buckets ensures b in h.buckets {
      var i :| 0 <= i < |s.buckets| && s.buckets[i] == b;
      assert HasBound(h.buckets, b.le);
    }
    forall b | b in h.buckets ensures b in s.buckets {
      var i :| 0 <= i < |h.buckets| && h.buckets[i] == b;
      assert HasBound(h.buckets, b.le);
    }
    if exists b :: b in s.buckets && b.le == PosInf {
      var b :| b in s.buckets && b.le == PosInf;
      var i :| 0 <= i < |s.buckets| && s.buckets[i] == b;
    } else {
      assert !HasBound(s.buckets, PosInf);
    }
  }

  /** The merged bounds ascend, +Inf last. */
  lemma MergedBoundsAscend(family: seq<Series>, h: Histogram, i: nat, j: nat)
    requires IsMerge(family, h) && i < j < |h.buckets|
    ensures h.buckets[i].le.Finite?
    ensures h.buckets[j].le.PosInf? || h.buckets[i].le.le < h.buckets[j].le.le
  {
  }

  /** Merging two families adds their sums and, bound by bound, their counts. */
  lemma MergesAdd(xs: seq<Series>, ys: seq<Series>, hx: Histogram, hy: Histogram, h: Histogram)
    requires IsMerge(xs, hx) && IsMerge(ys, hy) && IsMerge(xs + ys, h)
    ensures h.sum == hx.sum + hy.sum
    ensures forall b, c, d | b in h.buckets && c in hx.buckets && d in hy.buckets && b.le == c.le && b.le == d.le ::
              b.cumulativeCount == c.cumulativeCount + d.cumulativeCount
    ensures FamilyHasBound(xs, PosInf) && FamilyHasBound(ys, PosInf) ==> h.count == hx.count + hy.count
    ensures !FamilyHasBound(xs, PosInf) && !FamilyHasBound(ys, PosInf) ==> h.count == hx.count + hy.count
  {
    forall le ensures CountAt(xs + ys, le) == CountAt(xs, le) + CountAt(ys, le) {
      SplitFamily(xs, ys, le);
    }
    SplitFamily(xs, ys, PosInf);
    SplitBounds(xs, ys);
  }

  lemma SplitBounds(xs: seq<Series>, ys: seq<Series>)
    ensures FamilyHasBound(xs + ys, PosInf) <==> FamilyHasBound(xs, PosInf) || FamilyHasBound(ys, PosInf)
  {
    var all := xs + ys;
    assert forall i | 0 <= i < |xs| :: all[i] == xs[i];
    assert forall i | 0 <= i < |ys| :: all[|xs| + i] == ys[i];
  }

  /** A family has only one merge, whatever order the bucket map was iterated in. */
  lemma LadderUnique(family: seq<Series>, a: seq<Bucket>, b: seq<Bucket>)
    requires IsLadder(family, a) && IsLadder(family, b)
    ensures a == b
  {
    SortedBoundsUnique(a, b);
    assert forall i | 0 <= i < |a| :: a[i] == b[i];
  }

  lemma {:induction false} SortedBoundsUnique(a: seq<Bucket>, b: seq<Bucket>)
    requires StrictlySorted(a) && StrictlySorted(b)
    requires forall le :: HasBound(a, le) <==> HasBound(b, le)
    ensures |a| == |b| && forall i | 0 <= i < |a| :: a[i].le == b[i].le
  {
    if a == [] {
      if b != [] { assert HasBound(b, b[0].le); }
    } else {
      assert HasBound(a, a[0].le);
      var j :| 0 <= j < |b| && b[j].le == a[0].le;
      assert HasBound(b, b[0].le);
      var i :| 0 <= i < |a| && a[i].le == b[0].le;
      FirstIsLeast(a, i);
      FirstIsLeast(b, j);
      forall le ensures HasBound(a[1..], le) <==> HasBound(b[1..], le) {
        TailBounds(a, le);
        TailBounds(b, le);
      }
      SortedBoundsUnique(a[1..], b[1..]);
      assert forall k | 0 < k < |a| :: a[k] == a[1..][k - 1] && b[k] == b[1..][k - 1];
    }
  }

  lemma FirstIsLeast(a: seq<Bucket>, i: nat)
    requires StrictlySorted(a) && i < |a|
    ensures i == 0 || Below(a[0].le, a[i].le)
  {
  }

  lemma TailBounds(a: seq<Bucket>, le: Bound)
    requires StrictlySorted(a) && a != []
    ensures HasBound(a[1..], le) <==> HasBound(a, le) && le != a[0].le
  {
    if HasBound(a, le) && le != a[0].le {
      var i :| 0 <= i < |a| && a[i].le == le;
      assert a[1..][i - 1] == a[i];
    }
  }

  lemma {:induction false} SplitFamily(xs: seq<Series>, ys: seq<Series>, le: Bound)
    ensures CountAt(xs + ys, le) == CountAt(xs, le) + CountAt(ys, le)
    ensures SampleCount(xs + ys) == SampleCount(xs) + SampleCount(ys)
    ensures SampleSum(xs + ys) == SampleSum(xs) + SampleSum(ys)
  {
    if ys == [] {
      assert xs + ys == xs;
    } else {
      assert (xs + ys)[..|xs + ys| - 1] == xs + ys[..|ys| - 1];
      SplitFamily(xs, ys[..|ys| - 1], le);
    }
  }

  lemma FamilyWithout(ys: seq<Series>, j: nat, le: Bound)
    requires j < |ys|
    ensures var rest := Without(ys, j);
            && CountAt(ys, le) == CountAt(rest, le) + CountAt([ys[j]], le)
            && SampleCount(ys) == SampleCount(rest) + SampleCount([ys[j]])
            && SampleSum(ys) == SampleSum(rest) + SampleSum([ys[j]])
  {
    var before, mid, after := ys[..j], [ys[j]], ys[j + 1..];
    assert ys == before + (mid + after);
    SplitFamily(before, mid + after, le);
    SplitFamily(mid, after, le);
    SplitFamily(before, after, le);
  }

  lemma {:induction false} FamilyOrder(xs: seq<Series>, ys: seq<Series>, le: Bound)
    requires multiset(xs) == multiset(ys)
    ensures CountAt(xs, le) == CountAt(ys, le)
    ensures SampleCount(xs) == SampleCount(ys) && SampleSum(xs) == SampleSum(ys)
    decreases |xs|
  {
    if xs == [] {
      assert |multiset(ys)| == |ys|;
    } else {
      var n := |xs| - 1;
      var j := TakeOut(xs, ys);
      FamilyOrder(xs[..n], Without(ys, j), le);
      FamilyWithout(ys, j, le);
      FamilyWithout(xs, n, le);
      assert Without(xs, n) == xs[..n];
    }
  }

  lemma SameBounds(xs: seq<Series>, ys: seq<Series>, le: Bound)
    requires multiset(xs) == multiset(ys) && FamilyHasBound(xs, le)
    ensures FamilyHasBound(ys, le)
  {
    var i :| 0 <= i < |xs| && HasBound(xs[i].buckets, le);
    assert xs[i] in multiset(ys);
    var j :| 0 <= j < |ys| && ys[j] == xs[i];
  }

  /** The merge does not depend on the order of the series. */
  lemma MergeOrderIndependent(xs: seq<Series>, ys: seq<Series>, hx: Histogram, hy: Histogram)
    requires multiset(xs) == multiset(ys) && IsMerge(xs, hx) && IsMerge(ys, hy)
    ensures hx == hy
  {
    forall le
      ensures CountAt(xs, le) == CountAt(ys, le) && (FamilyHasBound(xs, le) <==> FamilyHasBound(ys, le))
    {
      FamilyOrder(xs, ys, le);
      if FamilyHasBound(xs, le) { SameBounds(xs, ys, le); }
      if FamilyHasBound(ys, le) { SameBounds(ys, xs, le); }
    }
    FamilyOrder(xs, ys, PosInf);
    assert IsLadder(xs, hy.buckets);
    LadderUnique(xs, hx.buckets, hy.buckets);
  }

  /** A well-formed cumulative series: distinct bounds with counts that do not decrease. */
  ghost predicate Cumulative(s: Series) {
    && DistinctBounds(s.buckets)
    && (forall i, j | 0 <= i < |s.buckets| && 0 <= j < |s.buckets| ::
          Below(s.buckets[i].le, s.buckets[j].le) ==> s.buckets[i].cumulativeCount <= s.buckets[j].cumulativeCount)
  }

  lemma {:induction false} CountOfDistinct(buckets: seq<Bucket>, i: nat)
    requires DistinctBounds(buckets) && i < |buckets|
    ensures CountIn(buckets, buckets[i].le) == buckets[i].cumulativeCount
  {
    var n := |buckets| - 1;
    var init := buckets[..n];
    assert forall k | 0 <= k < n :: init[k] == buckets[k];
    if i < n {
      CountOfDistinct(init, i);
    } else {
      CountOfAbsent(init, buckets[i].le);
    }
  }

  lemma {:induction false} CountOfAbsent(buckets: seq<Bucket>, le: Bound)
    requires !HasBound(buckets, le)
    ensures CountIn(buckets, le) == 0
  {
    if buckets != [] {
      var n := |buckets| - 1;
      assert forall k | 0 <= k < n :: buckets[..n][k] == buckets[k];
      CountOfAbsent(buckets[..n], le);
    }
  }

  lemma {:induction false} CountsMonotone(family: seq<Series>, a: Bound, b: Bound)
    requires Below(a, b)
    requires forall i | 0 <= i < |family| ::
               Cumulative(family[i]) && HasBound(family[i].buckets, a) && HasBound(family[i].buckets, b)
    ensures CountAt(family, a) <= CountAt(family, b)
  {
    if family != [] {
      var n := |family| - 1;
      assert forall k | 0 <= k < n :: family[..n][k] == family[k];
      CountsMonotone(family[..n], a, b);
      var s := family[n];
      var i :| 0 <= i < |s.buckets| && s.buckets[i].le == a;
      var j :| 0 <= j < |s.buckets| && s.buckets[j].le == b;
      CountOfDistinct(s.buckets, i);
      CountOfDistinct(s.buckets, j);
    }
  }

  /** If every series is a well-formed ladder over the same bounds, so is the merge. */
  lemma MergedLadderIsCumulative(family: seq<Series>, h: Histogram)
    requires IsMerge(family, h)
    requires forall i | 0 <= i < |family| :: Cumulative(family[i])
    requires forall i, le | 0 <= i < |family| ::
               HasBound(family[i].buckets, le) <==> FamilyHasBound(family, le)
    ensures forall i, j | 0 <= i < j < |h.buckets| ::
              h.buckets[i].cumulativeCount <= h.buckets[j].cumulativeCount
  {
    forall i, j | 0 <= i < j < |h.buckets|
      ensures h.buckets[i].cumulativeCount <= h.buckets[j].cumulativeCount
    {
      assert HasBound(h.buckets, h.buckets[i].le) && HasBound(h.buckets, h.buckets[j].le);
      CountsMonotone(family, h.buckets[i].le, h.buckets[j].le);
    }
  }

  // ---------------------------------------------------------------- families

  /** A parsed family: histogram series, or scalars (None when a metric carries no value). */
  datatype Family = Histograms(series: seq<Option<Series>>) | Scalars(values: seq<Option<real>>)

  function ScalarSum(values: seq<Option<real>>): real {
    if values == [] then 0.0
    else
      var last := values[|values| - 1];
      ScalarSum(values[..|values| - 1]) + if last.Some? then last.value else 0.0
  }

  predicate SomeScalar(values: seq<Option<real>>) {
    exists i | 0 <= i < |values| :: values[i].Some?
  }

  method SumScalars(values: seq<Option<real>>) returns (sum: real, found: bool)
    ensures sum == ScalarSum(values) && (found <==> SomeScalar(values))
  {
    sum, found := 0.0, false;
    for i := 0 to |values|
      invariant sum == ScalarSum(values[..i])
      invariant found <==> exists j | 0 <= j < i :: values[j].Some?
    {
      assert values[..i + 1][..i] == values[..i];
      if values[i].Some? {
        sum := sum + values[i].value;
        found := true;
      }
    }
    assert values[..|values|] == values;
  }

  /** A scalar family's value is the sum of the values its metrics carry. */
  lemma {:induction false} ScalarsAdd(xs: seq<Option<real>>, ys: seq<Option<real>>)
    ensures ScalarSum(xs + ys) == ScalarSum(xs) + ScalarSum(ys)
    ensures forall v :: ScalarSum([Some(v)]) == v
    ensures ScalarSum([None]) == 0.0 && ScalarSum([]) == 0.0
  {
    forall v: Option<real> ensures ScalarSum([v]) == if v.Some? then v.value else 0.0 {
      assert [v][..0] == [];
    }
    if ys == [] {
      assert xs + ys == xs;
    } else {
      assert (xs + ys)[..|xs + ys| - 1] == xs + ys[..|ys| - 1];
      ScalarsAdd(xs, ys[..|ys| - 1]);
    }
  }

  /** What a family contributes to a service's two metric maps. */
  ghost predicate Contributes(name: string, family: Family, metrics: map<string, real>,
                              histograms: map<string, Histogram>) {
    match family
    case Histograms(series) =>
      && name !in metrics
      && (name in histograms <==> Present(series) != [])
      && (name in histograms ==> IsMerge(Present(series), histograms[name]))
    case Scalars(values) =>
      && name !in histograms
      && (name in metrics <==> SomeScalar(values))
      && (name in metrics ==> metrics[name] == ScalarSum(values))
  }

  method ParseFamilies(families: map<string, Family>)
    returns (metrics: map<string, real>, histograms: map<string, Histogram>)
    ensures metrics.Keys <= families.Keys && histograms.Keys <= families.Keys
    ensures forall name | name in families :: Contributes(name, families[name], metrics, histograms)
  {
    metrics, histograms := map[], map[];
    var pending := families.Keys;
    while pending != {}
      invariant pending <= families.Keys
      invariant metrics.Keys <= families.Keys - pending && histograms.Keys <= families.Keys - pending
      invariant forall name | name in families && name !in pending ::
                  Contributes(name, families[name], metrics, histograms)
      decreases pending
    {
      var name :| name in pending;
      pending := pending - {name};
      match families[name]
      case Histograms(series) =>
        var h := MergeHistogram(series);
        if h.Some? {
          histograms := histograms[name := h.value];
        }
      case Scalars(values) =>
        var sum, found := SumScalars(values);
        if found {
          metrics := metrics[name := sum];
        }
    }
  }
}
