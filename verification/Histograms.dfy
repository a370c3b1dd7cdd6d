/** The latency histogram. Its arrays and counters are a lossy summary of the samples it
    was given; every method is specified by what it does to that bag of samples. */
module Histograms {
  import opened Arith
  import opened Bits
  import opened Shape
  import opened Samples

  function InSlot(h: Layout, i: int): int -> bool { (v: int) => h.IndexFor(v) == i }

  function BelowSlot(h: Layout, i: int): int -> bool { (v: int) => h.IndexFor(v) < i }

  /** The samples a run of RecordValue calls leaves behind: clamped, and gone if even
      the clamped value has no slot. */
  function Stored(h: Layout, vs: seq<int>): seq<int> {
    if vs == [] then [] else
    var v := h.Clamp(vs[|vs| - 1]);
    Stored(h, vs[..|vs| - 1]) + (if h.Tracked(v) then [v] else [])
  }

  function Repeat(v: int, n: nat): (s: seq<int>)
    ensures |s| == n && forall i :: 0 <= i < n ==> s[i] == v
  {
    seq(n, i => v)
  }

  /** Coordinated-omission correction in closed form: the value and every value - i * interval
      that is still at least one interval, plus the value itself when it is shorter. */
  function BackfillCount(value: int, interval: int): nat {
    if interval <= 0 || value <= interval then 1 else value / interval
  }

  function Backfill(value: int, interval: int): (s: seq<int>)
    ensures |s| == BackfillCount(value, interval)
  {
    seq(BackfillCount(value, interval), i => value - i * interval)
  }

  /** The first k values of a backfill. */
  function Steps(value: int, interval: int, k: nat): (s: seq<int>)
    ensures |s| == k
  {
    seq(k, i => value - i * interval)
  }

  /** A sample the histogram may hold. */
  predicate Holds(h: Layout, v: int) { 0 <= v <= h.highest && h.Tracked(v) }

  predicate HoldsAt(h: Layout, s: seq<int>, i: nat)
    requires i < |s|
  {
    Holds(h, s[i])
  }

  ghost predicate AllHold(h: Layout, s: seq<int>) {
    forall i: nat | i < |s| :: HoldsAt(h, s, i)
  }

  lemma AllHoldIff(h: Layout, s: seq<int>)
    ensures AllHold(h, s) <==> forall v :: v in s ==> Holds(h, v)
  {
    if AllHold(h, s) {
      forall v | v in s ensures Holds(h, v) {
        var i: nat :| i < |s| && s[i] == v;
        assert HoldsAt(h, s, i);
      }
    } else {
      var i: nat :| i < |s| && !HoldsAt(h, s, i);
      assert s[i] in s;
    }
  }

  /** The counts array of a bag of samples. */
  function SlotCounts(h: Layout, s: seq<int>): (c: seq<int>)
    ensures |c| == h.CountsLen()
  {
    seq(h.CountsLen(), i => Count(s, InSlot(h, i)))
  }

  /** The arrays and counters stand for this bag of samples. */
  ghost predicate Summarises(h: Layout, counts: seq<int>, total: int, least: int, most: int, samples: seq<int>) {
    && counts == SlotCounts(h, samples)
    && total == |samples|
    && least == MinFrom(samples, MaxInt64)
    && most == MaxFrom(samples, 0)
    && AllHold(h, samples)
  }

  /** k is the least number, from 1 on, of n samples that makes up p percent of them, with p taken
      as 0 below 0 and as 100 above 100. */
  ghost predicate CoversLeast(k: int, p: real, n: nat) {
    var q := if p < 0.0 then 0.0 else if p > 100.0 then 100.0 else p;
    && k >= 1 && 100.0 * k as real >= q * n as real
    && (k == 1 || 100.0 * (k - 1) as real < q * n as real)
  }

  function Percent(p: real): real { if p < 0.0 then 0.0 else if p > 100.0 then 100.0 else p }

  /** That share of n samples. */
  function Portion(p: real, n: nat): real { Percent(p) / 100.0 * n as real }

  function Ceil(x: real): int { -((-x).Floor) }

  /** The percentile rank: the ceiling of p percent of n, at least 1. */
  function Rank(p: real, n: nat): int { Max(Ceil(Portion(p, n)), 1) }

  class Histogram {
    const layout: Layout
    const counts: array<int>
    var totalCount: int
    var minValue: int
    var maxValue: int
    ghost var samples: seq<int>

    ghost predicate Valid()
      reads this, counts
    {
      && layout.bucketCount > 0 && layout.highest <= MaxInt64
      && Summarises(layout, counts[..], totalCount, minValue, maxValue, samples)
    }

    /** NewHistogram with its argument corrections. */
    constructor (lowest: int, highest: int, sigFigs: int)
      requires lowest <= MaxInt64 && highest <= MaxInt64 && 2 * Max(lowest, 1) <= MaxInt64
      requires FloorLog2(Max(lowest, 1)) + SubBucketCountMagnitude(Min(Max(sigFigs, 1), 5)) <= 62
      ensures Valid() && fresh(counts) && samples == []
      ensures IsLayoutFor(layout, Max(lowest, 1), Max(highest, 2 * Max(lowest, 1)), Min(Max(sigFigs, 1), 5))
    {
      var lo := Max(lowest, 1);
      var h := NewLayout(lo, Max(highest, 2 * lo), Min(Max(sigFigs, 1), 5));
      layout := h;
      counts := new int[h.CountsLen()](i => 0);
      totalCount := 0;
      minValue, maxValue := MaxInt64, 0;
      samples := [];
      new;
      assert counts[..] == SlotCounts(layout, []);
    }

    method RecordValues(value: int, count: int)
      requires Valid()
      modifies this, counts
      ensures Valid()
      ensures samples == old(samples) + Stored(layout, Repeat(value, Max(count, 0)))
      ensures count <= 0 ==> samples == old(samples)
      ensures count > 0 && 0 <= value <= layout.highest && value < layout.Limit() ==>
                samples == old(samples) + Repeat(value, count)
    {
      StoredRepeat(layout, value, Max(count, 0));
      ClampCases(layout, value);
      if count <= 0 {
        return;
      }
      var v := layout.Clamp(value);
      var idx := layout.IndexFor(v);
      if idx < 0 {
        return;
      }
      SummaryPlusRepeat(layout, counts[..], totalCount, minValue, maxValue, samples, v, count);
      ghost var before := counts[..];
      counts[idx] := counts[idx] + count;
      assert counts[..] == before[idx := before[idx] + count];
      totalCount := totalCount + count;
      if v > maxValue { maxValue := v; }
      if v < minValue { minValue := v; }
      samples := samples + Repeat(v, count);
    }

    method RecordValue(value: int)
      requires Valid()
      modifies this, counts
      ensures Valid()
      ensures samples == old(samples) + Stored(layout, [value])
      ensures 0 <= value <= layout.highest && value < layout.Limit() ==> samples == old(samples) + [value]
      ensures value < 0 ==> samples == old(samples) + [0]
      ensures value > layout.highest && layout.highest < layout.Limit() ==>
                samples == old(samples) + [layout.highest]
      ensures value >= layout.Limit() && layout.highest >= layout.Limit() ==> samples == old(samples)
    {
      StoredOneCases(layout, value);
      var v := layout.Clamp(value);
      var idx := layout.IndexFor(v);
      if idx < 0 {
        assert Stored(layout, [value]) == [] by { StoredOne(layout, value); }
        return;
      }
      assert Stored(layout, [value]) == [v] by { StoredOne(layout, value); }
      SummaryPlusOne(layout, counts[..], totalCount, minValue, maxValue, samples, v);
      ghost var before := counts[..];
      counts[idx] := counts[idx] + 1;
      assert counts[..] == before[idx := before[idx] + 1];
      totalCount := totalCount + 1;
      if v > maxValue { maxValue := v; }
      if v < minValue { minValue := v; }
      samples := samples + [v];
    }

    method RecordCorrectedValue(value: int, expectedInterval: int)
      requires Valid()
      modifies this, counts
      ensures Valid()
      ensures samples == old(samples) + Stored(layout, Backfill(value, expectedInterval))
      ensures layout.highest < layout.Limit() ==>
                var m := |old(samples)|;
                var n := if expectedInterval <= 0 || value <= expectedInterval then 1 else value / expectedInterval;
                && |samples| == m + n && samples[..m] == old(samples)
                && forall i :: 0 <= i < n ==>
                     && (value - i * expectedInterval < 0 ==> samples[m + i] == 0)
                     && (value - i * expectedInterval > layout.highest ==> samples[m + i] == layout.highest)
                     && (0 <= value - i * expectedInterval <= layout.highest ==>
                           samples[m + i] == value - i * expectedInterval)
    {
      StoredBackfill(layout, old(samples), value, expectedInterval);
      RecordValue(value);
      if expectedInterval <= 0 || value <= expectedInterval {
        assert Backfill(value, expectedInterval) == [value];
        return;
      }
      var missing := value - expectedInterval;
      ghost var k: nat := 1;
      BackfillStart(value, expectedInterval);
      assert Steps(value, expectedInterval, 1) == [value];
      while missing >= expectedInterval
        invariant Valid()
        invariant 1 <= k <= value / expectedInterval && missing == value - k * expectedInterval
        invariant samples == old(samples) + Stored(layout, Steps(value, expectedInterval, k))
        decreases missing
      {
        BackfillNext(value, expectedInterval, k);
        StepsNext(layout, value, expectedInterval, k, missing, old(samples));
        RecordValue(missing);
        missing := missing - expectedInterval;
        k := k + 1;
      }
      BackfillEnd(value, expectedInterval, k);
      assert Backfill(value, expectedInterval) == Steps(value, expectedInterval, k);
    }

    /** Folds other in. The code compares only the lengths of the counts arrays; the summary
        stays faithful when the layouts agree as well. */
    method Merge(other: Histogram?)
      requires Valid() && (other != null ==> other.Valid())
      modifies this, counts
      ensures other != null && other.layout == layout ==>
                Valid() && samples == old(samples) + old(other.samples)
      ensures other == null || other.counts.Length != counts.Length ==>
                Valid() && samples == old(samples) && unchanged(this) && unchanged(counts)
      ensures other != null && other.counts.Length == counts.Length ==>
                && totalCount == old(totalCount) + old(other.totalCount)
                && forall i :: 0 <= i < counts.Length ==> counts[i] == old(counts[i]) + old(other.counts[i])
    {
      if other == null || other.counts.Length != counts.Length {
        return;
      }
      ghost var mine, theirs, before := samples, other.samples, counts[..];
      var i := 0;
      while i < counts.Length
        modifies counts
        invariant 0 <= i <= counts.Length
        invariant forall k :: 0 <= k < i ==> counts[k] == old(counts[k]) + old(other.counts[k])
        invariant forall k :: i <= k < counts.Length ==> counts[k] == old(counts[k])
        invariant forall k :: i <= k < counts.Length ==> other.counts[k] == old(other.counts[k])
      {
        counts[i] := counts[i] + other.counts[i];
        i := i + 1;
      }
      var oTotal, oMin, oMax := other.totalCount, other.minValue, other.maxValue;
      totalCount := totalCount + oTotal;
      if oMax > maxValue { maxValue := oMax; }
      if oTotal > 0 && oMin < minValue { minValue := oMin; }
      samples := mine + theirs;
      if other.layout == layout {
        SummaryOfBoth(layout, before, mine, old(other.counts[..]), theirs, counts[..]);
      }
    }

    /** The value reported at a percentile: the top of the slot of the sample whose rank is the
        least one, from 1 on, that covers p percent of the samples. */
    method ValueAtPercentile(p: real) returns (r: int)
      requires Valid()
      ensures samples == [] ==> r == 0
      ensures samples != [] ==>
                exists k: int, v: nat ::
                  CoversLeast(k, p, |samples|) && IsKthSmallest(samples, k, v) && r == layout.HighEquivalentValue(v)
    {
      if totalCount == 0 {
        return 0;
      }
      var target := Rank(p, totalCount);
      RankInRange(p, totalCount);
      r := ValueAtRank(target);
      RankIsCeiling(p, |samples|, target);
    }

    /** The scan over the slots: the top of the slot of the target-th smallest sample. */
    method ValueAtRank(target: int) returns (r: int)
      requires Valid() && 1 <= target <= totalCount
      ensures exists v: nat :: IsKthSmallest(samples, target, v) && r == layout.HighEquivalentValue(v)
    {
      ghost var v := KthSmallestExists(samples, target);
      AllHoldIff(layout, samples);
      var seen := 0;
      var i := 0;
      NothingBelowSlotZero(layout, samples);
      while i < counts.Length
        invariant 0 <= i <= counts.Length
        invariant seen == Count(samples, BelowSlot(layout, i)) < target
      {
        SlotCountAdds(layout, samples, i);
        seen := seen + counts[i];
        if seen >= target {
          RankSlot(layout, samples, target, v, i);
          ValueFromIndexOfIndex(layout, v);
          return layout.HighEquivalentValue(layout.ValueFromIndex(i));
        }
        i := i + 1;
      }
      EverythingBelowTheEnd(layout, samples);
      assert false;
      r := maxValue;
    }
  }

  // ---- what recording does to the tally ----

  lemma TallyGrows(h: Layout, a: seq<int>, b: seq<int>)
    ensures forall i :: Count(a + b, InSlot(h, i)) == Count(a, InSlot(h, i)) + Count(b, InSlot(h, i))
    ensures MinFrom(a + b, MaxInt64) == Min(MinFrom(a, MaxInt64), MinFrom(b, MaxInt64))
    ensures MaxFrom(a + b, 0) == Max(MaxFrom(a, 0), MaxFrom(b, 0))
    ensures AllHold(h, a) && AllHold(h, b) ==> AllHold(h, a + b)
    ensures MinFrom(b, MaxInt64) <= MaxInt64 && MinFrom(a, MaxInt64) <= MaxInt64
  {
    forall i ensures Count(a + b, InSlot(h, i)) == Count(a, InSlot(h, i)) + Count(b, InSlot(h, i)) {
      CountConcat(a, b, InSlot(h, i));
    }
    MinConcat(a, b, MaxInt64);
    MinAtMostStart(a, MaxInt64);
    MaxConcat(a, b, 0);
    AllHoldIff(h, a);
    AllHoldIff(h, b);
    AllHoldIff(h, a + b);
  }

  /** Slot by slot sums are the counts of both bags together. */
  lemma SlotCountsConcat(h: Layout, a: seq<int>, b: seq<int>, c: seq<int>)
    requires |c| == h.CountsLen() && forall i :: 0 <= i < |c| ==> c[i] == SlotCounts(h, a)[i] + SlotCounts(h, b)[i]
    ensures c == SlotCounts(h, a + b)
  {
    forall i | 0 <= i < |c| ensures c[i] == SlotCounts(h, a + b)[i] {
      CountConcat(a, b, InSlot(h, i));
    }
  }

  lemma SeqAssoc(a: seq<int>, b: seq<int>, c: seq<int>)
    ensures a + b + c == a + (b + c)
  {
  }

  lemma SlotCountsPlus(h: Layout, a: seq<int>, v: int, n: nat)
    requires n > 0 && 0 <= v <= MaxInt64 && 0 <= h.IndexFor(v) < h.CountsLen()
    ensures var c := SlotCounts(h, a);
            SlotCounts(h, a + Repeat(v, n)) == c[h.IndexFor(v) := c[h.IndexFor(v)] + n]
  {
    var c, sum := SlotCounts(h, a), SlotCounts(h, a + Repeat(v, n));
    TallyOfRepeat(h, v, n);
    forall i | 0 <= i < |c| ensures sum[i] == c[i] + (if h.IndexFor(v) == i then n else 0) {
      CountConcat(a, Repeat(v, n), InSlot(h, i));
    }
  }

  lemma TallyPlusRepeat(h: Layout, a: seq<int>, v: int, n: nat)
    requires n > 0 && Holds(h, v) && h.highest <= MaxInt64 && h.bucketCount > 0
    requires AllHold(h, a)
    ensures h.IndexFor(v) < h.CountsLen()
    ensures SlotCounts(h, a + Repeat(v, n)) == SlotCounts(h, a)[h.IndexFor(v) := SlotCounts(h, a)[h.IndexFor(v)] + n]
    ensures MinFrom(a + Repeat(v, n), MaxInt64) == Min(MinFrom(a, MaxInt64), v)
    ensures MaxFrom(a + Repeat(v, n), 0) == Max(MaxFrom(a, 0), v)
    ensures AllHold(h, a + Repeat(v, n))
  {
    TrackedIffBelowLimit(h, v);
    AllHoldIff(h, Repeat(v, n));
    TallyGrows(h, a, Repeat(v, n));
    TallyOfRepeat(h, v, n);
    SlotCountsPlus(h, a, v, n);
  }

  lemma SummaryPlusRepeat(h: Layout, c: seq<int>, total: int, least: int, most: int, a: seq<int>, v: int, n: nat)
    requires n > 0 && Holds(h, v) && h.highest <= MaxInt64 && h.bucketCount > 0
    requires Summarises(h, c, total, least, most, a)
    ensures h.IndexFor(v) < |c|
    ensures Summarises(h, c[h.IndexFor(v) := c[h.IndexFor(v)] + n], total + n, Min(least, v), Max(most, v),
                       a + Repeat(v, n))
  {
    TallyPlusRepeat(h, a, v, n);
  }

  lemma SummaryPlusOne(h: Layout, c: seq<int>, total: int, least: int, most: int, a: seq<int>, v: int)
    requires Holds(h, v) && h.highest <= MaxInt64 && h.bucketCount > 0
    requires Summarises(h, c, total, least, most, a)
    ensures h.IndexFor(v) < |c|
    ensures Summarises(h, c[h.IndexFor(v) := c[h.IndexFor(v)] + 1], total + 1, Min(least, v), Max(most, v), a + [v])
  {
    assert [v] == Repeat(v, 1);
    SummaryPlusRepeat(h, c, total, least, most, a, v, 1);
  }

  lemma SummaryOfBoth(h: Layout, c: seq<int>, a: seq<int>, d: seq<int>, b: seq<int>, sum: seq<int>)
    requires c == SlotCounts(h, a) && d == SlotCounts(h, b) && AllHold(h, a) && AllHold(h, b)
    requires |sum| == |c| && forall i :: 0 <= i < |c| ==> sum[i] == c[i] + d[i]
    ensures Summarises(h, sum, |a| + |b|, Min(MinFrom(a, MaxInt64), MinFrom(b, MaxInt64)),
                       Max(MaxFrom(a, 0), MaxFrom(b, 0)), a + b)
    ensures MinFrom(a, MaxInt64) <= MaxInt64 && MinFrom(b, MaxInt64) <= MaxInt64
  {
    SlotCountsConcat(h, a, b, sum);
    TallyGrows(h, a, b);
  }

  lemma {:induction false} TallyOfRepeat(h: Layout, v: int, n: nat)
    requires n > 0 && 0 <= v <= MaxInt64
    ensures forall i :: Count(Repeat(v, n), InSlot(h, i)) == if h.IndexFor(v) == i then n else 0
    ensures MinFrom(Repeat(v, n), MaxInt64) == v
    ensures MaxFrom(Repeat(v, n), 0) == v
  {
    var s := Repeat(v, n);
    assert s[..n - 1] == Repeat(v, n - 1);
    forall i ensures Count(s, InSlot(h, i)) == if h.IndexFor(v) == i then n else 0 {
      if h.IndexFor(v) == i {
        CountAll(s, InSlot(h, i));
      } else {
        CountNone(s, InSlot(h, i));
      }
    }
    if n > 1 {
      TallyOfRepeat(h, v, n - 1);
    } else {
      assert MinFrom(s[..0], MaxInt64) == MaxInt64 && MaxFrom(s[..0], 0) == 0;
    }
  }

  lemma StoredOne(h: Layout, v: int)
    ensures Stored(h, [v]) == if h.Tracked(h.Clamp(v)) then [h.Clamp(v)] else []
  {
    assert [v][..0] == [];
  }

  /** What one recording stores, without the clamp. */
  lemma StoredOneCases(h: Layout, v: int)
    requires h.bucketCount > 0
    ensures 0 <= v <= h.highest && v < h.Limit() ==> Stored(h, [v]) == [v]
    ensures v < 0 ==> Stored(h, [v]) == [0]
    ensures v > h.highest && h.highest < h.Limit() ==> Stored(h, [v]) == [h.highest]
    ensures v >= h.Limit() && h.highest >= h.Limit() ==> Stored(h, [v]) == []
  {
    StoredOne(h, v);
    ClampCases(h, v);
  }

  lemma ClampCases(h: Layout, v: int)
    requires h.bucketCount > 0
    ensures 0 <= v <= h.highest ==> h.Clamp(v) == v
    ensures v < 0 ==> h.Clamp(v) == 0
    ensures v > h.highest ==> h.Clamp(v) == h.highest
    ensures h.Tracked(h.Clamp(v)) <==> h.Clamp(v) < h.Limit()
  {
    TrackedIffBelowLimit(h, h.Clamp(v));
  }

  lemma StoredBackfill(h: Layout, before: seq<int>, value: int, t: int)
    requires h.bucketCount > 0
    ensures h.highest < h.Limit() ==>
              var m, n := |before|, BackfillCount(value, t);
              var after := before + Stored(h, Backfill(value, t));
              && |after| == m + n && after[..m] == before
              && forall i :: 0 <= i < n ==>
                   && (value - i * t < 0 ==> after[m + i] == 0)
                   && (value - i * t > h.highest ==> after[m + i] == h.highest)
                   && (0 <= value - i * t <= h.highest ==> after[m + i] == value - i * t)
  {
    if h.highest < h.Limit() {
      StoredAll(h, Backfill(value, t));
    }
  }

  lemma {:induction false} StoredConcat(h: Layout, a: seq<int>, b: seq<int>)
    ensures Stored(h, a + b) == Stored(h, a) + Stored(h, b)
    decreases |b|
  {
    if b == [] {
      assert a + b == a;
    } else {
      assert (a + b)[..|a + b| - 1] == a + b[..|b| - 1];
      StoredConcat(h, a, b[..|b| - 1]);
    }
  }

  /** RecordValues(v, n) is n calls of RecordValue(v). */
  lemma {:induction false} StoredRepeat(h: Layout, v: int, n: nat)
    ensures Stored(h, Repeat(v, n)) == if h.Tracked(h.Clamp(v)) then Repeat(h.Clamp(v), n) else []
  {
    if n > 0 {
      assert Repeat(v, n)[..n - 1] == Repeat(v, n - 1);
      StoredRepeat(h, v, n - 1);
    }
  }

  /** When highest has a slot nothing is lost: one stored sample per recorded value, the value
      itself inside the range and the nearer end of the range outside it. */
  lemma {:induction false} StoredAll(h: Layout, vs: seq<int>)
    requires h.bucketCount > 0 && NeverDrops(h)
    ensures |Stored(h, vs)| == |vs|
    ensures forall i :: 0 <= i < |vs| ==> Stored(h, vs)[i] == h.Clamp(vs[i])
    ensures forall i :: 0 <= i < |vs| ==>
              && (0 <= vs[i] <= h.highest ==> Stored(h, vs)[i] == vs[i])
              && (vs[i] < 0 ==> Stored(h, vs)[i] == 0)
              && (vs[i] > h.highest ==> Stored(h, vs)[i] == h.highest)
  {
    if vs != [] {
      NoSampleDroppedIff(h);
      StoredAll(h, vs[..|vs| - 1]);
    }
  }

  // ---- coordinated-omission arithmetic ----

  lemma BackfillStart(value: int, t: int)
    requires 0 < t < value
    ensures 1 <= value / t
  {
    DivFloor(value, t);
    MulOrder(value / t, 0, t);
  }

  lemma StepsNext(h: Layout, value: int, t: int, k: nat, v: int, before: seq<int>)
    requires v == value - k * t
    ensures before + Stored(h, Steps(value, t, k)) + Stored(h, [v]) == before + Stored(h, Steps(value, t, k + 1))
  {
    assert Steps(value, t, k + 1) == Steps(value, t, k) + [v];
    StoredConcat(h, Steps(value, t, k), [v]);
    SeqAssoc(before, Stored(h, Steps(value, t, k)), Stored(h, [v]));
  }

  lemma BackfillNext(value: int, t: int, k: nat)
    requires 0 < t < value && value - k * t >= t
    ensures k + 1 <= value / t
    ensures (k + 1) * t == k * t + t
  {
    DivFloor(value, t);
    MulOrder(k + 1, value / t, t);
  }

  lemma BackfillEnd(value: int, t: int, k: nat)
    requires 0 < t < value && k <= value / t && value - k * t < t
    ensures k == value / t
  {
    DivFloor(value, t);
    MulOrder(k + 1, value / t, t);
  }

  // ---- percentiles ----

  lemma PortionMono(p: real, p': real, n: nat)
    requires p <= p'
    ensures Portion(p, n) <= Portion(p', n)
  {
    RealMulMono(Percent(p) / 100.0, Percent(p') / 100.0, n as real);
  }

  lemma CeilMono(x: real, y: real)
    requires x <= y
    ensures Ceil(x) <= Ceil(y)
  {
  }

  lemma RealMulMono(a: real, b: real, c: real)
    requires a <= b && c >= 0.0
    ensures a * c <= b * c
  {
  }

  lemma RankMonotone(p: real, p': real, n: nat)
    requires p <= p'
    ensures Rank(p, n) <= Rank(p', n)
  {
    PortionMono(p, p', n);
    CeilMono(Portion(p, n), Portion(p', n));
  }

  lemma RankInRange(p: real, n: nat)
    requires n > 0
    ensures 1 <= Rank(p, n) <= n
  {
    RealMulMono(Percent(p) / 100.0, 1.0, n as real);
    assert Portion(p, n) <= n as real;
    CeilMono(Portion(p, n), n as real);
    assert Ceil(n as real) == n;
  }

  /** The rank is the least k, from 1 on, with k of n samples making at least p percent. */
  lemma RankIsCeiling(p: real, n: nat, k: int)
    ensures k == Rank(p, n) <==> CoversLeast(k, p, n)
  {
    PortionTimes(p, n);
  }

  lemma PortionTimes(p: real, n: nat)
    ensures 100.0 * Portion(p, n) == (if p < 0.0 then 0.0 else if p > 100.0 then 100.0 else p) * n as real
  {
  }

  lemma NothingBelowSlotZero(h: Layout, s: seq<int>)
    requires forall v :: v in s ==> Holds(h, v)
    ensures Count(s, BelowSlot(h, 0)) == 0
  {
    CountNone(s, BelowSlot(h, 0));
  }

  lemma EverythingBelowTheEnd(h: Layout, s: seq<int>)
    requires h.bucketCount > 0 && forall v :: v in s ==> Holds(h, v)
    ensures Count(s, BelowSlot(h, h.CountsLen())) == |s|
  {
    forall v | v in s ensures BelowSlot(h, h.CountsLen())(v) {
      TrackedIffBelowLimit(h, v);
    }
    CountAll(s, BelowSlot(h, h.CountsLen()));
  }

  lemma SlotCountAdds(h: Layout, s: seq<int>, i: int)
    ensures Count(s, BelowSlot(h, i + 1)) == Count(s, BelowSlot(h, i)) + Count(s, InSlot(h, i))
  {
    CountSplit(s, BelowSlot(h, i), InSlot(h, i), BelowSlot(h, i + 1));
  }

  /** The scan stops in the slot of the sample of the wanted rank. */
  lemma RankSlot(h: Layout, s: seq<int>, k: int, v: int, i: int)
    requires forall x :: x in s ==> Holds(h, x)
    requires IsKthSmallest(s, k, v)
    requires Count(s, BelowSlot(h, i)) < k <= Count(s, BelowSlot(h, i + 1))
    ensures h.IndexFor(v) == i
  {
    forall x | x in s ensures x <= v ==> h.IndexFor(x) <= h.IndexFor(v)
                      ensures v <= x ==> h.IndexFor(v) <= h.IndexFor(x)
    {
      if x <= v {
        IndexForMonotone(h, x, v);
      } else {
        IndexForMonotone(h, v, x);
      }
    }
    if h.IndexFor(v) < i {
      CountMono(s, AtMost(v), BelowSlot(h, i));
    } else if h.IndexFor(v) > i {
      CountMono(s, BelowSlot(h, i + 1), Below(v));
    }
  }

  function Sum(s: seq<int>): int {
    if s == [] then 0 else Sum(s[..|s| - 1]) + s[|s| - 1]
  }

  /** No sample is lost between slots: the counts add up to the number of samples. */
  lemma CountsSumToTotal(h: Layout, s: seq<int>)
    requires h.bucketCount > 0 && AllHold(h, s)
    ensures Sum(SlotCounts(h, s)) == |s|
  {
    AllHoldIff(h, s);
    SumBelow(h, s, h.CountsLen());
    EverythingBelowTheEnd(h, s);
    assert SlotCounts(h, s)[..h.CountsLen()] == SlotCounts(h, s);
  }

  lemma {:induction false} SumBelow(h: Layout, s: seq<int>, n: nat)
    requires n <= h.CountsLen() && forall v :: v in s ==> Holds(h, v)
    ensures Sum(SlotCounts(h, s)[..n]) == Count(s, BelowSlot(h, n))
  {
    if n == 0 {
      NothingBelowSlotZero(h, s);
    } else {
      SumBelow(h, s, n - 1);
      SlotCountAdds(h, s, n - 1);
      assert SlotCounts(h, s)[..n][..n - 1] == SlotCounts(h, s)[..n - 1];
    }
  }

  /** Percentiles never cross: a higher percentile reports at least as much. */
  lemma PercentileMonotone(h: Layout, s: seq<int>, p: real, v: int, p': real, v': int)
    requires s != [] && forall x :: x in s ==> Holds(h, x)
    requires p <= p'
    requires IsKthSmallest(s, Rank(p, |s|), v) && IsKthSmallest(s, Rank(p', |s|), v')
    ensures v >= 0 && v' >= 0
    ensures h.HighEquivalentValue(v) <= h.HighEquivalentValue(v')
  {
    RankMonotone(p, p', |s|);
    KthSmallestMonotone(s, Rank(p, |s|), v, Rank(p', |s|), v');
    HighMonotone(h, v, v');
  }

  lemma HighMonotone(h: Layout, u: nat, v: nat)
    requires u <= v && h.Tracked(u) && h.Tracked(v)
    ensures h.HighEquivalentValue(u) <= h.HighEquivalentValue(v)
  {
    IndexForMonotone(h, u, v);
    ValueFromIndexOfIndex(h, u);
    ValueFromIndexOfIndex(h, v);
    ValueWithinItsSlot(h, u);
    ValueWithinItsSlot(h, v);
    if h.IndexFor(u) < h.IndexFor(v) && v <= h.HighEquivalentValue(u) {
      SameSlotIffEquivalent(h, v, u);
    } else if h.IndexFor(u) < h.IndexFor(v) {
      assert h.HighEquivalentValue(u) < v;
    }
  }

  /** A reported percentile is never below the true order statistic and overstates it by
      less than the unit step or one part in 10^sigFigs. */
  lemma PercentileError(h: Layout, v: nat)
    requires 1 <= h.sigFigs && h.subBucketHalfCountMagnitude + 1 == SubBucketCountMagnitude(h.sigFigs)
    ensures v <= h.HighEquivalentValue(v)
    ensures h.HighEquivalentValue(v) - v < Pow2(h.unitMagnitude)
         || Pow10(h.sigFigs) * (h.HighEquivalentValue(v) - v) <= v
  {
    ValueWithinItsSlot(h, v);
    RelativeError(h, v);
    MulMono(h.HighEquivalentValue(v) - v, h.StepSize(v), Pow10(h.sigFigs));
    MulComm(Pow10(h.sigFigs), h.StepSize(v));
    MulComm(Pow10(h.sigFigs), h.HighEquivalentValue(v) - v);
  }

  /** Merging is recording: whatever the order histograms are merged in, equal bags of
      samples give equal counts, extremes and percentiles. */
  lemma SummaryOfBag(h: Layout, s: seq<int>, t: seq<int>)
    requires multiset(s) == multiset(t)
    requires forall v :: v in s ==> Holds(h, v)
    requires h.highest <= MaxInt64
    ensures |s| == |t| && SlotCounts(h, s) == SlotCounts(h, t)
    ensures MinFrom(s, MaxInt64) == MinFrom(t, MaxInt64) && MaxFrom(s, 0) == MaxFrom(t, 0)
    ensures forall k, v :: IsKthSmallest(s, k, v) <==> IsKthSmallest(t, k, v)
  {
    assert |s| == |multiset(s)| == |multiset(t)| == |t|;
    assert forall v :: v in s <==> v in multiset(s);
    assert forall v :: v in t <==> v in multiset(t);
    forall i ensures Count(s, InSlot(h, i)) == Count(t, InSlot(h, i)) {
      CountOfBag(s, t, InSlot(h, i));
    }
    forall k, v ensures IsKthSmallest(s, k, v) <==> IsKthSmallest(t, k, v) {
      CountOfBag(s, t, Below(v));
      CountOfBag(s, t, AtMost(v));
    }
    if s != [] {
      ExtremesAreExact(s, MaxInt64, 0);
      ExtremesAreExact(t, MaxInt64, 0);
    }
  }
}
