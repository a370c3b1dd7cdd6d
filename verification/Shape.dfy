/** The slot arithmetic of the latency histogram: how NewHistogram sizes the counts
    array, and how a value is sent to a slot and a slot back to a value. */
module Shape {
  import opened Bits

  const MaxInt64: nat := 0x7FFF_FFFF_FFFF_FFFF

  function Pow10(n: nat): (p: nat)
    ensures p > 0
  {
    if n == 0 then 1 else 10 * Pow10(n - 1)
  }

  function FloorLog2(v: nat): nat
    requires v > 0
  {
    BitLen(v) - 1
  }

  function CeilLog2(v: nat): nat
    requires v > 0
  {
    BitLen(v - 1)
  }

  /** log2 of subBucketCount: enough sub-buckets for 2 * 10^sigFigs distinct steps. */
  function SubBucketCountMagnitude(sigFigs: nat): nat {
    Max(CeilLog2(2 * Pow10(sigFigs)), 1)
  }

  /** Everything NewHistogram fixes for the lifetime of a histogram. */
  datatype Layout = Layout(highest: nat, sigFigs: nat, unitMagnitude: nat,
                           subBucketHalfCountMagnitude: nat, bucketCount: nat)
  {
    function SubBucketHalfCount(): nat { Pow2(subBucketHalfCountMagnitude) }

    function SubBucketCount(): nat { Pow2(subBucketHalfCountMagnitude + 1) }

    function SubBucketMask(): nat { Shl(SubBucketCount() - 1, unitMagnitude) }

    function CountsLen(): nat { Shl(bucketCount + 1, subBucketHalfCountMagnitude) }

    /** The first value with no slot. */
    function Limit(): nat { Pow2(unitMagnitude + subBucketHalfCountMagnitude + bucketCount) }

    function BucketIndex(value: nat): (bi: nat)
      ensures value < Pow2(bi + unitMagnitude + subBucketHalfCountMagnitude + 1)
      ensures bi > 0 ==> Pow2(bi + unitMagnitude + subBucketHalfCountMagnitude) <= value
    {
      var pow2ceiling := BitLen(Or(value, SubBucketMask()));
      BucketIndexBounds(value, this);
      pow2ceiling - unitMagnitude - (BitLen(SubBucketCount()) - 1)
    }

    function SubBucketIndex(value: nat, bucketIndex: nat): nat {
      Shr(value, bucketIndex + unitMagnitude)
    }

    function CountsIndex(bucketIndex: nat, subBucketIndex: nat): int {
      Shl(bucketIndex + 1, subBucketHalfCountMagnitude) + (subBucketIndex - SubBucketHalfCount())
    }

    /** The slot of a value, or -1 when it has none. */
    function IndexFor(value: int): int {
      if value < 0 then -1 else
      var bi := BucketIndex(value);
      var sbi := SubBucketIndex(value, bi);
      if bi < 0 || bi >= bucketCount || sbi < 0 || sbi >= SubBucketCount() then -1 else
      var idx := CountsIndex(bi, sbi);
      if idx < 0 || idx >= CountsLen() then -1 else idx
    }

    function ValueFromIndex(index: nat): nat {
      var bi := Shr(index, subBucketHalfCountMagnitude) - 1;
      var sbi := And(index, SubBucketHalfCount() - 1) + SubBucketHalfCount();
      if bi < 0 then Shl(sbi - SubBucketHalfCount(), unitMagnitude) else Shl(sbi, bi + unitMagnitude)
    }

    function StepSize(value: nat): nat { Pow2(BucketIndex(value) + unitMagnitude) }

    function LowEquivalentValue(value: nat): nat {
      var bi := BucketIndex(value);
      Shl(SubBucketIndex(value, bi), bi + unitMagnitude)
    }

    function HighEquivalentValue(value: nat): int {
      var bi := BucketIndex(value);
      var lowest := Shl(SubBucketIndex(value, bi), bi + unitMagnitude);
      lowest + Pow2(bi + unitMagnitude) - 1
    }

    /** What RecordValue stores in place of a sample outside [0, highest]. */
    function Clamp(value: int): nat {
      if value > highest then highest else if value < 0 then 0 else value
    }

    predicate Tracked(value: int) { IndexFor(value) >= 0 }
  }

  lemma BucketIndexBounds(value: nat, h: Layout)
    ensures var bi := BitLen(Or(value, h.SubBucketMask())) - h.unitMagnitude - (BitLen(h.SubBucketCount()) - 1);
            && bi >= 0
            && value < Pow2(bi + h.unitMagnitude + h.subBucketHalfCountMagnitude + 1)
            && (bi > 0 ==> Pow2(bi + h.unitMagnitude + h.subBucketHalfCountMagnitude) <= value)
  {
    var top := h.unitMagnitude + h.subBucketHalfCountMagnitude + 1;
    MaskBitLen(h);
    BitLenOr(value, h.SubBucketMask());
    Pow2Mono(h.subBucketHalfCountMagnitude + 1, h.subBucketHalfCountMagnitude + 2);
    BitLenUnique(h.SubBucketCount(), h.subBucketHalfCountMagnitude + 2);
    BitLenBounds(value);
    if BitLen(value) < top {
      Pow2Mono(BitLen(value), top);
    }
  }

  lemma MaskBitLen(h: Layout)
    ensures BitLen(h.SubBucketMask()) == h.unitMagnitude + h.subBucketHalfCountMagnitude + 1
  {
    var m, u := h.subBucketHalfCountMagnitude + 1, h.unitMagnitude;
    ShlPow2(m, u);
    ShlPow2(m - 1, u);
    ShlSucc(Pow2(m) - 1, u);
    ShlMono(Pow2(m - 1), Pow2(m) - 1, u);
    BitLenUnique(h.SubBucketMask(), m + u);
  }

  // ---- the slot map ----

  /** Where a value's bits put it inside its bucket. */
  lemma SubBucketRange(h: Layout, v: nat)
    ensures var sbi := h.SubBucketIndex(v, h.BucketIndex(v));
            && sbi < h.SubBucketCount() == 2 * h.SubBucketHalfCount()
            && (h.BucketIndex(v) > 0 ==> h.SubBucketHalfCount() <= sbi)
  {
    var k := h.BucketIndex(v) + h.unitMagnitude;
    ShrRange(v, h.subBucketHalfCountMagnitude + 1, k);
    ShrRange(v, h.subBucketHalfCountMagnitude, k);
  }

  /** A value and its position, given its bucket; the range checks of indexFor reduce to one. */
  lemma IndexForShape(h: Layout, v: nat)
    ensures var bi := h.BucketIndex(v);
            var m := h.subBucketHalfCountMagnitude;
            var idx := h.CountsIndex(bi, h.SubBucketIndex(v, bi));
            && idx == Shl(bi, m) + h.SubBucketIndex(v, bi)
            && 0 <= idx < Shl(bi, m) + 2 * Pow2(m)
            && (bi > 0 ==> Shl(bi, m) + Pow2(m) <= idx)
            && h.IndexFor(v) == if bi < h.bucketCount then idx else -1
  {
    SubBucketRange(h, v);
    var bi := h.BucketIndex(v);
    var m := h.subBucketHalfCountMagnitude;
    ShlSucc(bi, m);
    if bi < h.bucketCount {
      ShlSucc(h.bucketCount, m);
      ShlMono(bi, h.bucketCount, m);
    }
  }

  /** A value has a slot exactly when it lies below Limit(). */
  lemma TrackedIffBelowLimit(h: Layout, v: nat)
    requires h.bucketCount > 0
    ensures h.Tracked(v) <==> v < h.Limit()
    ensures h.IndexFor(v) < h.CountsLen()
  {
    IndexForShape(h, v);
    var bi := h.BucketIndex(v);
    var base := h.unitMagnitude + h.subBucketHalfCountMagnitude;
    if bi < h.bucketCount {
      Pow2Mono(bi + base + 1, base + h.bucketCount);
    } else {
      Pow2Mono(base + h.bucketCount, bi + base);
    }
  }

  lemma BucketUnique(h: Layout, v: nat, bi: nat)
    requires v < Pow2(bi + h.unitMagnitude + h.subBucketHalfCountMagnitude + 1)
    requires bi > 0 ==> Pow2(bi + h.unitMagnitude + h.subBucketHalfCountMagnitude) <= v
    ensures h.BucketIndex(v) == bi
  {
    var base := h.unitMagnitude + h.subBucketHalfCountMagnitude;
    var b := h.BucketIndex(v);
    if b < bi {
      Pow2Mono(b + base + 1, bi + base);
    } else if bi < b {
      Pow2Mono(bi + base + 1, b + base);
    }
  }

  /** Recording loses nothing below the step size: a value sits in
      [LowEquivalentValue, HighEquivalentValue], an interval StepSize wide. */
  lemma ValueWithinItsSlot(h: Layout, v: nat)
    ensures h.LowEquivalentValue(v) <= v <= h.HighEquivalentValue(v)
    ensures h.HighEquivalentValue(v) == h.LowEquivalentValue(v) + h.StepSize(v) - 1
    ensures h.StepSize(v) == Pow2(h.unitMagnitude) || Shl(h.SubBucketHalfCount(), h.BucketIndex(v) + h.unitMagnitude) <= v
  {
    var bi := h.BucketIndex(v);
    ShrSandwich(v, bi + h.unitMagnitude);
    ShlPow2(h.subBucketHalfCountMagnitude, bi + h.unitMagnitude);
  }

  /** 10^sigFigs steps always fit in half the sub-buckets. */
  lemma HalfCountResolves(sigFigs: nat)
    requires 1 <= sigFigs
    ensures SubBucketCountMagnitude(sigFigs) >= 1
    ensures Pow10(sigFigs) <= Pow2(SubBucketCountMagnitude(sigFigs) - 1)
  {
    var largest := 2 * Pow10(sigFigs);
    BitLenBounds(largest - 1);
    var m := SubBucketCountMagnitude(sigFigs);
    Pow2Mono(BitLen(largest - 1), m);
  }

  /** The resolution promised by sigFigs: a slot is never wider than the unit step or
      one part in 10^sigFigs of the value, whichever is larger. */
  lemma RelativeError(h: Layout, v: nat)
    requires 1 <= h.sigFigs
    requires h.subBucketHalfCountMagnitude + 1 == SubBucketCountMagnitude(h.sigFigs)
    ensures h.StepSize(v) == Pow2(h.unitMagnitude) || Pow10(h.sigFigs) * h.StepSize(v) <= v
  {
    ValueWithinItsSlot(h, v);
    HalfCountResolves(h.sigFigs);
    ShlMono(Pow10(h.sigFigs), h.SubBucketHalfCount(), h.BucketIndex(v) + h.unitMagnitude);
    ShlIsMul(Pow10(h.sigFigs), h.BucketIndex(v) + h.unitMagnitude);
  }

  /** A slot number splits into a bucket and a sub-bucket. */
  lemma ValueFromIndexShape(h: Layout, i: nat) returns (b: nat, s: nat)
    ensures h.ValueFromIndex(i) == Shl(s, b + h.unitMagnitude)
    ensures i == Shl(b, h.subBucketHalfCountMagnitude) + s
    ensures s < 2 * h.SubBucketHalfCount()
    ensures b > 0 ==> h.SubBucketHalfCount() <= s
  {
    var m := h.subBucketHalfCountMagnitude;
    var q := Shr(i, m);
    ShrSandwich(i, m);
    ShlZero(m);
    if q == 0 {
      b, s := 0, i;
    } else {
      b, s := q - 1, And(i, Pow2(m) - 1) + Pow2(m);
      ShlSucc(q - 1, m);
    }
  }

  lemma BucketOfScaled(h: Layout, b: nat, s: nat)
    requires s < 2 * h.SubBucketHalfCount()
    requires b > 0 ==> h.SubBucketHalfCount() <= s
    ensures h.BucketIndex(Shl(s, b + h.unitMagnitude)) == b
    ensures h.SubBucketIndex(Shl(s, b + h.unitMagnitude), b) == s
  {
    var k := b + h.unitMagnitude;
    var m := h.subBucketHalfCountMagnitude;
    ShlPow2(m + 1, k);
    ShlPow2(m, k);
    ShlMono(s, Pow2(m + 1), k);
    if b > 0 {
      ShlMono(Pow2(m), s, k);
    }
    BucketUnique(h, Shl(s, k), b);
    ShrOfStep(Shl(s, k), s, k);
  }

  /** A slot's own value falls back into that slot, at its low end. */
  lemma IndexOfValueFromIndex(h: Layout, i: nat)
    requires h.bucketCount > 0 && i < h.CountsLen()
    ensures h.IndexFor(h.ValueFromIndex(i)) == i
    ensures h.LowEquivalentValue(h.ValueFromIndex(i)) == h.ValueFromIndex(i)
  {
    var b, s := ValueFromIndexShape(h, i);
    BucketOfScaled(h, b, s);
    IndexForShape(h, h.ValueFromIndex(i));
    if b >= h.bucketCount {
      ShlMono(h.bucketCount, b, h.subBucketHalfCountMagnitude);
      ShlSucc(h.bucketCount, h.subBucketHalfCountMagnitude);
    }
  }

  /** The split of a slot number is unique. */
  lemma SplitUnique(b: nat, s: nat, b': nat, s': nat, m: nat)
    requires s < 2 * Pow2(m) && s' < 2 * Pow2(m)
    requires b > 0 ==> Pow2(m) <= s
    requires b' > 0 ==> Pow2(m) <= s'
    requires Shl(b, m) + s == Shl(b', m) + s'
    ensures b == b' && s == s'
  {
    if b < b' {
      ShlSucc(b, m);
      ShlMono(b + 1, b', m);
    } else if b' < b {
      ShlSucc(b', m);
      ShlMono(b' + 1, b, m);
    }
  }

  /** Reading a slot back yields the low end of the values recorded there. */
  lemma ValueFromIndexOfIndex(h: Layout, v: nat)
    requires h.Tracked(v)
    ensures h.ValueFromIndex(h.IndexFor(v)) == h.LowEquivalentValue(v)
    ensures h.HighEquivalentValue(h.ValueFromIndex(h.IndexFor(v))) == h.HighEquivalentValue(v)
  {
    IndexForShape(h, v);
    SubBucketRange(h, v);
    var b, s := ValueFromIndexShape(h, h.IndexFor(v));
    SplitUnique(b, s, h.BucketIndex(v), h.SubBucketIndex(v, h.BucketIndex(v)), h.subBucketHalfCountMagnitude);
    BucketOfScaled(h, b, s);
  }

  /** Larger values never get a smaller slot. */
  lemma IndexForMonotone(h: Layout, u: nat, v: nat)
    requires u <= v && h.Tracked(v)
    ensures h.Tracked(u) && h.IndexFor(u) <= h.IndexFor(v)
  {
    IndexForShape(h, u);
    IndexForShape(h, v);
    var bu, bv := h.BucketIndex(u), h.BucketIndex(v);
    var base := h.unitMagnitude + h.subBucketHalfCountMagnitude;
    if bu == bv {
      ShrMono(u, v, bu + h.unitMagnitude);
    } else if bu < bv {
      ShlMono(bu, bv, h.subBucketHalfCountMagnitude);
    } else {
      Pow2Mono(bv + base + 1, bu + base);
    }
  }

  /** Two tracked values share a slot exactly when one lies in the other's equivalence interval. */
  lemma SameSlotIffEquivalent(h: Layout, u: nat, v: nat)
    requires h.Tracked(u) && h.Tracked(v)
    ensures h.IndexFor(u) == h.IndexFor(v) <==> h.LowEquivalentValue(v) <= u <= h.HighEquivalentValue(v)
  {
    ValueWithinItsSlot(h, u);
    if h.IndexFor(u) == h.IndexFor(v) {
      ValueFromIndexOfIndex(h, u);
      ValueFromIndexOfIndex(h, v);
    } else if h.LowEquivalentValue(v) <= u <= h.HighEquivalentValue(v) {
      SameStep(h, u, v);
    }
  }

  lemma SameStep(h: Layout, u: nat, v: nat)
    requires h.LowEquivalentValue(v) <= u <= h.HighEquivalentValue(v)
    ensures h.BucketIndex(u) == h.BucketIndex(v)
    ensures h.SubBucketIndex(u, h.BucketIndex(u)) == h.SubBucketIndex(v, h.BucketIndex(v))
  {
    var b := h.BucketIndex(v);
    var s := h.SubBucketIndex(v, b);
    var k := b + h.unitMagnitude;
    var m := h.subBucketHalfCountMagnitude;
    SubBucketRange(h, v);
    ShlPow2(m + 1, k);
    ShlPow2(m, k);
    ShlMono(s, Pow2(m + 1), k);
    if b > 0 {
      ShlMono(Pow2(m), s, k);
    }
    BucketUnique(h, u, b);
    ShrOfStep(u, s, k);
  }

  // ---- sizing ----

  predicate Legal(lowest: int, highest: int, sigFigs: int) {
    1 <= lowest && 2 * lowest <= highest <= MaxInt64 && 1 <= sigFigs <= 5
  }

  /** The layout NewHistogram must arrive at: the fewest buckets whose range reaches highest. */
  ghost predicate IsLayoutFor(h: Layout, lowest: int, highest: int, sigFigs: int)
    requires Legal(lowest, highest, sigFigs)
  {
    && h.highest == highest
    && h.sigFigs == sigFigs
    && h.unitMagnitude == FloorLog2(lowest)
    && h.subBucketHalfCountMagnitude + 1 == SubBucketCountMagnitude(sigFigs)
    && JustReaches(h)
  }

  /** The buckets reach highest, and one bucket fewer would not. */
  predicate JustReaches(h: Layout) {
    && h.bucketCount >= 1
    && h.highest <= h.Limit()
    && (h.bucketCount > 1 ==> h.Limit() < 2 * h.highest)
  }

  /** int64 doubling: bit 64 falls off, bit 63 is the sign. */
  function WrapDouble(x: int): int
    requires -0x8000_0000_0000_0000 <= x <= MaxInt64
  {
    if 2 * x > MaxInt64 then 2 * x - 0x1_0000_0000_0000_0000
    else if 2 * x < -0x8000_0000_0000_0000 then 2 * x + 0x1_0000_0000_0000_0000
    else 2 * x
  }

  /** int64(1) << k. */
  function WrapShl64(k: nat): (r: int)
    ensures -0x8000_0000_0000_0000 <= r <= MaxInt64
  {
    if k == 0 then 1 else WrapDouble(WrapShl64(k - 1))
  }

  /** smallestUntrackable after n turns of the sizing loop in int64 arithmetic, ignoring
      the loop's exits, when the first limit is 1 << e. */
  function SmallestUntrackable(e: nat, n: nat): int { WrapShl64(e + n) }

  predicate SizingLoopContinues(su: int, highest: int) {
    su < highest && su <= MaxInt64 / 2
  }

  /** The sizing loop in int64 arithmetic ends exactly when the first limit fits a
      positive int64; otherwise it turns forever with smallestUntrackable at or below zero. */
  lemma SizingLoopEndsIff(e: nat, highest: int)
    requires 1 <= highest <= MaxInt64
    ensures (exists n :: !SizingLoopContinues(SmallestUntrackable(e, n), highest)) <==> e <= 62
  {
    if e <= 62 {
      ShlNoWrap(62);
      Pow2Concrete();
      assert !SizingLoopContinues(SmallestUntrackable(e, 62 - e), highest);
    } else {
      forall n: nat ensures SizingLoopContinues(SmallestUntrackable(e, n), highest) {
        ShlWraps(e + n);
      }
    }
  }

  /** A legal shape on which it never ends: lowest 2^52 with three figures starts at 2^63. */
  lemma SizingLoopForeverExample(n: nat)
    ensures var lowest, highest := 0x10_0000_0000_0000, 0x20_0000_0000_0000;
            && Legal(lowest, highest, 3)
            && SizingLoopContinues(SmallestUntrackable(FloorLog2(lowest) + SubBucketCountMagnitude(3), n), highest)
  {
    ThreeFigures();
    assert Pow2(52) == 0x10_0000_0000_0000 by {
      Pow2Concrete();
      Pow2Add(26, 26);
    }
    BitLenUnique(0x10_0000_0000_0000, 53);
    ShlWraps(63 + n);
  }

  lemma {:induction false} ShlNoWrap(k: nat)
    requires k <= 62
    ensures WrapShl64(k) == Pow2(k)
  {
    if k > 0 {
      ShlNoWrap(k - 1);
      DoubleBelow62(k);
    }
  }

  lemma {:induction false} ShlWraps(k: nat)
    requires k >= 63
    ensures WrapShl64(k) == if k == 63 then -0x8000_0000_0000_0000 else 0
  {
    if k == 63 {
      ShlNoWrap(62);
      Pow2Concrete();
    } else {
      ShlWraps(k - 1);
    }
  }

  lemma DoubleBelow62(n: nat)
    ensures Pow2(n + 1) == 2 * Pow2(n)
    ensures Pow2(n) <= MaxInt64 / 2 ==> Pow2(n + 1) <= 0x4000_0000_0000_0000
    ensures n <= 62 ==> Pow2(n) <= 0x4000_0000_0000_0000
  {
    Pow2Concrete();
    if n < 62 {
      Pow2Mono(n + 1, 62);
    } else {
      Pow2Mono(62, n);
    }
  }

  /** NewHistogram's sizing. The precondition is the one the int64 loop needs to end. */
  method NewLayout(lowest: int, highest: int, sigFigs: int) returns (h: Layout)
    requires Legal(lowest, highest, sigFigs)
    requires FloorLog2(lowest) + SubBucketCountMagnitude(sigFigs) <= 62
    ensures IsLayoutFor(h, lowest, highest, sigFigs)
  {
    h := SizeBuckets(FloorLog2(lowest), SubBucketCountMagnitude(sigFigs), highest, sigFigs);
  }

  method SizeBuckets(unitMagnitude: nat, subBucketCountMagnitude: nat, highest: nat, sigFigs: nat) returns (h: Layout)
    requires 1 <= subBucketCountMagnitude && unitMagnitude + subBucketCountMagnitude <= 62
    requires highest <= MaxInt64
    ensures h.highest == highest && h.sigFigs == sigFigs && h.unitMagnitude == unitMagnitude
    ensures h.subBucketHalfCountMagnitude == subBucketCountMagnitude - 1
    ensures JustReaches(h)
  {
    var subBucketHalfCountMagnitude := subBucketCountMagnitude - 1;
    var subBucketCount := Pow2(subBucketHalfCountMagnitude + 1);
    ShlPow2(subBucketCountMagnitude, unitMagnitude);
    var bucketCount := CountBuckets(unitMagnitude + subBucketHalfCountMagnitude, Shl(subBucketCount, unitMagnitude), highest);
    h := Layout(highest, sigFigs, unitMagnitude, subBucketHalfCountMagnitude, bucketCount);
  }

  method CountBuckets(ghost base: nat, start: nat, highest: int) returns (bucketCount: nat)
    requires base <= 61 && start == Pow2(base + 1)
    requires highest <= MaxInt64
    ensures bucketCount >= 1 && highest <= Pow2(base + bucketCount)
    ensures bucketCount > 1 ==> Pow2(base + bucketCount) < 2 * highest
  {
    var smallestUntrackable := start;
    bucketCount := 1;
    DoubleBelow62(base + 1);
    while smallestUntrackable < highest
      invariant bucketCount >= 1
      invariant smallestUntrackable == Pow2(base + bucketCount) <= 0x4000_0000_0000_0000
      invariant bucketCount > 1 ==> smallestUntrackable < 2 * highest
      decreases highest - smallestUntrackable
    {
      DoubleBelow62(base + bucketCount);
      if smallestUntrackable > MaxInt64 / 2 {
        bucketCount := bucketCount + 1;
        break;
      }
      smallestUntrackable := smallestUntrackable * 2;
      bucketCount := bucketCount + 1;
    }
  }

  /** RecordValue clamps to highest, so every sample lands in a slot when highest does. */
  predicate NeverDrops(h: Layout) { h.highest < h.Limit() }

  lemma NoSampleDroppedIff(h: Layout)
    requires h.bucketCount > 0
    ensures (forall v: int :: h.Tracked(h.Clamp(v))) <==> NeverDrops(h)
  {
    forall v: int ensures h.Tracked(h.Clamp(v)) <==> h.Clamp(v) < h.Limit() {
      TrackedIffBelowLimit(h, h.Clamp(v));
    }
    assert h.Clamp(h.highest) == h.highest;
  }

  predicate IsPow2(v: nat) { exists k: nat | k <= v :: v == Pow2(k) }

  /** The clamp value itself has no slot exactly when highest is a power of two at or above
      the first bucket's end: then a stall clamped to the top is lost, not counted. */
  lemma ClampTargetDroppedIff(h: Layout)
    requires JustReaches(h)
    ensures !NeverDrops(h) <==> IsPow2(h.highest) && h.highest >= Shl(h.SubBucketCount(), h.unitMagnitude)
  {
    var base := h.unitMagnitude + h.subBucketHalfCountMagnitude;
    ShlPow2(h.subBucketHalfCountMagnitude + 1, h.unitMagnitude);
    assert Shl(h.SubBucketCount(), h.unitMagnitude) == Pow2(base + 1);
    TopIsPowerIff(base, h.bucketCount, h.highest);
  }

  lemma TopIsPowerIff(base: nat, bucketCount: nat, highest: nat)
    requires bucketCount >= 1 && highest <= Pow2(base + bucketCount)
    requires bucketCount > 1 ==> Pow2(base + bucketCount) < 2 * highest
    ensures highest == Pow2(base + bucketCount) <==> IsPow2(highest) && highest >= Pow2(base + 1)
  {
    var top := base + bucketCount;
    Pow2Mono(base + 1, top);
    Pow2Exceeds(top);
    if IsPow2(highest) && highest >= Pow2(base + 1) && highest < Pow2(top) {
      var k: nat :| k <= highest && highest == Pow2(k);
      PowersApart(k, top);
      PowersApart(base + 1, k + 1);
      Pow2Mono(k + 1, top);
    }
  }

  lemma {:induction false} Pow2Exceeds(n: nat)
    ensures n < Pow2(n)
  {
    if n > 0 {
      Pow2Exceeds(n - 1);
    }
  }

  lemma PowersApart(a: nat, b: nat)
    ensures Pow2(a) < Pow2(b) <==> a < b
  {
    if a < b {
      Pow2Mono(a, b);
    } else {
      Pow2Mono(b, a);
    }
  }

  /** A shape whose top is lost: 2048 sub-buckets, one bucket, and highest = 2048. */
  lemma ClampTargetDroppedExample()
    ensures var h := Layout(2048, 3, 0, 10, 1);
            && IsLayoutFor(h, 1, 2048, 3)
            && !h.Tracked(h.Clamp(5000))
  {
    Pow2Concrete();
    ThreeFigures();
    var h := Layout(2048, 3, 0, 10, 1);
    TrackedIffBelowLimit(h, h.Clamp(5000));
  }

  /** The layout of NewLatencyHistogram: one minute in nanoseconds, three figures. */
  const LATENCY: Layout := Layout(60_000_000_000, 3, 0, 10, 26)

  lemma ThreeFigures()
    ensures SubBucketCountMagnitude(3) == 11
  {
    assert Pow10(3) == 1000;
    Pow2Concrete();
    BitLenUnique(1999, 11);
  }

  lemma LatencyLayout()
    ensures IsLayoutFor(LATENCY, 1, 60_000_000_000, 3)
    ensures NeverDrops(LATENCY)
  {
    ThreeFigures();
    assert Pow2(36) == 262144 * 262144 by {
      Pow2Concrete();
      Pow2Add(18, 18);
    }
  }

  /** Sizing is a function of its arguments. */
  lemma LayoutUnique(a: Layout, b: Layout, lowest: int, highest: int, sigFigs: int)
    requires Legal(lowest, highest, sigFigs)
    requires IsLayoutFor(a, lowest, highest, sigFigs) && IsLayoutFor(b, lowest, highest, sigFigs)
    ensures a == b
  {
    FewestBuckets(a, b);
    FewestBuckets(b, a);
  }

  /** One bucket fewer would not reach highest. */
  lemma FewestBuckets(a: Layout, b: Layout)
    requires JustReaches(a) && JustReaches(b) && a.highest == b.highest
    requires a.unitMagnitude == b.unitMagnitude && a.subBucketHalfCountMagnitude == b.subBucketHalfCountMagnitude
    ensures b.bucketCount <= a.bucketCount
  {
    var base := a.unitMagnitude + a.subBucketHalfCountMagnitude;
    if a.bucketCount < b.bucketCount {
      Pow2Mono(base + a.bucketCount, base + b.bucketCount - 1);
    }
  }
}
