/** The Zipfian selector: a table of cumulative weights searched for a uniform draw. The weights
    are any positive reals (the source's are 1 / (rank + 1)^s); draws and sums are exact. */
module Zipf {
  import opened Arith
  import opened Bits
  import opened Selectors

  predicate Positive(w: seq<real>) { w != [] && forall i :: 0 <= i < |w| ==> w[i] > 0.0 }

  /** The sum of the first n weights. */
  function Prefix(w: seq<real>, n: nat): real
    requires n <= |w|
  {
    if n == 0 then 0.0 else Prefix(w, n - 1) + w[n - 1]
  }

  /** cum[k]: the weights up to and including rank k. */
  function Cum(w: seq<real>, k: nat): real
    requires k < |w|
  {
    Prefix(w, k + 1)
  }

  function Total(w: seq<real>): (t: real)
    requires Positive(w)
    ensures t > 0.0
  {
    PrefixGrows(w, 0, |w|);
    Prefix(w, |w|)
  }

  lemma {:induction false} PrefixGrows(w: seq<real>, a: nat, b: nat)
    requires Positive(w) && a <= b <= |w|
    ensures 0.0 <= Prefix(w, a) <= Prefix(w, b)
    ensures a < b ==> Prefix(w, a) < Prefix(w, b)
  {
    if a < b {
      PrefixGrows(w, a, b - 1);
    } else if a > 0 {
      PrefixGrows(w, a - 1, b - 1);
    }
  }

  /** Inverse CDF: rank is the first whose cumulative weight reaches u * total. */
  ghost predicate IsRank(w: seq<real>, u: real, rank: nat)
    requires Positive(w)
  {
    && rank < |w|
    && u * Total(w) <= Cum(w, rank)
    && forall k :: 0 <= k < rank ==> Cum(w, k) < u * Total(w)
  }

  class Table {
    const cum: array<real>
    const total: real
    ghost const weights: seq<real>

    ghost predicate Valid()
      reads cum
    {
      && Positive(weights) && cum.Length == |weights| && total == Total(weights)
      && forall i :: 0 <= i < |weights| ==> cum[i] == Cum(weights, i)
    }

    /** newZipf over given weights. */
    constructor (w: seq<real>)
      requires Positive(w)
      ensures Valid() && weights == w && fresh(cum)
    {
      var table := new real[|w|](i => 0.0);
      var acc := 0.0;
      var i := 0;
      while i < |w|
        invariant 0 <= i <= |w| && acc == Prefix(w, i)
        invariant forall k :: 0 <= k < i ==> table[k] == Cum(w, k)
      {
        acc := acc + w[i];
        table[i] := acc;
        i := i + 1;
      }
      cum := table;
      total := acc;
      weights := w;
    }

    /** The binary search of sort.Search, then the clamp. The clamp only acts on draws above 1. */
    method Index(u: real) returns (rank: nat)
      requires Valid()
      ensures u <= 1.0 ==> IsRank(weights, u, rank)
      ensures u > 1.0 ==> rank == |weights| - 1
    {
      var target := u * total;
      var i, j := 0, cum.Length;
      while i < j
        invariant 0 <= i <= j <= cum.Length
        invariant forall k :: 0 <= k < i ==> Cum(weights, k) < target
        invariant j < cum.Length ==> target <= Cum(weights, j)
      {
        var h := (i + j) / 2;
        if cum[h] >= target {
          j := h;
        } else {
          CumBelow(weights, h, target);
          i := h + 1;
        }
      }
      SearchEnd(weights, u, i);
      if i >= cum.Length {
        i := cum.Length - 1;
      }
      rank := i;
    }
  }

  lemma CumBelow(w: seq<real>, h: nat, target: real)
    requires Positive(w) && h < |w| && Cum(w, h) < target
    ensures forall k :: 0 <= k <= h ==> Cum(w, k) < target
  {
    forall k | 0 <= k <= h ensures Cum(w, k) < target {
      PrefixGrows(w, k + 1, h + 1);
    }
  }

  /** Where the search can end: short of the table for draws up to 1, past it above 1. */
  lemma SearchEnd(w: seq<real>, u: real, i: nat)
    requires Positive(w) && i <= |w|
    requires forall k :: 0 <= k < i ==> Cum(w, k) < u * Total(w)
    requires i < |w| ==> u * Total(w) <= Cum(w, i)
    ensures i < |w| <==> u <= 1.0
  {
    ScaleTotal(u, Total(w));
    assert Cum(w, |w| - 1) == Total(w);
    if i < |w| {
      PrefixGrows(w, i + 1, |w|);
    }
  }

  lemma ScaleTotal(u: real, t: real)
    requires t > 0.0
    ensures u <= 1.0 <==> u * t <= t
  {
  }

  lemma RankUnique(w: seq<real>, u: real, a: nat, b: nat)
    requires Positive(w) && IsRank(w, u, a) && IsRank(w, u, b)
    ensures a == b
  {
  }

  /** Where rank i's interval starts, as a share of the unit interval. */
  function Edge(w: seq<real>, i: nat): real
    requires Positive(w) && i <= |w|
  {
    Prefix(w, i) / Total(w)
  }

  lemma RankBetween(w: seq<real>, u: real, i: nat)
    requires Positive(w) && i < |w|
    ensures IsRank(w, u, i) <==> u * Total(w) <= Prefix(w, i + 1) && (i == 0 || Prefix(w, i) < u * Total(w))
  {
    var x := u * Total(w);
    if i > 0 {
      assert Cum(w, i - 1) == Prefix(w, i);
      forall k | 0 <= k < i && Prefix(w, i) < x ensures Cum(w, k) < x {
        PrefixGrows(w, k + 1, i);
      }
    }
  }

  /** Rank i is drawn exactly for u in (Edge(i), Edge(i + 1)], a w_i / total share; the head
      also takes everything at or below zero. */
  lemma RankInterval(w: seq<real>, u: real, i: nat)
    requires Positive(w) && i < |w|
    ensures IsRank(w, u, i) <==> u <= Edge(w, i + 1) && (i == 0 || Edge(w, i) < u)
    ensures Edge(w, i + 1) - Edge(w, i) == w[i] / Total(w)
    ensures Edge(w, 0) == 0.0 && Edge(w, |w|) == 1.0
  {
    RankBetween(w, u, i);
    CrossMultiply(u, Prefix(w, i + 1), Total(w));
    CrossMultiply(u, Prefix(w, i), Total(w));
    DivideSum(Prefix(w, i), w[i], Total(w));
    EdgeEnds(w);
  }

  /** With weights that never grow, as 1 / (rank + 1)^s, an earlier rank's share is never smaller. */
  lemma HeadIsHeavier(w: seq<real>, i: nat, j: nat)
    requires Positive(w) && i <= j < |w|
    requires forall k :: 0 <= k < |w| - 1 ==> w[k] >= w[k + 1]
    ensures Edge(w, i + 1) - Edge(w, i) >= Edge(w, j + 1) - Edge(w, j)
  {
    NonIncreasing(w, i, j);
    RankInterval(w, 0.0, i);
    RankInterval(w, 0.0, j);
    ShareOrder(w[j], w[i], Total(w));
  }

  lemma {:induction false} NonIncreasing(w: seq<real>, i: nat, j: nat)
    requires i <= j < |w|
    requires forall k :: 0 <= k < |w| - 1 ==> w[k] >= w[k + 1]
    ensures w[i] >= w[j]
    decreases j - i
  {
    if i < j {
      NonIncreasing(w, i + 1, j);
    }
  }

  lemma ShareOrder(a: real, b: real, t: real)
    requires t > 0.0 && a <= b
    ensures a / t <= b / t
  {
  }

  lemma EdgeEnds(w: seq<real>)
    requires Positive(w)
    ensures Edge(w, 0) == 0.0 && Edge(w, |w|) == 1.0
  {
    var t := Total(w);
    assert Prefix(w, 0) == 0.0;
    assert 0.0 / t == 0.0;
    assert t / t == 1.0;
  }

  lemma CrossMultiply(u: real, p: real, t: real)
    requires t > 0.0
    ensures u * t <= p <==> u <= p / t
    ensures p < u * t <==> p / t < u
  {
    var q := p / t;
    assert q * t == p;
    if u <= q {
      RealOrder(u, q, t);
    } else {
      RealOrder(q, u, t);
    }
  }

  lemma RealOrder(a: real, b: real, t: real)
    requires t > 0.0
    ensures a <= b ==> a * t <= b * t
    ensures a < b ==> a * t < b * t
  {
  }

  lemma DivideSum(a: real, b: real, t: real)
    requires t > 0.0
    ensures (a + b) / t == a / t + b / t
  {
  }

  // ---- how often a rank is drawn ----

  const GRAINS: nat := 0x20_0000_0000_0000

  /** hash01: the top 53 bits of the hash as a fraction. */
  function Hash01(conn: Word, seqNo: Word): real {
    Shr(ConnSeqHash(conn, seqNo), 11) as real / GRAINS as real
  }

  /** How many of the 2^53 fractions fall at or below rank i - 1's upper edge. */
  function Grains(w: seq<real>, i: nat): (m: nat)
    requires Positive(w) && i <= |w|
    ensures m <= GRAINS
  {
    if i == 0 then 0 else
    EdgePositive(w, i);
    Min((Edge(w, i) * GRAINS as real).Floor + 1, GRAINS)
  }

  lemma EdgePositive(w: seq<real>, i: nat)
    requires Positive(w) && i <= |w|
    ensures 0.0 <= Edge(w, i) <= 1.0
    ensures 0 <= (Edge(w, i) * GRAINS as real).Floor <= GRAINS
  {
    PrefixGrows(w, 0, i);
    PrefixGrows(w, i, |w|);
    CrossMultiply(0.0, Prefix(w, i), Total(w));
    CrossMultiply(1.0, Prefix(w, i), Total(w));
    assert 0.0 * Total(w) == 0.0 && 1.0 * Total(w) == Total(w);
    FloorWithin(Edge(w, i), GRAINS);
  }

  lemma FloorWithin(e: real, g: nat)
    requires 0.0 <= e <= 1.0
    ensures 0 <= (e * g as real).Floor <= g
  {
    assert 0.0 <= e * g as real <= g as real;
  }

  lemma GrainsGrow(w: seq<real>, i: nat)
    requires Positive(w) && i < |w|
    ensures Grains(w, i) <= Grains(w, i + 1)
  {
    EdgePositive(w, i);
    EdgePositive(w, i + 1);
    EdgesGrow(w, i);
    FloorScaled(Edge(w, i), Edge(w, i + 1), GRAINS as real);
  }

  lemma EdgesGrow(w: seq<real>, i: nat)
    requires Positive(w) && i < |w|
    ensures Edge(w, i) <= Edge(w, i + 1)
  {
    RankInterval(w, 0.0, i);
    CrossMultiply(0.0, w[i], Total(w));
  }

  lemma FloorScaled(a: real, b: real, c: real)
    requires a <= b && c >= 0.0
    ensures (a * c).Floor <= (b * c).Floor
  {
    assert a * c <= b * c;
  }

  /** The fraction m / 2^53 is at or below edge e exactly when m is at most floor(e * 2^53). */
  lemma GrainBelow(m: nat, e: real)
    ensures m as real / GRAINS as real <= e <==> m <= (e * GRAINS as real).Floor
  {
    CrossMultiply(e, m as real, GRAINS as real);
    var x := e * GRAINS as real;
    assert m as real <= x <==> m <= x.Floor;
  }

  lemma DrawOfGrain(w: seq<real>, m: nat, i: nat)
    requires Positive(w) && i < |w| && m < GRAINS
    ensures IsRank(w, m as real / GRAINS as real, i) <==> Grains(w, i) <= m < Grains(w, i + 1)
  {
    RankInterval(w, m as real / GRAINS as real, i);
    GrainBelow(m, Edge(w, i));
    GrainBelow(m, Edge(w, i + 1));
  }

  /** The sequence numbers at which a connection draws rank i. */
  ghost function RankDraws(w: seq<real>, conn: Word, i: nat): set<int>
    requires Positive(w)
  {
    set s: int | 0 <= s < WORDS && IsRank(w, Hash01(conn, s), i)
  }

  lemma GrainOfHash(h: Word, lo: nat, hi: nat)
    ensures Shr(h, 11) < GRAINS
    ensures lo <= Shr(h, 11) < hi <==> 2048 * lo <= h < 2048 * hi
  {
    ShrSandwich(h, 11);
    ShlIsMul(Shr(h, 11), 11);
    Pow2Concrete();
  }

  /** The hashes at which rank i is drawn. */
  function RankHashes(w: seq<real>, i: nat): set<int>
    requires Positive(w) && i < |w|
  {
    GrainsGrow(w, i);
    Range(2048 * Grains(w, i), 2048 * Grains(w, i + 1))
  }

  lemma DrawIffHash(w: seq<real>, conn: Word, s: Word, i: nat)
    requires Positive(w) && i < |w|
    ensures s in RankDraws(w, conn, i) <==> ConnSeqHash(conn, s) in RankHashes(w, i)
  {
    GrainsGrow(w, i);
    var h := ConnSeqHash(conn, s);
    GrainOfHash(h, Grains(w, i), Grains(w, i + 1));
    DrawOfGrain(w, Shr(h, 11), i);
  }

  lemma RankDrawsMatchHashes(w: seq<real>, conn: Word, i: nat)
    requires Positive(w) && i < |w|
    ensures |RankDraws(w, conn, i)| == 2048 * (Grains(w, i + 1) - Grains(w, i))
  {
    GrainsGrow(w, i);
    var draws, hashes := RankDraws(w, conn, i), RankHashes(w, i);
    forall s | s in draws ensures HashFrom(conn)(s) in hashes && SeqFrom(conn)(HashFrom(conn)(s)) == s {
      HashBijectiveInSeq(conn, s);
      DrawIffHash(w, conn, s, i);
    }
    forall h | h in hashes ensures SeqFrom(conn)(h) in draws && HashFrom(conn)(SeqFrom(conn)(h)) == h {
      HashBijectiveInSeq(conn, h);
      DrawIffHash(w, conn, SeqFrom(conn)(h), i);
    }
    BijectionSize(draws, hashes, HashFrom(conn), SeqFrom(conn));
  }

  /** Over all 2^64 sequence numbers a connection draws rank i in proportion to its weight, to
      within 2048 draws: one grain of the 53-bit fraction. */
  lemma RankShare(w: seq<real>, conn: Word, i: nat)
    requires Positive(w) && i < |w|
    ensures var share := w[i] / Total(w) * WORDS as real;
            share - 2048.0 <= |RankDraws(w, conn, i)| as real <= share + 2048.0
  {
    RankDrawsMatchHashes(w, conn, i);
    GrainsShare(w, i);
    var grains, share := (Grains(w, i + 1) - Grains(w, i)) as real, w[i] / Total(w);
    assert WORDS as real == 2048.0 * GRAINS as real;
    assert share * WORDS as real == 2048.0 * (share * GRAINS as real);
  }

  lemma GrainsShare(w: seq<real>, i: nat)
    requires Positive(w) && i < |w|
    ensures var share := w[i] / Total(w) * GRAINS as real;
            share - 1.0 <= (Grains(w, i + 1) - Grains(w, i)) as real <= share + 1.0
  {
    RankInterval(w, 0.0, i);
    EdgePositive(w, i);
    EdgePositive(w, i + 1);
    var g := GRAINS as real;
    Distribute(Edge(w, i + 1), Edge(w, i), g);
    GrainsNear(w, i);
    GrainsNear(w, i + 1);
  }

  /** Grains(i) is the exact edge rounded: down at the two ends, up to one grain above inside. */
  lemma GrainsNear(w: seq<real>, i: nat)
    requires Positive(w) && i <= |w|
    ensures var exact := Edge(w, i) * GRAINS as real;
            exact <= Grains(w, i) as real <= exact + 1.0
  {
    RankInterval(w, 0.0, 0);
    EdgePositive(w, i);
  }

  lemma Distribute(a: real, b: real, c: real)
    ensures (a - b) * c == a * c - b * c
  {
  }
}
