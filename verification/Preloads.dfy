/** What the preloads leave on the server. A preload is one connection sending commands
    0, 1, 2, ... in whole batches of 256, so it always sends PreloadCommands(planned) of them. */
module Preloads {
  import opened Arith
  import opened Bits
  import opened Selectors
  import opened Names
  import opened Churn
  import opened Queues
  import opened Drive
  import opened Run

  // ---- one set ----

  /** setPreload after n commands. */
  function SetAfter(n: nat): set<Name> {
    if n == 0 then {} else SetAfter(n - 1) + {MemberName(n - 1)}
  }

  /** Members m_lo up to m_(hi-1). */
  ghost function Band(lo: nat, hi: nat): (s: set<Name>) {
    set i: nat | lo <= i < hi :: MemberName(i)
  }

  lemma {:induction false} BandSize(lo: nat, hi: nat)
    requires lo <= hi
    ensures |Band(lo, hi)| == hi - lo
    decreases hi - lo
  {
    if lo == hi {
      assert Band(lo, hi) == {};
    } else {
      BandSize(lo, hi - 1);
      BandSnoc(lo, hi - 1);
    }
  }

  lemma BandSnoc(lo: nat, hi: nat)
    requires lo <= hi
    ensures Band(lo, hi + 1) == Band(lo, hi) + {MemberName(hi)}
    ensures MemberName(hi) !in Band(lo, hi)
  {
    if MemberName(hi) in Band(lo, hi) {
      var i: nat :| lo <= i < hi && MemberName(i) == MemberName(hi);
      MemberNameInjective(i, hi);
    }
    forall n | n in Band(lo, hi + 1) ensures n in Band(lo, hi) + {MemberName(hi)} {
      var i: nat :| lo <= i < hi + 1 && MemberName(i) == n;
    }
  }

  lemma {:induction false} SetAfterIsBand(n: nat)
    ensures SetAfter(n) == Band(0, n)
  {
    if n > 0 {
      SetAfterIsBand(n - 1);
      BandSnoc(0, n - 1);
    }
  }

  lemma BandClean(lo: nat, hi: nat, connections: nat)
    ensures Clean(Refill(), Band(lo, hi), connections)
  {
    forall c: nat, k: nat | c < connections && k % 2 == 0 ensures Refill()(c, k) !in Band(lo, hi) {
      if Refill()(c, k) in Band(lo, hi) {
        var i: nat :| lo <= i < hi && MemberName(i) == Refill()(c, k);
        MemberIsNotRefill(i, c, k);
      }
    }
  }

  /** A set probe driven from its preload: the population is the preloaded members plus one for
      every connection whose next sequence number is odd, at every instant of every interleaving. */
  lemma SremFromPreload(members: nat, connections: nat, schedule: seq<nat>)
    requires members > 0
    ensures var s := SremRun(Refill(), Start(SetAfter(PreloadCommands(members)), connections), schedule);
            |s.members| == PreloadCommands(members) + Odd(s.next)
  {
    var n := PreloadCommands(members);
    SetAfterIsBand(n);
    BandSize(0, n);
    BandClean(0, n, connections);
    RefillDistinct();
    SremPopulation(Refill(), SetAfter(n), connections, schedule);
  }

  lemma SpopFromPreload(members: nat, connections: nat, schedule: seq<Event>)
    requires members > 0
    ensures var s := SpopRun(Refill(), Start(SetAfter(PreloadCommands(members)), connections), schedule);
            |s.members| == PreloadCommands(members) + Odd(s.next)
  {
    var n := PreloadCommands(members);
    SetAfterIsBand(n);
    BandSize(0, n);
    BandClean(0, n, connections);
    RefillDistinct();
    SpopPopulation(Refill(), SetAfter(n), connections, schedule);
  }

  /** A warmup of a single command is enough to void the population law of the measured drive that
      follows it: the sequence numbers restart and the name it added is no longer new. */
  lemma RestartBreaks(members: nat, connections: nat)
    requires connections > 0
    ensures !SremHeld(Refill(), SremRun(Refill(), Start(SetAfter(members), connections), [0]).members, connections)
    ensures forall pick: Name ::
              var warm := SpopRun(Refill(), Start(SetAfter(members), connections), [Event(0, pick)]);
              !SpopHeld(Refill(), warm.members, connections)
  {
    RefillDistinct();
    var start, left := Start(SetAfter(members), connections), SetAfter(members) + {RefillName(0, 0)};
    assert !Clean(Refill(), left, connections) by {
      assert Refill()(0, 0) in left;
    }
    PopulationHeldIff(Refill(), left, connections);
    SremRunOne(Refill(), start, 0);
    forall pick: Name
      ensures SpopRun(Refill(), Start(SetAfter(members), connections), [Event(0, pick)]).members == left
    {
      RunOne(Refill(), start, Event(0, pick));
    }
  }

  // ---- two overlapping sets ----

  /** algebraPreload after n commands: sets a and b. */
  function AlgebraAfter(members: nat, n: nat): (set<Name>, set<Name>) {
    if n == 0 then ({}, {}) else
    var (a, b) := AlgebraAfter(members, n - 1);
    var seqNo := n - 1;
    if seqNo % 2 == 0 then (a + {MemberName(seqNo / 2)}, b)
    else (a, b + {MemberName(seqNo / 2 + members / 2)})
  }

  lemma {:induction false} AlgebraBands(members: nat, m: nat)
    ensures AlgebraAfter(members, 2 * m) == (Band(0, m), Band(members / 2, m + members / 2))
  {
    if m == 0 {
      assert Band(0, 0) == {} && Band(members / 2, members / 2) == {};
    } else {
      AlgebraBands(members, m - 1);
      AlgebraNext(members, m - 1, m);
    }
  }

  lemma AlgebraNext(members: nat, k: nat, m: nat)
    requires m == k + 1
    requires AlgebraAfter(members, 2 * k) == (Band(0, k), Band(members / 2, k + members / 2))
    ensures AlgebraAfter(members, 2 * m) == (Band(0, m), Band(members / 2, m + members / 2))
  {
    BandSnoc(0, k);
    BandSnoc(members / 2, k + members / 2);
    AlgebraPair(members, k);
    assert 2 * m == 2 * k + 2;
  }

  /** One even and one odd command add one member to each set. */
  lemma AlgebraPair(members: nat, m: nat)
    ensures var (a, b) := AlgebraAfter(members, 2 * m);
            AlgebraAfter(members, 2 * m + 2) == (a + {MemberName(m)}, b + {MemberName(m + members / 2)})
  {
    var (a, b) := AlgebraAfter(members, 2 * m);
    assert AlgebraAfter(members, 2 * m + 1) == (a + {MemberName(m)}, b);
    assert (2 * m + 1) / 2 == m && (2 * m + 1) % 2 == 1;
  }

  lemma BandsOverlap(m: nat, shift: nat)
    requires shift <= m
    ensures Band(0, m) * Band(shift, m + shift) == Band(shift, m)
    ensures Band(0, m) - Band(shift, m + shift) == Band(0, shift)
    ensures Band(0, m) + Band(shift, m + shift) == Band(0, m + shift)
  {
    var a, b := Band(0, m), Band(shift, m + shift);
    forall n | n in a ensures n in Band(shift, m) || n in Band(0, shift) {
      var i: nat :| 0 <= i < m && MemberName(i) == n;
    }
    forall n | n in Band(0, shift) ensures n !in b {
      if n in b {
        var i: nat :| 0 <= i < shift && MemberName(i) == n;
        var j: nat :| shift <= j < m + shift && MemberName(j) == n;
        MemberNameInjective(i, j);
      }
    }
    forall n | n in Band(0, m + shift) ensures n in a || n in b {
      var i: nat :| 0 <= i < m + shift && MemberName(i) == n;
    }
  }

  /** The two sets the algebra probes combine, for a planned size: both get whole batches, so
      their size is the planned one rounded up to 128 while the shift stays half the plan. */
  lemma AlgebraPreload(members: nat)
    requires members > 0
    ensures var m := Rounded(members, 128);
            var (a, b) := AlgebraAfter(members, PreloadCommands(2 * members));
            && |a| == m && |b| == m
            && |a * b| == m - members / 2
            && |a - b| == members / 2
            && |a + b| == m + members / 2
    ensures Rounded(members, 128) == members <==> members % 128 == 0
  {
    var m, shift := Rounded(members, 128), members / 2;
    RoundedLeast(members, 128);
    assert AlgebraAfter(members, PreloadCommands(2 * members)) == (Band(0, m), Band(shift, m + shift)) by {
      AlgebraRounding(members);
      AlgebraBands(members, m);
    }
    OverlapSizes(m, shift);
  }

  lemma OverlapSizes(m: nat, shift: nat)
    requires shift <= m
    ensures var a, b := Band(0, m), Band(shift, m + shift);
            |a| == m && |b| == m && |a * b| == m - shift && |a - b| == shift && |a + b| == m + shift
  {
    BandsOverlap(m, shift);
    BandSize(0, m);
    BandSize(shift, m + shift);
    BandSize(shift, m);
    BandSize(0, shift);
    BandSize(0, m + shift);
  }

  lemma AlgebraRounding(members: nat)
    requires members > 0
    ensures PreloadCommands(2 * members) == 2 * Rounded(members, 128)
  {
    DivUnique(2 * members, 1, 2 * members, 0);
    var q := (members + 127) / 128;
    DivFloor(members + 127, 128);
    DivUnique(2 * members + 255, 256, q, 2 * members + 255 - 256 * q);
  }

  // ---- streams ----

  datatype Stream = Stream(hasGroup: bool, undelivered: nat)

  const SPREAD_N: nat := 256
  const SPREAD_DEPTH: nat := 64
  const PER_STREAM: nat := 65

  /** One preload command of XReadGroupN; an XADD before the group exists is also undelivered to
      it, since the group starts at id 0. */
  function SpreadStep(streams: seq<Stream>, seqNo: nat): (r: seq<Stream>)
    ensures |r| == |streams|
  {
    var j, local := seqNo / PER_STREAM, seqNo % PER_STREAM;
    if j >= |streams| then streams
    else if local == 0 then streams[j := streams[j].(hasGroup := true)]
    else streams[j := streams[j].(undelivered := streams[j].undelivered + 1)]
  }

  function SpreadAfter(n: nat): (r: seq<Stream>)
    ensures |r| == SPREAD_N
  {
    if n == 0 then seq(SPREAD_N, i => Stream(false, 0)) else SpreadStep(SpreadAfter(n - 1), n - 1)
  }

  /** Where stream j stands after n commands. */
  function SpreadExpected(n: nat, j: nat): Stream {
    if n <= PER_STREAM * j then Stream(false, 0)
    else Stream(true, Min(n - PER_STREAM * j, PER_STREAM) - 1)
  }

  lemma {:induction false} SpreadInvariant(n: nat)
    ensures forall j :: 0 <= j < SPREAD_N ==> SpreadAfter(n)[j] == SpreadExpected(n, j)
  {
    if n > 0 {
      SpreadInvariant(n - 1);
      var q, r := (n - 1) / PER_STREAM, (n - 1) % PER_STREAM;
      assert n - 1 == PER_STREAM * q + r;
    }
  }

  /** The planned preload is a whole number of batches and leaves every stream with its group and
      exactly the planned depth; the sustained probe then keeps each stream at that depth or one
      above per connection in mid-pair. */
  lemma SpreadPreload(connections: nat, schedule: seq<nat>)
    ensures PreloadCommands(SPREAD_N * PER_STREAM) == SPREAD_N * PER_STREAM
    ensures SpreadAfter(SPREAD_N * PER_STREAM) == seq(SPREAD_N, i => Stream(true, SPREAD_DEPTH))
    ensures var s := StreamRun(Streams(seq(SPREAD_N, i => SPREAD_DEPTH), seq(connections, i => 0)), schedule);
            forall j :: 0 <= j < SPREAD_N ==> s.undelivered[j] == SPREAD_DEPTH + OddOn(s.next, SPREAD_N, j)
  {
    PreloadCovers(SPREAD_N * PER_STREAM);
    SpreadInvariant(SPREAD_N * PER_STREAM);
    XReadGroupSustained(seq(SPREAD_N, i => SPREAD_DEPTH), connections, schedule);
  }

  /** XReadGroup's preload of one stream: the group, then one entry per further command. */
  function StreamAfter(n: nat): Stream {
    if n == 0 then Stream(false, 0)
    else if n == 1 then StreamAfter(0).(hasGroup := true)
    else var s := StreamAfter(n - 1); s.(undelivered := s.undelivered + 1)
  }

  lemma {:induction false} StreamAfterIs(n: nat)
    requires n > 0
    ensures StreamAfter(n) == Stream(true, n - 1)
  {
    if n > 1 {
      StreamAfterIs(n - 1);
    }
  }

  /** A planned stream of members entries holds at least that many undelivered, and keeps them. */
  lemma XReadGroupFromPreload(members: nat, connections: nat, schedule: seq<nat>)
    requires members > 0
    ensures var depth := StreamAfter(PreloadCommands(members + 1)).undelivered;
            var s := StreamRun(Streams([depth], seq(connections, i => 0)), schedule);
            && depth >= members
            && s.undelivered[0] == depth + OddOn(s.next, 1, 0)
  {
    var n := PreloadCommands(members + 1);
    PreloadCovers(members + 1);
    StreamAfterIs(n);
    XReadGroupSustained([StreamAfter(n).undelivered], connections, schedule);
  }
}
