/** The open-loop schedule of one connection as a queue: operation k is due at
    begin + k * interval, is sent as soon as it is due and the previous reply is in, and
    takes service[k] nanoseconds from send to reply (client overhead and late timers folded in).
    Latency counts from the due time. */
module OpenLoop {
  import opened Arith
  import opened Bits
  import opened Shape
  import opened Histograms

  const SECOND: int := 1_000_000_000

  /** The schedule step of one connection, float rounding aside. */
  function Interval(targetRate: int, nConns: nat): (t: int)
    requires nConns > 0
    ensures t >= 0
    ensures var rate := if targetRate <= 0 then nConns else targetRate;
            t * rate <= SECOND * nConns < (t + 1) * rate
  {
    var rate := if targetRate <= 0 then nConns else targetRate;
    DivFloor(SECOND * nConns, rate);
    MulOrder(SECOND * nConns / rate, 0, rate);
    SECOND * nConns / rate
  }

  function Due(begin: int, t: nat, k: nat): int { begin + k * t }

  /** The instant operation k may go: the instant the reply before it arrived. */
  function Free(begin: int, t: nat, service: seq<nat>, k: nat): int
    requires k <= |service|
    decreases k, 0
  {
    if k == 0 then begin else SendTime(begin, t, service, k - 1) + service[k - 1]
  }

  function SendTime(begin: int, t: nat, service: seq<nat>, k: nat): int
    requires k <= |service|
    decreases k, 1
  {
    Max(Free(begin, t, service, k), Due(begin, t, k))
  }

  function Latency(begin: int, t: nat, service: seq<nat>, k: nat): int
    requires k < |service|
  {
    SendTime(begin, t, service, k) + service[k] - Due(begin, t, k)
  }

  /** The latencies of a whole run. */
  function Latencies(begin: int, t: nat, service: seq<nat>): (s: seq<int>)
    ensures |s| == |service|
  {
    seq(|service|, k requires 0 <= k < |service| => Latency(begin, t, service, k))
  }

  /** Send k of a drive went out as the schedule wants it: not before its due time, not while the
      previous reply was outstanding, and without delay once neither held it up. */
  predicate InTurn(begin: int, t: nat, service: seq<nat>, sends: seq<int>, k: nat)
    requires k < |sends| <= |service| + 1
  {
    && Due(begin, t, k) <= sends[k]
    && (k > 0 ==> sends[k - 1] + service[k - 1] <= sends[k])
    && (sends[k] == Due(begin, t, k) || (k > 0 && sends[k] == sends[k - 1] + service[k - 1]))
  }

  predicate OnSchedule(begin: int, t: nat, service: seq<nat>, sends: seq<int>) {
    |sends| <= |service| + 1 && forall k: nat | k < |sends| :: InTurn(begin, t, service, sends, k)
  }

  /** The schedule leaves no choice: a drive is on it exactly when it sent at SendTime. */
  lemma OnScheduleIff(begin: int, t: nat, service: seq<nat>, sends: seq<int>)
    requires |sends| <= |service| + 1
    ensures OnSchedule(begin, t, service, sends) <==>
            forall k: nat | k < |sends| :: sends[k] == SendTime(begin, t, service, k)
  {
    if OnSchedule(begin, t, service, sends) {
      forall k: nat | k < |sends| ensures sends[k] == SendTime(begin, t, service, k) {
        SentAtSendTime(begin, t, service, sends, k);
      }
    } else if forall k: nat | k < |sends| :: sends[k] == SendTime(begin, t, service, k) {
      forall k: nat | k < |sends| ensures InTurn(begin, t, service, sends, k) {
        SendTimeInTurn(begin, t, service, sends, k);
      }
    }
  }

  lemma {:induction false} SentAtSendTime(begin: int, t: nat, service: seq<nat>, sends: seq<int>, k: nat)
    requires OnSchedule(begin, t, service, sends) && k < |sends|
    ensures sends[k] == SendTime(begin, t, service, k)
  {
    assert InTurn(begin, t, service, sends, k);
    if k == 0 {
      assert Due(begin, t, 0) == begin;
    } else {
      SentAtSendTime(begin, t, service, sends, k - 1);
    }
  }

  lemma SendTimeInTurn(begin: int, t: nat, service: seq<nat>, sends: seq<int>, k: nat)
    requires k < |sends| <= |service| + 1 && sends[k] == SendTime(begin, t, service, k)
    requires k > 0 ==> sends[k - 1] == SendTime(begin, t, service, k - 1)
    ensures InTurn(begin, t, service, sends, k)
  {
    assert Due(begin, t, 0) == begin;
  }

  /** The waiting-time recurrence of a single-server queue with arrivals every t. */
  lemma Recurrence(begin: int, t: nat, service: seq<nat>, k: nat)
    requires k < |service|
    ensures Latency(begin, t, service, k) ==
            (if k == 0 then 0 else Max(0, Latency(begin, t, service, k - 1) - t)) + service[k]
  {
    if k == 0 {
      assert Due(begin, t, 0) == begin;
    } else {
      DueStep(begin, t, k);
      assert Free(begin, t, service, k) == Latency(begin, t, service, k - 1) + Due(begin, t, k - 1);
    }
  }

  lemma DueStep(begin: int, t: nat, k: nat)
    requires k > 0
    ensures Due(begin, t, k) == Due(begin, t, k - 1) + t
  {
    assert k * t == (k - 1) * t + t;
  }

  /** Work due in [j, k] minus the time the schedule allows for it. */
  function Excess(t: nat, service: seq<nat>, j: nat, k: nat): int
    requires j <= k < |service|
  {
    Total(service[j..k + 1]) - (k - j) * t
  }

  /** The same, accumulated operation by operation. */
  function Backlog(t: nat, service: seq<nat>, j: nat, k: nat): int
    requires j <= k < |service|
    decreases k - j
  {
    if j == k then service[k] else Backlog(t, service, j, k - 1) - t + service[k]
  }

  /** The total service of [j, k], summed outright. */
  function Total(s: seq<nat>): int {
    if s == [] then 0 else Total(s[..|s| - 1]) + s[|s| - 1]
  }

  lemma {:induction false} BacklogIsTotal(t: nat, service: seq<nat>, j: nat, k: nat)
    requires j <= k < |service|
    ensures Backlog(t, service, j, k) == Excess(t, service, j, k)
    decreases k - j
  {
    var s := service[j..k + 1];
    assert s[..|s| - 1] == service[j..k] && s[|s| - 1] == service[k];
    if j == k {
      assert Total(service[j..j]) == 0;
    } else {
      BacklogIsTotal(t, service, j, k - 1);
      DueStep(0, t, k - j);
      assert k - 1 + 1 == k;
    }
  }

  /** Latency k is the largest excess over all starting points j <= k. */
  lemma {:induction false} LatencyIsMaxBacklog(begin: int, t: nat, service: seq<nat>, k: nat) returns (busy: nat)
    requires k < |service|
    ensures forall j: nat | j <= k :: Excess(t, service, j, k) <= Latency(begin, t, service, k)
    ensures busy <= k && Latency(begin, t, service, k) == Excess(t, service, busy, k)
  {
    busy := MaxBacklog(begin, t, service, k);
    forall j: nat | j <= k ensures Excess(t, service, j, k) <= Latency(begin, t, service, k) {
      BacklogIsTotal(t, service, j, k);
    }
    BacklogIsTotal(t, service, busy, k);
  }

  lemma {:induction false} MaxBacklog(begin: int, t: nat, service: seq<nat>, k: nat) returns (busy: nat)
    requires k < |service|
    ensures forall j: nat | j <= k :: Backlog(t, service, j, k) <= Latency(begin, t, service, k)
    ensures busy <= k && Latency(begin, t, service, k) == Backlog(t, service, busy, k)
  {
    Recurrence(begin, t, service, k);
    if k == 0 {
      busy := 0;
    } else {
      busy := MaxBacklog(begin, t, service, k - 1);
      forall j: nat | j <= k ensures Backlog(t, service, j, k) <= Latency(begin, t, service, k) {
        if j < k {
          assert Backlog(t, service, j, k - 1) <= Latency(begin, t, service, k - 1);
        }
      }
      if Latency(begin, t, service, k - 1) < t {
        busy := k;
      }
    }
  }

  lemma LatencyNonNegative(begin: int, t: nat, service: seq<nat>, k: nat)
    requires k < |service|
    ensures Latency(begin, t, service, k) >= service[k]
  {
    Recurrence(begin, t, service, k);
  }

  // ---- what the open loop records ----

  /** Every sample the run hands to the histogram, before clamping. */
  function Corrected(latencies: seq<int>, t: nat): seq<int> {
    if latencies == [] then [] else
    Corrected(latencies[..|latencies| - 1], t) + Backfill(latencies[|latencies| - 1], t)
  }

  /** Correction yields {L - i * t : 0 <= i < max(1, L div t)}. */
  lemma BackfillCountIs(value: nat, t: int)
    ensures BackfillCount(value, t) == if t <= 0 then 1 else Max(1, value / t)
  {
    if t > 0 {
      DivFloor(value, t);
      MulOrder(value / t, 1, t);
      MulOrder(1, value / t, t);
      if value == t {
        DivUnique(value, t, 1, 0);
      }
    }
  }

  lemma BackfillOneIff(value: nat, t: int)
    ensures BackfillCount(value, t) >= 1
    ensures BackfillCount(value, t) == 1 <==> t <= 0 || value < 2 * t
  {
    BackfillCountIs(value, t);
    if t > 0 {
      DivFloor(value, t);
      MulOrder(value / t, 2, t);
      MulOrder(2, value / t, t);
    }
  }

  /** An open-loop histogram holds at least one sample an operation, and exactly one an
      operation when and only when no latency reached two intervals. */
  lemma {:induction false} CorrectedCount(latencies: seq<int>, t: nat)
    requires forall i :: 0 <= i < |latencies| ==> latencies[i] >= 0
    ensures |Corrected(latencies, t)| >= |latencies|
    ensures |Corrected(latencies, t)| == |latencies| <==>
            t == 0 || forall i :: 0 <= i < |latencies| ==> latencies[i] < 2 * t
  {
    if latencies != [] {
      var n := |latencies| - 1;
      CorrectedCount(latencies[..n], t);
      BackfillOneIff(latencies[n], t);
      assert forall i :: 0 <= i < n ==> latencies[..n][i] == latencies[i];
    }
  }

  /** A lone stall of m intervals, then instant service. */
  function Stall(m: nat, t: nat): (s: seq<nat>)
    requires m > 0
    ensures |s| == m
  {
    seq(m, i => if i == 0 then Product(m, t) else 0)
  }

  function Product(m: nat, t: nat): (p: nat)
    ensures p == m * t
  {
    MulMono(0, m, t);
    m * t
  }

  lemma {:induction false} StallLatency(begin: int, t: nat, m: nat, k: nat)
    requires k < m
    ensures Latency(begin, t, Stall(m, t), k) == (m - k) * t
  {
    Recurrence(begin, t, Stall(m, t), k);
    if k > 0 {
      StallLatency(begin, t, m, k - 1);
      assert (m - (k - 1)) * t == (m - k) * t + t;
      MulMono(0, m - k, t);
    }
  }

  /** Counting from the due time and correcting on top of it weighs a stall twice: the m
      delayed operations leave m (m + 1) / 2 samples. */
  lemma StallSampleCount(begin: int, t: nat, m: nat)
    requires t > 0 && m > 0
    ensures 2 * |Corrected(Latencies(begin, t, Stall(m, t)), t)| == m * (m + 1)
  {
    StallPrefix(begin, t, m, m);
    var ls := Latencies(begin, t, Stall(m, t));
    assert ls[..m] == ls;
    assert m * (2 * m + 1 - m) == m * (m + 1);
  }

  lemma {:induction false} StallPrefix(begin: int, t: nat, m: nat, n: nat)
    requires t > 0 && 0 <= n <= m && m > 0
    ensures 2 * |Corrected(Latencies(begin, t, Stall(m, t))[..n], t)| == n * (2 * m + 1 - n)
  {
    var ls := Latencies(begin, t, Stall(m, t));
    if n > 0 {
      StallPrefix(begin, t, m, n - 1);
      assert ls[..n][..n - 1] == ls[..n - 1];
      StallLatency(begin, t, m, n - 1);
      BackfillOfMultiple(m - (n - 1), t);
      Triangle(m, n);
    }
  }

  lemma BackfillOfMultiple(q: nat, t: nat)
    requires q > 0 && t > 0
    ensures BackfillCount(q * t, t) == q
  {
    MulMono(1, q, t);
    BackfillCountIs(q * t, t);
    MulComm(q, t);
    DivUnique(q * t, t, q, 0);
  }

  lemma Triangle(m: nat, n: nat)
    ensures n * (2 * m + 1 - n) == (n - 1) * (2 * m + 1 - (n - 1)) + 2 * (m - (n - 1))
  {
  }
}
