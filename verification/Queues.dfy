/** The other sustained probes: LPOP on one list, and XREADGROUP ... COUNT 1 on a fleet of streams
    with one consumer group each, connection c working on stream c % n (one stream when n is 1). */
module Queues {
  import opened Names
  import opened Churn

  // ---- LPOP ----

  /** popped and pushed log what the drive took and added. */
  datatype ListState = ListState(list: seq<Name>, next: seq<nat>, popped: seq<Name>, pushed: seq<Name>)

  function ListStart(list: seq<Name>, connections: nat): ListState {
    ListState(list, seq(connections, i => 0), [], [])
  }

  function ListStep(s: ListState, c: nat): ListState {
    if c >= |s.next| then s else
    var k := s.next[c];
    var next := s.next[c := k + 1];
    if k % 2 == 0 then ListState(s.list + [RefillName(c, k)], next, s.popped, s.pushed + [RefillName(c, k)])
    else if s.list == [] then s.(next := next)
    else ListState(s.list[1..], next, s.popped + [s.list[0]], s.pushed)
  }

  function ListRun(s: ListState, schedule: seq<nat>): ListState {
    if schedule == [] then s else ListStep(ListRun(s, schedule[..|schedule| - 1]), schedule[|schedule| - 1])
  }

  ghost predicate ListInv(s: ListState, start: seq<Name>, connections: nat) {
    && |s.next| == connections
    && |s.list| == |start| + Odd(s.next)
    && s.popped + s.list == start + s.pushed
  }

  lemma ListStepInv(s: ListState, start: seq<Name>, connections: nat, c: nat)
    requires ListInv(s, start, connections)
    ensures ListInv(ListStep(s, c), start, connections)
  {
    if c < connections {
      var k := s.next[c];
      OddUpdate(s.next, c, k + 1);
      if k % 2 == 0 {
        var name := [RefillName(c, k)];
        assert s.popped + (s.list + name) == (s.popped + s.list) + name;
        assert (start + s.pushed) + name == start + (s.pushed + name);
      } else {
        assert s.list == [s.list[0]] + s.list[1..];
        assert (s.popped + [s.list[0]]) + s.list[1..] == s.popped + s.list;
      }
    }
  }

  /** From any starting list, under any interleaving: the length is the start plus the pops owed,
      LPOP never meets an empty list, and elements leave in the order they came. */
  lemma {:induction false} LpopSustained(start: seq<Name>, connections: nat, schedule: seq<nat>)
    ensures var s := ListRun(ListStart(start, connections), schedule);
            && ListInv(s, start, connections)
            && s.popped <= start + s.pushed
            && forall c :: 0 <= c < connections && s.next[c] % 2 == 1 ==> s.list != []
  {
    if schedule == [] {
      OddOfStart(connections);
      assert ListStart(start, connections).next == Start({}, connections).next;
    } else {
      var n := |schedule| - 1;
      LpopSustained(start, connections, schedule[..n]);
      ListStepInv(ListRun(ListStart(start, connections), schedule[..n]), start, connections, schedule[n]);
    }
    var s := ListRun(ListStart(start, connections), schedule);
    forall c | 0 <= c < connections && s.next[c] % 2 == 1 ensures s.list != [] {
      OddUpdate(s.next, c, 0);
    }
  }

  // ---- XREADGROUP ----

  /** Undelivered entries of each stream's group. */
  datatype Streams = Streams(undelivered: seq<nat>, next: seq<nat>)

  function StreamStep(s: Streams, c: nat): Streams
    requires |s.undelivered| > 0
  {
    if c >= |s.next| then s else
    var j, k := c % |s.undelivered|, s.next[c];
    var d := s.undelivered[j];
    Streams(s.undelivered[j := if k % 2 == 0 then d + 1 else if d == 0 then 0 else d - 1], s.next[c := k + 1])
  }

  function StreamRun(s: Streams, schedule: seq<nat>): (t: Streams)
    requires |s.undelivered| > 0
    ensures |t.undelivered| == |s.undelivered| && |t.next| == |s.next|
  {
    if schedule == [] then s else StreamStep(StreamRun(s, schedule[..|schedule| - 1]), schedule[|schedule| - 1])
  }

  /** Connections of stream j (out of n) that owe a read. */
  function OddOn(next: seq<nat>, n: nat, j: nat): nat
    requires n > 0
  {
    if next == [] then 0 else
    OddOn(next[..|next| - 1], n, j) + (if (|next| - 1) % n == j then next[|next| - 1] % 2 else 0)
  }

  lemma {:induction false} OddOnUpdate(next: seq<nat>, n: nat, j: nat, c: nat, v: nat)
    requires n > 0 && c < |next|
    ensures OddOn(next[c := v], n, j) == OddOn(next, n, j) + (if c % n == j then v % 2 - next[c] % 2 else 0)
    ensures c % n == j ==> OddOn(next, n, j) >= next[c] % 2
  {
    var last := |next| - 1;
    if c == last {
      assert next[c := v][..last] == next[..last];
    } else {
      assert next[c := v][..last] == next[..last][c := v];
      OddOnUpdate(next[..last], n, j, c, v);
    }
  }

  lemma {:induction false} OddOnZeros(next: seq<nat>, n: nat, j: nat)
    requires n > 0 && forall i :: 0 <= i < |next| ==> next[i] == 0
    ensures OddOn(next, n, j) == 0
  {
    if next != [] {
      OddOnZeros(next[..|next| - 1], n, j);
    }
  }

  ghost predicate Balanced(s: Streams, depths: seq<nat>) {
    && |s.undelivered| == |depths| > 0
    && forall j :: 0 <= j < |depths| ==> s.undelivered[j] == depths[j] + OddOn(s.next, |depths|, j)
  }

  /** One command of connection c moves what stream j is owed by one, and only if c works on j. */
  lemma OddOnStep(next: seq<nat>, n: nat, j: nat, c: nat)
    requires n > 0 && c < |next|
    ensures OddOn(next[c := next[c] + 1], n, j) ==
            OddOn(next, n, j) + (if c % n != j then 0 else if next[c] % 2 == 0 then 1 else -1)
    ensures c % n == j && next[c] % 2 == 1 ==> OddOn(next, n, j) >= 1
  {
    OddOnUpdate(next, n, j, c, next[c] + 1);
  }

  lemma StreamStepAt(s: Streams, depths: seq<nat>, c: nat, j: nat)
    requires Balanced(s, depths) && c < |s.next| && j < |depths|
    ensures StreamStep(s, c).undelivered[j] == depths[j] + OddOn(StreamStep(s, c).next, |depths|, j)
  {
    OddOnStep(s.next, |depths|, j, c);
    assert s.undelivered[j] == depths[j] + OddOn(s.next, |depths|, j);
  }

  lemma StreamStepBalanced(s: Streams, depths: seq<nat>, c: nat)
    requires Balanced(s, depths)
    ensures Balanced(StreamStep(s, c), depths)
  {
    if c < |s.next| {
      var s' := StreamStep(s, c);
      forall j | 0 <= j < |depths| ensures s'.undelivered[j] == depths[j] + OddOn(s'.next, |depths|, j) {
        StreamStepAt(s, depths, c, j);
      }
    }
  }

  /** Each stream on its own keeps its starting depth plus the reads its connections owe, so no
      XREADGROUP finds its stream drained, whatever the depths and the interleaving. */
  lemma {:induction false} XReadGroupSustained(depths: seq<nat>, connections: nat, schedule: seq<nat>)
    requires |depths| > 0
    ensures var s := StreamRun(Streams(depths, seq(connections, i => 0)), schedule);
            && Balanced(s, depths)
            && forall c :: 0 <= c < connections && s.next[c] % 2 == 1 ==> s.undelivered[c % |depths|] > 0
  {
    var start := Streams(depths, seq(connections, i => 0));
    if schedule == [] {
      forall j | 0 <= j < |depths| ensures OddOn(start.next, |depths|, j) == 0 {
        OddOnZeros(start.next, |depths|, j);
      }
    } else {
      var n := |schedule| - 1;
      XReadGroupSustained(depths, connections, schedule[..n]);
      StreamStepBalanced(StreamRun(start, schedule[..n]), depths, schedule[n]);
    }
    var s := StreamRun(start, schedule);
    forall c | 0 <= c < connections && s.next[c] % 2 == 1 ensures s.undelivered[c % |depths|] > 0 {
      OddOnUpdate(s.next, |depths|, c % |depths|, c, 0);
    }
  }
}
