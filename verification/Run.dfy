/** What a run makes of its connections once the workers have joined: the request split, the
    merged histogram and the wire bytes; and the single-connection preload. */
module Run {
  import opened Arith
  import opened Bits
  import opened Decimal
  import opened Resp
  import opened Client
  import opened Samples
  import opened Shape
  import opened Histograms
  import opened Drive

  /** Requests per connection; 0 means no request limit. */
  function PerConnRequests(requests: int, connected: nat): (q: nat)
    requires connected > 0
    ensures requests > 0 <==> q > 0
    ensures requests > 0 ==> requests < (q + 1) * connected && (q == 1 || q * connected <= requests)
  {
    if requests <= 0 then 0 else
    DivFloor(requests, connected);
    MulOrder(requests / connected, 0, connected);
    MulOrder(requests / connected, 1, connected);
    if requests / connected < 1 then 1 else requests / connected
  }

  /** Rounded is the least multiple of the pipeline depth that covers the requests. */
  lemma RoundedLeast(requests: nat, pipeline: nat)
    requires pipeline > 0
    ensures requests <= Rounded(requests, pipeline) < requests + pipeline
    ensures Rounded(requests, pipeline) % pipeline == 0
    ensures Rounded(requests, pipeline) == requests <==> requests % pipeline == 0
  {
    var q := (requests + pipeline - 1) / pipeline;
    DivFloor(requests + pipeline - 1, pipeline);
    DivFloor(requests, pipeline);
    MulComm(q, pipeline);
    DivUnique(Rounded(requests, pipeline), pipeline, q, 0);
    if requests % pipeline == 0 {
      MulComm(requests / pipeline, pipeline);
      DivUnique(requests + pipeline - 1, pipeline, requests / pipeline, pipeline - 1);
    }
  }

  const PRELOAD_PIPELINE: nat := 256

  /** How many preload commands one connection sends: every planned one, and as many more as
      fill the last batch. */
  function PreloadCommands(preloadOps: nat): nat {
    Rounded(PerConnRequests(preloadOps, 1), PRELOAD_PIPELINE)
  }

  lemma PreloadCovers(preloadOps: nat)
    requires preloadOps > 0
    ensures preloadOps <= PreloadCommands(preloadOps) < preloadOps + PRELOAD_PIPELINE
    ensures PreloadCommands(preloadOps) == preloadOps <==> preloadOps % PRELOAD_PIPELINE == 0
  {
    DivUnique(preloadOps, 1, preloadOps, 0);
    RoundedLeast(preloadOps, PRELOAD_PIPELINE);
  }

  /** NewLatencyHistogram. */
  method NewLatencyHistogram() returns (h: Histogram)
    ensures fresh(h) && fresh(h.counts) && h.Valid() && h.layout == LATENCY && h.samples == []
  {
    LatencyLayout();
    ThreeFigures();
    h := new Histogram(1, 60_000_000_000, 3);
    LayoutUnique(h.layout, LATENCY, 1, 60_000_000_000, 3);
  }

  /** The samples of all connections, in connection order. */
  ghost function AllSamples(hists: seq<Histogram>): seq<int>
    reads hists
  {
    if hists == [] then [] else AllSamples(hists[..|hists| - 1]) + hists[|hists| - 1].samples
  }

  method MergeAll(hists: seq<Histogram>) returns (merged: Histogram)
    requires forall h :: h in hists ==> h.Valid() && h.layout == LATENCY
    ensures fresh(merged) && merged.Valid() && merged.layout == LATENCY
    ensures merged.samples == AllSamples(hists)
  {
    merged := NewLatencyHistogram();
    var i := 0;
    while i < |hists|
      invariant 0 <= i <= |hists| && merged.Valid() && merged.layout == LATENCY
      invariant fresh(merged) && fresh(merged.counts)
      invariant merged.samples == AllSamples(hists[..i])
      modifies merged, merged.counts
    {
      var h := hists[i];
      assert h in hists;
      merged.Merge(h);
      assert hists[..i + 1][..i] == hists[..i];
      i := i + 1;
    }
    assert hists[..i] == hists;
  }

  /** The percentile a run reports: the top of the slot of the sample of that rank among all
      the samples of all connections. */
  method MergedPercentile(hists: seq<Histogram>, p: real) returns (r: int)
    requires forall h :: h in hists ==> h.Valid() && h.layout == LATENCY
    ensures AllSamples(hists) == [] ==> r == 0
    ensures AllSamples(hists) != [] ==>
              exists k: int, v: nat ::
                && CoversLeast(k, p, |AllSamples(hists)|) && IsKthSmallest(AllSamples(hists), k, v)
                && r == LATENCY.HighEquivalentValue(v)
  {
    var merged := MergeAll(hists);
    r := merged.ValueAtPercentile(p);
  }

  /** One connection's measured traffic. */
  datatype Traffic = Traffic(replies: seq<Reply>, count: nat, sentBefore: bytes, readBefore: nat)

  ghost predicate Measured(cl: Client, gen: CommandGen, conn: nat, m: Traffic)
    reads cl, cl.conn
  {
    AtHead(cl, gen, conn, m.replies, m.count, m.sentBefore, m.readBefore)
  }

  /** The summed frame lengths of the measured replies. */
  function ReplyBytes(ms: seq<Traffic>): nat {
    if ms == [] then 0 else
    var m := ms[|ms| - 1];
    ReplyBytes(ms[..|ms| - 1]) + FrameBytes(m.replies, Min(m.count, |m.replies|))
  }

  /** The summed lengths of the measured commands, drawn from sequence number 0 on. */
  function CommandBytes(gen: CommandGen, ms: seq<Traffic>): nat {
    if ms == [] then 0 else
    CommandBytes(gen, ms[..|ms| - 1]) + |EncodeCommands(Issue(gen, |ms| - 1, ms[|ms| - 1].count))|
  }

  /** Adding up the connections' counts past their baselines. */
  method WireBytes(clients: seq<Client>, baseRead: seq<int>, baseWritten: seq<int>, gen: CommandGen, ghost ms: seq<Traffic>)
    returns (bytesRead: int, bytesWritten: int)
    requires |baseRead| == |baseWritten| == |clients| == |ms|
    requires forall i :: 0 <= i < |clients| ==>
               Measured(clients[i], gen, i, ms[i]) && AtBaseline(ms[i], baseRead[i], baseWritten[i])
    ensures bytesRead == ReplyBytes(ms) && bytesWritten == CommandBytes(gen, ms)
  {
    bytesRead, bytesWritten := 0, 0;
    var i := 0;
    while i < |clients|
      invariant 0 <= i <= |clients|
      invariant bytesRead == ReplyBytes(ms[..i]) && bytesWritten == CommandBytes(gen, ms[..i])
    {
      var cl := clients[i];
      assert Measured(cl, gen, i, ms[i]);
      WireIsPipeline(ms[i].sentBefore, gen, i, ms[i].count);
      bytesRead := bytesRead + (cl.conn.read - baseRead[i]);
      bytesWritten := bytesWritten + (cl.conn.written - baseWritten[i]);
      assert ms[..i + 1][..i] == ms[..i];
      i := i + 1;
    }
    assert ms[..i] == ms;
  }

  // ---- the warm drive, the baselines and the measured drive ----

  predicate AtBaseline(m: Traffic, baseRead: int, baseWritten: int) {
    baseRead == m.readBefore && baseWritten == |m.sentBefore|
  }

  datatype Mode = Closed(pipeline: nat) | Open(interval: nat)

  /** The far end of one connection: what it answers, and how long each answer takes. */
  datatype Peer = Peer(replies: seq<Reply>, tail: bytes, service: seq<nat>)

  predicate Answering(mode: Mode, peer: Peer) {
    && (mode.Closed? ==> mode.pipeline >= 1)
    && Server(peer.replies, peer.tail) && |peer.service| == |peer.replies|
  }

  /** The same far end once n commands have been answered. */
  function After(peer: Peer, n: nat): Peer
    requires n <= |peer.replies| == |peer.service|
  {
    Peer(peer.replies[n..], peer.tail, peer.service[n..])
  }

  lemma AnsweringAfter(mode: Mode, peer: Peer, n: nat)
    requires Answering(mode, peer) && n <= |peer.replies|
    ensures Answering(mode, After(peer, n))
  {
    var later := After(peer, n);
    forall i | 0 <= i <= |later.replies| ensures Proper(later.replies, later.tail, i) {
      assert Proper(peer.replies, peer.tail, n + i);
    }
  }

  predicate Unbroken(exit: Exit) { exit == Expired || exit == Complete }

  /** What one drive finds around it: the context's verdict at each head check and in each wait, and
      the clock. */
  datatype World = World(expired: nat -> bool, cut: nat -> bool, sentAt: nat -> int, readAt: nat -> int, begin: int)

  /** Commands between two head checks. */
  function Batch(mode: Mode): nat { match mode case Closed(pipeline) => pipeline case Open(_) => 1 }

  /** So many replies last the drive: to a head check that finds the context expired, or to the end
      of the connection's share. */
  ghost predicate Enough(mode: Mode, perConnReq: nat, world: World, have: nat) {
    || (exists k: nat :: world.expired(k) && k * Batch(mode) <= have)
    || (Batch(mode) > 0 && perConnReq > 0 && Rounded(perConnReq, Batch(mode)) <= have)
  }

  /** What the context says of how far a drive has got: no further than any head check that finds it
      expired; ended by it only where it does; and otherwise at the end of the share. */
  ghost predicate EndsWith(mode: Mode, perConnReq: nat, world: World, exit: Exit, issued: nat) {
    && (forall k: nat :: world.expired(k) ==> issued <= k * Batch(mode))
    && (exit == Expired ==> exists k: nat :: issued == k * Batch(mode) && (world.expired(k) || world.cut(k)))
    && (exit == Complete ==> Batch(mode) > 0 && perConnReq > 0 && issued == Rounded(perConnReq, Batch(mode)))
  }

  lemma ClosedEnds(pipeline: nat, perConnReq: nat, world: World, exit: Exit, generated: nat, issued: nat, turns: nat)
    requires pipeline >= 1 && issued <= generated && Live(world.expired, turns)
    requires exit.Expired? <==> world.expired(turns)
    requires turns * pipeline <= issued && generated <= turns * pipeline + pipeline
    requires exit.Expired? || exit.Complete? ==> issued == turns * pipeline
    requires exit.Complete? ==> perConnReq > 0 && issued == Rounded(perConnReq, pipeline)
    requires perConnReq > 0 ==> generated <= Rounded(perConnReq, pipeline)
    ensures EndsWith(Closed(pipeline), perConnReq, world, exit, issued)
    ensures Enough(Closed(pipeline), perConnReq, world, issued) && exit.ReadFailed? ==> generated == issued
  {
    forall k: nat | world.expired(k)
      ensures issued <= k * pipeline && (exit.ReadFailed? ==> generated <= k * pipeline)
    {
      MulOrder(turns, k, pipeline);
      MulOrder(turns + 1, k, pipeline);
    }
  }

  lemma RoundedToOne(n: nat)
    ensures Rounded(n, 1) == n
  {
  }

  lemma OpenEnds(interval: nat, perConnReq: nat, world: World, service: seq<nat>, exit: Exit, issued: nat, sent: nat)
    requires issued <= sent <= issued + 1 && issued <= |service|
    requires Uncut(world.expired, world.cut, world.begin, interval, service, issued)
    requires exit.Complete? <==> !world.expired(issued) && perConnReq > 0 && issued == perConnReq
    requires exit.Expired? <==>
               if perConnReq > 0 && issued == perConnReq then world.expired(issued)
               else CutShort(world.expired, world.cut, world.begin, interval, service, issued)
    requires perConnReq > 0 ==> sent <= perConnReq
    ensures EndsWith(Open(interval), perConnReq, world, exit, issued)
    ensures Enough(Open(interval), perConnReq, world, issued) && exit.ReadFailed? ==> sent == issued
  {
    RoundedToOne(perConnReq);
    assert issued == issued * Batch(Open(interval));
    forall k: nat | world.expired(k) ensures issued <= k && (exit.ReadFailed? ==> issued < k) {
      if k < issued {
        assert CutShort(world.expired, world.cut, world.begin, interval, service, k);
      }
    }
  }

  /** One drive of one connection on a histogram of its own. */
  method DriveOnce(mode: Mode, cl: Client, cts: Counters, gen: CommandGen, conn: nat, perConnReq: nat, peer: Peer,
                   world: World)
    returns (h: Histogram, exit: Exit, issued: nat)
    requires Answering(mode, peer) && Aligned(cl)
    modifies cl, cl.conn, cts
    ensures fresh(h) && h.Valid() && h.layout == LATENCY && issued <= |peer.replies|
    ensures Unbroken(exit) ==> AtHead(cl, gen, conn, peer.replies, issued, old(cl.conn.outgoing), old(cl.conn.read))
    ensures EndsWith(mode, perConnReq, world, exit, issued)
    ensures Unbroken(exit) || cl.failed || !Enough(mode, perConnReq, world, |peer.replies|)
    ensures FaultsSeen(cl, old(cl.failed), old(cl.conn.writes))
    ensures cts.errs == old(cts.errs) + (if Unbroken(exit) then 0 else 1)
  {
    h := NewLatencyHistogram();
    LatencyLayout();
    match mode
    case Closed(pipeline) =>
      var generated, turns;
      exit, generated, issued, turns := DriveClosed(cl, h, cts, gen, conn, pipeline, perConnReq, peer.replies,
                                                    peer.tail, world.expired, world.sentAt, world.readAt);
      ClosedEnds(pipeline, perConnReq, world, exit, generated, issued, turns);
    case Open(interval) =>
      ghost var sends;
      exit, issued, sends := DriveOpen(cl, h, cts, gen, conn, interval, perConnReq, peer.replies, peer.tail,
                                       world.begin, peer.service, world.expired, world.cut);
      OpenEnds(interval, perConnReq, world, peer.service, exit, issued, |sends|);
  }

  ghost predicate Separate(clients: seq<Client>) {
    forall i, j :: 0 <= i < j < |clients| ==> clients[i] != clients[j] && clients[i].conn != clients[j].conn
  }

  ghost function Conns(clients: seq<Client>): set<CountingConn> { set c | c in clients :: c.conn }

  ghost predicate Ready(mode: Mode, clients: seq<Client>, peers: seq<Peer>)
    reads clients, Conns(clients)
  {
    && |peers| == |clients| && Separate(clients)
    && forall i :: 0 <= i < |clients| ==> Answering(mode, peers[i]) && Aligned(clients[i])
  }

  /** How a connection stands. */
  datatype Standing = Standing(sent: bytes, read: nat, failed: bool, writes: nat)

  ghost function StandingOf(cl: Client): Standing
    reads cl, cl.conn
  {
    Standing(cl.conn.outgoing, cl.conn.read, cl.failed, cl.conn.writes)
  }

  ghost function Standings(clients: seq<Client>): (ss: seq<Standing>)
    reads clients, Conns(clients)
    ensures |ss| == |clients| && forall i :: 0 <= i < |clients| ==> ss[i] == StandingOf(clients[i])
  {
    seq(|clients|, i requires 0 <= i < |clients| reads clients, Conns(clients) => StandingOf(clients[i]))
  }

  ghost predicate Untouched(cl: Client, was: Standing)
    reads cl, cl.conn
  {
    Aligned(cl) && StandingOf(cl) == was
  }

  /** Its drive was ended by the network or by the server: a write since has failed, or one before,
      or so many replies do not last a drive. */
  ghost predicate GaveOut(cl: Client, mode: Mode, perConnReq: nat, world: World, have: nat, was: Standing)
    reads cl`failed, cl.conn`writes
  {
    (cl.failed && FaultsSeen(cl, was.failed, was.writes)) || !Enough(mode, perConnReq, world, have)
  }

  /** Warmed by n commands, and nothing left over on either side. */
  ghost predicate Warmed(cl: Client, mode: Mode, peer: Peer, left: Peer, n: nat, world: World, was: Standing)
    reads cl, cl.conn
  {
    && Aligned(cl) && FaultsBetween(cl.conn.faults, was, StandingOf(cl))
    && Behind(peer, left, n) && Answering(mode, left) && WarmUses(mode, world, n)
  }

  /** The writer is out of order in the second standing if it was in the first or a write between
      them has failed. */
  predicate FaultsBetween(faults: nat -> bool, was: Standing, now: Standing) {
    was.writes <= now.writes && (now.failed <==> was.failed || FaultIn(faults, was.writes, now.writes))
  }

  /** A warm drive uses no more replies than any check that finds the context expired. */
  ghost predicate WarmUses(mode: Mode, warmWorld: World, n: nat) {
    forall k: nat :: warmWorld.expired(k) ==> n <= k * Batch(mode)
  }

  method WarmOne(mode: Mode, cl: Client, gen: CommandGen, conn: nat, peer: Peer, world: World)
    returns (ok: bool, left: Peer, ghost n: nat)
    requires Answering(mode, peer) && Aligned(cl)
    modifies cl, cl.conn
    ensures ok ==> Warmed(cl, mode, peer, left, n, world, old(StandingOf(cl)))
    ensures !ok ==> GaveOut(cl, mode, 0, world, |peer.replies|, old(StandingOf(cl)))
  {
    var cts := new Counters();
    var _, exit, issued := DriveOnce(mode, cl, cts, gen, conn, 0, peer, world);
    n, ok := issued, Unbroken(exit);
    left := After(peer, issued);
    AnsweringAfter(mode, peer, issued);
  }

  /** warm: every connection driven on throwaway counters and histograms, without a request limit.
      A connection that fails leaves its streams in no known state: the model stops there. */
  method Warm(mode: Mode, clients: seq<Client>, gen: CommandGen, peers: seq<Peer>, worlds: seq<World>)
    returns (ok: bool, left: seq<Peer>, ghost warmed: seq<nat>)
    requires Ready(mode, clients, peers) && |worlds| == |clients|
    modifies clients, Conns(clients)
    ensures ok ==> |left| == |warmed| == |clients|
    ensures ok ==> forall i :: 0 <= i < |clients| ==>
              Warmed(clients[i], mode, peers[i], left[i], warmed[i], worlds[i], old(Standings(clients))[i])
    ensures !ok ==> exists i | 0 <= i < |clients| ::
              GaveOut(clients[i], mode, 0, worlds[i], |peers[i].replies|, old(Standings(clients))[i])
  {
    ghost var was := Standings(clients);
    left, warmed := [], [];
    var i := 0;
    while i < |clients|
      invariant 0 <= i <= |clients| && |left| == |warmed| == i
      invariant forall k :: i <= k < |clients| ==> Untouched(clients[k], was[k])
      invariant forall k :: 0 <= k < i ==>
                  Warmed(clients[k], mode, peers[k], left[k], warmed[k], worlds[k], was[k])
    {
      assert clients[i].conn in Conns(clients) && Untouched(clients[i], was[i]);
      var rest;
      ghost var n;
      ok, rest, n := WarmOne(mode, clients[i], gen, i, peers[i], worlds[i]);
      if !ok {
        return;
      }
      left, warmed := left + [rest], warmed + [n];
      i := i + 1;
    }
    ok := true;
  }

  /** n commands further on. */
  ghost predicate Behind(before: Peer, now: Peer, n: nat) {
    n <= |before.replies| == |before.service| && now == After(before, n)
  }

  /** The counters of every connection as they stand. */
  method Baselines(clients: seq<Client>) returns (read: seq<int>, written: seq<int>)
    ensures |read| == |written| == |clients|
    ensures forall i :: 0 <= i < |clients| ==> read[i] == clients[i].conn.read && written[i] == clients[i].conn.written
  {
    read, written := [], [];
    var i := 0;
    while i < |clients|
      invariant 0 <= i <= |clients| && |read| == |written| == i
      invariant forall k :: 0 <= k < i ==> read[k] == clients[k].conn.read && written[k] == clients[k].conn.written
    {
      read, written := read + [clients[i].conn.read], written + [clients[i].conn.written];
      i := i + 1;
    }
  }

  /** The context never expires, neither at a head check nor in a wait. */
  ghost predicate NeverEnds(world: World) { Endless(world.expired) && Endless(world.cut) }

  /** With a share to serve and a context that never expires the share is served whole. */
  ghost predicate Shared(mode: Mode, perConnReq: nat, world: World, count: nat) {
    perConnReq > 0 && Batch(mode) > 0 && NeverEnds(world) ==> count == Rounded(perConnReq, Batch(mode))
  }

  /** Its measured traffic, from where it stood. */
  ghost predicate Driven(cl: Client, mode: Mode, gen: CommandGen, conn: nat, perConnReq: nat, peer: Peer, world: World,
                         m: Traffic, was: Standing)
    reads cl, cl.conn
  {
    && Measured(cl, gen, conn, m) && m.replies == peer.replies && m.sentBefore == was.sent && m.readBefore == was.read
    && Shared(mode, perConnReq, world, m.count) && FaultsSeen(cl, was.failed, was.writes)
  }

  method MeasureOne(mode: Mode, cl: Client, cts: Counters, gen: CommandGen, conn: nat, perConnReq: nat, peer: Peer,
                    world: World)
    returns (ok: bool, ghost m: Traffic)
    requires Answering(mode, peer) && Aligned(cl)
    modifies cl, cl.conn, cts
    ensures ok ==> Driven(cl, mode, gen, conn, perConnReq, peer, world, m, old(StandingOf(cl)))
    ensures !ok ==> GaveOut(cl, mode, perConnReq, world, |peer.replies|, old(StandingOf(cl)))
    ensures cts.errs == old(cts.errs) + (if ok then 0 else 1)
  {
    ghost var was := StandingOf(cl);
    var _, exit, n := DriveOnce(mode, cl, cts, gen, conn, perConnReq, peer, world);
    ok, m := Unbroken(exit), Traffic(peer.replies, n, was.sent, was.read);
  }

  /** The measured drives of all connections. */
  method DriveAll(mode: Mode, clients: seq<Client>, cts: Counters, gen: CommandGen, perConnReq: nat, peers: seq<Peer>,
                  worlds: seq<World>)
    returns (ok: bool, ghost ms: seq<Traffic>, ghost culprit: nat)
    requires Ready(mode, clients, peers) && |worlds| == |clients|
    modifies clients, Conns(clients), cts
    ensures cts.errs == old(cts.errs) + (if ok then 0 else 1)
    ensures ok ==> |ms| == |clients|
    ensures ok ==> forall i :: 0 <= i < |clients| ==>
              Driven(clients[i], mode, gen, i, perConnReq, peers[i], worlds[i], ms[i], old(Standings(clients))[i])
    ensures !ok ==>
              && culprit < |clients|
              && GaveOut(clients[culprit], mode, perConnReq, worlds[culprit], |peers[culprit].replies|,
                         old(Standings(clients))[culprit])
  {
    ghost var was := Standings(clients);
    ms, culprit := [], 0;
    var i := 0;
    while i < |clients|
      invariant 0 <= i <= |clients| && |ms| == i && cts.errs == old(cts.errs)
      invariant forall k :: i <= k < |clients| ==> Untouched(clients[k], was[k])
      invariant forall k :: 0 <= k < i ==>
                  Driven(clients[k], mode, gen, k, perConnReq, peers[k], worlds[k], ms[k], was[k])
    {
      assert clients[i].conn in Conns(clients) && Untouched(clients[i], was[i]);
      ghost var m;
      ok, m := MeasureOne(mode, clients[i], cts, gen, i, perConnReq, peers[i], worlds[i]);
      if !ok {
        culprit := i;
        return;
      }
      ms := ms + [m];
      i := i + 1;
    }
    ok := true;
  }

  /** Baselines, measured drives and sums. */
  method Measure(mode: Mode, clients: seq<Client>, cts: Counters, gen: CommandGen, perConnReq: nat, peers: seq<Peer>,
                 worlds: seq<World>)
    returns (ok: bool, bytesRead: int, bytesWritten: int, ghost ms: seq<Traffic>, ghost culprit: nat)
    requires Ready(mode, clients, peers) && |worlds| == |clients|
    modifies clients, Conns(clients), cts
    ensures ok ==> |ms| == |clients| && bytesRead == ReplyBytes(ms) && bytesWritten == CommandBytes(gen, ms)
    ensures ok ==> forall i :: 0 <= i < |clients| ==>
              Driven(clients[i], mode, gen, i, perConnReq, peers[i], worlds[i], ms[i], old(Standings(clients))[i])
    ensures !ok ==>
              && culprit < |clients|
              && GaveOut(clients[culprit], mode, perConnReq, worlds[culprit], |peers[culprit].replies|,
                         old(Standings(clients))[culprit])
    ensures cts.errs == old(cts.errs) + (if ok then 0 else 1)
  {
    bytesRead, bytesWritten := 0, 0;
    var baseRead, baseWritten := Baselines(clients);
    ok, ms, culprit := DriveAll(mode, clients, cts, gen, perConnReq, peers, worlds);
    if ok {
      bytesRead, bytesWritten := WireBytes(clients, baseRead, baseWritten, gen, ms);
    }
  }

  /** Run's byte columns end to end: warm drives, baselines, measured drives, sums. When no drive
      failed they are the frame lengths of the measured replies and commands and of nothing else:
      the replies past the warmed ones, and the commands from sequence number 0 again. When one did,
      a write failed, or a server had too few replies for a warm drive, or too few left for the
      measured one. */
  method MeasuredBytes(mode: Mode, clients: seq<Client>, cts: Counters, gen: CommandGen, perConnReq: nat,
                       peers: seq<Peer>, warmWorlds: seq<World>, worlds: seq<World>)
    returns (ok: bool, bytesRead: int, bytesWritten: int, ghost warmed: seq<nat>, ghost ms: seq<Traffic>)
    requires Ready(mode, clients, peers) && |warmWorlds| == |worlds| == |clients|
    modifies clients, Conns(clients), cts
    ensures ok ==> |warmed| == |ms| == |clients|
    ensures ok ==> forall i :: 0 <= i < |clients| ==>
              && warmed[i] <= |peers[i].replies| && ms[i].replies == peers[i].replies[warmed[i]..]
              && ms[i].count <= |ms[i].replies| && Shared(mode, perConnReq, worlds[i], ms[i].count)
    ensures ok ==> bytesRead == ReplyBytes(ms) && bytesWritten == CommandBytes(gen, ms)
    ensures ok ==> cts.errs == old(cts.errs)
    ensures !ok ==> exists i | 0 <= i < |clients| ::
              RunGaveOut(clients[i], mode, perConnReq, warmWorlds[i], worlds[i], |peers[i].replies|,
                         old(Standings(clients))[i])
  {
    bytesRead, bytesWritten, ms := 0, 0, [];
    ghost var was := Standings(clients);
    var left;
    ok, left, warmed := Warm(mode, clients, gen, peers, warmWorlds);
    if !ok {
      return;
    }
    ghost var mid := Standings(clients);
    ghost var i;
    ok, bytesRead, bytesWritten, ms, i := Measure(mode, clients, cts, gen, perConnReq, left, worlds);
    if !ok {
      GaveOutLater(clients[i], mode, perConnReq, warmWorlds[i], worlds[i], |peers[i].replies|, warmed[i],
                   was[i], mid[i]);
    }
  }

  /** It gave out in the warm drive or, whatever number of replies that one may have used, in the
      measured one. */
  ghost predicate RunGaveOut(cl: Client, mode: Mode, perConnReq: nat, warmWorld: World, world: World, have: nat,
                             was: Standing)
    reads cl`failed, cl.conn`writes
  {
    || GaveOut(cl, mode, 0, warmWorld, have, was)
    || exists n: nat :: n <= have && WarmUses(mode, warmWorld, n) && !Enough(mode, perConnReq, world, have - n)
  }

  lemma GaveOutLater(cl: Client, mode: Mode, perConnReq: nat, warmWorld: World, world: World, have: nat, n: nat,
                     was: Standing, mid: Standing)
    requires FaultsBetween(cl.conn.faults, was, mid)
    requires n <= have && WarmUses(mode, warmWorld, n)
    requires GaveOut(cl, mode, perConnReq, world, have - n, mid)
    ensures RunGaveOut(cl, mode, perConnReq, warmWorld, world, have, was)
  {
    if cl.failed && FaultsSeen(cl, mid.failed, mid.writes) {
      FaultSplit(cl.conn.faults, was.writes, mid.writes, cl.conn.writes);
    } else {
      assert WarmUses(mode, warmWorld, n);
    }
  }
}
