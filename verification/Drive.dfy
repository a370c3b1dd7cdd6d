/** One connection driven by the load generator: the closed-loop pipeline and the open-loop
    schedule, on the real client, histogram and counters. The server is a list of replies,
    one per command, followed by bytes no reply can be read from; the verdict of the context at
    each check, the writes that fail and the readings of the clock are whatever the environment
    says. */
module Drive {
  import opened Arith
  import opened Bits
  import opened Decimal
  import opened Resp
  import opened Client
  import opened Shape
  import opened Histograms
  import opened OpenLoop

  datatype Exit = Expired | Complete | WriteFailed | ReadFailed

  type CommandGen = (nat, nat) -> Argv

  class Counters {
    var ops: nat
    var errs: nat
    var nils: nat
    var errReplies: nat

    constructor ()
      ensures ops == 0 && errs == 0 && nils == 0 && errReplies == 0
    {
      ops, errs, nils, errReplies := 0, 0, 0, 0;
    }

    method Record(kind: ReplyKind)
      modifies this
      ensures ops == old(ops) + 1 && errs == old(errs)
      ensures nils == old(nils) + (if kind == ReplyNil then 1 else 0)
      ensures errReplies == old(errReplies) + (if kind == ReplyErr then 1 else 0)
    {
      ops := ops + 1;
      match kind
      case ReplyNil => nils := nils + 1;
      case ReplyErr => errReplies := errReplies + 1;
      case ReplyValue =>
    }

    method Fail()
      modifies this`errs
      ensures errs == old(errs) + 1
    {
      errs := errs + 1;
    }
  }

  /** The first n commands of a connection. */
  function Issue(gen: CommandGen, conn: nat, n: nat): (cmds: seq<Argv>)
    ensures |cmds| == n
  {
    seq(n, s requires 0 <= s < n => gen(conn, s))
  }

  function KindOf(r: Reply): ReplyKind { Classify(Meaning(r)) }

  function Kinds(replies: seq<Reply>): (kinds: seq<ReplyKind>)
    ensures |kinds| == |replies|
  {
    seq(|replies|, i requires 0 <= i < |replies| => KindOf(replies[i]))
  }

  predicate KindIs(kinds: seq<ReplyKind>, replies: seq<Reply>, i: nat)
    requires i < |kinds| == |replies|
  {
    kinds[i] == KindOf(replies[i])
  }

  /** The kinds of these replies, one by one. */
  ghost predicate KindsAre(kinds: seq<ReplyKind>, replies: seq<Reply>) {
    |kinds| == |replies| && forall i: nat :: i < |kinds| ==> KindIs(kinds, replies, i)
  }

  lemma KindsFit(replies: seq<Reply>)
    ensures KindsAre(Kinds(replies), replies)
  {
  }

  /** How many of the first n are of one kind. */
  function CountKind(kinds: seq<ReplyKind>, n: nat, kind: ReplyKind): (k: nat)
    requires n <= |kinds|
    ensures k <= n
  {
    if n == 0 then 0
    else CountKind(kinds, n - 1, kind) + (if kinds[n - 1] == kind then 1 else 0)
  }

  /** What reaches the client after commands from..to of the drive are flushed: a frame each while
      the server has replies, then the bytes that hold none. */
  function Answers(replies: seq<Reply>, tail: bytes, from: nat, to: nat): bytes
    requires from <= to && from <= |replies|
    decreases |replies| - from
  {
    if from == to then [] else if from == |replies| then tail
    else Encode(replies[from]) + Answers(replies, tail, from + 1, to)
  }

  /** The summed frame lengths of the first n replies. */
  function FrameBytes(replies: seq<Reply>, n: nat): nat
    requires n <= |replies|
  {
    if n == 0 then 0 else FrameBytes(replies, n - 1) + |Encode(replies[n - 1])|
  }

  /** Nothing is buffered on either side: every command sent has had its reply read. */
  ghost predicate Aligned(cl: Client)
    reads cl, cl.conn
  {
    cl.Valid() && cl.rbuf == [] && cl.wbuf == [] && cl.conn.incoming == []
  }

  /** What follows the first i replies: another reply, or bytes that hold none. */
  predicate Proper(replies: seq<Reply>, tail: bytes, i: nat)
    requires i <= |replies|
  {
    if i < |replies| then WellFormed(replies[i]) else ReadValue(tail).Fail?
  }

  predicate Server(replies: seq<Reply>, tail: bytes) {
    forall i :: 0 <= i <= |replies| ==> Proper(replies, tail, i)
  }

  /** Rounded up to whole batches. */
  function Rounded(requests: nat, pipeline: nat): nat
    requires pipeline > 0
  {
    DivFloor(requests + pipeline - 1, pipeline);
    MulMono(0, (requests + pipeline - 1) / pipeline, pipeline);
    (requests + pipeline - 1) / pipeline * pipeline
  }

  datatype Tally = Tally(ops: nat, nils: nat, errReplies: nat)

  /** The tallies after the first n replies on top of a starting point. */
  function TallyAfter(start: Tally, kinds: seq<ReplyKind>, n: nat): Tally
    requires n <= |kinds|
  {
    if n == 0 then start else
    var t, kind := TallyAfter(start, kinds, n - 1), kinds[n - 1];
    Tally(t.ops + 1, t.nils + (if kind == ReplyNil then 1 else 0), t.errReplies + (if kind == ReplyErr then 1 else 0))
  }

  /** One operation each, every nil in one tally and every error in another. */
  lemma {:induction false} TallyCounts(start: Tally, kinds: seq<ReplyKind>, n: nat)
    requires n <= |kinds|
    ensures TallyAfter(start, kinds, n) ==
            Tally(start.ops + n, start.nils + CountKind(kinds, n, ReplyNil),
                  start.errReplies + CountKind(kinds, n, ReplyErr))
  {
    if n > 0 {
      TallyCounts(start, kinds, n - 1);
    }
  }

  ghost predicate Tallied(cts: Counters, start: Tally, kinds: seq<ReplyKind>, n: nat)
    requires n <= |kinds|
    reads cts
  {
    Tally(cts.ops, cts.nils, cts.errReplies) == TallyAfter(start, kinds, n)
  }

  /** The outgoing stream after the first n commands, on top of what it carried before. */
  function Wire(base: bytes, gen: CommandGen, conn: nat, n: nat): bytes {
    if n == 0 then base else Wire(base, gen, conn, n - 1) + EncodeCommand(gen(conn, n - 1))
  }

  lemma IssueNext(gen: CommandGen, conn: nat, m: nat, n: nat)
    requires n == m + 1
    ensures Issue(gen, conn, n) == Issue(gen, conn, m) + [gen(conn, m)]
  {
  }

  /** It is a pipeline of exactly those commands. */
  lemma {:induction false} WireIsPipeline(base: bytes, gen: CommandGen, conn: nat, n: nat)
    ensures Wire(base, gen, conn, n) == base + EncodeCommands(Issue(gen, conn, n))
  {
    if n == 0 {
      assert base + [] == base;
    } else {
      WireIsPipeline(base, gen, conn, n - 1);
      IssueNext(gen, conn, n - 1, n);
      OneMoreCommand(Issue(gen, conn, n - 1), gen(conn, n - 1), base);
    }
  }

  lemma OneMoreCommand(cmds: seq<Argv>, argv: Argv, base: bytes)
    ensures base + EncodeCommands(cmds + [argv]) == base + EncodeCommands(cmds) + EncodeCommand(argv)
  {
    EncodeCommandsConcat(cmds, [argv]);
    EncodeOneCommand(argv);
    assert base + (EncodeCommands(cmds) + EncodeCommand(argv)) == base + EncodeCommands(cmds) + EncodeCommand(argv);
  }

  lemma EncodeOneCommand(argv: Argv)
    ensures EncodeCommands([argv]) == EncodeCommand(argv)
  {
    assert [argv][1..] == [];
    assert EncodeCommand(argv) + [] == EncodeCommand(argv);
  }

  /** The next reply of the batch is read as what the server meant, and only running out of
      replies can fail. */
  lemma NextReading(replies: seq<Reply>, tail: bytes, i: nat, to: nat)
    requires Server(replies, tail) && i < to && i <= |replies|
    ensures i < |replies| ==>
              ReadValue(Answers(replies, tail, i, to)) == Ok(Meaning(replies[i]), Answers(replies, tail, i + 1, to))
    ensures i == |replies| ==> ReadValue(Answers(replies, tail, i, to)).Fail?
  {
    assert Proper(replies, tail, i);
    if i < |replies| {
      DecodeEncode(replies[i], Answers(replies, tail, i + 1, to));
    }
  }

  lemma {:induction false} AnswersLength(replies: seq<Reply>, tail: bytes, from: nat, to: nat)
    requires from <= to <= |replies|
    ensures FrameBytes(replies, from) + |Answers(replies, tail, from, to)| == FrameBytes(replies, to)
    decreases |replies| - from
  {
    if from < to {
      AnswersLength(replies, tail, from + 1, to);
    }
  }

  predicate StampIs(times: seq<int>, sentAt: nat -> int, from: nat, i: nat)
    requires i < |times|
  {
    times[i] == sentAt(from + i)
  }

  /** The instants of commands from..upTo - 1. */
  ghost predicate Stamped(times: seq<int>, sentAt: nat -> int, from: nat, upTo: nat) {
    from + |times| == upTo && forall i: nat :: i < |times| ==> StampIs(times, sentAt, from, i)
  }

  lemma StampedNext(times: seq<int>, sentAt: nat -> int, from: nat, upTo: nat, now: int)
    requires Stamped(times, sentAt, from, upTo) && now == sentAt(upTo)
    ensures Stamped(times + [now], sentAt, from, upTo + 1)
  {
    forall i: nat | i <= |times| ensures StampIs(times + [now], sentAt, from, i) {
      assert i < |times| ==> StampIs(times, sentAt, from, i);
    }
  }

  /** The context never expires. */
  ghost predicate Endless(expired: nat -> bool) { forall k: nat :: !expired(k) }

  /** The first n checks found the context live. */
  ghost predicate Live(expired: nat -> bool, n: nat) { forall k: nat :: k < n ==> !expired(k) }

  lemma LiveNext(expired: nat -> bool, n: nat)
    requires Live(expired, n) && !expired(n)
    ensures Live(expired, n + 1)
  {
  }

  /** The buffered writer is out of order exactly if it was before write number since or a write has
      failed from that one on. */
  ghost predicate FaultsSeen(cl: Client, wasFailed: bool, since: nat)
    reads cl`failed, cl.conn`writes
  {
    since <= cl.conn.writes && (cl.failed <==> wasFailed || FaultIn(cl.conn.faults, since, cl.conn.writes))
  }

  /** A latency as the histogram keeps it: itself inside the range, the nearer end outside. */
  ghost predicate KeptAs(v: int, latency: int, highest: int) {
    && (0 <= latency <= highest ==> v == latency)
    && (latency < 0 ==> v == 0)
    && (latency > highest ==> v == highest)
  }

  /** On top of the samples in before, one for each of the first n replies, in order: the time from
      the write of its own command to its arrival. */
  ghost predicate Timed(samples: seq<int>, before: seq<int>, highest: int, sentAt: nat -> int, readAt: nat -> int,
                        n: nat) {
    && |samples| == |before| + n && before <= samples
    && forall i: nat :: i < n ==> KeptAs(samples[|before| + i], readAt(i) - sentAt(i), highest)
  }

  /** Those samples, as a shape that drops nothing keeps them. */
  function Spans(h: Layout, sentAt: nat -> int, readAt: nat -> int, n: nat): (spans: seq<int>)
    ensures |spans| == n
  {
    seq(n, i requires 0 <= i < n => h.Clamp(readAt(i) - sentAt(i)))
  }

  predicate SpanIs(spans: seq<int>, h: Layout, sentAt: nat -> int, readAt: nat -> int, i: nat)
    requires i < |spans|
  {
    spans[i] == h.Clamp(readAt(i) - sentAt(i))
  }

  ghost predicate SpansAre(spans: seq<int>, n: nat, h: Layout, sentAt: nat -> int, readAt: nat -> int) {
    |spans| == n && forall i: nat :: i < n ==> SpanIs(spans, h, sentAt, readAt, i)
  }

  lemma SpansFit(h: Layout, sentAt: nat -> int, readAt: nat -> int, n: nat)
    ensures SpansAre(Spans(h, sentAt, readAt, n), n, h, sentAt, readAt)
  {
  }

  /** The samples once the first n spans are in. */
  function Front(before: seq<int>, spans: seq<int>, n: nat): seq<int>
    requires n <= |spans|
  {
    before + spans[..n]
  }

  lemma FrontNext(before: seq<int>, spans: seq<int>, n: nat)
    requires n < |spans|
    ensures Front(before, spans, n) + [spans[n]] == Front(before, spans, n + 1)
  {
  }

  lemma FrontIsTimed(before: seq<int>, spans: seq<int>, n: nat, h: Layout, sentAt: nat -> int, readAt: nat -> int)
    requires n <= |spans| && SpansAre(spans, |spans|, h, sentAt, readAt)
    ensures Timed(Front(before, spans, n), before, h.highest, sentAt, readAt, n)
  {
    forall i: nat | i < n ensures KeptAs(Front(before, spans, n)[|before| + i], readAt(i) - sentAt(i), h.highest) {
      assert SpanIs(spans, h, sentAt, readAt, i);
    }
  }

  /** Draws and buffers one command. */
  method SendOne(cl: Client, gen: CommandGen, conn: nat, seqNo: nat, ghost base: bytes,
                 ghost wasFailed: bool, ghost since: nat)
    returns (ok: bool, next: nat)
    requires cl.Valid() && cl.Sent() == Wire(base, gen, conn, seqNo) && FaultsSeen(cl, wasFailed, since)
    modifies cl`wbuf, cl`failed, cl.conn`outgoing, cl.conn`written, cl.conn`writes
    ensures cl.Valid() && next == seqNo + 1 && (ok ==> cl.Sent() == Wire(base, gen, conn, next))
    ensures cl.failed == !ok && FaultsSeen(cl, wasFailed, since)
  {
    ghost var mid := cl.conn.writes;
    next := seqNo + 1;
    ok := cl.WriteCommand(gen(conn, seqNo));
    FaultSplit(cl.conn.faults, since, mid, cl.conn.writes);
  }

  method FlushAll(cl: Client, ghost wasFailed: bool, ghost since: nat) returns (ok: bool)
    requires cl.Valid() && FaultsSeen(cl, wasFailed, since)
    modifies cl`wbuf, cl`failed, cl.conn`outgoing, cl.conn`written, cl.conn`writes
    ensures cl.Valid() && cl.failed == !ok && FaultsSeen(cl, wasFailed, since)
    ensures ok ==> cl.wbuf == [] && cl.conn.outgoing == old(cl.Sent())
  {
    ghost var mid := cl.conn.writes;
    ok := cl.Flush();
    FaultSplit(cl.conn.faults, since, mid, cl.conn.writes);
  }

  /** Draws commands from..upTo - 1 in sequence, buffers them, noting when, and flushes. */
  method SendBatch(cl: Client, gen: CommandGen, conn: nat, from: nat, upTo: nat, sentAt: nat -> int,
                   ghost base: bytes, ghost wasFailed: bool, ghost since: nat)
    returns (ok: bool, seqNo: nat, sendTimes: seq<int>)
    requires cl.Valid() && cl.Sent() == Wire(base, gen, conn, from) && FaultsSeen(cl, wasFailed, since)
    requires from <= upTo
    modifies cl`wbuf, cl`failed, cl.conn`outgoing, cl.conn`written, cl.conn`writes
    ensures cl.Valid() && from <= seqNo <= upTo
    ensures ok ==> seqNo == upTo && cl.wbuf == [] && cl.conn.outgoing == Wire(base, gen, conn, upTo)
    ensures ok ==> Stamped(sendTimes, sentAt, from, upTo)
    ensures cl.failed == !ok && FaultsSeen(cl, wasFailed, since)
  {
    seqNo, sendTimes := from, [];
    while seqNo < upTo
      invariant from <= seqNo <= upTo && cl.Valid()
      invariant cl.Sent() == Wire(base, gen, conn, seqNo)
      invariant Stamped(sendTimes, sentAt, from, seqNo)
      invariant FaultsSeen(cl, wasFailed, since)
    {
      ghost var drawn := seqNo;
      ok, seqNo := SendOne(cl, gen, conn, seqNo, base, wasFailed, since);
      if !ok {
        return;
      }
      var now := sentAt(seqNo - 1);
      StampedNext(sendTimes, sentAt, from, drawn, now);
      sendTimes := sendTimes + [now];
    }
    ok := FlushAll(cl, wasFailed, since);
  }

  /** Reads the reply of command i: the kind the server meant, as long as it has a reply. */
  method ReadKind(cl: Client, ghost replies: seq<Reply>, ghost tail: bytes, ghost i: nat, ghost to: nat)
    returns (ok: bool, kind: ReplyKind)
    requires cl.Valid() && Server(replies, tail) && i <= |replies| && i < to
    requires cl.Pending() == Answers(replies, tail, i, to)
    modifies cl`rbuf, cl.conn`incoming, cl.conn`read
    ensures cl.Valid() && cl.Arrived() == old(cl.Arrived())
    ensures ok <==> i < |replies|
    ensures ok ==> kind == KindOf(replies[i]) && cl.Pending() == Answers(replies, tail, i + 1, to)
    ensures ok && i + 1 == to ==> cl.rbuf == [] && cl.conn.incoming == []
  {
    NextReading(replies, tail, i, to);
    var r := cl.ReadReplyKind();
    if r.KindErr? {
      return false, ReplyValue;
    }
    ok, kind := true, r.kind;
    assert i + 1 == to ==> cl.Pending() == [];
  }

  /** The tallies and the reply just read. */
  method TallyReply(cts: Counters, kind: ReplyKind, ghost start: Tally, ghost kinds: seq<ReplyKind>, ghost i: nat)
    requires i < |kinds| && kind == kinds[i] && Tallied(cts, start, kinds, i)
    modifies cts
    ensures Tallied(cts, start, kinds, i + 1) && cts.errs == old(cts.errs)
  {
    cts.Record(kind);
  }

  method RecordLatency(h: Histogram, latency: int)
    requires h.Valid() && NeverDrops(h.layout)
    modifies h, h.counts
    ensures h.Valid() && h.samples == old(h.samples) + [h.layout.Clamp(latency)]
  {
    StoredAll(h.layout, [latency]);
    assert Stored(h.layout, [latency]) == [h.layout.Clamp(latency)];
    h.RecordValue(latency);
  }

  /** What one closed-loop drive is set against: the server, the kind and the span of each of its
      replies, and the tallies and samples it starts from. */
  datatype Script = Script(replies: seq<Reply>, tail: bytes, kinds: seq<ReplyKind>, spans: seq<int>,
                           start: Tally, before: seq<int>)

  ghost predicate Consistent(sc: Script, h: Layout, sentAt: nat -> int, readAt: nat -> int) {
    && Server(sc.replies, sc.tail)
    && KindsAre(sc.kinds, sc.replies)
    && SpansAre(sc.spans, |sc.replies|, h, sentAt, readAt)
  }

  /** The tallies and the samples after the first n replies. */
  ghost predicate Booked(cts: Counters, h: Histogram, sc: Script, n: nat)
    reads cts, h, h.counts
  {
    && n <= |sc.kinds| && n <= |sc.spans|
    && Tallied(cts, sc.start, sc.kinds, n)
    && h.Valid() && NeverDrops(h.layout) && h.samples == Front(sc.before, sc.spans, n)
  }

  /** Reads, times and tallies the reply of command i. */
  method ReadOne(cl: Client, h: Histogram, cts: Counters, i: nat, from: nat, sendTimes: seq<int>,
                 readAt: nat -> int, ghost sentAt: nat -> int, ghost upTo: nat, ghost sc: Script)
    returns (ok: bool, next: nat)
    requires cl.Valid() && Consistent(sc, h.layout, sentAt, readAt) && Booked(cts, h, sc, i)
    requires from <= i < upTo && Stamped(sendTimes, sentAt, from, upTo)
    requires cl.Pending() == Answers(sc.replies, sc.tail, i, upTo)
    modifies cl`rbuf, cl.conn`incoming, cl.conn`read, h, h.counts, cts
    ensures cl.Valid() && cl.Arrived() == old(cl.Arrived()) && cts.errs == old(cts.errs)
    ensures ok ==> next == i + 1 <= |sc.replies| && cl.Pending() == Answers(sc.replies, sc.tail, next, upTo)
    ensures !ok ==> next == i == |sc.replies|
    ensures Booked(cts, h, sc, next)
  {
    var kind;
    next := i;
    ok, kind := ReadKind(cl, sc.replies, sc.tail, i, upTo);
    if !ok {
      return;
    }
    assert KindIs(sc.kinds, sc.replies, i) && SpanIs(sc.spans, h.layout, sentAt, readAt, i);
    assert StampIs(sendTimes, sentAt, from, i - from);
    FrontNext(sc.before, sc.spans, i);
    RecordLatency(h, readAt(i) - sendTimes[i - from]);
    TallyReply(cts, kind, sc.start, sc.kinds, i);
    next := i + 1;
  }

  /** Reads the replies of one batch. */
  method ReadBatch(cl: Client, h: Histogram, cts: Counters, from: nat, upTo: nat, sendTimes: seq<int>,
                   readAt: nat -> int, ghost sentAt: nat -> int, ghost sc: Script)
    returns (ok: bool, issued: nat)
    requires cl.Valid() && Consistent(sc, h.layout, sentAt, readAt) && Booked(cts, h, sc, from)
    requires from <= upTo && Stamped(sendTimes, sentAt, from, upTo)
    requires cl.Pending() == Answers(sc.replies, sc.tail, from, upTo)
    modifies cl`rbuf, cl.conn`incoming, cl.conn`read, h, h.counts, cts
    ensures cl.Valid() && cl.Arrived() == old(cl.Arrived()) && cts.errs == old(cts.errs)
    ensures from <= issued <= |sc.replies| && issued <= upTo && Booked(cts, h, sc, issued)
    ensures ok ==> issued == upTo && cl.rbuf == [] && cl.conn.incoming == [] && cl.conn.read == old(cl.Arrived())
    ensures !ok ==> issued == |sc.replies| < upTo
  {
    ok, issued := true, from;
    while ok && issued < upTo
      invariant from <= issued <= upTo && issued <= |sc.replies|
      invariant cl.Valid() && cl.Arrived() == old(cl.Arrived()) && cts.errs == old(cts.errs)
      invariant ok ==> cl.Pending() == Answers(sc.replies, sc.tail, issued, upTo)
      invariant !ok ==> issued == |sc.replies| < upTo
      invariant Booked(cts, h, sc, issued)
      decreases upTo - issued, ok
    {
      ok, issued := ReadOne(cl, h, cts, issued, from, sendTimes, readAt, sentAt, upTo, sc);
    }
  }

  /** What a drive has done to its connection after n commands and replies, at a loop head. */
  ghost predicate AtHead(cl: Client, gen: CommandGen, conn: nat, replies: seq<Reply>, n: nat, base: bytes, read: nat)
    reads cl, cl.conn
  {
    && n <= |replies| && Aligned(cl)
    && cl.conn.outgoing == Wire(base, gen, conn, n)
    && cl.conn.read == read + FrameBytes(replies, n)
  }

  /** The server answers commands from..upTo - 1. */
  method Respond(cl: Client, replies: seq<Reply>, tail: bytes, from: nat, upTo: nat, ghost read: nat)
    requires cl.Valid() && from <= |replies| && from <= upTo
    requires cl.rbuf == [] && cl.conn.incoming == [] && cl.conn.read == read + FrameBytes(replies, from)
    modifies cl.conn`incoming
    ensures cl.Valid() && cl.Pending() == Answers(replies, tail, from, upTo)
    ensures upTo <= |replies| ==> cl.Arrived() == read + FrameBytes(replies, upTo)
  {
    var answers := Answers(replies, tail, from, upTo);
    cl.conn.Arrive(answers);
    assert cl.Pending() == answers;
    if upTo <= |replies| {
      AnswersLength(replies, tail, from, upTo);
    }
  }

  /** A batch goes out and its answers arrive. */
  method Exchange(cl: Client, gen: CommandGen, conn: nat, replies: seq<Reply>, tail: bytes,
                  from: nat, upTo: nat, sentAt: nat -> int, ghost base: bytes, ghost read: nat,
                  ghost wasFailed: bool, ghost since: nat)
    returns (ok: bool, generated: nat, sendTimes: seq<int>)
    requires from <= upTo
    requires AtHead(cl, gen, conn, replies, from, base, read) && FaultsSeen(cl, wasFailed, since)
    modifies cl`wbuf, cl`failed, cl.conn
    ensures cl.Valid() && from <= generated <= upTo
    ensures ok ==> generated == upTo && cl.wbuf == []
    ensures ok ==> cl.conn.outgoing == Wire(base, gen, conn, upTo)
    ensures ok ==> cl.Pending() == Answers(replies, tail, from, upTo)
    ensures ok ==> Stamped(sendTimes, sentAt, from, upTo)
    ensures ok && upTo <= |replies| ==> cl.Arrived() == read + FrameBytes(replies, upTo)
    ensures cl.failed == !ok && FaultsSeen(cl, wasFailed, since)
  {
    ok, generated, sendTimes := SendBatch(cl, gen, conn, from, upTo, sentAt, base, wasFailed, since);
    if !ok {
      return;
    }
    Respond(cl, replies, tail, from, upTo, read);
  }

  /** The replies of a batch that is out and answered, back to a loop head. */
  method Collect(cl: Client, h: Histogram, cts: Counters, from: nat, upTo: nat, sendTimes: seq<int>,
                 readAt: nat -> int, ghost sentAt: nat -> int, ghost sc: Script,
                 ghost gen: CommandGen, ghost conn: nat, ghost base: bytes, ghost read: nat)
    returns (ok: bool, issued: nat)
    requires cl.Valid() && Consistent(sc, h.layout, sentAt, readAt) && Booked(cts, h, sc, from)
    requires from <= upTo && Stamped(sendTimes, sentAt, from, upTo)
    requires cl.Pending() == Answers(sc.replies, sc.tail, from, upTo)
    requires cl.wbuf == [] && cl.conn.outgoing == Wire(base, gen, conn, upTo)
    requires upTo <= |sc.replies| ==> cl.Arrived() == read + FrameBytes(sc.replies, upTo)
    modifies cl`rbuf, cl.conn`incoming, cl.conn`read, h, h.counts, cts
    ensures from <= issued <= |sc.replies| && issued <= upTo && Booked(cts, h, sc, issued)
    ensures ok ==> issued == upTo && AtHead(cl, gen, conn, sc.replies, upTo, base, read)
    ensures !ok ==> issued == |sc.replies| < upTo
    ensures cts.errs == old(cts.errs)
  {
    ok, issued := ReadBatch(cl, h, cts, from, upTo, sendTimes, readAt, sentAt, sc);
  }

  /** One turn of the closed loop: a batch written, flushed, answered and read. */
  method Turn(cl: Client, h: Histogram, cts: Counters, gen: CommandGen, conn: nat, pipeline: nat,
              replies: seq<Reply>, tail: bytes, from: nat, sentAt: nat -> int, readAt: nat -> int,
              ghost sc: Script, ghost base: bytes, ghost read: nat, ghost wasFailed: bool, ghost since: nat)
    returns (outcome: Exit, generated: nat, issued: nat)
    requires pipeline >= 1 && replies == sc.replies && tail == sc.tail
    requires Consistent(sc, h.layout, sentAt, readAt) && Booked(cts, h, sc, from)
    requires AtHead(cl, gen, conn, replies, from, base, read) && FaultsSeen(cl, wasFailed, since)
    modifies cl, cl.conn, h, h.counts, cts
    ensures from <= issued <= generated <= from + pipeline && issued <= |replies|
    ensures Booked(cts, h, sc, issued)
    ensures outcome.Complete? ==>
              generated == issued == from + pipeline && AtHead(cl, gen, conn, replies, issued, base, read)
    ensures outcome.ReadFailed? ==> issued == |replies| < generated
    ensures !outcome.Expired?
    ensures (outcome.WriteFailed? <==> cl.failed) && FaultsSeen(cl, wasFailed, since)
    ensures cts.errs == old(cts.errs) + (if outcome.Complete? then 0 else 1)
  {
    var ok, sendTimes;
    issued := from;
    var upTo := from + pipeline;
    ok, generated, sendTimes := Exchange(cl, gen, conn, replies, tail, from, upTo, sentAt, base, read,
                                         wasFailed, since);
    if !ok {
      cts.Fail();
      return WriteFailed, generated, issued;
    }
    ok, issued := Collect(cl, h, cts, from, upTo, sendTimes, readAt, sentAt, sc, gen, conn, base, read);
    if !ok {
      cts.Fail();
      return ReadFailed, generated, issued;
    }
    outcome := Complete;
  }

  /** The loop of driveClosed, from a loop head on. */
  method ClosedLoop(cl: Client, h: Histogram, cts: Counters, gen: CommandGen, conn: nat, pipeline: nat,
                    perConnReq: nat, replies: seq<Reply>, tail: bytes,
                    expired: nat -> bool, sentAt: nat -> int, readAt: nat -> int,
                    ghost sc: Script, ghost base: bytes, ghost read: nat, ghost wasFailed: bool, ghost since: nat)
    returns (exit: Exit, generated: nat, issued: nat, turns: nat)
    requires pipeline >= 1 && replies == sc.replies && tail == sc.tail
    requires Consistent(sc, h.layout, sentAt, readAt) && Booked(cts, h, sc, 0)
    requires AtHead(cl, gen, conn, replies, 0, base, read) && FaultsSeen(cl, wasFailed, since)
    modifies cl, cl.conn, h, h.counts, cts
    ensures issued <= generated <= issued + pipeline && issued <= |replies|
    ensures Booked(cts, h, sc, issued)
    ensures exit.Expired? || exit.Complete? ==>
              generated == issued == turns * pipeline && AtHead(cl, gen, conn, replies, issued, base, read)
    ensures Live(expired, turns) && (exit.Expired? <==> expired(turns))
    ensures turns * pipeline <= issued && generated <= turns * pipeline + pipeline
    ensures exit.Complete? ==> perConnReq > 0 && issued == Rounded(perConnReq, pipeline)
    ensures perConnReq > 0 ==> generated <= Rounded(perConnReq, pipeline)
    ensures exit.ReadFailed? ==> issued == |replies| < generated
    ensures exit.WriteFailed? ==> cl.failed
    ensures generated > 0 ==> (cl.failed <==> exit.WriteFailed?)
    ensures FaultsSeen(cl, wasFailed, since)
    ensures cts.errs == old(cts.errs) + (if exit.WriteFailed? || exit.ReadFailed? then 1 else 0)
  {
    generated, issued, turns := 0, 0, 0;
    while true
      invariant generated == issued <= |replies| && issued == turns * pipeline
      invariant turns > 0 && perConnReq > 0 ==> (turns - 1) * pipeline < perConnReq
      invariant perConnReq > 0 ==> generated <= Rounded(perConnReq, pipeline)
      invariant Live(expired, turns)
      invariant AtHead(cl, gen, conn, replies, issued, base, read)
      invariant Booked(cts, h, sc, issued) && cts.errs == old(cts.errs)
      invariant turns > 0 ==> !cl.failed
      invariant FaultsSeen(cl, wasFailed, since)
      decreases |replies| - issued
    {
      if expired(turns) {
        exit := Expired;
        break;
      }
      if perConnReq > 0 && issued >= perConnReq {
        RoundedIs(perConnReq, pipeline, turns);
        exit := Complete;
        break;
      }
      MulOrder(turns, turns, pipeline);
      if perConnReq > 0 {
        NextBatchFits(perConnReq, pipeline, turns);
      }
      exit, generated, issued := Turn(cl, h, cts, gen, conn, pipeline, replies, tail, issued, sentAt, readAt,
                                      sc, base, read, wasFailed, since);
      if !exit.Complete? {
        break;
      }
      LiveNext(expired, turns);
      turns := turns + 1;
    }
  }

  /** driveClosed. expired is the verdict of the context at each head check of this drive, sentAt and
      readAt the clock after the write of a command and after its reply; turns is how many head
      checks let a batch begin and saw it end. */
  method DriveClosed(cl: Client, h: Histogram, cts: Counters, gen: CommandGen, conn: nat, pipeline: nat,
                     perConnReq: nat, replies: seq<Reply>, tail: bytes,
                     expired: nat -> bool, sentAt: nat -> int, readAt: nat -> int)
    returns (exit: Exit, generated: nat, issued: nat, turns: nat)
    requires pipeline >= 1 && Server(replies, tail)
    requires Aligned(cl) && h.Valid() && NeverDrops(h.layout)
    modifies cl, cl.conn, h, h.counts, cts
    ensures issued <= generated <= issued + pipeline && issued <= |replies|
    ensures h.Valid() && Timed(h.samples, old(h.samples), h.layout.highest, sentAt, readAt, issued)
    ensures Tallied(cts, Tally(old(cts.ops), old(cts.nils), old(cts.errReplies)), Kinds(replies), issued)
    ensures exit.Expired? || exit.Complete? ==>
              generated == issued && AtHead(cl, gen, conn, replies, issued, old(cl.conn.outgoing), old(cl.conn.read))
    ensures exit.Expired? <==> expired(turns)
    ensures Live(expired, turns)
    ensures turns * pipeline <= issued && generated <= turns * pipeline + pipeline
    ensures exit.Expired? || exit.Complete? ==> issued == turns * pipeline
    ensures exit.Complete? ==> perConnReq > 0 && issued == Rounded(perConnReq, pipeline)
    ensures perConnReq > 0 ==> generated <= Rounded(perConnReq, pipeline)
    ensures exit.ReadFailed? ==> issued == |replies| < generated
    ensures exit.WriteFailed? ==> cl.failed
    ensures generated > 0 ==> (cl.failed <==> exit.WriteFailed?)
    ensures FaultsSeen(cl, old(cl.failed), old(cl.conn.writes))
    ensures 0 < perConnReq && Rounded(perConnReq, pipeline) <= |replies| && old(cl.Sound()) && Endless(expired) ==>
              exit.Complete?
    ensures cts.errs == old(cts.errs) + (if exit.WriteFailed? || exit.ReadFailed? then 1 else 0)
  {
    ghost var base, read := cl.conn.outgoing, cl.conn.read;
    ghost var sc := Script(replies, tail, Kinds(replies), Spans(h.layout, sentAt, readAt, |replies|),
                     Tally(cts.ops, cts.nils, cts.errReplies), h.samples);
    KindsFit(replies);
    SpansFit(h.layout, sentAt, readAt, |replies|);
    exit, generated, issued, turns :=
      ClosedLoop(cl, h, cts, gen, conn, pipeline, perConnReq, replies, tail, expired, sentAt, readAt,
                 sc, base, read, old(cl.failed), old(cl.conn.writes));
    FrontIsTimed(sc.before, sc.spans, issued, h.layout, sentAt, readAt);
    FaultInIff(cl.conn.faults, old(cl.conn.writes), cl.conn.writes);
  }

  /** A batch begun below the request count ends within its rounding. */
  lemma NextBatchFits(requests: nat, pipeline: nat, batches: nat)
    requires pipeline > 0 && batches * pipeline < requests
    ensures batches * pipeline + pipeline <= Rounded(requests, pipeline)
  {
    var q := (requests + pipeline - 1) / pipeline;
    DivFloor(requests + pipeline - 1, pipeline);
    MulOrder(batches, q, pipeline);
    MulOrder(batches + 1, q, pipeline);
  }

  lemma RoundedIs(requests: nat, pipeline: nat, batches: nat)
    requires pipeline > 0 && requests > 0
    requires batches * pipeline >= requests && (batches > 0 ==> (batches - 1) * pipeline < requests)
    ensures batches * pipeline == Rounded(requests, pipeline)
  {
    MulOrder(batches, 0, pipeline);
    MulOrder(batches, batches, pipeline);
    MulComm(batches, pipeline);
    DivUnique(requests + pipeline - 1, pipeline, batches, requests + pipeline - 1 - batches * pipeline);
  }

  // ---- the open loop ----

  /** Everything the open loop has recorded after n operations. */
  function OpenSamples(h: Layout, begin: int, t: nat, service: seq<nat>, n: nat): seq<int>
    requires n <= |service|
  {
    Stored(h, Corrected(Latencies(begin, t, service)[..n], t))
  }

  lemma OpenSamplesNext(h: Layout, begin: int, t: nat, service: seq<nat>, n: nat, before: seq<int>, latency: int)
    requires n < |service| && latency == Latency(begin, t, service, n)
    ensures before + OpenSamples(h, begin, t, service, n) + Stored(h, Backfill(latency, t)) ==
            before + OpenSamples(h, begin, t, service, n + 1)
  {
    var ls := Latencies(begin, t, service);
    assert ls[..n + 1][..n] == ls[..n];
    StoredConcat(h, Corrected(ls[..n], t), Backfill(latency, t));
    SeqAssoc(before, OpenSamples(h, begin, t, service, n), Stored(h, Backfill(latency, t)));
  }

  /** The corrected latency of operation n, on top of those before it. */
  method RecordOpen(h: Histogram, begin: int, t: nat, ghost service: seq<nat>, ghost n: nat, latency: int,
                    ghost before: seq<int>)
    requires h.Valid() && n < |service| && latency == Latency(begin, t, service, n)
    requires h.samples == before + OpenSamples(h.layout, begin, t, service, n)
    modifies h, h.counts
    ensures h.Valid() && h.samples == before + OpenSamples(h.layout, begin, t, service, n + 1)
  {
    OpenSamplesNext(h.layout, begin, t, service, n, before, latency);
    h.RecordCorrectedValue(latency, t);
  }

  /** One command of the open loop goes out and is answered. */
  method OpenSend(cl: Client, gen: CommandGen, conn: nat, replies: seq<Reply>, tail: bytes, from: nat,
                  ghost base: bytes, ghost read: nat, ghost wasFailed: bool, ghost since: nat)
    returns (ok: bool)
    requires AtHead(cl, gen, conn, replies, from, base, read) && FaultsSeen(cl, wasFailed, since)
    modifies cl`wbuf, cl`failed, cl.conn
    ensures cl.failed == !ok && FaultsSeen(cl, wasFailed, since)
    ensures ok ==> cl.Valid() && cl.wbuf == [] && cl.conn.outgoing == Wire(base, gen, conn, from + 1)
    ensures ok ==> cl.Pending() == Answers(replies, tail, from, from + 1)
    ensures ok && from + 1 <= |replies| ==> cl.Arrived() == read + FrameBytes(replies, from + 1)
  {
    var next;
    ok, next := SendOne(cl, gen, conn, from, base, wasFailed, since);
    if !ok {
      return;
    }
    ok := FlushAll(cl, wasFailed, since);
    if !ok {
      return;
    }
    Respond(cl, replies, tail, from, from + 1, read);
  }

  /** One command of the open loop and its reply. */
  method OpenExchange(cl: Client, gen: CommandGen, conn: nat, replies: seq<Reply>, tail: bytes, from: nat,
                      ghost base: bytes, ghost read: nat, ghost wasFailed: bool, ghost since: nat)
    returns (outcome: Exit, kind: ReplyKind)
    requires Server(replies, tail)
    requires AtHead(cl, gen, conn, replies, from, base, read) && FaultsSeen(cl, wasFailed, since)
    modifies cl, cl.conn
    ensures outcome.Complete? ==>
              from < |replies| && kind == KindOf(replies[from]) && AtHead(cl, gen, conn, replies, from + 1, base, read)
    ensures outcome.ReadFailed? ==> from == |replies|
    ensures outcome.Complete? || outcome.WriteFailed? || outcome.ReadFailed?
    ensures (outcome.WriteFailed? <==> cl.failed) && FaultsSeen(cl, wasFailed, since)
  {
    kind := ReplyValue;
    var ok := OpenSend(cl, gen, conn, replies, tail, from, base, read, wasFailed, since);
    if !ok {
      return WriteFailed, kind;
    }
    ok, kind := ReadKind(cl, replies, tail, from, from + 1);
    outcome := if ok then Complete else ReadFailed;
  }

  /** One turn of the open loop from the instant of its send. */
  method OpenTurn(cl: Client, h: Histogram, cts: Counters, gen: CommandGen, conn: nat, replies: seq<Reply>, tail: bytes,
                  from: nat, begin: int, t: nat, service: seq<nat>, sent: int,
                  ghost base: bytes, ghost read: nat, ghost start: Tally, ghost kinds: seq<ReplyKind>,
                  ghost before: seq<int>,
                  ghost wasFailed: bool, ghost since: nat)
    returns (outcome: Exit, now: int)
    requires Server(replies, tail) && KindsAre(kinds, replies) && |service| == |replies|
    requires AtHead(cl, gen, conn, replies, from, base, read) && Tallied(cts, start, kinds, from)
    requires h.Valid() && h.samples == before + OpenSamples(h.layout, begin, t, service, from)
    requires sent == SendTime(begin, t, service, from) && FaultsSeen(cl, wasFailed, since)
    modifies cl, cl.conn, h, h.counts, cts
    ensures outcome.Complete? ==> from < |replies| && now == Free(begin, t, service, from + 1)
    ensures outcome.Complete? ==> AtHead(cl, gen, conn, replies, from + 1, base, read)
    ensures outcome.Complete? ==> Tallied(cts, start, kinds, from + 1)
    ensures outcome.Complete? ==> h.samples == before + OpenSamples(h.layout, begin, t, service, from + 1)
    ensures !outcome.Complete? ==> Tallied(cts, start, kinds, from) && h.samples == old(h.samples)
    ensures outcome.ReadFailed? ==> from == |replies|
    ensures outcome.Complete? || outcome.WriteFailed? || outcome.ReadFailed?
    ensures (outcome.WriteFailed? <==> cl.failed) && FaultsSeen(cl, wasFailed, since)
    ensures h.Valid()
    ensures cts.errs == old(cts.errs) + (if outcome.Complete? then 0 else 1)
  {
    var kind;
    now := sent;
    outcome, kind := OpenExchange(cl, gen, conn, replies, tail, from, base, read, wasFailed, since);
    if !outcome.Complete? {
      cts.Fail();
      return;
    }
    now := sent + service[from];
    RecordOpen(h, begin, t, service, from, now - Due(begin, t, from), before);
    assert KindIs(kinds, replies, from);
    TallyReply(cts, kind, start, kinds, from);
  }

  /** The context is found expired before command k: at the head check, or in the wait for the
      command's due time when there is one. */
  predicate CutShort(expired: nat -> bool, cut: nat -> bool, begin: int, t: nat, service: seq<nat>, k: nat)
    requires k <= |service|
  {
    expired(k) || (Due(begin, t, k) > Free(begin, t, service, k) && cut(k))
  }

  /** Not so before any of the first n commands. */
  ghost predicate Uncut(expired: nat -> bool, cut: nat -> bool, begin: int, t: nat, service: seq<nat>, n: nat)
    requires n <= |service|
  {
    forall k: nat :: k < n ==> !CutShort(expired, cut, begin, t, service, k)
  }

  lemma UncutNext(expired: nat -> bool, cut: nat -> bool, begin: int, t: nat, service: seq<nat>, n: nat)
    requires n < |service| && Uncut(expired, cut, begin, t, service, n)
    requires !CutShort(expired, cut, begin, t, service, n)
    ensures Uncut(expired, cut, begin, t, service, n + 1)
  {
  }

  /** driveOpen. sends are the instants at which the commands drawn so far were written; expired and
      cut are the verdicts of the context at the head check and during the wait before command k. */
  method DriveOpen(cl: Client, h: Histogram, cts: Counters, gen: CommandGen, conn: nat, t: nat, perConnReq: nat,
                   replies: seq<Reply>, tail: bytes, begin: int, service: seq<nat>,
                   expired: nat -> bool, cut: nat -> bool)
    returns (exit: Exit, issued: nat, ghost sends: seq<int>)
    requires Server(replies, tail) && |service| == |replies|
    requires Aligned(cl) && h.Valid()
    modifies cl, cl.conn, h, h.counts, cts
    ensures issued <= |replies| && issued <= |sends| <= issued + 1
    ensures OnSchedule(begin, t, service, sends)
    ensures h.Valid() && h.samples == old(h.samples) + OpenSamples(h.layout, begin, t, service, issued)
    ensures Tallied(cts, Tally(old(cts.ops), old(cts.nils), old(cts.errReplies)), Kinds(replies), issued)
    ensures exit.Expired? || exit.Complete? ==>
              |sends| == issued && AtHead(cl, gen, conn, replies, issued, old(cl.conn.outgoing), old(cl.conn.read))
    ensures perConnReq > 0 ==> |sends| <= perConnReq
    ensures Uncut(expired, cut, begin, t, service, issued)
    ensures exit.Complete? <==> !expired(issued) && perConnReq > 0 && issued == perConnReq
    ensures exit.Expired? <==>
              if perConnReq > 0 && issued == perConnReq then expired(issued)
              else CutShort(expired, cut, begin, t, service, issued)
    ensures exit.ReadFailed? ==> issued == |replies| < |sends|
    ensures exit.WriteFailed? ==> cl.failed
    ensures |sends| > 0 ==> (cl.failed <==> exit.WriteFailed?)
    ensures FaultsSeen(cl, old(cl.failed), old(cl.conn.writes))
    ensures cts.errs == old(cts.errs) + (if exit.WriteFailed? || exit.ReadFailed? then 1 else 0)
  {
    ghost var base, read := cl.conn.outgoing, cl.conn.read;
    ghost var kinds := Kinds(replies);
    KindsFit(replies);
    ghost var start := Tally(cts.ops, cts.nils, cts.errReplies);
    issued, sends := 0, [];
    var now := begin;
    while true
      invariant |sends| == issued <= |replies| && (perConnReq > 0 ==> issued <= perConnReq)
      invariant OnSchedule(begin, t, service, sends) && now == Free(begin, t, service, issued)
      invariant Uncut(expired, cut, begin, t, service, issued)
      invariant AtHead(cl, gen, conn, replies, issued, base, read) && h.Valid()
      invariant Tallied(cts, start, kinds, issued) && cts.errs == old(cts.errs)
      invariant h.samples == old(h.samples) + OpenSamples(h.layout, begin, t, service, issued)
      invariant issued > 0 ==> !cl.failed
      invariant FaultsSeen(cl, old(cl.failed), old(cl.conn.writes))
      decreases |replies| - issued
    {
      if expired(issued) {
        exit := Expired;
        break;
      }
      if perConnReq > 0 && issued >= perConnReq {
        exit := Complete;
        break;
      }
      var intended := Due(begin, t, issued);
      if intended > now {
        if cut(issued) {
          exit := Expired;
          break;
        }
        now := intended;
      }
      ScheduleNext(begin, t, service, sends, now);
      sends := sends + [now];
      exit, now := OpenTurn(cl, h, cts, gen, conn, replies, tail, issued, begin, t, service, now,
                            base, read, start, kinds, old(h.samples), old(cl.failed), old(cl.conn.writes));
      if !exit.Complete? {
        break;
      }
      UncutNext(expired, cut, begin, t, service, issued);
      issued := issued + 1;
    }
  }

  /** Sending at the later of the due time and the previous reply keeps to the schedule. */
  lemma ScheduleNext(begin: int, t: nat, service: seq<nat>, sends: seq<int>, now: int)
    requires OnSchedule(begin, t, service, sends) && |sends| <= |service|
    requires now == Max(Free(begin, t, service, |sends|), Due(begin, t, |sends|))
    ensures OnSchedule(begin, t, service, sends + [now])
  {
    OnScheduleIff(begin, t, service, sends);
    OnScheduleIff(begin, t, service, sends + [now]);
  }

  /** With a layout that drops nothing, the open loop leaves exactly the corrected samples,
      clamped; at least one an operation, and one each only if no latency reached two intervals. */
  lemma OpenSampleCount(h: Layout, begin: int, t: nat, service: seq<nat>, n: nat)
    requires n <= |service| && h.bucketCount > 0 && NeverDrops(h)
    ensures |OpenSamples(h, begin, t, service, n)| >= n
    ensures |OpenSamples(h, begin, t, service, n)| == n <==>
            t == 0 || forall k :: 0 <= k < n ==> Latency(begin, t, service, k) < 2 * t
  {
    var ls := Latencies(begin, t, service)[..n];
    StoredAll(h, Corrected(ls, t));
    forall k | 0 <= k < n ensures ls[k] == Latency(begin, t, service, k) >= 0 {
      LatencyNonNegative(begin, t, service, k);
    }
    CorrectedCount(ls, t);
  }
}
