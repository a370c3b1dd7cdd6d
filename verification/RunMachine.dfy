/** A closed-loop run as a machine of interleaved connections. Each connection goes through the
    atomic steps of driveClosed; the shared tallies are bumped one at a time, so between two
    bumps any other connection may move. Which connection moves next, what each reply is, where
    a write or read fails and when the context expires are all up to the schedule. */
module RunMachine {
  import opened Arith
  import opened Client
  import opened Shape
  import opened Histograms
  import opened Drive
  import Run

  datatype Config = Config(pipeline: nat, perConnReq: nat)

  datatype Pc =
    | Head
    | Writing(i: nat)
    | Flushing
    | Reading(i: nat)
    | Counting(i: nat, kind: ReplyKind)  // reply recorded, ops not yet bumped
    | Sorting(i: nat, kind: ReplyKind)   // ops bumped, reply kind not yet
    | Broken                             // failed, errs not yet bumped
    | Done(exit: Exit)

  /** seqNo and issued are the loop's own variables; latencies are those handed to the private
      histogram; the rest is bookkeeping of what the connection really did. */
  datatype Conn = Conn(pc: Pc, seqNo: nat, issued: nat, latencies: seq<int>, batches: nat,
                       values: nat, nils: nat, refusals: nat)

  datatype Tallies = Tallies(ops: int, errs: int, nils: int, errReplies: int)

  datatype State = State(conns: seq<Conn>, tallies: Tallies)

  datatype Event = Proceed | ContextDone | Failure | Reply(kind: ReplyKind, latency: int)

  const FRESH := Conn(Head, 0, 0, [], 0, 0, 0, 0)

  function Init(connections: nat): State {
    State(seq(connections, i => FRESH), Tallies(0, 0, 0, 0))
  }

  /** One atomic step of one connection; an event that does not apply changes nothing. */
  function Move(cfg: Config, c: Conn, t: Tallies, e: Event): (Conn, Tallies) {
    match c.pc
    case Head =>
      if e == ContextDone then (c.(pc := Done(Expired)), t)
      else if cfg.perConnReq > 0 && c.issued >= cfg.perConnReq then (c.(pc := Done(Complete)), t)
      else (c.(pc := Writing(0)), t)
    case Writing(i) =>
      var drawn := c.(seqNo := c.seqNo + 1);
      if e == Failure then (drawn.(pc := Broken), t)
      else (drawn.(pc := if i + 1 < cfg.pipeline then Writing(i + 1) else Flushing), t)
    case Flushing =>
      (c.(pc := if e == Failure then Broken else Reading(0)), t)
    case Reading(i) =>
      (match e
       case Failure => (c.(pc := Broken), t)
       case Reply(kind, latency) => (Tell(c, kind).(pc := Counting(i, kind), latencies := c.latencies + [latency]), t)
       case _ => (c, t))
    case Counting(i, kind) =>
      (c.(pc := Sorting(i, kind)), t.(ops := t.ops + 1))
    case Sorting(i, kind) =>
      var last := i + 1 >= cfg.pipeline;
      (c.(pc := if last then Head else Reading(i + 1),
          issued := c.issued + 1,
          batches := if last then c.batches + 1 else c.batches),
       match kind
       case ReplyNil => t.(nils := t.nils + 1)
       case ReplyErr => t.(errReplies := t.errReplies + 1)
       case ReplyValue => t)
    case Broken => (c.(pc := Done(ReadFailed)), t.(errs := t.errs + 1))
    case Done(_) => (c, t)
  }

  function Tell(c: Conn, kind: ReplyKind): Conn {
    match kind
    case ReplyValue => c.(values := c.values + 1)
    case ReplyNil => c.(nils := c.nils + 1)
    case ReplyErr => c.(refusals := c.refusals + 1)
  }

  function Step(cfg: Config, s: State, who: nat, e: Event): State {
    if who >= |s.conns| then s else
    var (c, t) := Move(cfg, s.conns[who], s.tallies, e);
    State(s.conns[who := c], t)
  }

  function Execute(cfg: Config, s: State, schedule: seq<(nat, Event)>): State {
    if schedule == [] then s else
    var last := schedule[|schedule| - 1];
    Step(cfg, Execute(cfg, s, schedule[..|schedule| - 1]), last.0, last.1)
  }

  // ---- the share of each tally one connection has contributed ----

  function Pending(c: Conn, kind: ReplyKind): nat {
    if (c.pc.Counting? || c.pc.Sorting?) && c.pc.kind == kind then 1 else 0
  }

  function OpsShare(): Conn -> int { (c: Conn) => c.issued + (if c.pc.Sorting? then 1 else 0) }

  function NilShare(): Conn -> int { (c: Conn) => c.nils - Pending(c, ReplyNil) }

  function ErrShare(): Conn -> int { (c: Conn) => c.refusals - Pending(c, ReplyErr) }

  function FailShare(): Conn -> int { (c: Conn) => if c.pc == Done(ReadFailed) then 1 else 0 }

  function SampleShare(): Conn -> int { (c: Conn) => |c.latencies| }

  function ValueShare(): Conn -> int { (c: Conn) => c.values }

  function Sum(conns: seq<Conn>, f: Conn -> int): int {
    if conns == [] then 0 else Sum(conns[..|conns| - 1], f) + f(conns[|conns| - 1])
  }

  lemma {:induction false} SumUpdate(conns: seq<Conn>, who: nat, c: Conn, f: Conn -> int)
    requires who < |conns|
    ensures Sum(conns[who := c], f) == Sum(conns, f) - f(conns[who]) + f(c)
  {
    var n := |conns| - 1;
    if who == n {
      assert conns[who := c][..n] == conns[..n];
    } else {
      assert conns[who := c][..n] == conns[..n][who := c];
      SumUpdate(conns[..n], who, c, f);
    }
  }

  lemma {:induction false} SumAtMost(conns: seq<Conn>, f: Conn -> int, g: Conn -> int)
    requires forall i :: 0 <= i < |conns| ==> f(conns[i]) <= g(conns[i])
    ensures Sum(conns, f) <= Sum(conns, g)
  {
    if conns != [] {
      var n := |conns| - 1;
      assert f(conns[n]) <= g(conns[n]);
      SumAtMost(conns[..n], f, g);
    }
  }

  lemma {:induction false} SumPlus(conns: seq<Conn>, f: Conn -> int, g: Conn -> int, h: Conn -> int)
    requires forall i :: 0 <= i < |conns| ==> h(conns[i]) == f(conns[i]) + g(conns[i])
    ensures Sum(conns, h) == Sum(conns, f) + Sum(conns, g)
  {
    if conns != [] {
      var n := |conns| - 1;
      assert h(conns[n]) == f(conns[n]) + g(conns[n]);
      SumPlus(conns[..n], f, g, h);
    }
  }

  lemma {:induction false} SumConstant(conns: seq<Conn>, f: Conn -> int, k: int)
    requires forall i :: 0 <= i < |conns| ==> f(conns[i]) == k
    ensures Sum(conns, f) == |conns| * k
  {
    if conns != [] {
      var n := |conns| - 1;
      assert f(conns[n]) == k;
      SumConstant(conns[..n], f, k);
    }
  }

  // ---- the invariant ----

  /** Commands drawn, replies counted and samples taken, at each point of the loop. */
  ghost predicate ConnInv(cfg: Config, c: Conn) {
    var whole := c.batches * cfg.pipeline;
    && c.values + c.nils + c.refusals == |c.latencies|
    && (cfg.perConnReq > 0 && c.batches > 0 ==> whole - cfg.pipeline < cfg.perConnReq)
    && match c.pc
       case Head => c.seqNo == c.issued == |c.latencies| == whole
       case Writing(i) => i < cfg.pipeline && c.seqNo == c.issued + i && c.issued == |c.latencies| == whole
                          && (cfg.perConnReq > 0 ==> whole < cfg.perConnReq)
       case Flushing => c.seqNo == whole + cfg.pipeline && c.issued == |c.latencies| == whole
                        && (cfg.perConnReq > 0 ==> whole < cfg.perConnReq)
       case Reading(i) => i < cfg.pipeline && c.seqNo == whole + cfg.pipeline && c.issued == |c.latencies| == whole + i
                          && (cfg.perConnReq > 0 ==> whole < cfg.perConnReq)
       case Counting(i, kind) => InReply(cfg, c, whole, i, kind)
       case Sorting(i, kind) => InReply(cfg, c, whole, i, kind)
       case Broken => c.issued == |c.latencies| && c.issued <= c.seqNo <= c.issued + cfg.pipeline
       case Done(ReadFailed) => c.issued == |c.latencies| && c.issued <= c.seqNo <= c.issued + cfg.pipeline
       case Done(Complete) => c.seqNo == c.issued == |c.latencies| == whole && cfg.perConnReq > 0 && cfg.perConnReq <= whole
       case Done(_) => c.seqNo == c.issued == |c.latencies| == whole
  }

  ghost predicate InReply(cfg: Config, c: Conn, whole: int, i: nat, kind: ReplyKind) {
    && i < cfg.pipeline && c.seqNo == whole + cfg.pipeline
    && c.issued == whole + i && |c.latencies| == c.issued + 1
    && (cfg.perConnReq > 0 ==> whole < cfg.perConnReq)
    && match kind
       case ReplyValue => c.values > 0
       case ReplyNil => c.nils > 0
       case ReplyErr => c.refusals > 0
  }

  ghost predicate Inv(cfg: Config, s: State) {
    && cfg.pipeline > 0
    && (forall i :: 0 <= i < |s.conns| ==> ConnInv(cfg, s.conns[i]))
    && s.tallies == Tallies(Sum(s.conns, OpsShare()), Sum(s.conns, FailShare()),
                            Sum(s.conns, NilShare()), Sum(s.conns, ErrShare()))
  }

  /** A step moves each tally by exactly what it moves the connection's share. */
  ghost predicate Kept(cfg: Config, c: Conn, t: Tallies, c': Conn, t': Tallies) {
    && ConnInv(cfg, c')
    && t'.ops - t.ops == OpsShare()(c') - OpsShare()(c)
    && t'.errs - t.errs == FailShare()(c') - FailShare()(c)
    && t'.nils - t.nils == NilShare()(c') - NilShare()(c)
    && t'.errReplies - t.errReplies == ErrShare()(c') - ErrShare()(c)
  }

  lemma MoveKeeps(cfg: Config, c: Conn, t: Tallies, e: Event)
    requires cfg.pipeline > 0 && ConnInv(cfg, c)
    ensures var (c', t') := Move(cfg, c, t, e); Kept(cfg, c, t, c', t')
  {
    if c.pc.Sorting? {
      SortingKeeps(cfg, c, t, e);
    } else if c.pc.Reading? || c.pc.Counting? {
      ReplyKeeps(cfg, c, t, e);
    } else if c.pc.Writing? || c.pc.Flushing? {
      SendingKeeps(cfg, c, t, e);
    } else {
      EndsKeep(cfg, c, t, e);
    }
  }

  lemma SortingKeeps(cfg: Config, c: Conn, t: Tallies, e: Event)
    requires cfg.pipeline > 0 && ConnInv(cfg, c) && c.pc.Sorting?
    ensures var (c', t') := Move(cfg, c, t, e); Kept(cfg, c, t, c', t')
  {
    MulOrder(c.batches, c.batches, cfg.pipeline);
  }

  lemma ReplyKeeps(cfg: Config, c: Conn, t: Tallies, e: Event)
    requires cfg.pipeline > 0 && ConnInv(cfg, c) && (c.pc.Reading? || c.pc.Counting?)
    ensures var (c', t') := Move(cfg, c, t, e); Kept(cfg, c, t, c', t')
  {
  }

  lemma SendingKeeps(cfg: Config, c: Conn, t: Tallies, e: Event)
    requires cfg.pipeline > 0 && ConnInv(cfg, c) && (c.pc.Writing? || c.pc.Flushing?)
    ensures var (c', t') := Move(cfg, c, t, e); Kept(cfg, c, t, c', t')
  {
  }

  lemma EndsKeep(cfg: Config, c: Conn, t: Tallies, e: Event)
    requires cfg.pipeline > 0 && ConnInv(cfg, c) && (c.pc.Head? || c.pc.Broken? || c.pc.Done?)
    ensures var (c', t') := Move(cfg, c, t, e); Kept(cfg, c, t, c', t')
  {
  }

  lemma InitInv(cfg: Config, connections: nat)
    requires cfg.pipeline > 0
    ensures Inv(cfg, Init(connections))
  {
    var conns := Init(connections).conns;
    SumConstant(conns, OpsShare(), 0);
    SumConstant(conns, FailShare(), 0);
    SumConstant(conns, NilShare(), 0);
    SumConstant(conns, ErrShare(), 0);
  }

  lemma StepInv(cfg: Config, s: State, who: nat, e: Event)
    requires Inv(cfg, s)
    ensures Inv(cfg, Step(cfg, s, who, e))
  {
    if who < |s.conns| {
      MoveKeeps(cfg, s.conns[who], s.tallies, e);
      var c := Move(cfg, s.conns[who], s.tallies, e).0;
      SumUpdate(s.conns, who, c, OpsShare());
      SumUpdate(s.conns, who, c, FailShare());
      SumUpdate(s.conns, who, c, NilShare());
      SumUpdate(s.conns, who, c, ErrShare());
    }
  }

  /** Every state any schedule reaches satisfies the invariant. */
  lemma {:induction false} ReachableInv(cfg: Config, connections: nat, schedule: seq<(nat, Event)>)
    requires cfg.pipeline > 0
    ensures Inv(cfg, Execute(cfg, Init(connections), schedule))
    ensures |Execute(cfg, Init(connections), schedule).conns| == connections
  {
    if schedule == [] {
      InitInv(cfg, connections);
    } else {
      var n := |schedule| - 1;
      ReachableInv(cfg, connections, schedule[..n]);
      StepInv(cfg, Execute(cfg, Init(connections), schedule[..n]), schedule[n].0, schedule[n].1);
    }
  }

  // ---- what every run guarantees ----

  /** At any instant, mid-reply or not: ValueOps is never negative, no more connections have
      failed than were connected, and a connection has drawn at most one batch more than it counted. */
  lemma AnyInstant(cfg: Config, connections: nat, schedule: seq<(nat, Event)>)
    requires cfg.pipeline > 0
    ensures var s := Execute(cfg, Init(connections), schedule);
            && s.tallies.ops - s.tallies.nils - s.tallies.errReplies >= 0
            && 0 <= s.tallies.errs <= connections == |s.conns|
            && forall i :: 0 <= i < connections ==> s.conns[i].issued <= s.conns[i].seqNo <= s.conns[i].issued + cfg.pipeline
  {
    ReachableInv(cfg, connections, schedule);
    var s := Execute(cfg, Init(connections), schedule);
    var both := (c: Conn) => NilShare()(c) + ErrShare()(c);
    forall i | 0 <= i < connections
      ensures both(s.conns[i]) <= OpsShare()(s.conns[i])
      ensures s.conns[i].issued <= s.conns[i].seqNo <= s.conns[i].issued + cfg.pipeline
    {
      assert ConnInv(cfg, s.conns[i]);
    }
    SumPlus(s.conns, NilShare(), ErrShare(), both);
    SumAtMost(s.conns, both, OpsShare());
    var one, zero := (c: Conn) => 1, (c: Conn) => 0;
    SumAtMost(s.conns, FailShare(), one);
    SumAtMost(s.conns, zero, FailShare());
    SumConstant(s.conns, one, 1);
    SumConstant(s.conns, zero, 0);
  }

  ghost predicate Finished(s: State) { forall i :: 0 <= i < |s.conns| ==> s.conns[i].pc.Done? }

  /** The samples of all connections, in connection order. */
  function Recorded(conns: seq<Conn>): seq<int> {
    if conns == [] then [] else Recorded(conns[..|conns| - 1]) + Stored(LATENCY, conns[|conns| - 1].latencies)
  }

  lemma {:induction false} RecordedCount(conns: seq<Conn>)
    ensures |Recorded(conns)| == Sum(conns, SampleShare())
  {
    if conns != [] {
      RecordedCount(conns[..|conns| - 1]);
      LatencyLayout();
      StoredAll(LATENCY, conns[|conns| - 1].latencies);
    }
  }

  /** When the workers have joined, whatever failed and whenever: every completed operation is
      a nil, a refusal or a value, and has left one sample. */
  lemma FinalConservation(cfg: Config, connections: nat, schedule: seq<(nat, Event)>)
    requires cfg.pipeline > 0
    requires Finished(Execute(cfg, Init(connections), schedule))
    ensures var s := Execute(cfg, Init(connections), schedule);
            && s.tallies.ops == s.tallies.nils + s.tallies.errReplies + Sum(s.conns, ValueShare())
            && s.tallies.ops == |Recorded(s.conns)|
  {
    ReachableInv(cfg, connections, schedule);
    var s := Execute(cfg, Init(connections), schedule);
    var both := (c: Conn) => NilShare()(c) + ErrShare()(c);
    forall i | 0 <= i < connections
      ensures OpsShare()(s.conns[i]) == both(s.conns[i]) + ValueShare()(s.conns[i])
      ensures OpsShare()(s.conns[i]) == SampleShare()(s.conns[i])
    {
      assert ConnInv(cfg, s.conns[i]) && s.conns[i].pc.Done?;
    }
    SumPlus(s.conns, NilShare(), ErrShare(), both);
    SumPlus(s.conns, both, ValueShare(), OpsShare());
    SumAtMost(s.conns, OpsShare(), SampleShare());
    SumAtMost(s.conns, SampleShare(), OpsShare());
    RecordedCount(s.conns);
  }

  /** The workers' histograms hold the latencies the machine says they were handed. */
  ghost predicate Filled(hists: seq<Histogram>, conns: seq<Conn>)
    reads hists
  {
    && |hists| == |conns|
    && forall i :: 0 <= i < |hists| ==>
         hists[i].layout == LATENCY && hists[i].samples == Stored(LATENCY, conns[i].latencies)
  }

  lemma {:induction false} AllSamplesAre(hists: seq<Histogram>, conns: seq<Conn>)
    requires Filled(hists, conns)
    ensures Run.AllSamples(hists) == Recorded(conns)
  {
    if hists != [] {
      AllSamplesAre(hists[..|hists| - 1], conns[..|conns| - 1]);
    }
  }

  /** The merged histogram of a finished run counts exactly its operations. */
  method MergeRun(ghost cfg: Config, ghost connections: nat, ghost schedule: seq<(nat, Event)>, hists: seq<Histogram>)
    returns (merged: Histogram)
    requires cfg.pipeline > 0 && Finished(Execute(cfg, Init(connections), schedule))
    requires forall h :: h in hists ==> h.Valid()
    requires Filled(hists, Execute(cfg, Init(connections), schedule).conns)
    ensures fresh(merged) && merged.Valid()
    ensures merged.samples == Recorded(Execute(cfg, Init(connections), schedule).conns)
    ensures merged.totalCount == Execute(cfg, Init(connections), schedule).tallies.ops
  {
    AllSamplesAre(hists, Execute(cfg, Init(connections), schedule).conns);
    FinalConservation(cfg, connections, schedule);
    merged := Run.MergeAll(hists);
  }

  ghost predicate AllComplete(s: State) { forall i :: 0 <= i < |s.conns| ==> s.conns[i].pc == Done(Complete) }

  /** A run by request count that ended without a failure or an expired context counted exactly
      connections * pipeline * ceil(perConnReq / pipeline) operations. */
  lemma CompleteRunCount(cfg: Config, connections: nat, schedule: seq<(nat, Event)>)
    requires cfg.pipeline > 0
    requires AllComplete(Execute(cfg, Init(connections), schedule))
    ensures Execute(cfg, Init(connections), schedule).tallies.ops == connections * Rounded(cfg.perConnReq, cfg.pipeline)
  {
    ReachableInv(cfg, connections, schedule);
    var s := Execute(cfg, Init(connections), schedule);
    forall i | 0 <= i < connections ensures OpsShare()(s.conns[i]) == Rounded(cfg.perConnReq, cfg.pipeline) {
      var c := s.conns[i];
      assert ConnInv(cfg, c) && c.pc == Done(Complete);
      MulOrder(c.batches, 0, cfg.pipeline);
      RoundedIs(cfg.perConnReq, cfg.pipeline, c.batches);
    }
    SumConstant(s.conns, OpsShare(), Rounded(cfg.perConnReq, cfg.pipeline));
  }
}
