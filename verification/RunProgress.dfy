/** What drives a closed-loop run to its end: how far each step of a connection takes it, after how
    many steps it has completed, why a connection can end before that, and which replies the
    tallies and the latencies at the end come from. */
module RunProgress {
  import opened Arith
  import opened Client
  import opened Drive
  import opened RunMachine

  type Schedule = seq<(nat, Event)>

  /** An event moves a connection that is not done, unless it waits for a reply and gets none. */
  predicate Applies(pc: Pc, e: Event) {
    match pc
    case Done(_) => false
    case Reading(_) => e.Failure? || e.Reply?
    case _ => true
  }

  lemma AppliesIffMoves(cfg: Config, c: Conn, t: Tallies, e: Event)
    ensures Applies(c.pc, e) <==> Move(cfg, c, t, e).0.pc != c.pc
    ensures !Applies(c.pc, e) ==> Move(cfg, c, t, e) == (c, t)
  {
  }

  /** A connection as a schedule leaves it. */
  function At(cfg: Config, connections: nat, schedule: Schedule, who: nat): Conn
    requires cfg.pipeline > 0 && who < connections
  {
    ReachableInv(cfg, connections, schedule);
    Execute(cfg, Init(connections), schedule).conns[who]
  }

  lemma AtNext(cfg: Config, connections: nat, schedule: Schedule, who: nat)
    requires cfg.pipeline > 0 && who < connections && schedule != []
    ensures var n := |schedule| - 1;
            var c := At(cfg, connections, schedule[..n], who);
            At(cfg, connections, schedule, who) ==
              if schedule[n].0 != who then c
              else Move(cfg, c, Execute(cfg, Init(connections), schedule[..n]).tallies, schedule[n].1).0
  {
    ReachableInv(cfg, connections, schedule[..|schedule| - 1]);
  }

  // ---- progress ----

  /** The schedule neither expires the context for a connection nor fails its socket. */
  ghost predicate Undisturbed(schedule: Schedule, who: nat) {
    forall k :: 0 <= k < |schedule| && schedule[k].0 == who ==> !schedule[k].1.ContextDone? && !schedule[k].1.Failure?
  }

  /** How many events of the schedule moved the connection. */
  function OwnSteps(cfg: Config, connections: nat, schedule: Schedule, who: nat): (steps: nat)
    requires cfg.pipeline > 0 && who < connections
    ensures steps <= |schedule|
  {
    if schedule == [] then 0 else
    var n := |schedule| - 1;
    OwnSteps(cfg, connections, schedule[..n], who)
    + (if schedule[n].0 == who && Applies(At(cfg, connections, schedule[..n], who).pc, schedule[n].1) then 1 else 0)
  }

  /** The steps of one batch: the head check, a write for each command, the flush, and a read and
      two counter bumps for each reply. */
  function BatchSteps(pipeline: nat): nat { 4 * pipeline + 2 }

  /** The steps to completion: whole batches until the share is covered, and the last head check. */
  function RunSteps(cfg: Config): nat
    requires cfg.pipeline > 0
  {
    (cfg.perConnReq + cfg.pipeline - 1) / cfg.pipeline * BatchSteps(cfg.pipeline) + 1
  }

  /** Steps into the current batch. */
  function Offset(pipeline: nat, pc: Pc): nat {
    match pc
    case Head => 0
    case Writing(i) => 1 + i
    case Flushing => 1 + pipeline
    case Reading(i) => 2 + pipeline + 3 * i
    case Counting(i, _) => 3 + pipeline + 3 * i
    case Sorting(i, _) => 4 + pipeline + 3 * i
    case Broken => 0
    case Done(_) => 1
  }

  function Place(cfg: Config, c: Conn): nat { c.batches * BatchSteps(cfg.pipeline) + Offset(cfg.pipeline, c.pc) }

  predicate OnTrack(pc: Pc) { !pc.Broken? && (pc.Done? ==> pc.exit == Complete) }

  lemma OneStepOn(cfg: Config, c: Conn, t: Tallies, e: Event)
    requires cfg.pipeline > 0 && ConnInv(cfg, c) && OnTrack(c.pc)
    requires !e.ContextDone? && !e.Failure?
    ensures var c' := Move(cfg, c, t, e).0;
            OnTrack(c'.pc) && Place(cfg, c') == Place(cfg, c) + (if Applies(c.pc, e) then 1 else 0)
  {
    MulOrder(c.batches, c.batches, BatchSteps(cfg.pipeline));
  }

  /** Every step that moves an undisturbed connection takes it one place further, and none throws it back. */
  lemma {:induction false} PlaceIsSteps(cfg: Config, connections: nat, schedule: Schedule, who: nat)
    requires cfg.pipeline > 0 && who < connections && Undisturbed(schedule, who)
    ensures var c := At(cfg, connections, schedule, who);
            OnTrack(c.pc) && Place(cfg, c) == OwnSteps(cfg, connections, schedule, who)
  {
    if schedule == [] {
    } else {
      var n := |schedule| - 1;
      PlaceIsSteps(cfg, connections, schedule[..n], who);
      ReachableInv(cfg, connections, schedule[..n]);
      AtNext(cfg, connections, schedule, who);
      var before := Execute(cfg, Init(connections), schedule[..n]);
      if schedule[n].0 == who {
        OneStepOn(cfg, before.conns[who], before.tallies, schedule[n].1);
      }
    }
  }

  /** The place tells whether the connection is done. */
  lemma DoneAtPlace(cfg: Config, c: Conn)
    requires cfg.pipeline > 0 && cfg.perConnReq > 0 && ConnInv(cfg, c) && OnTrack(c.pc)
    ensures Place(cfg, c) <= RunSteps(cfg)
    ensures c.pc == Done(Complete) <==> Place(cfg, c) == RunSteps(cfg)
  {
    var q := (cfg.perConnReq + cfg.pipeline - 1) / cfg.pipeline;
    DivFloor(cfg.perConnReq + cfg.pipeline - 1, cfg.pipeline);
    MulOrder(c.batches, q, cfg.pipeline);
    MulOrder(c.batches - 1, q, cfg.pipeline);
    MulOrder(c.batches, q, BatchSteps(cfg.pipeline));
    MulOrder(c.batches + 1, q, BatchSteps(cfg.pipeline));
    BatchesAtPlace(cfg, c, q);
  }

  lemma BatchesAtPlace(cfg: Config, c: Conn, q: nat)
    requires cfg.pipeline > 0 && cfg.perConnReq > 0 && ConnInv(cfg, c) && OnTrack(c.pc)
    requires q * cfg.pipeline - cfg.pipeline < cfg.perConnReq <= q * cfg.pipeline
    ensures c.pc == Done(Complete) ==> c.batches == q
    ensures c.pc == Head ==> c.batches <= q
    ensures !c.pc.Head? && !c.pc.Done? ==> c.batches < q && Offset(cfg.pipeline, c.pc) < BatchSteps(cfg.pipeline)
  {
    MulOrder(c.batches, q, cfg.pipeline);
    MulOrder(c.batches - 1, q, cfg.pipeline);
    MulOrder(q - 1, c.batches, cfg.pipeline);
  }

  /** An undisturbed connection with a share to serve is done after RunSteps of its own steps and
      not before, complete; one without a share is never done. */
  lemma CompleteAfterRunSteps(cfg: Config, connections: nat, schedule: Schedule, who: nat)
    requires cfg.pipeline > 0 && who < connections && Undisturbed(schedule, who)
    ensures var c := At(cfg, connections, schedule, who);
            var steps := OwnSteps(cfg, connections, schedule, who);
            && (cfg.perConnReq > 0 ==> steps <= RunSteps(cfg))
            && (cfg.perConnReq > 0 && steps == RunSteps(cfg) ==>
                  c.pc == Done(Complete) && c.issued == Rounded(cfg.perConnReq, cfg.pipeline))
            && (cfg.perConnReq == 0 || steps < RunSteps(cfg) ==> !c.pc.Done? && !c.pc.Broken?)
  {
    PlaceIsSteps(cfg, connections, schedule, who);
    ReachableInv(cfg, connections, schedule);
    var c := At(cfg, connections, schedule, who);
    assert ConnInv(cfg, c);
    if cfg.perConnReq > 0 {
      DoneAtPlace(cfg, c);
      if c.pc == Done(Complete) {
        MulOrder(c.batches, 0, cfg.pipeline);
        RoundedIs(cfg.perConnReq, cfg.pipeline, c.batches);
      }
    }
  }

  /** How many replies the schedule sends a connection, heard or not. */
  function Sent(schedule: Schedule, who: nat): nat {
    if schedule == [] then 0 else
    var last := schedule[|schedule| - 1];
    Sent(schedule[..|schedule| - 1], who) + (if last.0 == who && last.1.Reply? then 1 else 0)
  }

  /** A reply moves every connection that is not done. */
  lemma {:induction false} RepliesMove(cfg: Config, connections: nat, schedule: Schedule, who: nat)
    requires cfg.pipeline > 0 && who < connections
    ensures At(cfg, connections, schedule, who).pc.Done?
         || OwnSteps(cfg, connections, schedule, who) >= Sent(schedule, who)
  {
    if schedule == [] {
    } else {
      RepliesMove(cfg, connections, schedule[..|schedule| - 1], who);
      AtNext(cfg, connections, schedule, who);
    }
  }

  /** The schedule disturbs no connection and sends each at least RunSteps replies. */
  ghost predicate Serves(cfg: Config, connections: nat, schedule: Schedule)
    requires cfg.pipeline > 0
  {
    forall who: nat :: who < connections ==> Undisturbed(schedule, who) && Sent(schedule, who) >= RunSteps(cfg)
  }

  /** A run by request count whose connections are served and not disturbed ends with every one of
      them complete, whatever else the schedule does, and counts exactly the rounded share of each. */
  lemma ServedRunCompletes(cfg: Config, connections: nat, schedule: Schedule)
    requires cfg.pipeline > 0 && cfg.perConnReq > 0 && Serves(cfg, connections, schedule)
    ensures var s := Execute(cfg, Init(connections), schedule);
            && AllComplete(s)
            && s.tallies.ops == connections * Rounded(cfg.perConnReq, cfg.pipeline)
            && s.tallies.errs == 0
  {
    ReachableInv(cfg, connections, schedule);
    var s := Execute(cfg, Init(connections), schedule);
    forall who: nat | who < connections ensures s.conns[who].pc == Done(Complete) {
      RepliesMove(cfg, connections, schedule, who);
      CompleteAfterRunSteps(cfg, connections, schedule, who);
      PlaceIsSteps(cfg, connections, schedule, who);
    }
    CompleteRunCount(cfg, connections, schedule);
    SumConstant(s.conns, FailShare(), 0);
  }

  // ---- why a connection ends early ----

  /** Event k found the connection at a head check and the context expired. */
  ghost predicate ExpiredBy(cfg: Config, connections: nat, schedule: Schedule, who: nat, k: nat)
    requires cfg.pipeline > 0 && who < connections && k < |schedule|
  {
    schedule[k] == (who, ContextDone) && At(cfg, connections, schedule[..k], who).pc.Head?
  }

  /** Event k found the connection writing, flushing or reading and failed that. */
  ghost predicate FailedBy(cfg: Config, connections: nat, schedule: Schedule, who: nat, k: nat)
    requires cfg.pipeline > 0 && who < connections && k < |schedule|
  {
    && schedule[k] == (who, Failure)
    && var pc := At(cfg, connections, schedule[..k], who).pc;
       pc.Writing? || pc.Flushing? || pc.Reading?
  }

  ghost predicate Expires(cfg: Config, connections: nat, schedule: Schedule, who: nat)
    requires cfg.pipeline > 0 && who < connections
  {
    exists k: nat :: k < |schedule| && ExpiredBy(cfg, connections, schedule, who, k)
  }

  ghost predicate Fails(cfg: Config, connections: nat, schedule: Schedule, who: nat)
    requires cfg.pipeline > 0 && who < connections
  {
    exists k: nat :: k < |schedule| && FailedBy(cfg, connections, schedule, who, k)
  }

  /** One more event, seen by the two predicates. */
  lemma ReasonsNext(cfg: Config, connections: nat, schedule: Schedule, who: nat)
    requires cfg.pipeline > 0 && who < connections && schedule != []
    ensures var n := |schedule| - 1;
            && (Expires(cfg, connections, schedule, who) <==>
                  Expires(cfg, connections, schedule[..n], who) || ExpiredBy(cfg, connections, schedule, who, n))
            && (Fails(cfg, connections, schedule, who) <==>
                  Fails(cfg, connections, schedule[..n], who) || FailedBy(cfg, connections, schedule, who, n))
  {
    var n := |schedule| - 1;
    var front := schedule[..n];
    forall k: nat | k < n
      ensures ExpiredBy(cfg, connections, schedule, who, k) == ExpiredBy(cfg, connections, front, who, k)
      ensures FailedBy(cfg, connections, schedule, who, k) == FailedBy(cfg, connections, front, who, k)
    {
      assert front[..k] == schedule[..k];
    }
  }

  /** A connection has expired exactly when some head check found the context expired, and has
      failed exactly when some write, flush or read failed. */
  lemma {:induction false} EndReason(cfg: Config, connections: nat, schedule: Schedule, who: nat)
    requires cfg.pipeline > 0 && who < connections
    ensures var pc := At(cfg, connections, schedule, who).pc;
            && (pc == Done(Expired) <==> Expires(cfg, connections, schedule, who))
            && (pc == Broken || pc == Done(ReadFailed) <==> Fails(cfg, connections, schedule, who))
            && pc != Done(WriteFailed)
  {
    if schedule == [] {
    } else {
      EndReason(cfg, connections, schedule[..|schedule| - 1], who);
      AtNext(cfg, connections, schedule, who);
      ReasonsNext(cfg, connections, schedule, who);
    }
  }

  // ---- what the tallies and the latencies come from ----

  /** The replies that found their connection reading, of one kind, over all connections. */
  function Heard(cfg: Config, connections: nat, schedule: Schedule, kind: ReplyKind): nat
    requires cfg.pipeline > 0
  {
    if schedule == [] then 0 else
    var n := |schedule| - 1;
    Heard(cfg, connections, schedule[..n], kind)
    + (if Hears(cfg, connections, schedule[..n], schedule[n]) && schedule[n].1.kind == kind then 1 else 0)
  }

  predicate Hears(cfg: Config, connections: nat, schedule: Schedule, next: (nat, Event))
    requires cfg.pipeline > 0
  {
    next.0 < connections && next.1.Reply? && At(cfg, connections, schedule, next.0).pc.Reading?
  }

  /** The latencies of the replies one connection heard, in order. */
  function LatenciesHeard(cfg: Config, connections: nat, schedule: Schedule, who: nat): seq<int>
    requires cfg.pipeline > 0 && who < connections
  {
    if schedule == [] then [] else
    var n := |schedule| - 1;
    LatenciesHeard(cfg, connections, schedule[..n], who)
    + (if schedule[n].0 == who && Hears(cfg, connections, schedule[..n], schedule[n]) then [schedule[n].1.latency]
       else [])
  }

  function KindShare(kind: ReplyKind): Conn -> int {
    (c: Conn) => match kind case ReplyValue => c.values case ReplyNil => c.nils case ReplyErr => c.refusals
  }

  lemma MoveHears(cfg: Config, c: Conn, t: Tallies, e: Event, kind: ReplyKind)
    ensures KindShare(kind)(Move(cfg, c, t, e).0) ==
            KindShare(kind)(c) + (if c.pc.Reading? && e.Reply? && e.kind == kind then 1 else 0)
  {
  }

  /** Each connection has counted what was heard, kind by kind, at every instant. */
  lemma {:induction false} KindsHeard(cfg: Config, connections: nat, schedule: Schedule, kind: ReplyKind)
    requires cfg.pipeline > 0
    ensures Sum(Execute(cfg, Init(connections), schedule).conns, KindShare(kind)) ==
            Heard(cfg, connections, schedule, kind)
  {
    if schedule == [] {
      SumConstant(Init(connections).conns, KindShare(kind), 0);
    } else {
      var n := |schedule| - 1;
      KindsHeard(cfg, connections, schedule[..n], kind);
      ReachableInv(cfg, connections, schedule[..n]);
      var before := Execute(cfg, Init(connections), schedule[..n]);
      var who, e := schedule[n].0, schedule[n].1;
      if who < connections {
        var c := before.conns[who];
        MoveHears(cfg, c, before.tallies, e, kind);
        SumUpdate(before.conns, who, Move(cfg, c, before.tallies, e).0, KindShare(kind));
      }
    }
  }

  lemma {:induction false} LatenciesAreHeard(cfg: Config, connections: nat, schedule: Schedule, who: nat)
    requires cfg.pipeline > 0 && who < connections
    ensures At(cfg, connections, schedule, who).latencies == LatenciesHeard(cfg, connections, schedule, who)
  {
    if schedule == [] {
    } else {
      LatenciesAreHeard(cfg, connections, schedule[..|schedule| - 1], who);
      AtNext(cfg, connections, schedule, who);
    }
  }

  /** When the workers have joined, the shared tallies are the replies heard: each nil in one, each
      error in another, and all of them in the operations. */
  lemma FinalTallies(cfg: Config, connections: nat, schedule: Schedule)
    requires cfg.pipeline > 0 && Finished(Execute(cfg, Init(connections), schedule))
    ensures var t := Execute(cfg, Init(connections), schedule).tallies;
            && t.nils == Heard(cfg, connections, schedule, ReplyNil)
            && t.errReplies == Heard(cfg, connections, schedule, ReplyErr)
            && t.ops == Heard(cfg, connections, schedule, ReplyNil) + Heard(cfg, connections, schedule, ReplyErr)
                        + Heard(cfg, connections, schedule, ReplyValue)
  {
    ReachableInv(cfg, connections, schedule);
    FinalConservation(cfg, connections, schedule);
    KindsHeard(cfg, connections, schedule, ReplyNil);
    KindsHeard(cfg, connections, schedule, ReplyErr);
    KindsHeard(cfg, connections, schedule, ReplyValue);
    var conns := Execute(cfg, Init(connections), schedule).conns;
    SameSum(conns, NilShare(), KindShare(ReplyNil));
    SameSum(conns, ErrShare(), KindShare(ReplyErr));
    SameSum(conns, ValueShare(), KindShare(ReplyValue));
  }

  lemma SameSum(conns: seq<Conn>, f: Conn -> int, g: Conn -> int)
    requires forall i :: 0 <= i < |conns| ==> f(conns[i]) == g(conns[i])
    ensures Sum(conns, f) == Sum(conns, g)
  {
    SumAtMost(conns, f, g);
    SumAtMost(conns, g, f);
  }
}
