/** The retrievability probe: sampled GETs in pipelined batches, each reply put into one of four
    bins. */
module Coverage {
  import opened Arith
  import opened Decimal
  import opened Resp
  import opened Client
  import opened Drive

  const COVERAGE_BATCH: nat := 256

  datatype Bin = Retrievable | Missing | WrongLength | Corrupt

  /** What a GET's answer says about the key: retrievable means a bulk value of exactly the
      written length holding nothing but the fill byte. */
  function BinOf(v: Value, valueSize: int, fill: byte): Bin {
    match v
    case Null => Missing
    case Bytes(data) =>
      if |data| != valueSize then WrongLength
      else if forall i :: 0 <= i < |data| ==> data[i] == fill then Retrievable
      else Corrupt
    case _ => Corrupt
  }

  /** A reply counts as retrievable exactly when it is the value the workload wrote. */
  lemma BinOfReply(v: Value, valueSize: int, fill: byte)
    ensures BinOf(v, valueSize, fill) == Retrievable <==> valueSize >= 0 && v == Bytes(seq(valueSize, _ => fill))
    ensures BinOf(v, valueSize, fill) == Missing <==> v == Null
    ensures BinOf(v, valueSize, fill) == WrongLength <==> v.Bytes? && |v.data| != valueSize
  {
    if v.Bytes? && |v.data| == valueSize {
      if forall i :: 0 <= i < |v.data| ==> v.data[i] == fill {
        assert v.data == seq(valueSize, _ => fill);
      } else {
        var i :| 0 <= i < |v.data| && v.data[i] != fill;
        assert v.data[i] != seq(valueSize, _ => fill)[i];
      }
    }
  }

  /** How many of the first n replies go into one bin. */
  function CountBin(replies: seq<Reply>, n: nat, bin: Bin, valueSize: int, fill: byte): (k: nat)
    requires n <= |replies|
    ensures k <= n
  {
    if n == 0 then 0 else
    CountBin(replies, n - 1, bin, valueSize, fill)
    + (if BinOf(Meaning(replies[n - 1]), valueSize, fill) == bin then 1 else 0)
  }

  /** The bins split the replies. */
  lemma {:induction false} BinsPartition(replies: seq<Reply>, n: nat, valueSize: int, fill: byte)
    requires n <= |replies|
    ensures CountBin(replies, n, Retrievable, valueSize, fill) + CountBin(replies, n, Missing, valueSize, fill)
            + CountBin(replies, n, WrongLength, valueSize, fill) + CountBin(replies, n, Corrupt, valueSize, fill) == n
  {
    if n > 0 {
      BinsPartition(replies, n - 1, valueSize, fill);
    }
  }

  class Result {
    var sampled: nat
    var retrievable: nat
    var missing: nat
    var wrongLength: nat
    var corrupt: nat

    constructor (sampled: nat)
      ensures this.sampled == sampled && retrievable == 0 && missing == 0 && wrongLength == 0 && corrupt == 0
    {
      this.sampled := sampled;
      retrievable, missing, wrongLength, corrupt := 0, 0, 0, 0;
    }

    /** The bins hold the first n replies. */
    ghost predicate Bins(replies: seq<Reply>, n: nat, valueSize: int, fill: byte)
      requires n <= |replies|
      reads this
    {
      && retrievable == CountBin(replies, n, Retrievable, valueSize, fill)
      && missing == CountBin(replies, n, Missing, valueSize, fill)
      && wrongLength == CountBin(replies, n, WrongLength, valueSize, fill)
      && corrupt == CountBin(replies, n, Corrupt, valueSize, fill)
    }

    /** classify: the content scan stops at the first wrong byte. */
    method Classify(v: Value, valueSize: int, fill: byte)
      modifies this
      ensures sampled == old(sampled)
      ensures retrievable == old(retrievable) + (if BinOf(v, valueSize, fill) == Retrievable then 1 else 0)
      ensures missing == old(missing) + (if BinOf(v, valueSize, fill) == Missing then 1 else 0)
      ensures wrongLength == old(wrongLength) + (if BinOf(v, valueSize, fill) == WrongLength then 1 else 0)
      ensures corrupt == old(corrupt) + (if BinOf(v, valueSize, fill) == Corrupt then 1 else 0)
    {
      match v {
        case Null => missing := missing + 1;
        case Bytes(data) =>
          if |data| != valueSize {
            wrongLength := wrongLength + 1;
            return;
          }
          for i := 0 to |data|
            invariant forall k :: 0 <= k < i ==> data[k] == fill
            invariant unchanged(this)
          {
            if data[i] != fill {
              corrupt := corrupt + 1;
              return;
            }
          }
          retrievable := retrievable + 1;
        case _ => corrupt := corrupt + 1;
      }
    }
  }

  const GET: bytes := [71, 69, 84]

  /** One GET for each sampled index. */
  function Gets(keyPrefix: bytes, keys: seq<nat>): (cmds: seq<Argv>)
    ensures |cmds| == |keys|
  {
    seq(|keys|, i requires 0 <= i < |keys| => [GET, keyPrefix + FormatInt(keys[i])])
  }

  /** The outgoing stream once these keys have been asked for, on top of what it carried before. */
  function GetWire(base: bytes, keyPrefix: bytes, keys: seq<nat>): bytes {
    if keys == [] then base
    else GetWire(base, keyPrefix, keys[..|keys| - 1]) + EncodeCommand([GET, keyPrefix + FormatInt(keys[|keys| - 1])])
  }

  lemma {:induction false} GetWireIs(base: bytes, keyPrefix: bytes, keys: seq<nat>)
    ensures GetWire(base, keyPrefix, keys) == base + EncodeCommands(Gets(keyPrefix, keys))
  {
    if keys == [] {
      assert base + [] == base;
    } else {
      var before, idx := keys[..|keys| - 1], keys[|keys| - 1];
      GetWireIs(base, keyPrefix, before);
      GetsSnoc(keyPrefix, before, idx);
      assert keys == before + [idx];
      OneMoreCommand(Gets(keyPrefix, before), [GET, keyPrefix + FormatInt(idx)], base);
    }
  }

  lemma GetsSnoc(keyPrefix: bytes, keys: seq<nat>, idx: nat)
    ensures Gets(keyPrefix, keys + [idx]) == Gets(keyPrefix, keys) + [[GET, keyPrefix + FormatInt(idx)]]
  {
  }

  /** Draws and writes one GET. */
  method SendGet(cl: Client, keyPrefix: bytes, keyCount: nat, ghost before: seq<nat>, ghost base: bytes,
                 ghost wasFailed: bool, ghost since: nat)
    returns (ok: bool, ghost keys: seq<nat>)
    requires cl.Valid() && keyCount > 0 && cl.Sent() == GetWire(base, keyPrefix, before)
    requires InSpace(before, keyCount) && FaultsSeen(cl, wasFailed, since)
    modifies cl`wbuf, cl`failed, cl.conn`outgoing, cl.conn`written, cl.conn`writes
    ensures cl.Valid() && |keys| == |before| + 1 && InSpace(keys, keyCount)
    ensures cl.failed == !ok && FaultsSeen(cl, wasFailed, since)
    ensures ok ==> cl.Sent() == GetWire(base, keyPrefix, keys)
  {
    var idx: nat :| idx < keyCount;
    keys := before + [idx];
    ghost var mid := cl.conn.writes;
    ok := cl.WriteCommand([GET, keyPrefix + FormatInt(idx)]);
    FaultSplit(cl.conn.faults, since, mid, cl.conn.writes);
  }

  /** Draws and writes one batch of GETs, then flushes. */
  method SendGets(cl: Client, keyPrefix: bytes, keyCount: nat, n: nat, ghost before: seq<nat>, ghost base: bytes,
                  ghost wasFailed: bool, ghost since: nat)
    returns (ok: bool, ghost keys: seq<nat>)
    requires cl.Valid() && keyCount > 0 && cl.Sent() == GetWire(base, keyPrefix, before)
    requires InSpace(before, keyCount) && FaultsSeen(cl, wasFailed, since)
    modifies cl`wbuf, cl`failed, cl.conn`outgoing, cl.conn`written, cl.conn`writes
    ensures cl.Valid() && InSpace(keys, keyCount)
    ensures cl.failed == !ok && FaultsSeen(cl, wasFailed, since)
    ensures ok ==> |keys| == |before| + n && cl.wbuf == [] && cl.conn.outgoing == GetWire(base, keyPrefix, keys)
  {
    keys := before;
    var i := 0;
    while i < n
      invariant cl.Valid() && i <= n && |keys| == |before| + i && InSpace(keys, keyCount)
      invariant cl.Sent() == GetWire(base, keyPrefix, keys) && FaultsSeen(cl, wasFailed, since)
    {
      ok, keys := SendGet(cl, keyPrefix, keyCount, keys, base, wasFailed, since);
      if !ok {
        return;
      }
      i := i + 1;
    }
    ok := FlushAll(cl, wasFailed, since);
  }

  predicate InSpace(keys: seq<nat>, keyCount: int) { forall k :: 0 <= k < |keys| ==> keys[k] < keyCount }

  /** Reads and classifies the reply of sample i. */
  method ReadSample(cl: Client, res: Result, replies: seq<Reply>, tail: bytes, i: nat, ghost to: nat,
                    valueSize: int, fill: byte)
    returns (ok: bool)
    requires cl.Valid() && Server(replies, tail) && i <= |replies| && i < to
    requires cl.Pending() == Answers(replies, tail, i, to)
    requires res.Bins(replies, i, valueSize, fill)
    modifies cl`rbuf, cl.conn`incoming, cl.conn`read, res
    ensures cl.Valid() && res.sampled == old(res.sampled)
    ensures ok <==> i < |replies|
    ensures ok ==> cl.Pending() == Answers(replies, tail, i + 1, to) && res.Bins(replies, i + 1, valueSize, fill)
    ensures !ok ==> res.Bins(replies, i, valueSize, fill)
  {
    NextReading(replies, tail, i, to);
    var r := cl.ReadReplyValue();
    if r.Err? {
      return false;
    }
    res.Classify(r.value, valueSize, fill);
    ok := true;
  }

  method ReadSamples(cl: Client, res: Result, replies: seq<Reply>, tail: bytes, from: nat, upTo: nat,
                     valueSize: int, fill: byte)
    returns (ok: bool, done: nat)
    requires cl.Valid() && Server(replies, tail) && from <= |replies| && from <= upTo
    requires cl.Pending() == Answers(replies, tail, from, upTo)
    requires res.Bins(replies, from, valueSize, fill)
    modifies cl`rbuf, cl.conn`incoming, cl.conn`read, res
    ensures cl.Valid() && res.sampled == old(res.sampled)
    ensures from <= done <= upTo && done <= |replies|
    ensures ok ==> done == upTo && cl.Pending() == []
    ensures !ok ==> done == |replies| < upTo
    ensures res.Bins(replies, done, valueSize, fill)
  {
    ok, done := true, from;
    while ok && done < upTo
      invariant from <= done <= upTo && done <= |replies| && cl.Valid() && res.sampled == old(res.sampled)
      invariant res.Bins(replies, done, valueSize, fill)
      invariant ok ==> cl.Pending() == Answers(replies, tail, done, upTo)
      invariant !ok ==> done == |replies| < upTo
      decreases upTo - done, ok
    {
      ok := ReadSample(cl, res, replies, tail, done, upTo, valueSize, fill);
      if ok {
        done := done + 1;
      }
    }
  }

  /** GETs for these keys, and nothing since, are on the wire, and their replies have been read. */
  ghost predicate Asked(cl: Client, keyPrefix: bytes, keyCount: nat, keys: seq<nat>, base: bytes)
    reads cl, cl.conn
  {
    Aligned(cl) && cl.conn.outgoing == GetWire(base, keyPrefix, keys) && InSpace(keys, keyCount)
  }

  /** The GETs of one batch go out and are answered. */
  method AskBatch(cl: Client, keyPrefix: bytes, keyCount: nat, replies: seq<Reply>, tail: bytes, from: nat, upTo: nat,
                  ghost before: seq<nat>, ghost base: bytes, ghost wasFailed: bool, ghost since: nat)
    returns (ok: bool, ghost keys: seq<nat>)
    requires from <= |replies| && from <= upTo && keyCount > 0
    requires Asked(cl, keyPrefix, keyCount, before, base) && |before| == from && FaultsSeen(cl, wasFailed, since)
    modifies cl`wbuf, cl`failed, cl.conn
    ensures ok ==> cl.Valid() && |keys| == upTo && InSpace(keys, keyCount) && cl.wbuf == []
    ensures ok ==> cl.conn.outgoing == GetWire(base, keyPrefix, keys)
    ensures ok ==> cl.Pending() == Answers(replies, tail, from, upTo)
    ensures cl.failed == !ok && FaultsSeen(cl, wasFailed, since)
  {
    ok, keys := SendGets(cl, keyPrefix, keyCount, upTo - from, before, base, wasFailed, since);
    if ok {
      cl.conn.Arrive(Answers(replies, tail, from, upTo));
      assert cl.Pending() == cl.conn.incoming;
    }
  }

  /** One turn of the batching loop. */
  method ProbeBatch(cl: Client, res: Result, keyPrefix: bytes, keyCount: nat, replies: seq<Reply>, tail: bytes,
                    from: nat, upTo: nat, valueSize: int, fill: byte, ghost before: seq<nat>, ghost base: bytes,
                    ghost wasFailed: bool, ghost since: nat)
    returns (ok: bool, done: nat, ghost keys: seq<nat>)
    requires Server(replies, tail) && from <= |replies| && from <= upTo && keyCount > 0
    requires Asked(cl, keyPrefix, keyCount, before, base) && |before| == from && FaultsSeen(cl, wasFailed, since)
    requires res.Bins(replies, from, valueSize, fill)
    modifies cl, cl.conn, res
    ensures res.sampled == old(res.sampled) && from <= done <= upTo && done <= |replies|
    ensures res.Bins(replies, done, valueSize, fill)
    ensures ok ==> done == upTo == |keys| && Asked(cl, keyPrefix, keyCount, keys, base)
    ensures !ok ==> cl.failed || |replies| < upTo
    ensures FaultsSeen(cl, wasFailed, since)
  {
    ok, keys := AskBatch(cl, keyPrefix, keyCount, replies, tail, from, upTo, before, base, wasFailed, since);
    if !ok {
      return false, from, keys;
    }
    ok, done := ReadSamples(cl, res, replies, tail, from, upTo, valueSize, fill);
  }

  /** The batching loop. */
  method ProbeBatches(cl: Client, res: Result, keyPrefix: bytes, keyCount: nat, wanted: nat, valueSize: int, fill: byte,
                      replies: seq<Reply>, tail: bytes, ghost base: bytes, ghost wasFailed: bool, ghost since: nat)
    returns (ok: bool, done: nat, ghost keys: seq<nat>)
    requires Server(replies, tail) && keyCount > 0
    requires Asked(cl, keyPrefix, keyCount, [], base) && FaultsSeen(cl, wasFailed, since)
    requires res.Bins(replies, 0, valueSize, fill)
    modifies cl, cl.conn, res
    ensures res.sampled == old(res.sampled) && done <= wanted && done <= |replies|
    ensures res.Bins(replies, done, valueSize, fill) && FaultsSeen(cl, wasFailed, since)
    ensures ok ==> done == wanted == |keys| && Asked(cl, keyPrefix, keyCount, keys, base)
    ensures !ok ==> cl.failed || |replies| < wanted
  {
    ok, done, keys := true, 0, [];
    while done < wanted
      invariant ok && done <= wanted && done <= |replies| && res.sampled == old(res.sampled)
      invariant |keys| == done && Asked(cl, keyPrefix, keyCount, keys, base)
      invariant res.Bins(replies, done, valueSize, fill) && FaultsSeen(cl, wasFailed, since)
    {
      var n := if COVERAGE_BATCH < wanted - done then COVERAGE_BATCH else wanted - done;
      ok, done, keys := ProbeBatch(cl, res, keyPrefix, keyCount, replies, tail, done, done + n, valueSize, fill, keys,
                                   base, wasFailed, since);
      if !ok {
        break;
      }
    }
  }

  /** ProbeRetrievability on an open connection. Without a failure every one of the
      min(Sample, KeyCount) samples is in exactly one bin, and what went out is one GET for each, of a
      key inside the keyspace; after one, the bins hold what was read. */
  method ProbeRetrievability(cl: Client, keyPrefix: bytes, keyCount: int, sampleSize: int, valueSize: int, fill: byte,
                             replies: seq<Reply>, tail: bytes)
    returns (res: Result, ok: bool, ghost keys: seq<nat>)
    requires Aligned(cl) && Server(replies, tail)
    modifies cl, cl.conn
    ensures fresh(res)
    ensures keyCount <= 0 || sampleSize <= 0 ==> ok && res.sampled == 0
    ensures keyCount > 0 && sampleSize > 0 ==> res.sampled == if sampleSize > keyCount then keyCount else sampleSize
    ensures ok ==> res.sampled <= |replies| && res.Bins(replies, res.sampled, valueSize, fill)
    ensures ok ==> |keys| == res.sampled && InSpace(keys, keyCount)
    ensures ok ==> cl.conn.outgoing == old(cl.conn.outgoing) + EncodeCommands(Gets(keyPrefix, keys))
    ensures ok ==> res.retrievable + res.missing + res.wrongLength + res.corrupt == res.sampled
    ensures !ok ==> exists n :: 0 <= n <= |replies| && n <= res.sampled && res.Bins(replies, n, valueSize, fill)
    ensures !ok ==> cl.failed || |replies| < res.sampled
    ensures FaultsSeen(cl, old(cl.failed), old(cl.conn.writes))
  {
    ghost var base := cl.conn.outgoing;
    keys := [];
    GetWireIs(base, keyPrefix, []);
    if keyCount <= 0 || sampleSize <= 0 {
      res := new Result(0);
      return res, true, keys;
    }
    var wanted := if sampleSize > keyCount then keyCount else sampleSize;
    res := new Result(wanted);
    var done;
    ok, done, keys := ProbeBatches(cl, res, keyPrefix, keyCount, wanted, valueSize, fill, replies, tail, base,
                                   old(cl.failed), old(cl.conn.writes));
    GetWireIs(base, keyPrefix, keys);
    BinsPartition(replies, done, valueSize, fill);
  }
}
