/** The client of one connection: a counting socket under a buffered reader and writer.
    The socket hands over its bytes in pieces of any size, and the network decides which writes fail. */
module Client {
  import opened Decimal
  import opened Resp

  const BUFFER_SIZE: nat := 65536

  datatype Reading = Got(value: Value) | Err(why: Failure)

  datatype ReplyKind = ReplyValue | ReplyNil | ReplyErr

  datatype KindReading = Kind(kind: ReplyKind) | KindErr(why: Failure)

  /** The counters' view of a reply. */
  function Classify(v: Value): ReplyKind {
    match v
    case Null => ReplyNil
    case ServerError(_) => ReplyErr
    case _ => ReplyValue
  }

  /** A reply counts as nil when it is one of the three nulls, as an error when it is a simple error. */
  lemma KindOfReply(r: Reply)
    ensures Classify(Meaning(r)) == ReplyNil <==> r.NullReply? || r.NullBulk? || r.NullArray?
    ensures Classify(Meaning(r)) == ReplyErr <==> r.SimpleError?
  {
  }

  /** The method's outcome is the one the parser gives on the whole pending stream. */
  predicate Agrees(r: Reading, p: Parsed, pending: bytes) {
    match p
    case Ok(v, rest) => r == Got(v) && pending == rest
    case Fail(why) => r == Err(why)
  }

  /** One of the writes lo..hi - 1 fails. */
  predicate FaultIn(faults: nat -> bool, lo: nat, hi: nat) {
    lo < hi && (faults(hi - 1) || FaultIn(faults, lo, hi - 1))
  }

  lemma {:induction false} FaultInIff(faults: nat -> bool, lo: nat, hi: nat)
    ensures FaultIn(faults, lo, hi) <==> exists k: nat :: lo <= k < hi && faults(k)
  {
    if lo < hi {
      FaultInIff(faults, lo, hi - 1);
      if faults(hi - 1) {
        assert lo <= hi - 1 < hi && faults(hi - 1);
      }
    }
  }

  lemma {:induction false} FaultSplit(faults: nat -> bool, lo: nat, mid: nat, hi: nat)
    requires lo <= mid <= hi
    ensures FaultIn(faults, lo, hi) <==> FaultIn(faults, lo, mid) || FaultIn(faults, mid, hi)
    decreases hi - mid
  {
    if mid < hi {
      FaultSplit(faults, lo, mid, hi - 1);
    }
  }

  class CountingConn {
    const faults: nat -> bool  // which of the writes the network fails
    var incoming: bytes  // sent by the server, not yet handed over; the stream ends after it
    var outgoing: bytes  // accepted by the socket
    var read: nat
    var written: nat
    var writes: nat  // attempted so far

    ghost predicate Valid()
      reads this
    {
      written == |outgoing|
    }

    constructor (faults: nat -> bool)
      ensures Valid() && incoming == [] && outgoing == [] && read == 0 && written == 0 && writes == 0
      ensures this.faults == faults
    {
      this.faults := faults;
      incoming, outgoing, read, written, writes := [], [], 0, 0, 0;
    }

    /** One read of at most max bytes: any non-empty piece of what has arrived. */
    method Read(max: nat) returns (p: bytes, eof: bool)
      requires max > 0
      modifies this`incoming, this`read
      ensures eof <==> old(incoming) == []
      ensures old(incoming) == p + incoming && |p| <= max
      ensures !eof ==> 1 <= |p|
      ensures read == old(read) + |p|
    {
      if incoming == [] {
        return [], true;
      }
      var n: nat :| 1 <= n <= max && n <= |incoming|;
      p, eof := incoming[..n], false;
      incoming := incoming[n..];
      read := read + n;
    }

    /** One write: all of p, or a failure after any part of it when the network fails this write. */
    method Write(p: bytes) returns (ok: bool)
      requires Valid()
      modifies this`outgoing, this`written, this`writes
      ensures Valid() && written - old(written) == |outgoing| - |old(outgoing)|
      ensures old(outgoing) <= outgoing <= old(outgoing) + p
      ensures ok <==> !faults(old(writes))
      ensures ok ==> outgoing == old(outgoing) + p
      ensures writes == old(writes) + 1
    {
      ok := !faults(writes);
      writes := writes + 1;
      var n: nat := |p|;
      if !ok {
        n :| n <= |p|;
      }
      outgoing := outgoing + p[..n];
      written := written + n;
    }

    /** The server's bytes reach this end. */
    method Arrive(p: bytes)
      modifies this`incoming
      ensures incoming == old(incoming) + p
    {
      incoming := incoming + p;
    }
  }

  class Client {
    const conn: CountingConn
    var rbuf: bytes
    var wbuf: bytes
    var failed: bool  // a write has failed: the buffered writer refuses everything from then on

    /** Every byte the parser can still see. */
    ghost function Pending(): bytes
      reads this, conn
    {
      rbuf + conn.incoming
    }

    /** Every byte the writer has been given. */
    ghost function Sent(): bytes
      reads this, conn
    {
      conn.outgoing + wbuf
    }

    /** Bytes that have reached this end so far, read or not. */
    ghost function Arrived(): nat
      reads conn
    {
      conn.read + |conn.incoming|
    }

    ghost predicate Valid()
      reads this, conn
    {
      conn.Valid() && |rbuf| <= conn.read
    }

    /** The buffered writer is in order, and no write will fail. */
    ghost predicate Sound()
      reads this
    {
      !failed && forall k: nat :: !conn.faults(k)
    }

    constructor (faults: nat -> bool)
      ensures Valid() && fresh(conn) && Pending() == [] && Sent() == [] && conn.read == 0 && conn.written == 0
      ensures rbuf == [] && wbuf == [] && !failed && conn.faults == faults && conn.writes == 0
    {
      conn := new CountingConn(faults);
      rbuf, wbuf, failed := [], [], false;
    }

    // ---- reading ----

    /** Takes whole buffers until one holds a line feed. */
    method FillToLF() returns (line: bytes, ok: bool)
      requires Valid()
      modifies this`rbuf, conn`incoming, conn`read
      ensures Valid() && Arrived() == old(Arrived())
      ensures ok ==> LF !in line && LF in rbuf && old(Pending()) == line + (rbuf + conn.incoming)
      ensures !ok ==> LF !in old(Pending())
    {
      ghost var whole := Pending();
      line := [];
      while LF !in rbuf
        invariant Valid() && Arrived() == old(Arrived())
        invariant whole == line + (rbuf + conn.incoming)
        invariant LF !in line
        decreases |conn.incoming|
      {
        line := line + rbuf;
        rbuf := [];
        var p, eof := conn.Read(BUFFER_SIZE);
        if eof {
          return line, false;
        }
        rbuf := p;
      }
      ok := true;
    }

    /** ReadBytes('\n'): the bytes up to and including the first line feed. */
    method ReadBytesToLF() returns (line: bytes, ok: bool)
      requires Valid()
      modifies this`rbuf, conn`incoming, conn`read
      ensures Valid() && Arrived() == old(Arrived())
      ensures var i := IndexOfLF(old(Pending()));
              && (ok <==> i < |old(Pending())|)
              && (ok ==> line == old(Pending())[..i + 1] && Pending() == old(Pending())[i + 1..])
    {
      ghost var whole := Pending();
      line, ok := FillToLF();
      if !ok {
        NoLF(whole);
        return;
      }
      var i := IndexOfLF(rbuf);
      HasLF(rbuf);
      FirstLF(line, rbuf, i, conn.incoming, |line| + i);
      CutInside(line, rbuf, i + 1, conn.incoming, |line| + i + 1);
      line := line + rbuf[..i + 1];
      rbuf := rbuf[i + 1..];
    }

    method ReadLine() returns (r: LineSplit)
      requires Valid()
      modifies this`rbuf, conn`incoming, conn`read
      ensures Valid() && Arrived() == old(Arrived())
      ensures var s := Resp.ReadLine(old(Pending()));
              && (r.Line? <==> s.Line?)
              && (r.Line? ==> r.text == s.text && Pending() == s.rest)
    {
      var line, ok := ReadBytesToLF();
      if !ok {
        return NoLine;
      }
      if |line| >= 2 && line[|line| - 2] == CR {
        return Line(line[..|line| - 2], []);
      }
      return Line(line[..|line| - 1], []);
    }

    /** One read of the buffered reader. */
    method ReadSome(max: nat) returns (p: bytes, eof: bool)
      requires Valid() && max > 0
      modifies this`rbuf, conn`incoming, conn`read
      ensures Valid() && Arrived() == old(Arrived())
      ensures old(Pending()) == p + Pending() && |p| <= max
      ensures eof <==> old(Pending()) == []
      ensures !eof ==> |p| > 0
    {
      if rbuf == [] {
        if max >= BUFFER_SIZE {
          p, eof := conn.Read(max);
          return;
        }
        rbuf, eof := conn.Read(BUFFER_SIZE);
        if eof {
          return [], true;
        }
      }
      var n := if |rbuf| < max then |rbuf| else max;
      p, eof := rbuf[..n], false;
      rbuf := rbuf[n..];
    }

    method ReadFull(len: nat) returns (buf: bytes, ok: bool)
      requires Valid()
      modifies this`rbuf, conn`incoming, conn`read
      ensures Valid() && Arrived() == old(Arrived())
      ensures ok <==> len <= |old(Pending())|
      ensures ok ==> buf == old(Pending())[..len] && Pending() == old(Pending())[len..]
    {
      buf := [];
      while |buf| < len
        invariant Valid() && Arrived() == old(Arrived())
        invariant buf + Pending() == old(Pending()) && |buf| <= len
        decreases len - |buf|
      {
        var p, eof := ReadSome(len - |buf|);
        if eof {
          return buf, false;
        }
        buf := buf + p;
      }
      ok := true;
    }

    method ReadBulk(lenField: bytes) returns (r: Reading)
      requires Valid()
      modifies this`rbuf, conn`incoming, conn`read
      ensures Valid() && Arrived() == old(Arrived())
      ensures Agrees(r, Resp.ReadBulk(lenField, old(Pending())), Pending())
    {
      match ParseInt(lenField)
      case None => r := Err(BadLength);
      case Some(n) =>
        if n < 0 {
          return Got(Null);
        }
        var buf, ok := ReadFull(n + 2);
        if !ok {
          return Err(Eof);
        }
        assert buf[..n] == old(Pending())[..n];
        r := Got(Bytes(buf[..n]));
    }

    /** readAggregate and readMap: the element loop after the header. */
    method ReadElements(n: nat) returns (r: Reading)
      requires Valid()
      modifies this`rbuf, conn`incoming, conn`read
      ensures Valid() && Arrived() == old(Arrived())
      ensures Agrees(r, AsList(ReadMany(n, old(Pending()))), Pending())
      decreases |Pending()|, 1
    {
      ghost var all, start := Resumed(n, [], Pending()), Pending();
      NothingRead(n, start);
      var out: seq<Value> := [];
      while |out| < n
        invariant Valid() && Arrived() == old(Arrived())
        invariant |out| <= n && |Pending()| <= |start|
        invariant all == Resumed(n, out, Pending())
        decreases n - |out|
      {
        ghost var input := Pending();
        var v := ReadReplyValue();
        ElementStep(n, out, input, v, Pending());
        if v.Err? {
          return v;
        }
        out := out + [v.value];
      }
      r := Got(List(out));
      AllRead(out, Pending());
    }

    method ReadReplyValue() returns (r: Reading)
      requires Valid()
      modifies this`rbuf, conn`incoming, conn`read
      ensures Valid() && Arrived() == old(Arrived())
      ensures Agrees(r, ReadValue(old(Pending())), Pending())
      decreases |Pending()|, 0
    {
      var split := ReadLine();
      if split.NoLine? {
        return Err(Eof);
      }
      var line := split.text;
      if line == [] {
        return Err(EmptyLine);
      }
      var kind, field := line[0], line[1..];
      if IsBulkByte(kind) {
        r := ReadBulk(field);
      } else if IsAggregateByte(kind) || kind == PERCENT {
        match ElementCount(kind, field) {
          case Elements(n) => r := ReadElements(n);
          case NoElements => r := Got(Null);
          case BadCount(why) => r := Err(why);
        }
      } else {
        var p := ReadScalar(kind, field, []);
        ScalarIgnoresRest(kind, field, Pending());
        r := if p.Ok? then Got(p.value) else Err(p.why);
      }
    }

    method ReadReplyKind() returns (r: KindReading)
      requires Valid()
      modifies this`rbuf, conn`incoming, conn`read
      ensures Valid() && Arrived() == old(Arrived())
      ensures match ReadValue(old(Pending()))
              case Ok(v, rest) => r == Kind(Classify(v)) && Pending() == rest
              case Fail(why) => r == KindErr(why)
    {
      var v := ReadReplyValue();
      r := if v.Got? then Kind(Classify(v.value)) else KindErr(v.why);
    }

    // ---- writing ----

    /** The buffered writer: nothing leaves the buffer until it overflows, and then some does. */
    method Buffer(p: bytes) returns (ok: bool)
      requires Valid()
      modifies this`wbuf, this`failed, conn`outgoing, conn`written, conn`writes
      ensures Valid() && failed == !ok && old(conn.writes) <= conn.writes
      ensures failed <==> old(failed) || FaultIn(conn.faults, old(conn.writes), conn.writes)
      ensures ok ==> Sent() == old(Sent()) + p
      ensures ok ==> (conn.outgoing == old(conn.outgoing) <==> |old(wbuf)| + |p| <= BUFFER_SIZE)
      ensures !ok ==> old(failed) || |old(wbuf)| + |p| > BUFFER_SIZE
      ensures old(conn.outgoing) <= conn.outgoing <= old(Sent()) + p
    {
      if failed {
        return false;
      }
      ghost var before := Sent();
      var all := wbuf + p;
      assert before + p == conn.outgoing + all;
      if |all| <= BUFFER_SIZE {
        wbuf := all;
        return true;
      }
      var n: nat :| |all| - BUFFER_SIZE <= n <= |all|;
      ok := conn.Write(all[..n]);
      wbuf, failed := all[n..], !ok;
      assert all == all[..n] + all[n..];
    }

    /** How much of a command may be buffered without any of it leaving. */
    ghost predicate Fits(more: nat)
      reads this
    {
      |wbuf| + more <= BUFFER_SIZE
    }

    /** A buffered command: what was sent grows by its framing, and bytes reach the socket
        before Flush exactly when it does not fit the buffer. */
    method WriteCommand(argv: Argv) returns (ok: bool)
      requires Valid()
      modifies this`wbuf, this`failed, conn`outgoing, conn`written, conn`writes
      ensures Valid() && failed == !ok && old(conn.writes) <= conn.writes
      ensures failed <==> old(failed) || FaultIn(conn.faults, old(conn.writes), conn.writes)
      ensures ok ==> Sent() == old(Sent()) + EncodeCommand(argv)
      ensures ok ==> (conn.outgoing == old(conn.outgoing) <==> old(Fits(|EncodeCommand(argv)|)))
      ensures !ok ==> old(failed) || !old(Fits(|EncodeCommand(argv)|))
      ensures old(conn.outgoing) <= conn.outgoing
    {
      ghost var goal, out := Sent() + EncodeCommand(argv), conn.outgoing;
      ok := Buffer(LineOf(STAR, FormatInt(|argv|)));
      if !ok {
        return;
      }
      var i := 0;
      while i < |argv|
        invariant Valid() && 0 <= i <= |argv| && ok && !failed && old(conn.writes) <= conn.writes
        invariant !FaultIn(conn.faults, old(conn.writes), conn.writes)
        invariant Sent() + EncodeArgs(argv[i..]) == goal
        invariant out <= conn.outgoing
        invariant conn.outgoing == out <==> |Sent()| - |out| <= BUFFER_SIZE
      {
        ghost var before, mid := Sent(), conn.writes;
        ArgsStep(before, argv[i..], goal);
        ok := WriteArg(argv[i], out);
        FaultSplit(conn.faults, old(conn.writes), mid, conn.writes);
        if !ok {
          return;
        }
        assert argv[i..][1..] == argv[i + 1..];
        i := i + 1;
      }
      assert argv[i..] == [];
    }

    /** One argument: its header, its bytes and the line end. */
    method WriteArg(a: bytes, ghost out: bytes) returns (ok: bool)
      requires Valid() && !failed && out <= conn.outgoing
      requires conn.outgoing == out <==> |Sent()| - |out| <= BUFFER_SIZE
      modifies this`wbuf, this`failed, conn`outgoing, conn`written, conn`writes
      ensures Valid() && failed == !ok && old(conn.outgoing) <= conn.outgoing && old(conn.writes) <= conn.writes
      ensures failed <==> FaultIn(conn.faults, old(conn.writes), conn.writes)
      ensures ok ==> Sent() == old(Sent()) + LineOf(DOLLAR, FormatInt(|a|)) + a + CRLF
      ensures ok ==> (conn.outgoing == out <==> |Sent()| - |out| <= BUFFER_SIZE)
      ensures !ok ==> |old(Sent())| + |LineOf(DOLLAR, FormatInt(|a|))| + |a| + |CRLF| - |out| > BUFFER_SIZE
    {
      ok := WritePiece(LineOf(DOLLAR, FormatInt(|a|)), out);
      if !ok {
        return;
      }
      ghost var mid := conn.writes;
      ok := WritePiece(a, out);
      FaultSplit(conn.faults, old(conn.writes), mid, conn.writes);
      if !ok {
        return;
      }
      mid := conn.writes;
      ok := WritePiece(CRLF, out);
      FaultSplit(conn.faults, old(conn.writes), mid, conn.writes);
    }

    /** Buffer, seen from the bytes that were out when the command began. */
    method WritePiece(p: bytes, ghost out: bytes) returns (ok: bool)
      requires Valid() && !failed && out <= conn.outgoing
      requires conn.outgoing == out <==> |Sent()| - |out| <= BUFFER_SIZE
      modifies this`wbuf, this`failed, conn`outgoing, conn`written, conn`writes
      ensures Valid() && failed == !ok && old(conn.outgoing) <= conn.outgoing && old(conn.writes) <= conn.writes
      ensures failed <==> FaultIn(conn.faults, old(conn.writes), conn.writes)
      ensures ok ==> Sent() == old(Sent()) + p
      ensures ok ==> (conn.outgoing == out <==> |Sent()| - |out| <= BUFFER_SIZE)
      ensures !ok ==> |old(Sent())| + |p| - |out| > BUFFER_SIZE
    {
      ok := Buffer(p);
    }

    method Flush() returns (ok: bool)
      requires Valid()
      modifies this`wbuf, this`failed, conn`outgoing, conn`written, conn`writes
      ensures Valid() && failed == !ok && old(conn.writes) <= conn.writes
      ensures failed <==> old(failed) || FaultIn(conn.faults, old(conn.writes), conn.writes)
      ensures ok ==> wbuf == [] && conn.outgoing == old(Sent())
      ensures old(conn.outgoing) <= conn.outgoing <= old(Sent())
    {
      if failed {
        return false;
      }
      if wbuf == [] {
        return true;
      }
      ok := conn.Write(wbuf);
      if ok {
        wbuf := [];
      }
      failed := !ok;
    }
  }

  /** An argument of 64 KiB or more never fits: part of its command is on the socket before any
      Flush. SET with a 64 KiB value is one. */
  lemma OversizedCommand(argv: Argv, i: nat)
    requires i < |argv| && |argv[i]| >= BUFFER_SIZE
    ensures |EncodeCommand(argv)| > BUFFER_SIZE
  {
    ArgInside(argv, i);
  }

  lemma {:induction false} ArgInside(args: seq<bytes>, i: nat)
    requires i < |args|
    ensures |EncodeArgs(args)| > |args[i]|
  {
    if i > 0 {
      ArgInside(args[1..], i - 1);
    }
  }

  /** The comment on WriteCommand fails on a fresh client given one 64 KiB value. */
  method EarlyWriteExample() returns (cl: Client, ok: bool)
    ensures fresh(cl) && ok && cl.conn.outgoing != []
  {
    var value: bytes := seq(BUFFER_SIZE, i => 120);
    cl := new Client(k => false);
    OversizedCommand([[83, 69, 84], [107], value], 2);
    ok := cl.WriteCommand([[83, 69, 84], [107], value]);
    FaultInIff(cl.conn.faults, 0, cl.conn.writes);
  }

  /** A parsed tail with the values read before it. */
  function Prepend(vs: seq<Value>, m: ParsedMany): ParsedMany {
    match m
    case FailMany(why) => m
    case OkMany(ws, rest) => OkMany(vs + ws, rest)
  }

  lemma ScalarIgnoresRest(kind: byte, field: bytes, rest: bytes)
    ensures match ReadScalar(kind, field, [])
            case Ok(v, _) => ReadScalar(kind, field, rest) == Ok(v, rest)
            case Fail(why) => ReadScalar(kind, field, rest) == Fail(why)
  {
  }

  lemma HasLF(s: bytes)
    ensures LF in s ==> IndexOfLF(s) < |s|
  {
  }

  /** The first line feed of the buffer is the first of the stream around it. */
  lemma FirstLF(a: bytes, b: bytes, i: nat, c: bytes, j: nat)
    requires LF !in a && i == IndexOfLF(b) < |b| && j == |a| + i
    ensures IndexOfLF(a + (b + c)) == j
  {
    var whole := a + (b + c);
    assert whole[j] == b[i];
    forall k | 0 <= k < j ensures whole[k] != LF {
      assert whole[k] == if k < |a| then a[k] else b[k - |a|];
    }
    FirstIndex(whole, j);
  }

  lemma CutInside(a: bytes, b: bytes, i: nat, c: bytes, j: nat)
    requires i <= |b| && j == |a| + i
    ensures var whole := a + (b + c);
            whole[..j] == a + b[..i] && whole[j..] == b[i..] + c
  {
  }

  /** The outcome of reading n elements when the ones in out are already read. */
  ghost function Resumed(n: nat, out: seq<Value>, pending: bytes): ParsedMany
    requires |out| <= n
  {
    Prepend(out, ReadMany(n - |out|, pending))
  }

  /** One turn of the element loop. */
  lemma ElementStep(n: nat, out: seq<Value>, input: bytes, r: Reading, rest: bytes)
    requires |out| < n && Agrees(r, ReadValue(input), rest)
    ensures r.Got? ==> Resumed(n, out, input) == Resumed(n, out + [r.value], rest)
    ensures r.Err? ==> Resumed(n, out, input) == FailMany(r.why)
  {
    if r.Got? {
      match ReadMany(n - |out| - 1, rest) {
        case FailMany(why) =>
        case OkMany(vs, _) => assert out + ([r.value] + vs) == out + [r.value] + vs;
      }
    }
  }

  lemma NothingRead(n: nat, input: bytes)
    ensures Resumed(n, [], input) == ReadMany(n, input)
  {
    PrependNothing(ReadMany(n, input));
  }

  lemma PrependNothing(m: ParsedMany)
    ensures Prepend([], m) == m
  {
    if m.OkMany? {
      assert [] + m.values == m.values;
    }
  }

  lemma AllRead(out: seq<Value>, input: bytes)
    ensures Resumed(|out|, out, input) == OkMany(out, input)
  {
    assert out + [] == out;
  }

  lemma NoLF(s: bytes)
    ensures LF !in s ==> IndexOfLF(s) == |s|
  {
  }

  lemma ArgsStep(before: bytes, args: seq<bytes>, goal: bytes)
    requires args != [] && before + EncodeArgs(args) == goal
    ensures before + LineOf(DOLLAR, FormatInt(|args[0]|)) + args[0] + CRLF + EncodeArgs(args[1..]) == goal
  {
  }
}
