/** The RESP wire format: what a reply tree looks like on the wire, and what the client's
    parser makes of a byte stream that ends where the input ends. */
module Resp {
  import opened Arith
  import opened Decimal

  const CR: byte := 13
  const LF: byte := 10
  const CRLF: bytes := [13, 10]

  const PLUS: byte := 43  // +
  const MINUS: byte := 45  // -
  const COLON: byte := 58  // :
  const COMMA: byte := 44  // ,
  const PAREN: byte := 40  // (
  const HASH: byte := 35  // #
  const UNDERSCORE: byte := 95  // _
  const DOLLAR: byte := 36  // $
  const EQUALS: byte := 61  // =
  const BANG: byte := 33  // !
  const STAR: byte := 42  // *
  const TILDE: byte := 126  // ~
  const GREATER: byte := 62  // >
  const PERCENT: byte := 37  // %
  const LOWER_T: byte := 116  // t
  const LOWER_F: byte := 102  // f

  // ---- decoded values and the parser ----

  datatype Value =
    | Text(text: bytes)
    | ServerError(text: bytes)
    | Int(n: int)
    | Boolean(b: bool)
    | Null
    | Bytes(data: bytes)
    | List(items: seq<Value>)

  datatype Failure = Eof | EmptyLine | BadLength | BadInteger | UnknownType | NegativeMap

  datatype Parsed = Ok(value: Value, rest: bytes) | Fail(why: Failure)

  datatype ParsedMany = OkMany(values: seq<Value>, rest: bytes) | FailMany(why: Failure)

  datatype LineSplit = NoLine | Line(text: bytes, rest: bytes)

  /** Position of the first line feed at or after i, |s| when there is none. */
  function NextLF(s: bytes, i: nat): (j: nat)
    requires i <= |s|
    ensures i <= j <= |s| && (j < |s| ==> s[j] == LF)
    ensures forall k :: i <= k < j ==> s[k] != LF
    decreases |s| - i
  {
    if i == |s| || s[i] == LF then i else NextLF(s, i + 1)
  }

  function IndexOfLF(s: bytes): (i: nat)
    ensures i <= |s| && (i < |s| ==> s[i] == LF)
    ensures forall k :: 0 <= k < i ==> s[k] != LF
  {
    NextLF(s, 0)
  }

  /** It is the only position with a line feed and none before it. */
  lemma FirstIndex(s: bytes, j: nat)
    requires j < |s| && s[j] == LF && forall k :: 0 <= k < j ==> s[k] != LF
    ensures IndexOfLF(s) == j
  {
  }

  /** A line without its line feed loses one carriage return before it. */
  function TrimCR(line: bytes): (r: bytes)
    ensures |r| <= |line|
  {
    if |line| >= 1 && line[|line| - 1] == CR then line[..|line| - 1] else line
  }

  /** readLine. */
  function ReadLine(input: bytes): (r: LineSplit)
    ensures r.Line? ==> |r.text| + |r.rest| < |input|
  {
    var i := IndexOfLF(input);
    if i == |input| then NoLine else Line(TrimCR(input[..i]), input[i + 1..])
  }

  /** readBulk: the payload and two more bytes, whatever those are. */
  function ReadBulk(lenField: bytes, input: bytes): (r: Parsed)
    ensures r.Ok? ==> |r.rest| <= |input|
  {
    match ParseInt(lenField)
    case None => Fail(BadLength)
    case Some(n) =>
      if n < 0 then Ok(Null, input)
      else if |input| < n + 2 then Fail(Eof)
      else Ok(Bytes(input[..n]), input[n + 2..])
  }

  /** ReadReplyValue. Each accepted frame takes at least two bytes. */
  function ReadValue(input: bytes): (r: Parsed)
    ensures r.Ok? ==> |r.rest| + 2 <= |input|
    decreases |input|, 0
  {
    match ReadLine(input)
    case NoLine => Fail(Eof)
    case Line(line, rest) =>
      if line == [] then Fail(EmptyLine) else
      var kind, field := line[0], line[1..];
      if IsBulkByte(kind) then ReadBulk(field, rest)
      else if IsAggregateByte(kind) || kind == PERCENT then
        match ElementCount(kind, field) {
          case Elements(n) => AsList(ReadMany(n, rest))
          case NoElements => Ok(Null, rest)
          case BadCount(why) => Fail(why)
        }
      else ReadScalar(kind, field, rest)
  }

  predicate IsBulkByte(kind: byte) { kind == DOLLAR || kind == EQUALS || kind == BANG }

  predicate IsAggregateByte(kind: byte) { kind == STAR || kind == TILDE || kind == GREATER }

  /** The frames that are one line long. */
  function ReadScalar(kind: byte, field: bytes, rest: bytes): (r: Parsed)
    ensures r.Ok? ==> r.rest == rest
  {
    if kind == PLUS || kind == COMMA || kind == PAREN then Ok(Text(field), rest)
    else if kind == MINUS then Ok(ServerError(field), rest)
    else if kind == COLON then
      match ParseInt(field) {
        case None => Fail(BadInteger)
        case Some(n) => Ok(Int(n), rest)
      }
    else if kind == HASH then Ok(Boolean(|field| > 0 && field[0] == LOWER_T), rest)
    else if kind == UNDERSCORE then Ok(Null, rest)
    else Fail(UnknownType)
  }

  datatype Count = Elements(n: nat) | NoElements | BadCount(why: Failure)

  /** How many values follow an aggregate or map header. */
  function ElementCount(kind: byte, field: bytes): Count {
    match ParseInt(field)
    case None => BadCount(BadLength)
    case Some(n) =>
      if kind == PERCENT then (if n < 0 then BadCount(NegativeMap) else Elements(2 * n))
      else if n < 0 then NoElements else Elements(n)
  }

  /** The element loop of readAggregate and readMap. */
  function ReadMany(n: nat, input: bytes): (r: ParsedMany)
    ensures r.OkMany? ==> |r.values| == n && |r.rest| + 2 * n <= |input|
    decreases |input|, 1
  {
    if n == 0 then OkMany([], input) else
    match ReadValue(input)
    case Fail(why) => FailMany(why)
    case Ok(v, rest) =>
      match ReadMany(n - 1, rest)
      case FailMany(why) => FailMany(why)
      case OkMany(vs, rest') => OkMany([v] + vs, rest')
  }

  function AsList(m: ParsedMany): Parsed {
    match m
    case FailMany(why) => Fail(why)
    case OkMany(vs, rest) => Ok(List(vs), rest)
  }

  // ---- reply trees on the wire ----

  datatype BulkTag = BulkString | Verbatim | BulkError

  datatype AggregateTag = Array | Set | Push

  datatype Reply =
    | SimpleString(text: bytes)
    | SimpleError(text: bytes)
    | Integer(n: int)
    | Double(text: bytes)
    | BigNumber(text: bytes)
    | Bool(b: bool)
    | NullReply
    | Bulk(bulkTag: BulkTag, data: bytes)
    | NullBulk
    | Aggregate(tag: AggregateTag, items: seq<Reply>)
    | NullArray
    | Map(entries: seq<Reply>)

  /** What a server may send: line text without line feeds, numbers and lengths in int64,
      map entries in key-value pairs. */
  predicate WellFormed(r: Reply) {
    match r
    case SimpleString(t) => LF !in t
    case SimpleError(t) => LF !in t
    case Double(t) => LF !in t
    case BigNumber(t) => LF !in t
    case Integer(n) => MIN_INT64 <= n <= MAX_INT64
    case Bulk(_, data) => |data| <= MAX_INT64
    case Aggregate(_, items) => |items| <= MAX_INT64 && forall x :: x in items ==> WellFormed(x)
    case Map(entries) => |entries| % 2 == 0 && |entries| / 2 <= MAX_INT64 && forall x :: x in entries ==> WellFormed(x)
    case Bool(_) => true
    case NullReply => true
    case NullBulk => true
    case NullArray => true
  }

  function BulkByte(t: BulkTag): byte {
    match t case BulkString => DOLLAR case Verbatim => EQUALS case BulkError => BANG
  }

  function AggregateByte(t: AggregateTag): byte {
    match t case Array => STAR case Set => TILDE case Push => GREATER
  }

  /** One protocol line: type byte, text, CRLF. */
  function LineOf(kind: byte, text: bytes): bytes { [kind] + text + CRLF }

  function Encode(r: Reply): bytes
    decreases r, 0
  {
    match r
    case SimpleString(t) => LineOf(PLUS, t)
    case SimpleError(t) => LineOf(MINUS, t)
    case Integer(n) => LineOf(COLON, FormatInt(n))
    case Double(t) => LineOf(COMMA, t)
    case BigNumber(t) => LineOf(PAREN, t)
    case Bool(b) => LineOf(HASH, if b then [LOWER_T] else [LOWER_F])
    case NullReply => LineOf(UNDERSCORE, [])
    case Bulk(tag, data) => LineOf(BulkByte(tag), FormatInt(|data|)) + data + CRLF
    case NullBulk => LineOf(DOLLAR, FormatInt(-1))
    case Aggregate(tag, items) => LineOf(AggregateByte(tag), FormatInt(|items|)) + EncodeAll(items)
    case NullArray => LineOf(STAR, FormatInt(-1))
    case Map(entries) => LineOf(PERCENT, FormatInt(|entries| / 2)) + EncodeAll(entries)
  }

  /** Every frame opens with its type byte and ends with the line end. */
  lemma TypeBytes(r: Reply)
    ensures |Encode(r)| >= 3
    ensures match r
            case SimpleString(_) => Encode(r)[0] == '+' as int
            case SimpleError(_) => Encode(r)[0] == '-' as int
            case Integer(_) => Encode(r)[0] == ':' as int
            case Double(_) => Encode(r)[0] == ',' as int
            case BigNumber(_) => Encode(r)[0] == '(' as int
            case Bool(b) => Encode(r) == Ascii(if b then "#t\r\n" else "#f\r\n")
            case NullReply => Encode(r) == Ascii("_\r\n")
            case Bulk(BulkString, _) => Encode(r)[0] == '$' as int
            case Bulk(Verbatim, _) => Encode(r)[0] == '=' as int
            case Bulk(BulkError, _) => Encode(r)[0] == '!' as int
            case NullBulk => Encode(r) == Ascii("$-1\r\n")
            case Aggregate(Array, _) => Encode(r)[0] == '*' as int
            case Aggregate(Set, _) => Encode(r)[0] == '~' as int
            case Aggregate(Push, _) => Encode(r)[0] == '>' as int
            case NullArray => Encode(r) == Ascii("*-1\r\n")
            case Map(_) => Encode(r)[0] == '%' as int
  {
  }

  function EncodeAll(rs: seq<Reply>): bytes
    decreases rs
  {
    if rs == [] then [] else Encode(rs[0]) + EncodeAll(rs[1..])
  }

  /** What the client is meant to hand its caller for a reply. */
  function Meaning(r: Reply): Value
    decreases r, 0
  {
    match r
    case SimpleString(t) => Text(t)
    case SimpleError(t) => ServerError(t)
    case Integer(n) => Int(n)
    case Double(t) => Text(t)
    case BigNumber(t) => Text(t)
    case Bool(b) => Boolean(b)
    case NullReply => Null
    case Bulk(_, data) => Bytes(data)
    case NullBulk => Null
    case Aggregate(_, items) => List(Meanings(items))
    case NullArray => Null
    case Map(entries) => List(Meanings(entries))
  }

  function Meanings(rs: seq<Reply>): (vs: seq<Value>)
    ensures |vs| == |rs|
    decreases rs
  {
    if rs == [] then [] else [Meaning(rs[0])] + Meanings(rs[1..])
  }

  // ---- decoding inverts encoding ----

  lemma IndexOfLFAfter(a: bytes, b: bytes)
    requires LF !in a
    ensures IndexOfLF(a + [LF] + b) == |a|
  {
    var s := a + [LF] + b;
    assert s[|a|] == LF;
    assert forall k :: 0 <= k < |a| ==> s[k] == a[k];
    FirstIndex(s, |a|);
  }

  lemma ReadLineOf(kind: byte, text: bytes, rest: bytes)
    requires kind != LF && LF !in text
    ensures ReadLine(LineOf(kind, text) + rest) == Line([kind] + text, rest)
  {
    var body: bytes := [kind] + text + [CR];
    assert LineOf(kind, text) + rest == body + [LF] + rest;
    IndexOfLFAfter(body, rest);
    assert (body + [LF] + rest)[..|body|] == body;
    assert body[..|body| - 1] == [kind] + text;
  }

  /** A numbered header line reads back as its type byte and its number. */
  lemma ReadHeader(kind: byte, n: int, rest: bytes)
    requires kind != LF && MIN_INT64 <= n <= MAX_INT64
    ensures LF !in FormatInt(n)
    ensures ReadLine(LineOf(kind, FormatInt(n)) + rest) == Line([kind] + FormatInt(n), rest)
    ensures ([kind] + FormatInt(n))[1..] == FormatInt(n) && ParseInt(FormatInt(n)) == Some(n)
  {
    FormatHasNoLineFeed(n);
    ReadLineOf(kind, FormatInt(n), rest);
    ParseFormat(n);
  }

  lemma PayloadSplit(data: bytes, rest: bytes)
    ensures |data + CRLF + rest| == |data| + 2 + |rest|
    ensures (data + CRLF + rest)[..|data|] == data && (data + CRLF + rest)[|data| + 2..] == rest
  {
  }

  lemma ReadBulkBody(data: bytes, rest: bytes)
    requires |data| <= MAX_INT64
    ensures ReadBulk(FormatInt(|data|), data + CRLF + rest) == Ok(Bytes(data), rest)
  {
    ParseFormat(|data|);
    PayloadSplit(data, rest);
  }

  lemma ReadEncodedBulk(tag: BulkTag, data: bytes, rest: bytes)
    requires |data| <= MAX_INT64
    ensures ReadValue(Encode(Bulk(tag, data)) + rest) == Ok(Bytes(data), rest)
  {
    var tail := data + CRLF + rest;
    var header := LineOf(BulkByte(tag), FormatInt(|data|));
    ReadHeader(BulkByte(tag), |data|, tail);
    ReadBulkLine(header + tail, BulkByte(tag), FormatInt(|data|), tail);
    ReadBulkBody(data, rest);
    assert Encode(Bulk(tag, data)) + rest == header + tail;
  }

  lemma DecodeEncodeLine(r: Reply, rest: bytes)
    requires WellFormed(r) && (r.SimpleString? || r.SimpleError? || r.Double? || r.BigNumber? || r.Bool? || r.NullReply?)
    ensures ReadValue(Encode(r) + rest) == Ok(Meaning(r), rest)
  {
    match r
    case SimpleString(t) => ReadScalarLine(PLUS, t, rest);
    case SimpleError(t) => ReadScalarLine(MINUS, t, rest);
    case Double(t) => ReadScalarLine(COMMA, t, rest);
    case BigNumber(t) => ReadScalarLine(PAREN, t, rest);
    case Bool(b) => ReadScalarLine(HASH, if b then [LOWER_T] else [LOWER_F], rest);
    case NullReply => ReadScalarLine(UNDERSCORE, [], rest);
  }

  lemma DecodeEncodeInteger(r: Reply, rest: bytes)
    requires WellFormed(r) && r.Integer?
    ensures ReadValue(Encode(r) + rest) == Ok(Meaning(r), rest)
  {
    ReadHeader(COLON, r.n, rest);
    ReadScalarLine(COLON, FormatInt(r.n), rest);
  }

  lemma DecodeEncodeNullBulk(rest: bytes)
    ensures ReadValue(Encode(NullBulk) + rest) == Ok(Null, rest)
  {
    ReadHeader(DOLLAR, -1, rest);
    ReadBulkLine(Encode(NullBulk) + rest, DOLLAR, FormatInt(-1), rest);
  }

  lemma DecodeEncodeNullArray(rest: bytes)
    ensures ReadValue(Encode(NullArray) + rest) == Ok(Null, rest)
  {
    ReadHeader(STAR, -1, rest);
  }

  /** Every reply tree, of any depth, is read back whole, leaving the bytes after it. */
  lemma {:induction false} DecodeEncode(r: Reply, rest: bytes)
    requires WellFormed(r)
    ensures ReadValue(Encode(r) + rest) == Ok(Meaning(r), rest)
    decreases r, 0
  {
    match r
    case Aggregate(tag, items) => DecodeEncodeNested(r, AggregateByte(tag), |items|, items, rest);
    case Map(entries) => DecodeEncodeNested(r, PERCENT, |entries| / 2, entries, rest);
    case Integer(_) => DecodeEncodeInteger(r, rest);
    case Bulk(tag, data) => ReadEncodedBulk(tag, data, rest);
    case NullBulk => DecodeEncodeNullBulk(rest);
    case NullArray => DecodeEncodeNullArray(rest);
    case _ => DecodeEncodeLine(r, rest);
  }

  lemma {:induction false} DecodeEncodeNested(r: Reply, kind: byte, n: nat, items: seq<Reply>, rest: bytes)
    requires WellFormed(r) && n <= MAX_INT64
    requires (r.Aggregate? && items == r.items && n == |items| && kind == AggregateByte(r.tag))
          || (r.Map? && items == r.entries && 2 * n == |items| && kind == PERCENT)
    ensures ReadValue(Encode(r) + rest) == Ok(Meaning(r), rest)
    decreases r, 0, 0
  {
    var tail := EncodeAll(items) + rest;
    assert Encode(r) + rest == LineOf(kind, FormatInt(n)) + tail;
    ReadHeader(kind, n, tail);
    assert ElementCount(kind, FormatInt(n)) == Elements(|items|);
    ReadAggregateLine(Encode(r) + rest, kind, FormatInt(n), tail, |items|);
    DecodeEncodeAll(items, rest);
  }

  lemma ReadAggregateLine(input: bytes, kind: byte, field: bytes, rest: bytes, n: nat)
    requires IsAggregateByte(kind) || kind == PERCENT
    requires ReadLine(input) == Line([kind] + field, rest) && ElementCount(kind, field) == Elements(n)
    ensures ReadValue(input) == AsList(ReadMany(n, rest))
  {
    assert ([kind] + field)[1..] == field;
  }

  lemma ReadBulkLine(input: bytes, kind: byte, field: bytes, rest: bytes)
    requires IsBulkByte(kind) && ReadLine(input) == Line([kind] + field, rest)
    ensures ReadValue(input) == ReadBulk(field, rest)
  {
    assert ([kind] + field)[1..] == field;
  }

  lemma ReadScalarLine(kind: byte, field: bytes, rest: bytes)
    requires !IsBulkByte(kind) && !IsAggregateByte(kind) && kind != PERCENT
    requires kind != LF && LF !in field
    ensures ReadValue(LineOf(kind, field) + rest) == ReadScalar(kind, field, rest)
  {
    ReadLineOf(kind, field, rest);
    assert ([kind] + field)[1..] == field;
  }

  lemma {:induction false} DecodeEncodeAll(rs: seq<Reply>, rest: bytes)
    requires forall x :: x in rs ==> WellFormed(x)
    ensures ReadMany(|rs|, EncodeAll(rs) + rest) == OkMany(Meanings(rs), rest)
    decreases rs
  {
    if rs == [] {
      assert EncodeAll(rs) + rest == rest;
    } else {
      assert EncodeAll(rs) + rest == Encode(rs[0]) + (EncodeAll(rs[1..]) + rest);
      DecodeEncode(rs[0], EncodeAll(rs[1..]) + rest);
      DecodeEncodeAll(rs[1..], rest);
    }
  }

  // ---- what has been read does not depend on what follows ----

  lemma IndexOfLFStable(s: bytes, more: bytes)
    requires IndexOfLF(s) < |s|
    ensures IndexOfLF(s + more) == IndexOfLF(s)
  {
    var i := IndexOfLF(s);
    assert forall k :: 0 <= k <= i ==> (s + more)[k] == s[k];
    FirstIndex(s + more, i);
  }

  lemma ReadLineStable(input: bytes, more: bytes)
    ensures ReadLine(input).Line? ==> ReadLine(input + more) == Line(ReadLine(input).text, ReadLine(input).rest + more)
  {
    var i := IndexOfLF(input);
    if i < |input| {
      IndexOfLFStable(input, more);
      assert (input + more)[..i] == input[..i];
      assert (input + more)[i + 1..] == input[i + 1..] + more;
    }
  }

  /** The outcome on a longer stream: the same value with the new bytes left over, or the same
      complaint; only running out of input can turn into something else. */
  ghost predicate Extends(p: Parsed, q: Parsed, more: bytes) {
    match p
    case Ok(v, rest) => q == Ok(v, rest + more)
    case Fail(why) => why != Eof ==> q == p
  }

  ghost predicate ExtendsMany(p: ParsedMany, q: ParsedMany, more: bytes) {
    match p
    case OkMany(vs, rest) => q == OkMany(vs, rest + more)
    case FailMany(why) => why != Eof ==> q == p
  }

  lemma ReadBulkStable(field: bytes, input: bytes, more: bytes)
    ensures Extends(ReadBulk(field, input), ReadBulk(field, input + more), more)
  {
    var n := ParseInt(field);
    if n.Some? && 0 <= n.value <= |input| - 2 {
      assert (input + more)[..n.value] == input[..n.value];
      assert (input + more)[n.value + 2..] == input[n.value + 2..] + more;
    }
  }

  lemma {:induction false} ReadValueStable(input: bytes, more: bytes)
    ensures Extends(ReadValue(input), ReadValue(input + more), more)
    decreases |input|, 0
  {
    ReadLineStable(input, more);
    match ReadLine(input)
    case NoLine =>
    case Line(line, rest) =>
      if line != [] {
        var count := ElementCount(line[0], line[1..]);
        if IsBulkByte(line[0]) {
          ReadBulkStable(line[1..], rest, more);
        } else if count.Elements? {
          ReadManyStable(count.n, rest, more);
        }
      }
  }

  lemma {:induction false} ReadManyStable(n: nat, input: bytes, more: bytes)
    ensures ExtendsMany(ReadMany(n, input), ReadMany(n, input + more), more)
    decreases |input|, 1
  {
    if n > 0 {
      ReadValueStable(input, more);
      var p := ReadValue(input);
      if p.Ok? {
        ReadManyStable(n - 1, p.rest, more);
      }
    }
  }

  // ---- commands ----

  type Argv = seq<bytes>

  function EncodeArgs(args: seq<bytes>): bytes {
    if args == [] then [] else
    LineOf(DOLLAR, FormatInt(|args[0]|)) + args[0] + CRLF + EncodeArgs(args[1..])
  }

  /** WriteCommand's framing. */
  function EncodeCommand(argv: Argv): bytes {
    LineOf(STAR, FormatInt(|argv|)) + EncodeArgs(argv)
  }

  function FrameArg(a: bytes): bytes { LineOf(DOLLAR, FormatInt(|a|)) + a + CRLF }

  lemma ThreeArgs(a: bytes, b: bytes, c: bytes)
    ensures EncodeArgs([a, b, c]) == FrameArg(a) + (FrameArg(b) + FrameArg(c))
  {
    OneMoreArg(c, []);
    OneMoreArg(b, [c]);
    OneMoreArg(a, [b, c]);
    assert [c] + [] == [c] && [b] + [c] == [b, c] && [a] + [b, c] == [a, b, c];
    assert FrameArg(c) + [] == FrameArg(c);
  }

  lemma OneMoreArg(a: bytes, args: seq<bytes>)
    ensures EncodeArgs([a] + args) == FrameArg(a) + EncodeArgs(args)
  {
    assert ([a] + args)[1..] == args;
  }

  lemma FrameOfShort(a: bytes, text: bytes)
    requires |a| < 10 && text == [36, 48 + |a|, 13, 10] + a + [13, 10]
    ensures FrameArg(a) == text
  {
  }

  lemma CommandOfThree(a: bytes, b: bytes, c: bytes, head: bytes, ta: bytes, tb: bytes, tc: bytes)
    requires FrameArg(a) == ta && FrameArg(b) == tb && FrameArg(c) == tc && head == [42, 51, 13, 10]
    ensures EncodeCommand([a, b, c]) == head + (ta + (tb + tc))
  {
    ThreeArgs(a, b, c);
    assert FormatInt(3) == [51];
    assert LineOf(STAR, FormatInt(3)) == head;
  }

  /** SET k v on the wire. */
  lemma CommandExample()
    ensures EncodeCommand([Ascii("SET"), Ascii("k"), Ascii("v")]) ==
            Ascii("*3\r\n") + (Ascii("$3\r\nSET\r\n") + (Ascii("$1\r\nk\r\n") + Ascii("$1\r\nv\r\n")))
  {
    FrameOfShort(Ascii("SET"), Ascii("$3\r\nSET\r\n"));
    FrameOfShort(Ascii("k"), Ascii("$1\r\nk\r\n"));
    FrameOfShort(Ascii("v"), Ascii("$1\r\nv\r\n"));
    CommandOfThree(Ascii("SET"), Ascii("k"), Ascii("v"), Ascii("*3\r\n"), Ascii("$3\r\nSET\r\n"), Ascii("$1\r\nk\r\n"),
                   Ascii("$1\r\nv\r\n"));
  }

  predicate Sendable(argv: Argv) {
    |argv| <= MAX_INT64 && forall a :: a in argv ==> |a| <= MAX_INT64
  }

  function BulksOf(args: seq<bytes>): (rs: seq<Reply>)
    ensures |rs| == |args|
  {
    seq(|args|, i requires 0 <= i < |args| => Bulk(BulkString, args[i]))
  }

  function ValuesOf(args: seq<bytes>): (vs: seq<Value>)
    ensures |vs| == |args|
  {
    seq(|args|, i requires 0 <= i < |args| => Bytes(args[i]))
  }

  lemma {:induction false} ArgsAreBulks(args: seq<bytes>)
    ensures EncodeArgs(args) == EncodeAll(BulksOf(args))
    ensures Meanings(BulksOf(args)) == ValuesOf(args)
  {
    if args != [] {
      ArgsAreBulks(args[1..]);
      assert BulksOf(args)[1..] == BulksOf(args[1..]);
      assert ValuesOf(args) == [Bytes(args[0])] + ValuesOf(args[1..]);
    }
  }

  /** A framed command reads back as the vector of its arguments, whatever bytes they hold. */
  lemma CommandRoundTrip(argv: Argv, rest: bytes)
    requires Sendable(argv)
    ensures ReadValue(EncodeCommand(argv) + rest) == Ok(List(ValuesOf(argv)), rest)
  {
    ArgsAreBulks(argv);
    var r := Aggregate(Array, BulksOf(argv));
    assert EncodeCommand(argv) == Encode(r);
    DecodeEncode(r, rest);
  }

  function EncodeCommands(cmds: seq<Argv>): bytes {
    if cmds == [] then [] else EncodeCommand(cmds[0]) + EncodeCommands(cmds[1..])
  }

  function CommandValues(cmds: seq<Argv>): (vs: seq<Value>)
    ensures |vs| == |cmds|
  {
    seq(|cmds|, i requires 0 <= i < |cmds| => List(ValuesOf(cmds[i])))
  }

  /** A pipeline of commands reads back in order, command by command. */
  lemma {:induction false} PipelineRoundTrip(cmds: seq<Argv>, rest: bytes)
    requires forall c :: c in cmds ==> Sendable(c)
    ensures ReadMany(|cmds|, EncodeCommands(cmds) + rest) == OkMany(CommandValues(cmds), rest)
    decreases |cmds|
  {
    if cmds == [] {
      assert EncodeCommands(cmds) + rest == rest;
    } else {
      var tail := EncodeCommands(cmds[1..]) + rest;
      assert EncodeCommands(cmds) + rest == EncodeCommand(cmds[0]) + tail;
      CommandRoundTrip(cmds[0], tail);
      PipelineRoundTrip(cmds[1..], rest);
      CommandValuesFront(cmds);
    }
  }

  lemma CommandValuesFront(cmds: seq<Argv>)
    requires cmds != []
    ensures CommandValues(cmds) == [List(ValuesOf(cmds[0]))] + CommandValues(cmds[1..])
  {
  }

  lemma {:induction false} EncodeCommandsConcat(a: seq<Argv>, b: seq<Argv>)
    ensures EncodeCommands(a + b) == EncodeCommands(a) + EncodeCommands(b)
  {
    if a == [] {
      assert a + b == b;
    } else {
      assert (a + b)[1..] == a[1..] + b;
      EncodeCommandsConcat(a[1..], b);
    }
  }

  /** No command is a proper prefix of another, so a stream of commands splits one way. */
  lemma CommandsPrefixFree(a: Argv, b: Argv)
    requires Sendable(a) && Sendable(b)
    requires EncodeCommand(a) <= EncodeCommand(b)
    ensures a == b
  {
    var t := EncodeCommand(b)[|EncodeCommand(a)|..];
    CommandRoundTrip(a, t);
    CommandRoundTrip(b, []);
    assert EncodeCommand(b) == EncodeCommand(a) + t == EncodeCommand(b) + [];
    assert ValuesOf(a) == ValuesOf(b);
    forall i | 0 <= i < |a| ensures a[i] == b[i] {
      assert ValuesOf(a)[i] == ValuesOf(b)[i];
    }
  }
}
