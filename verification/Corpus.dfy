/** The disk-scenario corpus: a load phase that writes n entries of a suite and a churn phase that
    rewrites or replaces the even ones. Entries live in cells of a server; a removal or an in-place
    write that finds nothing counts as a miss. */
module Corpus {
  import opened Arith
  import opened Bits
  import opened Decimal
  import opened Names

  datatype Place = Whole | Field(name: Name) | Member(name: Name) | At(pos: nat)

  datatype Key = Key(root: Name, place: Place)

  datatype Command =
    | Set(key: Name, value: bytes)
    | HSet(root: Name, field: Name, value: bytes)
    | SAdd(root: Name, member: Name)
    | SRem(root: Name, member: Name)
    | ZAdd(root: Name, score: bytes, member: Name)
    | RPush(root: Name, value: bytes)
    | LSet(root: Name, pos: nat, value: bytes)

  datatype Server = Server(cells: map<Key, bytes>, lens: map<Name, nat>, misses: nat)

  const EMPTY := Server(map[], map[], 0)

  function Length(s: Server, root: Name): nat { if root in s.lens then s.lens[root] else 0 }

  function Apply(s: Server, c: Command): Server {
    match c
    case Set(key, v) => s.(cells := s.cells[Key(key, Whole) := v])
    case HSet(root, f, v) => s.(cells := s.cells[Key(root, Field(f)) := v])
    case SAdd(root, m) => s.(cells := s.cells[Key(root, Member(m)) := []])
    case SRem(root, m) =>
      if Key(root, Member(m)) in s.cells then s.(cells := s.cells - {Key(root, Member(m))})
      else s.(misses := s.misses + 1)
    case ZAdd(root, score, m) => s.(cells := s.cells[Key(root, Member(m)) := score])
    case RPush(root, v) =>
      var p := Length(s, root);
      s.(cells := s.cells[Key(root, At(p)) := v], lens := s.lens[root := p + 1])
    case LSet(root, p, v) =>
      if p < Length(s, root) then s.(cells := s.cells[Key(root, At(p)) := v])
      else s.(misses := s.misses + 1)
  }

  /** The server after the first n commands. */
  function ApplyTo(s: Server, cs: seq<Command>, n: nat): Server
    requires n <= |cs|
  {
    if n == 0 then s else Apply(ApplyTo(s, cs, n - 1), cs[n - 1])
  }

  function ApplyAll(s: Server, cs: seq<Command>): Server { ApplyTo(s, cs, |cs|) }

  datatype Suite = Strings | Hashes | Sets | ZSets | Lists

  /** The value shapes: any function of the entry and the phase's salt; for sets it is the member
      (a hash of both), for sorted sets the score. */
  type Values = (nat, nat) -> bytes

  function Tagged(letter: byte, digits: bytes): Name { [letter, 58] + digits }

  function Root(suite: Suite, i: nat): Name {
    match suite
    case Strings => Tagged(107, Padded(8, i))
    case Hashes => Tagged(104, Padded(6, i / 16))
    case Sets => Tagged(115, Padded(6, i / 100))
    case ZSets => Tagged(122, Padded(6, i / 100))
    case Lists => ListRoot(i / 100)
  }

  function ListRoot(r: nat): Name { Tagged(108, Padded(6, r)) }

  function FieldName(i: nat): Name { [102] + Padded(2, i % 16) }

  function LoadCommands(suite: Suite, v: Values, i: nat): seq<Command> {
    match suite
    case Strings => [Set(Root(suite, i), v(i, 0))]
    case Hashes => [HSet(Root(suite, i), FieldName(i), v(i, 0))]
    case Sets => [SAdd(Root(suite, i), v(i, 0))]
    case ZSets => [ZAdd(Root(suite, i), v(i, 0), Tagged(109, Padded(8, i)))]
    case Lists => [RPush(Root(suite, i), v(i, 0))]
  }

  function ChurnCommands(suite: Suite, v: Values, i: nat): seq<Command> {
    match suite
    case Strings => [Set(Root(suite, i), v(i, 1))]
    case Hashes => [HSet(Root(suite, i), FieldName(i), v(i, 1))]
    case Sets => [SRem(Root(suite, i), v(i, 0)), SAdd(Root(suite, i), v(i, 1))]
    case ZSets => [ZAdd(Root(suite, i), v(i, 1), Tagged(109, Padded(8, i)))]
    case Lists => [LSet(Root(suite, i), i % 100, v(i, 1))]
  }

  /** What one turn of main's loop writes in a phase. */
  function PhaseCommands(suite: Suite, v: Values, churn: bool): nat -> seq<Command> {
    (i: nat) => if !churn then LoadCommands(suite, v, i) else if i % 2 == 1 then [] else ChurnCommands(suite, v, i)
  }

  function Written(cmds: nat -> seq<Command>, n: nat): seq<Command> {
    if n == 0 then [] else Written(cmds, n - 1) + cmds(n - 1)
  }

  function Emitted(suite: Suite, v: Values, n: nat, churn: bool): seq<Command> {
    Written(PhaseCommands(suite, v, churn), n)
  }

  /** main's emission loop. */
  method Emit(suite: Suite, v: Values, n: nat, churn: bool) returns (out: seq<Command>)
    ensures out == Emitted(suite, v, n, churn)
  {
    out := [];
    var i := 0;
    while i < n
      invariant 0 <= i <= n && out == Emitted(suite, v, i, churn)
    {
      ghost var before := out;
      if !churn {
        out := out + LoadCommands(suite, v, i);
      } else if i % 2 == 0 {
        out := out + ChurnCommands(suite, v, i);
      }
      assert out == before + PhaseCommands(suite, v, churn)(i);
      i := i + 1;
    }
  }

  // ---- where entry i lives ----

  function CellOf(suite: Suite, v: Values, i: nat, salt: nat): Key {
    Key(Root(suite, i),
        match suite
        case Strings => Whole
        case Hashes => Field(FieldName(i))
        case Sets => Member(v(i, salt))
        case ZSets => Member(Tagged(109, Padded(8, i)))
        case Lists => At(i % 100))
  }

  function Content(suite: Suite, v: Values, i: nat, salt: nat): bytes {
    if suite.Sets? then [] else v(i, salt)
  }

  /** Where each entry lives and what it holds, by entry and salt. */
  datatype Arrangement = Arrangement(cell: (nat, nat) -> Key, content: (nat, nat) -> bytes)

  function Arrange(suite: Suite, v: Values): Arrangement {
    Arrangement((i: nat, salt: nat) => CellOf(suite, v, i, salt), (i: nat, salt: nat) => Content(suite, v, i, salt))
  }

  /** The hashes of the first n entries, before and after churn, never collide between entries of
      one set. */
  ghost predicate HashInjective(v: Values, n: nat) {
    forall i: nat, s: nat, j: nat, t: nat ::
      i < n && j < n && s < 2 && t < 2 && i / 100 == j / 100 && v(i, s) == v(j, t) ==> i == j
  }

  /** The salt entry j carries once churn has passed the first done entries. */
  function SaltOf(done: nat, j: nat): nat { if j < done && j % 2 == 0 then 1 else 0 }

  /** Where entry j lives once churn has passed the first done entries. */
  function CellAt(a: Arrangement, done: nat, j: nat): Key { a.cell(j, SaltOf(done, j)) }

  /** No two of the first n entries share a cell at that point of the churn. */
  ghost predicate Apart(a: Arrangement, n: nat, done: nat) {
    forall i: nat, j: nat :: i < n && j < n && CellAt(a, done, i) == CellAt(a, done, j) ==> i == j
  }

  /** Nor at any other point. */
  ghost predicate EverApart(a: Arrangement, n: nat) {
    forall done: nat :: done <= n ==> Apart(a, n, done)
  }

  lemma TaggedInjective(letter: byte, a: bytes, b: bytes)
    requires Tagged(letter, a) == Tagged(letter, b)
    ensures a == b
  {
    assert Tagged(letter, a)[2..] == a && Tagged(letter, b)[2..] == b;
  }

  lemma QuotRem(i: nat, j: nat, d: nat)
    requires d > 0 && i / d == j / d && i % d == j % d
    ensures i == j
  {
    DivFloor(i, d);
    DivFloor(j, d);
  }

  lemma FieldNameInjective(i: nat, j: nat)
    requires FieldName(i) == FieldName(j)
    ensures i % 16 == j % 16
  {
    assert FieldName(i)[1..] == Padded(2, i % 16) && FieldName(j)[1..] == Padded(2, j % 16);
    PaddedInjective(2, i % 16, j % 16);
  }

  function RootText(suite: Suite): bytes {
    Ascii(match suite case Strings => "k:" case Hashes => "h:" case Sets => "s:" case ZSets => "z:" case Lists => "l:")
  }

  /** The prefix of a suite's roots, and how many entries each root holds: one, sixteen or a hundred
      in a row. */
  lemma RootGroups(suite: Suite, r: nat, i: nat)
    ensures Root(suite, i)[..2] == RootText(suite)
    ensures var g := match suite case Strings => 1 case Hashes => 16 case _ => 100;
            Root(suite, i) == Root(suite, g * r) <==> g * r <= i < g * r + g
  {
    var g := match suite case Strings => 1 case Hashes => 16 case _ => 100;
    var w := match suite case Strings => 8 case _ => 6;
    RootShape(suite, i, i / g, Padded(w, i / g));
    RootShape(suite, g * r, r, Padded(w, r));
    DivUnique(g * r, g, r, 0);
    DivFloor(i, g);
    if Root(suite, i) == Root(suite, g * r) {
      assert Root(suite, i)[2..] == Root(suite, g * r)[2..];
      PaddedInjective(w, i / g, r);
    } else if g * r <= i < g * r + g {
      DivUnique(i, g, r, i - g * r);
    }
  }

  lemma RootShape(suite: Suite, i: nat, q: nat, digits: bytes)
    requires q == i / (match suite case Strings => 1 case Hashes => 16 case _ => 100)
    requires digits == Padded(match suite case Strings => 8 case _ => 6, q)
    ensures Root(suite, i) == RootText(suite) + digits
  {
  }

  /** Different entries never share a cell, at any entry count: the printf widths are minimums, and
      in a set the entries need hashes of their own. */
  lemma CellsApart(suite: Suite, v: Values, n: nat)
    requires suite.Sets? ==> HashInjective(v, n)
    ensures EverApart(Arrange(suite, v), n)
  {
    var a := Arrange(suite, v);
    forall d: nat, i: nat, j: nat | d <= n && i < n && j < n && CellAt(a, d, i) == CellAt(a, d, j) ensures i == j {
      CellApart(suite, v, n, i, SaltOf(d, i), j, SaltOf(d, j));
    }
  }

  lemma CellApart(suite: Suite, v: Values, n: nat, i: nat, s: nat, j: nat, t: nat)
    requires suite.Sets? ==> HashInjective(v, n)
    requires i < n && j < n && s < 2 && t < 2
    requires CellOf(suite, v, i, s) == CellOf(suite, v, j, t)
    ensures i == j
  {
    match suite
    case Strings =>
      TaggedInjective(107, Padded(8, i), Padded(8, j));
      PaddedInjective(8, i, j);
    case Hashes =>
      TaggedInjective(104, Padded(6, i / 16), Padded(6, j / 16));
      PaddedInjective(6, i / 16, j / 16);
      FieldNameInjective(i, j);
      QuotRem(i, j, 16);
    case Sets =>
      TaggedInjective(115, Padded(6, i / 100), Padded(6, j / 100));
      PaddedInjective(6, i / 100, j / 100);
    case ZSets =>
      TaggedInjective(109, Padded(8, i), Padded(8, j));
      PaddedInjective(8, i, j);
    case Lists =>
      TaggedInjective(108, Padded(6, i / 100), Padded(6, j / 100));
      PaddedInjective(6, i / 100, j / 100);
      QuotRem(i, j, 100);
  }

  // ---- the state after each phase ----

  ghost predicate EntryIn(a: Arrangement, cells: map<Key, bytes>, j: nat, salt: nat) {
    a.cell(j, salt) in cells && cells[a.cell(j, salt)] == a.content(j, salt)
  }

  /** The cells of the first k entries. */
  ghost function CellSet(a: Arrangement, k: nat, done: nat): set<Key> {
    if k == 0 then {} else CellSet(a, k - 1, done) + {CellAt(a, done, k - 1)}
  }

  ghost predicate InPlace(a: Arrangement, cells: map<Key, bytes>, done: nat, j: nat) {
    EntryIn(a, cells, j, SaltOf(done, j))
  }

  /** The server holds nothing but cells of entries 0..n-1. */
  ghost predicate Within(a: Arrangement, cells: map<Key, bytes>, n: nat, done: nat) {
    cells.Keys <= CellSet(a, n, done)
  }

  /** The server holds exactly entries 0..n-1, each in its cell with the content of its salt. */
  ghost predicate Holds(a: Arrangement, cells: map<Key, bytes>, n: nat, done: nat) {
    Within(a, cells, n, done) && forall j: nat :: j < n ==> InPlace(a, cells, done, j)
  }

  ghost predicate LensFit(suite: Suite, s: Server, n: nat) {
    suite.Lists? ==> forall r: nat :: Length(s, ListRoot(r)) == if 100 * r < n then Min(100, n - 100 * r) else 0
  }

  lemma ApplyOne(s: Server, c: seq<Command>)
    requires |c| == 1
    ensures ApplyAll(s, c) == Apply(s, c[0])
  {
    assert ApplyTo(s, c, 0) == s;
  }

  lemma LoadStep(suite: Suite, v: Values, s: Server, n: nat)
    requires LensFit(suite, s, n)
    ensures var s' := ApplyAll(s, LoadCommands(suite, v, n));
            && s'.cells == s.cells[CellOf(suite, v, n, 0) := Content(suite, v, n, 0)]
            && s'.misses == s.misses && LensFit(suite, s', n + 1)
  {
    var c := LoadCommands(suite, v, n);
    ApplyOne(s, c);
    if suite.Lists? {
      DivFloor(n, 100);
      forall r: nat
        ensures Length(Apply(s, c[0]), ListRoot(r)) == if 100 * r < n + 1 then Min(100, n + 1 - 100 * r) else 0
      {
        if ListRoot(r) == ListRoot(n / 100) {
          TaggedInjective(108, Padded(6, r), Padded(6, n / 100));
          PaddedInjective(6, r, n / 100);
        }
      }
    }
  }

  lemma {:induction false} ApplyFront(s: Server, a: seq<Command>, b: seq<Command>, n: nat)
    requires n <= |a|
    ensures ApplyTo(s, a + b, n) == ApplyTo(s, a, n)
  {
    if n > 0 {
      ApplyFront(s, a, b, n - 1);
    }
  }

  lemma {:induction false} ApplyBack(s: Server, a: seq<Command>, b: seq<Command>, n: nat)
    requires n <= |b|
    ensures ApplyTo(s, a + b, |a| + n) == ApplyTo(ApplyAll(s, a), b, n)
  {
    if n == 0 {
      ApplyFront(s, a, b, |a|);
    } else {
      ApplyBack(s, a, b, n - 1);
    }
  }

  lemma ApplyConcat(s: Server, a: seq<Command>, b: seq<Command>)
    ensures ApplyAll(s, a + b) == ApplyAll(ApplyAll(s, a), b)
  {
    ApplyBack(s, a, b, |b|);
  }

  // ---- the cells of the entries ----

  lemma {:induction false} CellInSet(a: Arrangement, k: nat, done: nat, j: nat)
    requires j < k
    ensures CellAt(a, done, j) in CellSet(a, k, done)
  {
    if j < k - 1 {
      CellInSet(a, k - 1, done, j);
    }
  }

  lemma {:induction false} OwnerOf(a: Arrangement, k: nat, done: nat, x: Key) returns (j: nat)
    requires x in CellSet(a, k, done)
    ensures j < k && CellAt(a, done, j) == x
  {
    if x == CellAt(a, done, k - 1) {
      j := k - 1;
    } else {
      j := OwnerOf(a, k - 1, done, x);
    }
  }

  lemma ApartNext(a: Arrangement, m: nat, n: nat, done: nat)
    requires n == m + 1
    ensures Apart(a, n, done) <==> Apart(a, m, done) && CellAt(a, done, m) !in CellSet(a, m, done)
  {
    var last := CellAt(a, done, m);
    if last in CellSet(a, m, done) {
      var j := OwnerOf(a, m, done, last);
      assert CellAt(a, done, j) == CellAt(a, done, m);
    } else {
      forall j: nat | j < m ensures CellAt(a, done, j) != last {
        CellInSet(a, m, done, j);
      }
    }
  }

  lemma GrowSize<T>(m: set<T>, x: T)
    ensures |m + {x}| == |m| + (if x in m then 0 else 1)
  {
    if x in m {
      assert m + {x} == m;
    }
  }

  /** n entries fill n cells exactly when they are apart. */
  lemma {:induction false} CellSetSize(a: Arrangement, k: nat, done: nat)
    ensures |CellSet(a, k, done)| <= k
    ensures |CellSet(a, k, done)| == k <==> Apart(a, k, done)
  {
    if k > 0 {
      CellSetSize(a, k - 1, done);
      ApartNext(a, k - 1, k, done);
      GrowSize(CellSet(a, k - 1, done), CellAt(a, done, k - 1));
    }
  }

  /** What entry i's move from one cell to the other does to the cells. */
  lemma CellsAfter(a: Arrangement, n: nat, i: nat, k: Key)
    requires i < n && k in CellSet(a, n, i) && (i % 2 == 0 ==> k != a.cell(i, 0))
    ensures k in CellSet(a, n, i + 1)
  {
    var j := OwnerOf(a, n, i, k);
    CellInSet(a, n, i + 1, j);
  }

  lemma SubsetSize<T>(x: set<T>, y: set<T>)
    requires x <= y
    ensures |x| <= |y|
  {
    assert |x + (y - x)| == |x| + |y - x|;
    assert x + (y - x) == y;
  }

  /** Cells that all belong to entries number at most n, and n of them leave no room for a collision. */
  lemma WithinSize(a: Arrangement, cells: map<Key, bytes>, n: nat, done: nat)
    requires Within(a, cells, n, done)
    ensures |cells| <= n
    ensures |cells| == n ==> Apart(a, n, done)
  {
    SubsetSize(cells.Keys, CellSet(a, n, done));
    CellSetSize(a, n, done);
  }

  /** Holding n entries that are apart means holding n cells. */
  lemma HoldsCount(a: Arrangement, cells: map<Key, bytes>, n: nat, done: nat)
    requires Apart(a, n, done) && Holds(a, cells, n, done)
    ensures |cells| == n
  {
    forall k | k in CellSet(a, n, done) ensures k in cells.Keys {
      var j := OwnerOf(a, n, done, k);
      assert InPlace(a, cells, done, j);
    }
    assert cells.Keys == CellSet(a, n, done);
    CellSetSize(a, n, done);
  }

  // ---- one entry loaded or churned ----

  lemma HoldsMore(a: Arrangement, cells: map<Key, bytes>, n: nat)
    requires Apart(a, n + 1, 0) && Holds(a, cells, n, 0)
    ensures Holds(a, cells[a.cell(n, 0) := a.content(n, 0)], n + 1, 0)
  {
    var after := cells[a.cell(n, 0) := a.content(n, 0)];
    forall j: nat | j < n + 1 ensures InPlace(a, after, 0, j) {
      if j < n {
        assert InPlace(a, cells, 0, j);
        assert CellAt(a, 0, j) != CellAt(a, 0, n);
      }
    }
  }

  /** Entry i rewritten by churn, whether or not its old cell was there. */
  lemma WithinChurned(a: Arrangement, cells: map<Key, bytes>, n: nat, i: nat)
    requires Within(a, cells, n, i) && i < n && i % 2 == 0
    ensures Within(a, (cells - {a.cell(i, 0)})[a.cell(i, 1) := a.content(i, 1)], n, i + 1)
  {
    var after := (cells - {a.cell(i, 0)})[a.cell(i, 1) := a.content(i, 1)];
    forall k | k in after.Keys ensures k in CellSet(a, n, i + 1) {
      if k == a.cell(i, 1) {
        CellInSet(a, n, i + 1, i);
      } else {
        CellsAfter(a, n, i, k);
      }
    }
  }

  lemma HoldsChurned(a: Arrangement, cells: map<Key, bytes>, n: nat, i: nat)
    requires Apart(a, n, i) && Apart(a, n, i + 1) && Holds(a, cells, n, i) && i < n && i % 2 == 0
    ensures Holds(a, (cells - {a.cell(i, 0)})[a.cell(i, 1) := a.content(i, 1)], n, i + 1)
  {
    var after, d := (cells - {a.cell(i, 0)})[a.cell(i, 1) := a.content(i, 1)], i + 1;
    WithinChurned(a, cells, n, i);
    forall j: nat | j < n ensures InPlace(a, after, d, j) {
      if j != i {
        assert InPlace(a, cells, i, j);
        assert CellAt(a, i, j) != CellAt(a, i, i);
        assert CellAt(a, d, j) != CellAt(a, d, i);
      }
    }
  }

  lemma WithinSkip(a: Arrangement, cells: map<Key, bytes>, n: nat, i: nat)
    requires Within(a, cells, n, i) && i < n && i % 2 == 1
    ensures Within(a, cells, n, i + 1)
  {
    forall k | k in cells.Keys ensures k in CellSet(a, n, i + 1) {
      CellsAfter(a, n, i, k);
    }
  }

  lemma HoldsSkip(a: Arrangement, cells: map<Key, bytes>, n: nat, i: nat)
    requires Holds(a, cells, n, i) && i < n && i % 2 == 1
    ensures Holds(a, cells, n, i + 1)
  {
    var d := i + 1;
    WithinSkip(a, cells, n, i);
    forall j: nat | j < n ensures InPlace(a, cells, d, j) {
      assert InPlace(a, cells, i, j);
    }
  }

  /** One churned entry: what it removes or rewrites is there. */
  lemma ChurnStep(suite: Suite, v: Values, s: Server, n: nat, i: nat)
    requires EntryIn(Arrange(suite, v), s.cells, i, 0) && LensFit(suite, s, n) && i < n
    ensures var s' := ApplyAll(s, ChurnCommands(suite, v, i));
            && s'.cells == (s.cells - {CellOf(suite, v, i, 0)})[CellOf(suite, v, i, 1) := Content(suite, v, i, 1)]
            && s'.misses == s.misses && s'.lens == s.lens
  {
    var c := ChurnCommands(suite, v, i);
    if suite.Sets? {
      ApplyTwo(s, c[0], c[1]);
    } else {
      ApplyOne(s, c);
      var k := CellOf(suite, v, i, 0);
      assert (s.cells - {k})[k := Content(suite, v, i, 1)] == s.cells[k := Content(suite, v, i, 1)];
      if suite.Lists? {
        DivFloor(i, 100);
        assert Length(s, ListRoot(i / 100)) == Min(100, n - 100 * (i / 100));
      }
    }
  }

  /** Where a phase has got to. */
  ghost predicate Reached(suite: Suite, v: Values, s: Server, n: nat, done: nat) {
    Holds(Arrange(suite, v), s.cells, n, done) && s.misses == 0 && LensFit(suite, s, n)
  }

  lemma LoadOne(suite: Suite, v: Values, s: Server, n: nat)
    requires Apart(Arrange(suite, v), n + 1, 0) && Reached(suite, v, s, n, 0)
    ensures Reached(suite, v, ApplyAll(s, LoadCommands(suite, v, n)), n + 1, 0)
  {
    LoadStep(suite, v, s, n);
    HoldsMore(Arrange(suite, v), s.cells, n);
  }

  lemma ChurnOne(suite: Suite, v: Values, s: Server, n: nat, i: nat)
    requires EverApart(Arrange(suite, v), n) && Reached(suite, v, s, n, i) && i < n && i % 2 == 0
    ensures Reached(suite, v, ApplyAll(s, ChurnCommands(suite, v, i)), n, i + 1)
  {
    assert InPlace(Arrange(suite, v), s.cells, i, i);
    assert Apart(Arrange(suite, v), n, i) && Apart(Arrange(suite, v), n, i + 1);
    ChurnStep(suite, v, s, n, i);
    HoldsChurned(Arrange(suite, v), s.cells, n, i);
  }

  lemma EmptyReached(suite: Suite, v: Values)
    ensures Reached(suite, v, EMPTY, 0, 0)
  {
  }

  function Loaded(suite: Suite, v: Values, n: nat): Server { ApplyAll(EMPTY, Emitted(suite, v, n, false)) }

  function Churned(suite: Suite, v: Values, n: nat): Server { ApplyAll(Loaded(suite, v, n), Emitted(suite, v, n, true)) }

  /** One turn of the churn loop on the server. */
  function ChurnTurn(suite: Suite, v: Values, s: Server, i: nat): Server {
    if i % 2 == 1 then s else ApplyAll(s, ChurnCommands(suite, v, i))
  }

  /** The churn phase after its first k entries. */
  function ChurnedTo(suite: Suite, v: Values, s: Server, k: nat): Server {
    if k == 0 then s else ChurnTurn(suite, v, ChurnedTo(suite, v, s, k - 1), k - 1)
  }

  /** n turns of a loop that writes cmds(0), cmds(1), ... */
  function Turns(cmds: nat -> seq<Command>, s: Server, n: nat): Server {
    if n == 0 then s else ApplyAll(Turns(cmds, s, n - 1), cmds(n - 1))
  }

  /** Applying what was written is stepping through the entries. */
  lemma {:induction false} WrittenByTurns(cmds: nat -> seq<Command>, s: Server, n: nat)
    ensures ApplyAll(s, Written(cmds, n)) == Turns(cmds, s, n)
  {
    if n > 0 {
      WrittenByTurns(cmds, s, n - 1);
      ApplyConcat(s, Written(cmds, n - 1), cmds(n - 1));
    }
  }

  lemma ChurnTurnIs(suite: Suite, v: Values, s: Server, i: nat)
    ensures ApplyAll(s, PhaseCommands(suite, v, true)(i)) == ChurnTurn(suite, v, s, i)
  {
  }

  lemma {:induction false} ChurnByTurns(suite: Suite, v: Values, s: Server, k: nat)
    ensures Turns(PhaseCommands(suite, v, true), s, k) == ChurnedTo(suite, v, s, k)
  {
    if k > 0 {
      ChurnByTurns(suite, v, s, k - 1);
      ChurnTurnIs(suite, v, ChurnedTo(suite, v, s, k - 1), k - 1);
    }
  }

  /** The load phase after its first n entries. */
  function LoadedTo(suite: Suite, v: Values, n: nat): Server {
    if n == 0 then EMPTY else ApplyAll(LoadedTo(suite, v, n - 1), LoadCommands(suite, v, n - 1))
  }

  lemma {:induction false} LoadByTurns(suite: Suite, v: Values, n: nat)
    ensures Turns(PhaseCommands(suite, v, false), EMPTY, n) == LoadedTo(suite, v, n)
  {
    if n > 0 {
      LoadByTurns(suite, v, n - 1);
    }
  }

  /** Both phases, turn by turn. */
  lemma PhasesByTurns(suite: Suite, v: Values, n: nat)
    ensures Loaded(suite, v, n) == LoadedTo(suite, v, n)
    ensures Churned(suite, v, n) == ChurnedTo(suite, v, LoadedTo(suite, v, n), n)
  {
    WrittenByTurns(PhaseCommands(suite, v, false), EMPTY, n);
    LoadByTurns(suite, v, n);
    WrittenByTurns(PhaseCommands(suite, v, true), Loaded(suite, v, n), n);
    ChurnByTurns(suite, v, Loaded(suite, v, n), n);
  }

  lemma ApartFewer(a: Arrangement, m: nat, n: nat, done: nat)
    requires m <= n && Apart(a, n, done)
    ensures Apart(a, m, done)
  {
  }

  /** The load phase, entry by entry: none missed. */
  lemma {:induction false} AfterLoad(suite: Suite, v: Values, n: nat)
    requires Apart(Arrange(suite, v), n, 0)
    ensures Reached(suite, v, LoadedTo(suite, v, n), n, 0)
  {
    if n == 0 {
      EmptyReached(suite, v);
    } else {
      ApartFewer(Arrange(suite, v), n - 1, n, 0);
      AfterLoad(suite, v, n - 1);
      LoadOne(suite, v, LoadedTo(suite, v, n - 1), n - 1);
    }
  }

  lemma ChurnNext(suite: Suite, v: Values, s: Server, n: nat, i: nat)
    requires EverApart(Arrange(suite, v), n) && Reached(suite, v, s, n, i) && i < n
    ensures Reached(suite, v, ChurnTurn(suite, v, s, i), n, i + 1)
  {
    if i % 2 == 1 {
      HoldsSkip(Arrange(suite, v), s.cells, n, i);
    } else {
      ChurnOne(suite, v, s, n, i);
    }
  }

  /** The churn phase, entry by entry. */
  lemma {:induction false} AfterChurn(suite: Suite, v: Values, s: Server, n: nat, k: nat)
    requires EverApart(Arrange(suite, v), n) && Reached(suite, v, s, n, 0) && k <= n
    ensures Reached(suite, v, ChurnedTo(suite, v, s, k), n, k)
  {
    if k > 0 {
      AfterChurn(suite, v, s, n, k - 1);
      ChurnNext(suite, v, ChurnedTo(suite, v, s, k - 1), n, k - 1);
    }
  }

  // ---- the other direction: a collision shows ----

  /** Churning one entry of a set gains no member that it does not count as a miss. */
  lemma ChurnDrift(v: Values, s: Server, n: nat, i: nat)
    requires Within(Arrange(Sets, v), s.cells, n, i) && i < n
    ensures var s' := ChurnTurn(Sets, v, s, i);
            && Within(Arrange(Sets, v), s'.cells, n, i + 1)
            && |s'.cells| - s'.misses <= |s.cells| - s.misses
            && s'.misses >= s.misses
  {
    if i % 2 == 1 {
      WithinSkip(Arrange(Sets, v), s.cells, n, i);
    } else {
      WithinChurned(Arrange(Sets, v), s.cells, n, i);
      ReplaceDrift(v, s, i);
    }
  }

  lemma ReplaceDrift(v: Values, s: Server, i: nat)
    ensures var s' := ApplyAll(s, ChurnCommands(Sets, v, i));
            && s'.cells == (s.cells - {CellOf(Sets, v, i, 0)})[CellOf(Sets, v, i, 1) := []]
            && |s'.cells| - s'.misses <= |s.cells| - s.misses
            && s'.misses >= s.misses
  {
    var c, gone := ChurnCommands(Sets, v, i), CellOf(Sets, v, i, 0);
    var removed := Apply(s, c[0]);
    ApplyTwo(s, c[0], c[1]);
    assert c == [c[0], c[1]];
    RemoveSize(s.cells, gone);
    AddSize(removed.cells, CellOf(Sets, v, i, 1));
  }

  lemma ApplyTwo(s: Server, c: Command, d: Command)
    ensures ApplyAll(s, [c, d]) == Apply(Apply(s, c), d)
  {
    assert ApplyTo(s, [c, d], 1) == Apply(s, c);
  }

  lemma RemoveSize(cells: map<Key, bytes>, k: Key)
    ensures k !in cells ==> cells - {k} == cells
    ensures k in cells ==> |cells - {k}| == |cells| - 1
  {
    assert k in cells ==> cells.Keys == (cells - {k}).Keys + {k};
  }

  lemma AddSize(cells: map<Key, bytes>, k: Key)
    ensures |cells[k := []]| <= |cells| + 1
  {
    assert cells[k := []].Keys == cells.Keys + {k};
  }

  /** All that the phases leave is owned, with or without collisions. */
  lemma {:induction false} LoadWithin(v: Values, n: nat)
    ensures Within(Arrange(Sets, v), LoadedTo(Sets, v, n).cells, n, 0)
  {
    if n > 0 {
      LoadWithin(v, n - 1);
      LoadStep(Sets, v, LoadedTo(Sets, v, n - 1), n - 1);
    }
  }

  lemma {:induction false} ChurnWithin(v: Values, s: Server, n: nat, k: nat)
    requires Within(Arrange(Sets, v), s.cells, n, 0) && k <= n
    ensures Within(Arrange(Sets, v), ChurnedTo(Sets, v, s, k).cells, n, k)
  {
    if k > 0 {
      ChurnWithin(v, s, n, k - 1);
      ChurnDrift(v, ChurnedTo(Sets, v, s, k - 1), n, k - 1);
    }
  }

  lemma {:induction false} DriftTo(v: Values, s: Server, n: nat, k: nat, end: nat)
    requires Within(Arrange(Sets, v), s.cells, n, 0) && k <= end <= n
    ensures var t, u := ChurnedTo(Sets, v, s, k), ChurnedTo(Sets, v, s, end);
            |u.cells| - u.misses <= |t.cells| - t.misses
    decreases end
  {
    if k < end {
      DriftTo(v, s, n, k, end - 1);
      ChurnWithin(v, s, n, end - 1);
      ChurnDrift(v, ChurnedTo(Sets, v, s, end - 1), n, end - 1);
    }
  }

  /** n members and no miss at the end mean n cells all along, hence no collision at any point. */
  lemma CollisionShows(v: Values, n: nat)
    requires |Churned(Sets, v, n).cells| == n && Churned(Sets, v, n).misses == 0
    ensures EverApart(Arrange(Sets, v), n)
  {
    var s := LoadedTo(Sets, v, n);
    PhasesByTurns(Sets, v, n);
    LoadWithin(v, n);
    forall d: nat | d <= n ensures Apart(Arrange(Sets, v), n, d) {
      DriftTo(v, s, n, d, n);
      ChurnWithin(v, s, n, d);
      WithinSize(Arrange(Sets, v), ChurnedTo(Sets, v, s, d).cells, n, d);
    }
  }

  /** Load then churn, any suite but streams, any entry count: exactly n live entries and no SREM
      or LSET missed, if and only if no two entries share a cell at any point of the churn; every
      even entry then carries its second content and every odd one its first. */
  lemma LoadThenChurn(suite: Suite, v: Values, n: nat)
    ensures var s, apart := Churned(suite, v, n), EverApart(Arrange(suite, v), n);
            && (|s.cells| == n && s.misses == 0 <==> apart)
            && (apart ==> forall j: nat :: j < n ==> EntryIn(Arrange(suite, v), s.cells, j, 1 - j % 2))
            && (suite.Sets? ==> HashInjective(v, n) ==> apart)
            && (!suite.Sets? ==> apart)
  {
    if !suite.Sets? || HashInjective(v, n) {
      CellsApart(suite, v, n);
    }
    if EverApart(Arrange(suite, v), n) {
      assert Apart(Arrange(suite, v), n, 0);
      PhasesByTurns(suite, v, n);
      AfterLoad(suite, v, n);
      AfterChurn(suite, v, LoadedTo(suite, v, n), n, n);
      Settled(suite, v, Churned(suite, v, n), n);
    } else if |Churned(suite, v, n).cells| == n && Churned(suite, v, n).misses == 0 {
      CollisionShows(v, n);
    }
  }

  /** Two entries of one set with the same hash: the promised count or a removal is missed. */
  lemma CollisionExample()
    ensures var s := Churned(Sets, (i: nat, salt: nat) => [], 2);
            !(|s.cells| == 2 && s.misses == 0)
  {
    var v: Values := (i: nat, salt: nat) => [];
    var a := Arrange(Sets, v);
    assert CellAt(a, 0, 0) == CellAt(a, 0, 1);
    assert !Apart(a, 2, 0);
    LoadThenChurn(Sets, v, 2);
  }

  lemma Settled(suite: Suite, v: Values, s: Server, n: nat)
    requires EverApart(Arrange(suite, v), n) && Reached(suite, v, s, n, n)
    ensures |s.cells| == n && s.misses == 0
    ensures forall j: nat :: j < n ==> EntryIn(Arrange(suite, v), s.cells, j, 1 - j % 2)
  {
    HoldsCount(Arrange(suite, v), s.cells, n, n);
    FinalSalts(Arrange(suite, v), s.cells, n);
  }

  lemma FinalSalts(a: Arrangement, cells: map<Key, bytes>, n: nat)
    requires Holds(a, cells, n, n)
    ensures forall j: nat :: j < n ==> EntryIn(a, cells, j, 1 - j % 2)
  {
    forall j: nat | j < n ensures EntryIn(a, cells, j, 1 - j % 2) {
      assert InPlace(a, cells, n, j);
    }
  }

  // ---- streams ----

  /** Entry ids of each stream, oldest first; an XADD whose id is not above the last is refused. */
  datatype StreamCommand = XAdd(stream: nat, id: nat) | XTrim(stream: nat, maxLen: nat)

  datatype StreamServer = StreamServer(streams: seq<seq<nat>>, refused: nat)

  function StreamApply(s: StreamServer, c: StreamCommand): (t: StreamServer)
    ensures |t.streams| == |s.streams|
  {
    if c.stream >= |s.streams| then s else
    var ids := s.streams[c.stream];
    match c
    case XAdd(st, id) =>
      if ids != [] && id <= ids[|ids| - 1] then s.(refused := s.refused + 1)
      else s.(streams := s.streams[st := ids + [id]])
    case XTrim(st, maxLen) =>
      if |ids| <= maxLen then s else s.(streams := s.streams[st := ids[|ids| - maxLen..]])
  }

  function StreamCount(n: nat): (k: nat)
    ensures 1 <= k <= 100
  {
    Min(100, Max(1, n / 100))
  }

  /** One stream below 200 entries, one for every whole hundred from there on, and 100 from 10000 on. */
  lemma StreamCountRanges(n: nat)
    ensures n < 200 ==> StreamCount(n) == 1
    ensures 200 <= n < 10000 ==> 100 * StreamCount(n) <= n < 100 * (StreamCount(n) + 1)
    ensures n >= 10000 ==> StreamCount(n) == 100
  {
    DivFloor(n, 100);
  }

  function PerStream(n: nat): nat { n / StreamCount(n) }

  /** Ids lo..hi - 1. */
  function Ids(lo: nat, hi: nat): (s: seq<nat>)
    requires lo <= hi
    ensures |s| == hi - lo
  {
    seq(hi - lo, i => lo + i)
  }

  /** The streams after load: entry i in stream i / per, ids in order. */
  function LoadedStreams(n: nat): StreamServer {
    StreamServer(seq(StreamCount(n), st => Ids(1, PerStream(n) + 1)), 0)
  }

  /** And after churn: the newest per entries of each. */
  function ChurnedStreams(n: nat): StreamServer {
    StreamServer(seq(StreamCount(n), st => Ids(PerStream(n) / 2 + 1, PerStream(n) + PerStream(n) / 2 + 1)), 0)
  }

  /** One stream's commands: entries a..b - 1, each with id its position plus one. */
  method AppendRun(s: StreamServer, st: nat, a: nat, b: nat) returns (t: StreamServer)
    requires st < |s.streams| && a <= b && s.streams[st] == Ids(1, a + 1)
    ensures t == s.(streams := s.streams[st := Ids(1, b + 1)])
  {
    t := s;
    var j := a;
    while j < b
      invariant a <= j <= b && t == s.(streams := s.streams[st := Ids(1, j + 1)])
    {
      t := StreamApply(t, XAdd(st, j + 1));
      assert Ids(1, j + 1) + [j + 1] == Ids(1, j + 2);
      j := j + 1;
    }
  }

  /** How many entries stream k has when the next one is entry j of stream st. */
  function DealtTo(per: nat, st: nat, j: nat, k: nat): nat { if k < st then per else if k == st then j else 0 }

  ghost predicate Dealt(s: StreamServer, streams: nat, per: nat, st: nat, j: nat) {
    && s.refused == 0 && |s.streams| == streams
    && forall k: nat | k < streams :: s.streams[k] == Ids(1, DealtTo(per, st, j, k) + 1)
  }

  lemma DealtNext(s: StreamServer, streams: nat, per: nat, st: nat, j: nat)
    requires Dealt(s, streams, per, st, j) && st < streams && j < per
    ensures var s' := StreamApply(s, XAdd(st, j + 1));
            if j + 1 == per then Dealt(s', streams, per, st + 1, 0) else Dealt(s', streams, per, st, j + 1)
  {
    var ids := s.streams[st];
    assert DealtTo(per, st, j, st) == j && ids == Ids(1, j + 1);
    assert ids + [j + 1] == Ids(1, j + 2);
    var s' := StreamApply(s, XAdd(st, j + 1));
    var st', j' := if j + 1 == per then st + 1 else st, if j + 1 == per then 0 else j + 1;
    forall k: nat | k < streams ensures s'.streams[k] == Ids(1, DealtTo(per, st', j', k) + 1) {
      assert k != st ==> DealtTo(per, st', j', k) == DealtTo(per, st, j, k);
    }
  }

  /** Load: streams * per entries dealt out in order, entry i to stream i / per. */
  method StreamLoad(n: nat) returns (s: StreamServer)
    ensures s == LoadedStreams(n)
  {
    var streams, per := StreamCount(n), PerStream(n);
    s := StreamServer(seq(streams, st => []), 0);
    var i := 0;
    MulMono(0, streams, per);
    ghost var st: nat, j: nat := 0, 0;
    while i < streams * per
      invariant 0 <= i <= streams * per && i == st * per + j
      invariant st <= streams && (per > 0 ==> j < per) && (st == streams ==> j == 0)
      invariant per == 0 ==> st == 0 && j == 0
      invariant Dealt(s, streams, per, st, j)
    {
      DealTo(i, st, j, per, streams);
      DealtNext(s, streams, per, st, j);
      s := StreamApply(s, XAdd(i / per, i % per + 1));
      i := i + 1;
      if j + 1 == per {
        st, j := st + 1, 0;
        MulOrder(st - 1, streams, per);
      } else {
        j := j + 1;
      }
    }
    LoadEnd(i, st, j, per, streams);
    forall k | 0 <= k < streams ensures s.streams[k] == Ids(1, per + 1) {
      assert DealtTo(per, st, j, k) == per;
    }
    assert s.streams == seq(streams, k => Ids(1, per + 1));
  }

  lemma DealTo(i: nat, st: nat, j: nat, per: nat, streams: nat)
    requires i == st * per + j && j < per && i < streams * per
    ensures i / per == st && i % per == j && st < streams
  {
    MulComm(st, per);
    DivUnique(i, per, st, j);
    MulOrder(streams, st, per);
  }

  lemma LoadEnd(i: nat, st: nat, j: nat, per: nat, streams: nat)
    requires i == st * per + j && i == streams * per && st <= streams && (per > 0 ==> j < per) && j <= per
    ensures per > 0 ==> st == streams
  {
    if per > 0 {
      MulOrder(st + 1, streams, per);
      MulOrder(st, streams, per);
    }
  }

  /** Churn: half as much again appended to every stream, then trimmed back to its load size. */
  method StreamChurn(s0: StreamServer, n: nat) returns (s: StreamServer)
    requires s0 == LoadedStreams(n)
    ensures s == ChurnedStreams(n)
  {
    var streams, per := StreamCount(n), PerStream(n);
    var extra := per / 2;
    s := s0;
    var st := 0;
    while st < streams
      invariant 0 <= st <= streams && s.refused == 0 && |s.streams| == streams
      invariant forall k :: 0 <= k < st ==> s.streams[k] == Ids(extra + 1, per + extra + 1)
      invariant forall k :: st <= k < streams ==> s.streams[k] == Ids(1, per + 1)
    {
      s := AppendRun(s, st, per, per + extra);
      s := StreamApply(s, XTrim(st, per));
      assert Ids(1, per + extra + 1)[extra..] == Ids(extra + 1, per + extra + 1);
      st := st + 1;
    }
    assert s.streams == seq(streams, k => Ids(extra + 1, per + extra + 1));
  }

  function LiveEntries(streams: seq<seq<nat>>): nat {
    if streams == [] then 0 else LiveEntries(streams[..|streams| - 1]) + |streams[|streams| - 1]|
  }

  lemma {:induction false} LiveOfEqual(streams: seq<seq<nat>>, per: nat)
    requires forall k :: 0 <= k < |streams| ==> |streams[k]| == per
    ensures LiveEntries(streams) == |streams| * per
  {
    if streams != [] {
      var m := |streams| - 1;
      LiveOfEqual(streams[..m], per);
      assert |streams[m]| == per;
      assert (m + 1) * per == m * per + per;
    }
  }

  /** The stream suite holds as many entries after churn as after load: whole streams of them,
      which is the requested count exactly when the stream count divides it. */
  lemma StreamLiveEntries(n: nat)
    ensures var live := LiveEntries(ChurnedStreams(n).streams);
            && live == LiveEntries(LoadedStreams(n).streams) == StreamCount(n) * PerStream(n)
            && live <= n
            && (live == n <==> n % StreamCount(n) == 0)
  {
    LiveOfEqual(LoadedStreams(n).streams, PerStream(n));
    LiveOfEqual(ChurnedStreams(n).streams, PerStream(n));
    DivFloor(n, StreamCount(n));
    MulComm(StreamCount(n), PerStream(n));
  }

  /** 201 requested entries go to two streams of 100. */
  lemma StreamShortfallExample()
    ensures LiveEntries(LoadedStreams(201).streams) == LiveEntries(ChurnedStreams(201).streams) == 200
  {
    StreamLiveEntries(201);
  }
}
