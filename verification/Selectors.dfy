/** The stateless key selectors: the splitmix64 finalizer on 64-bit words, the hash of a
    (connection, sequence) pair, and the multiply-high reduction to an index. */
module Selectors {
  import opened Arith
  import opened Bits

  const WORDS: nat := 0x1_0000_0000_0000_0000

  type Word = x: int | 0 <= x < 0x1_0000_0000_0000_0000

  const GOLDEN: Word := 0x9e3779b97f4a7c15
  const GOLDEN_INVERSE: Word := 0xf1de83e19937733d
  const C1: Word := 0xbf58476d1ce4e5b9
  const C1_INVERSE: Word := 0x96de1b173f119089
  const C2: Word := 0x94d049bb133111eb
  const C2_INVERSE: Word := 0x319642b2d24d8ec3

  function Add64(a: Word, b: Word): Word { (a + b) % WORDS }

  function Sub64(a: Word, b: Word): Word { (a - b) % WORDS }

  function Mul64(a: Word, b: Word): Word { a * b % WORDS }

  /** x ^ (x >> k). */
  function XorShift(x: nat, k: nat): nat { Xor(x, Shr(x, k)) }

  /** Undoes XorShift: the high k bits are already right, and each further k bits follow. */
  function UnXorShift(y: nat, k: nat): nat
    requires k > 0
  {
    if y == 0 then 0 else
    ShrSmaller(y, k);
    Xor(y, UnXorShift(Shr(y, k), k))
  }

  /** One round: (x ^ (x >> k)) * c. */
  function Round(x: Word, k: nat, c: Word): Word {
    XorShiftBound(x, k);
    Mul64(XorShift(x, k), c)
  }

  function Unround(y: Word, k: nat, d: Word): Word
    requires k > 0
  {
    UnXorShiftBound(Mul64(y, d), k);
    UnXorShift(Mul64(y, d), k)
  }

  /** mix64, the splitmix64 finalizer. */
  function Mix64(x: Word): Word {
    var y := Round(Round(x, 30, C1), 27, C2);
    XorShiftBound(y, 31);
    XorShift(y, 31)
  }

  function Unmix64(y: Word): Word {
    UnXorShiftBound(y, 31);
    Unround(Unround(UnXorShift(y, 31), 27, C2_INVERSE), 30, C1_INVERSE)
  }

  function ConnSeqHash(conn: Word, seqNo: Word): Word {
    Mix64(Add64(Mix64(Add64(conn, GOLDEN)), Mul64(seqNo, GOLDEN)))
  }

  /** The sequence number at which a connection's hash is h. */
  function SeqOfHash(conn: Word, h: Word): Word {
    Mul64(Sub64(Unmix64(h), Mix64(Add64(conn, GOLDEN))), GOLDEN_INVERSE)
  }

  /** hi, _ := bits.Mul64(h, n). */
  function MulHigh(h: Word, n: nat): nat {
    MulMono(0, h, n);
    DivFloor(h * n, WORDS);
    h * n / WORDS
  }

  /** uniformSelector(n). */
  function UniformSelect(n: int, conn: Word, seqNo: Word): nat {
    MulHigh(ConnSeqHash(conn, seqNo), Max(n, 1))
  }

  // ---- mix64 is a bijection ----

  lemma {:induction false} ShrAtMost(y: nat, k: nat)
    ensures Shr(y, k) <= y
    decreases k
  {
    if k > 0 {
      ShrAtMost(y / 2, k - 1);
    }
  }

  lemma ShrSmaller(y: nat, k: nat)
    requires y > 0 && k > 0
    ensures Shr(y, k) < y
  {
    ShrAtMost(y / 2, k - 1);
  }

  lemma XorShiftBound(x: Word, k: nat)
    ensures XorShift(x, k) < WORDS
  {
    Pow2Concrete();
    ShrAtMost(x, k);
    XorBound(x, Shr(x, k), 64);
  }

  lemma {:induction false} UnXorShiftBound(y: nat, k: nat)
    requires k > 0 && y < WORDS
    ensures UnXorShift(y, k) < WORDS
    decreases y
  {
    if y > 0 {
      Pow2Concrete();
      ShrSmaller(y, k);
      UnXorShiftBound(Shr(y, k), k);
      XorBound(y, UnXorShift(Shr(y, k), k), 64);
    }
  }

  lemma {:induction false} ShrZero(k: nat)
    ensures Shr(0, k) == 0
  {
    if k > 0 {
      ShrZero(k - 1);
    }
  }

  lemma {:induction false} ZeroXor(a: nat)
    ensures Xor(0, a) == a && Xor(a, 0) == a
  {
    if a > 0 {
      ZeroXor(a / 2);
    }
  }

  lemma {:induction false} UnXorShiftXorShift(x: nat, k: nat)
    requires k > 0
    ensures UnXorShift(XorShift(x, k), k) == x
    decreases x
  {
    if x == 0 {
      ShrZero(k);
    } else {
      var y, hi := XorShift(x, k), Shr(x, k);
      ShrSmaller(x, k);
      UnXorShiftXorShift(hi, k);
      XorShr(x, hi, k);
      assert Shr(y, k) == XorShift(hi, k);
      XorCancel(x, hi);
      if y == 0 {
        ZeroXor(hi);
      }
    }
  }

  lemma {:induction false} ShrUnXorShift(y: nat, k: nat)
    requires k > 0
    ensures Shr(UnXorShift(y, k), k) == UnXorShift(Shr(y, k), k)
    decreases y
  {
    if y == 0 {
      ShrZero(k);
    } else {
      var hi := Shr(y, k);
      ShrSmaller(y, k);
      ShrUnXorShift(hi, k);
      XorShr(y, UnXorShift(hi, k), k);
      if hi == 0 {
        ShrZero(k);
        ZeroXor(0);
      }
    }
  }

  lemma XorShiftUnXorShift(y: nat, k: nat)
    requires k > 0
    ensures XorShift(UnXorShift(y, k), k) == y
  {
    ShrUnXorShift(y, k);
    if y == 0 {
      ShrZero(k);
      ZeroXor(0);
    } else {
      XorCancel(y, UnXorShift(Shr(y, k), k));
    }
  }

  /** Multiplication by a unit of the ring of words is undone by its inverse. */
  lemma MulInverse(x: Word, c: Word, d: Word)
    requires c * d % WORDS == 1
    ensures Mul64(Mul64(x, c), d) == x
  {
    var q, r := x * c / WORDS, x * c % WORDS;
    var m := c * d / WORDS;
    assert x * c == WORDS * q + r && c * d == WORDS * m + 1;
    assert r * d == WORDS * (x * m - q * d) + x by {
      assert x * c * d == x * (c * d);
      assert x * (WORDS * m + 1) == WORDS * (x * m) + x;
      assert (WORDS * q + r) * d == WORDS * (q * d) + r * d;
    }
    DivUnique(r * d, WORDS, x * m - q * d, x);
  }

  lemma UnroundRound(x: Word, k: nat, c: Word, d: Word)
    requires k > 0 && c * d % WORDS == 1
    ensures Unround(Round(x, k, c), k, d) == x
  {
    XorShiftBound(x, k);
    MulInverse(XorShift(x, k), c, d);
    UnXorShiftXorShift(x, k);
  }

  lemma RoundUnround(y: Word, k: nat, c: Word, d: Word)
    requires k > 0 && c * d % WORDS == 1
    ensures Round(Unround(y, k, d), k, c) == y
  {
    var z := Mul64(y, d);
    UnXorShiftBound(z, k);
    XorShiftUnXorShift(z, k);
    MulInverse(y, d, c);
    MulComm(c, d);
  }

  lemma Inverses()
    ensures C1 * C1_INVERSE % WORDS == 1 && C2 * C2_INVERSE % WORDS == 1
    ensures GOLDEN * GOLDEN_INVERSE % WORDS == 1 && GOLDEN_INVERSE * GOLDEN % WORDS == 1
  {
  }

  lemma UnmixMix(x: Word)
    ensures Unmix64(Mix64(x)) == x
  {
    Inverses();
    var y1 := Round(x, 30, C1);
    var y2 := Round(y1, 27, C2);
    XorShiftBound(y2, 31);
    UnXorShiftXorShift(y2, 31);
    UnroundRound(y1, 27, C2, C2_INVERSE);
    UnroundRound(x, 30, C1, C1_INVERSE);
  }

  lemma MixUnmix(y: Word)
    ensures Mix64(Unmix64(y)) == y
  {
    Inverses();
    UnXorShiftBound(y, 31);
    var x2 := UnXorShift(y, 31);
    var x1 := Unround(x2, 27, C2_INVERSE);
    RoundUnround(x1, 30, C1, C1_INVERSE);
    RoundUnround(x2, 27, C2, C2_INVERSE);
    XorShiftUnXorShift(y, 31);
  }

  // ---- one connection's hashes ----

  lemma SubAdd(a: Word, b: Word)
    ensures Sub64(Add64(a, b), a) == b
    ensures Add64(a, Sub64(b, a)) == b
  {
    assert Add64(a, b) == if a + b < WORDS then a + b else a + b - WORDS;
    assert Sub64(b, a) == if b >= a then b - a else b - a + WORDS;
  }

  lemma OffsetInverse(base: Word, w: Word, c: Word, d: Word)
    requires c * d % WORDS == 1
    ensures Mul64(Sub64(Add64(base, Mul64(w, c)), base), d) == w
    ensures Add64(base, Mul64(Mul64(Sub64(w, base), d), c)) == w
  {
    SubAdd(base, Mul64(w, c));
    MulInverse(w, c, d);
    SubAdd(base, w);
    MulComm(c, d);
    MulInverse(Sub64(w, base), d, c);
  }

  /** For one connection, hashing is a bijection between sequence numbers and words. */
  lemma HashBijectiveInSeq(conn: Word, w: Word)
    ensures SeqOfHash(conn, ConnSeqHash(conn, w)) == w
    ensures ConnSeqHash(conn, SeqOfHash(conn, w)) == w
  {
    var base := Mix64(Add64(conn, GOLDEN));
    Inverses();
    UnmixMix(Add64(base, Mul64(w, GOLDEN)));
    OffsetInverse(base, w, GOLDEN, GOLDEN_INVERSE);
    MixUnmix(w);
    OffsetInverse(base, Unmix64(w), GOLDEN, GOLDEN_INVERSE);
  }

  /** At one sequence number, different connections hash differently. */
  lemma HashInjectiveInConn(c1: Word, c2: Word, seqNo: Word)
    requires ConnSeqHash(c1, seqNo) == ConnSeqHash(c2, seqNo)
    ensures c1 == c2
  {
    var s := Mul64(seqNo, GOLDEN);
    var m1, m2 := Mix64(Add64(c1, GOLDEN)), Mix64(Add64(c2, GOLDEN));
    UnmixMix(Add64(m1, s));
    UnmixMix(Add64(m2, s));
    AddCancel(m1, m2, s);
    UnmixMix(Add64(c1, GOLDEN));
    UnmixMix(Add64(c2, GOLDEN));
    AddCancel(c1, c2, GOLDEN);
  }

  lemma AddCancel(a: Word, b: Word, s: Word)
    requires Add64(a, s) == Add64(b, s)
    ensures a == b
  {
  }

  // ---- exact counting ----

  /** The first hash the reduction sends to i or beyond. */
  function FirstHash(n: nat, i: nat): nat
    requires n > 0
  {
    MulMono(0, i, WORDS);
    DivFloor(i * WORDS + n - 1, n);
    MulOrder((i * WORDS + n - 1) / n, 0, n);
    (i * WORDS + n - 1) / n
  }

  /** The reduction is monotone: i gets exactly the hashes in [FirstHash(i), FirstHash(i + 1)). */
  lemma MulHighInterval(n: nat, h: Word, i: nat)
    requires n > 0
    ensures MulHigh(h, n) >= i <==> h >= FirstHash(n, i)
    ensures MulHigh(h, n) < n
  {
    DivFloor(h * n, WORDS);
    DivFloor(i * WORDS + n - 1, n);
    var q, f := MulHigh(h, n), FirstHash(n, i);
    MulOrder(q + 1, i, WORDS);
    MulOrder(q, i, WORDS);
    MulOrder(h, f, n);
    MulOrder(h, WORDS, n);
    MulComm(WORDS, n);
    MulOrder(n, q, WORDS);
    MulOrder(f, h + 1, n);
  }

  lemma FirstHashEnds(n: nat)
    requires n > 0
    ensures FirstHash(n, 0) == 0 && FirstHash(n, n) == WORDS
  {
    DivUnique(n - 1, n, 0, n - 1);
    DivUnique(n * WORDS + n - 1, n, WORDS, n - 1);
  }

  function CeilDiv(a: nat, n: nat): int
    requires n > 0
  {
    if a % n == 0 then a / n else a / n + 1
  }

  /** Each index gets the whole words divided by n, rounded down or up. */
  lemma ShareSize(n: nat, i: nat)
    requires n > 0
    ensures FirstHash(n, i + 1) - FirstHash(n, i) == WORDS / n || FirstHash(n, i + 1) - FirstHash(n, i) == CeilDiv(WORDS, n)
  {
    assert (i + 1) * WORDS == i * WORDS + WORDS;
    FloorStep(i * WORDS + n - 1, WORDS, n);
  }

  lemma FloorStep(x: nat, w: nat, n: nat)
    requires n > 0
    ensures (x + w) / n - x / n == w / n || (x + w) / n - x / n == CeilDiv(w, n)
  {
    var r := x % n + w % n;
    DivFloor(x, n);
    DivFloor(w, n);
    assert x + w == n * (x / n + w / n) + r;
    if r < n {
      DivUnique(x + w, n, x / n + w / n, r);
    } else {
      assert n * (x / n + w / n) + r == n * (x / n + w / n + 1) + (r - n);
      DivUnique(x + w, n, x / n + w / n + 1, r - n);
    }
  }

  /** The integers from lo up to hi - 1. */
  function Range(lo: int, hi: int): (s: set<int>)
    ensures forall h :: h in s <==> lo <= h < hi
    ensures |s| == Max(0, hi - lo)
    decreases hi - lo
  {
    if lo >= hi then {} else Range(lo, hi - 1) + {hi - 1}
  }

  lemma PickOne(a: set<int>) returns (x: int)
    requires |a| > 0
    ensures x in a
  {
    assert (forall y :: y !in a) ==> a == {};
    x :| x in a;
  }

  lemma {:induction false} InjectionSize(a: set<int>, b: set<int>, f: int -> int, g: int -> int)
    requires forall x :: x in a ==> f(x) in b && g(f(x)) == x
    ensures |a| <= |b|
    decreases |a|
  {
    if |a| > 0 {
      var x := PickOne(a);
      assert f(x) in b && g(f(x)) == x;
      InjectionSize(a - {x}, b - {f(x)}, f, g);
    }
  }

  /** Sets in one-to-one correspondence are equally large. */
  lemma BijectionSize(a: set<int>, b: set<int>, f: int -> int, g: int -> int)
    requires forall x :: x in a ==> f(x) in b && g(f(x)) == x
    requires forall y :: y in b ==> g(y) in a && f(g(y)) == y
    ensures |a| == |b|
  {
    InjectionSize(a, b, f, g);
    InjectionSize(b, a, g, f);
  }

  function HashFrom(conn: Word): int -> int { (s: int) => if 0 <= s < WORDS then ConnSeqHash(conn, s) else 0 }

  function SeqFrom(conn: Word): int -> int { (h: int) => if 0 <= h < WORDS then SeqOfHash(conn, h) else 0 }

  /** The sequence numbers at which a connection draws index i. */
  function Draws(n: nat, conn: Word, i: nat): set<int> {
    set s: int | 0 <= s < WORDS && UniformSelect(n, conn, s) == i
  }

  lemma FirstHashOrder(n: nat, i: nat)
    requires i < n
    ensures FirstHash(n, i) <= FirstHash(n, i + 1) <= WORDS
  {
    FirstHashEnds(n);
    MulMono(i, i + 1, WORDS);
    MulMono(i + 1, n, WORDS);
    DivMono(i * WORDS + n - 1, (i + 1) * WORDS + n - 1, n);
    DivMono((i + 1) * WORDS + n - 1, n * WORDS + n - 1, n);
  }

  lemma DrawIff(n: nat, conn: Word, s: Word, i: nat)
    requires i < n
    ensures UniformSelect(n, conn, s) == i <==> FirstHash(n, i) <= ConnSeqHash(conn, s) < FirstHash(n, i + 1)
  {
    MulHighInterval(n, ConnSeqHash(conn, s), i);
    MulHighInterval(n, ConnSeqHash(conn, s), i + 1);
  }

  lemma DrawsMatchHashes(n: nat, conn: Word, i: nat)
    requires i < n
    ensures |Draws(n, conn, i)| == |Range(FirstHash(n, i), FirstHash(n, i + 1))|
  {
    var draws, hashes := Draws(n, conn, i), Range(FirstHash(n, i), FirstHash(n, i + 1));
    FirstHashOrder(n, i);
    forall s | s in draws ensures HashFrom(conn)(s) in hashes && SeqFrom(conn)(HashFrom(conn)(s)) == s {
      HashBijectiveInSeq(conn, s);
      DrawIff(n, conn, s, i);
    }
    forall h | h in hashes ensures SeqFrom(conn)(h) in draws && HashFrom(conn)(SeqFrom(conn)(h)) == h {
      HashBijectiveInSeq(conn, h);
      DrawIff(n, conn, SeqOfHash(conn, h), i);
    }
    BijectionSize(draws, hashes, HashFrom(conn), SeqFrom(conn));
  }

  /** Over all 2^64 sequence numbers one connection draws every index of [0, n) the same number
      of times, up to the one-draw rounding of 2^64 / n. */
  lemma UniformShare(n: nat, conn: Word, i: nat)
    requires i < n
    ensures |Draws(n, conn, i)| == WORDS / n || |Draws(n, conn, i)| == CeilDiv(WORDS, n)
  {
    DrawsMatchHashes(n, conn, i);
    FirstHashOrder(n, i);
    ShareSize(n, i);
  }

  /** A selector never leaves its space, degenerate sizes included. */
  lemma UniformInRange(n: int, conn: Word, seqNo: Word)
    ensures UniformSelect(n, conn, seqNo) < Max(n, 1)
  {
    MulHighInterval(Max(n, 1), ConnSeqHash(conn, seqNo), 0);
  }
}
