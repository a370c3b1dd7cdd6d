/** The connection hash against splitmix64 as published: exclusive or and right shift of the word
    model are those of machine words, mix64 gives the published outputs, and the hashes of one
    connection are the outputs of one generator, in order. */
module SplitMix {
  import opened Arith
  import opened Bits
  import opened Selectors

  // ---- words by octets ----

  /** x followed by the eight bits of v. */
  function Append(x: nat, v: bv8): nat {
    256 * x + (if v & 0x80 != 0 then 128 else 0) + (if v & 0x40 != 0 then 64 else 0)
    + (if v & 0x20 != 0 then 32 else 0) + (if v & 0x10 != 0 then 16 else 0) + (if v & 8 != 0 then 8 else 0)
    + (if v & 4 != 0 then 4 else 0) + (if v & 2 != 0 then 2 else 0) + (if v & 1 != 0 then 1 else 0)
  }

  /** The number with these eight octets, the highest first. */
  function Octets(v7: bv8, v6: bv8, v5: bv8, v4: bv8, v3: bv8, v2: bv8, v1: bv8, v0: bv8): nat {
    Append(Append(Append(Append(Append(Append(Append(Append(0, v7), v6), v5), v4), v3), v2), v1), v0)
  }

  /** x followed by the low n bits of v. */
  function Tail(x: nat, v: bv8, n: nat): nat {
    if n == 0 then x else 2 * Tail(x, v >> 1, n - 1) + (if v & 1 != 0 then 1 else 0)
  }

  lemma TailTwo(x: nat, v: bv8, n: nat)
    requires n >= 2
    ensures Tail(x, v, n) == 4 * Tail(x, v >> 2, n - 2) + (if v & 2 != 0 then 2 else 0) + (if v & 1 != 0 then 1 else 0)
  {
    assert (v >> 1) >> 1 == v >> 2;
    assert ((v >> 1) & 1 != 0) == (v & 2 != 0);
  }

  lemma TailFour(x: nat, v: bv8, u: bv8, n: nat)
    requires n >= 4 && u == v >> 4
    ensures Tail(x, v, n) == 16 * Tail(x, u, n - 4) + (if v & 8 != 0 then 8 else 0) + (if v & 4 != 0 then 4 else 0)
                             + (if v & 2 != 0 then 2 else 0) + (if v & 1 != 0 then 1 else 0)
  {
    TailTwo(x, v, n);
    TailTwo(x, v >> 2, n - 2);
    assert (v >> 2) >> 2 == u;
    assert ((v >> 2) & 1 != 0) == (v & 4 != 0) && ((v >> 2) & 2 != 0) == (v & 8 != 0);
  }

  lemma AppendIsTail(x: nat, v: bv8)
    ensures Append(x, v) == Tail(x, v, 8)
  {
    var u := v >> 4;
    TailFour(x, v, u, 8);
    TailFour(x, u, u >> 4, 4);
    assert (u & 1 != 0) == (v & 0x10 != 0) && (u & 2 != 0) == (v & 0x20 != 0);
    assert (u & 4 != 0) == (v & 0x40 != 0) && (u & 8 != 0) == (v & 0x80 != 0);
  }

  lemma XorStep(p: nat, q: nat, x: nat, y: nat, z: nat, a: bool, b: bool)
    requires p == 2 * x + (if a then 1 else 0) && q == 2 * y + (if b then 1 else 0)
    requires Xor(x, y) == z
    ensures Xor(p, q) == 2 * z + (if a != b then 1 else 0)
  {
    assert p / 2 == x && q / 2 == y;
  }

  lemma XorBit(v: bv8, w: bv8)
    ensures (v ^ w) >> 1 == (v >> 1) ^ (w >> 1)
    ensures ((v ^ w) & 1 != 0) == ((v & 1 != 0) != (w & 1 != 0))
  {
  }

  lemma TailNext(x: nat, v: bv8, u: bv8, n: nat, t: nat, a: bool)
    requires n > 0 && u == v >> 1 && t == Tail(x, u, n - 1) && a == (v & 1 != 0)
    ensures Tail(x, v, n) == 2 * t + (if a then 1 else 0)
  {
  }

  lemma XorTailNext(x: nat, y: nat, z: nat, v: bv8, w: bv8, n: nat, p: nat, q: nat, r: nat)
    requires n > 0 && p == Tail(x, v >> 1, n - 1) && q == Tail(y, w >> 1, n - 1) && r == Tail(z, (v ^ w) >> 1, n - 1)
    requires Xor(p, q) == r
    ensures Xor(Tail(x, v, n), Tail(y, w, n)) == Tail(z, v ^ w, n)
  {
    var a, b := v & 1 != 0, w & 1 != 0;
    XorBit(v, w);
    XorStep(Tail(x, v, n), Tail(y, w, n), p, q, r, a, b);
  }

  lemma {:induction false} XorTail(x: nat, y: nat, z: nat, v: bv8, w: bv8, n: nat)
    requires Xor(x, y) == z
    ensures Xor(Tail(x, v, n), Tail(y, w, n)) == Tail(z, v ^ w, n)
    decreases n
  {
    if n > 0 {
      XorTail(x, y, z, v >> 1, w >> 1, n - 1);
      XorBit(v, w);
      XorTailNext(x, y, z, v, w, n, Tail(x, v >> 1, n - 1), Tail(y, w >> 1, n - 1), Tail(z, (v ^ w) >> 1, n - 1));
    }
  }

  lemma XorAppend(x: nat, y: nat, z: nat, v: bv8, w: bv8)
    requires Xor(x, y) == z
    ensures Xor(Append(x, v), Append(y, w)) == Append(z, v ^ w)
  {
    AppendIsTail(x, v);
    AppendIsTail(y, w);
    AppendIsTail(z, v ^ w);
    XorTail(x, y, z, v, w, 8);
  }

  /** Exclusive or of two words is the machine's, octet by octet. */
  lemma XorOctets(v7: bv8, v6: bv8, v5: bv8, v4: bv8, v3: bv8, v2: bv8, v1: bv8, v0: bv8,
                  w7: bv8, w6: bv8, w5: bv8, w4: bv8, w3: bv8, w2: bv8, w1: bv8, w0: bv8)
    ensures Xor(Octets(v7, v6, v5, v4, v3, v2, v1, v0), Octets(w7, w6, w5, w4, w3, w2, w1, w0)) ==
            Octets(v7 ^ w7, v6 ^ w6, v5 ^ w5, v4 ^ w4, v3 ^ w3, v2 ^ w2, v1 ^ w1, v0 ^ w0)
  {
    var a7, b7, c7 := Append(0, v7), Append(0, w7), Append(0, v7 ^ w7);
    var a6, b6, c6 := Append(a7, v6), Append(b7, w6), Append(c7, v6 ^ w6);
    var a5, b5, c5 := Append(a6, v5), Append(b6, w5), Append(c6, v5 ^ w5);
    var a4, b4, c4 := Append(a5, v4), Append(b5, w4), Append(c5, v4 ^ w4);
    var a3, b3, c3 := Append(a4, v3), Append(b4, w3), Append(c4, v3 ^ w3);
    var a2, b2, c2 := Append(a3, v2), Append(b3, w2), Append(c3, v2 ^ w2);
    var a1, b1, c1 := Append(a2, v1), Append(b2, w1), Append(c2, v1 ^ w1);
    ZeroXor(0);
    XorAppend(0, 0, 0, v7, w7);
    XorAppend(a7, b7, c7, v6, w6);
    XorAppend(a6, b6, c6, v5, w5);
    XorAppend(a5, b5, c5, v4, w4);
    XorAppend(a4, b4, c4, v3, w3);
    XorAppend(a3, b3, c3, v2, w2);
    XorAppend(a2, b2, c2, v1, w1);
    XorAppend(a1, b1, c1, v0, w0);
  }

  /** A right shift is a division. */
  lemma {:induction false} ShrIsDiv(v: nat, k: nat)
    ensures Shr(v, k) == v / Pow2(k)
    decreases k
  {
    if k > 0 {
      ShrIsDiv(v / 2, k - 1);
      DivTwice(v, Pow2(k - 1));
    }
  }

  lemma DivTwice(v: nat, d: nat)
    requires d > 0
    ensures v / 2 / d == v / (2 * d)
  {
    var q, r := v / 2 / d, v / 2 % d;
    DivFloor(v / 2, d);
    assert v == 2 * (d * q) + (2 * r + v % 2);
    assert 2 * (d * q) == 2 * d * q;
    DivUnique(v, 2 * d, q, 2 * r + v % 2);
  }

  /** One exclusive or of a word with its right shift, from the octets of both. */
  lemma XorShiftIs(x: nat, k: nat, d: nat, y: nat,
                   v7: bv8, v6: bv8, v5: bv8, v4: bv8, v3: bv8, v2: bv8, v1: bv8, v0: bv8,
                   w7: bv8, w6: bv8, w5: bv8, w4: bv8, w3: bv8, w2: bv8, w1: bv8, w0: bv8)
    requires x == Octets(v7, v6, v5, v4, v3, v2, v1, v0)
    requires d == Pow2(k) && x / d == Octets(w7, w6, w5, w4, w3, w2, w1, w0)
    requires y == Octets(v7 ^ w7, v6 ^ w6, v5 ^ w5, v4 ^ w4, v3 ^ w3, v2 ^ w2, v1 ^ w1, v0 ^ w0)
    ensures XorShift(x, k) == y
  {
    ShrIsDiv(x, k);
    XorOctets(v7, v6, v5, v4, v3, v2, v1, v0, w7, w6, w5, w4, w3, w2, w1, w0);
  }

  // ---- the published outputs ----

  lemma PowersOfMix()
    ensures Pow2(27) == 0x800_0000 && Pow2(30) == 0x4000_0000 && Pow2(31) == 0x8000_0000
  {
    Pow2Concrete();
    Pow2Add(14, 11);
    assert Pow2(31) == 2 * Pow2(30) && Pow2(30) == 2 * Pow2(29) && Pow2(29) == 2 * Pow2(28);
    assert Pow2(28) == 2 * Pow2(27) && Pow2(27) == 2 * Pow2(26) && Pow2(26) == 2 * Pow2(25);
  }

  lemma MixIs(x: Word, a: Word, m: Word, b: Word, n: Word, r: Word)
    requires XorShift(x, 30) == a && Mul64(a, C1) == m
    requires XorShift(m, 27) == b && Mul64(b, C2) == n
    requires XorShift(n, 31) == r
    ensures Mix64(x) == r
  {
  }

  lemma FirstShift30(x: Word, a: Word)
    requires x == 0x9e3779b97f4a7c15 && a == 0x9e3779bb07979af0
    ensures XorShift(x, 30) == a
  {
    PowersOfMix();
    XorShiftIs(x, 30, 0x4000_0000, a, 0x9e, 0x37, 0x79, 0xb9, 0x7f, 0x4a, 0x7c, 0x15,
               0x00, 0x00, 0x00, 0x02, 0x78, 0xdd, 0xe6, 0xe5);
  }

  lemma FirstShift27(m: Word, b: Word)
    requires m == 0x6f68261b57e7a770 && b == 0x6f682616bae3641a
    ensures XorShift(m, 27) == b
  {
    PowersOfMix();
    XorShiftIs(m, 27, 0x800_0000, b, 0x6f, 0x68, 0x26, 0x1b, 0x57, 0xe7, 0xa7, 0x70,
               0x00, 0x00, 0x00, 0x0d, 0xed, 0x04, 0xc3, 0x6a);
  }

  lemma FirstShift31(n: Word, r: Word)
    requires n == 0xe220a838bf5c9dde && r == 0xe220a8397b1dcdaf
    ensures XorShift(n, 31) == r
  {
    PowersOfMix();
    XorShiftIs(n, 31, 0x8000_0000, r, 0xe2, 0x20, 0xa8, 0x38, 0xbf, 0x5c, 0x9d, 0xde,
               0x00, 0x00, 0x00, 0x01, 0xc4, 0x41, 0x50, 0x71);
  }

  lemma FirstProducts(a: Word, m: Word, b: Word, n: Word)
    requires a == 0x9e3779bb07979af0 && m == 0x6f68261b57e7a770
    requires b == 0x6f682616bae3641a && n == 0xe220a838bf5c9dde
    ensures Mul64(a, C1) == m && Mul64(b, C2) == n
  {
  }

  lemma FirstRounds(x: Word, a: Word, m: Word, b: Word, n: Word, r: Word)
    requires x == 0x9e3779b97f4a7c15 && a == 0x9e3779bb07979af0 && m == 0x6f68261b57e7a770
    requires b == 0x6f682616bae3641a && n == 0xe220a838bf5c9dde && r == 0xe220a8397b1dcdaf
    ensures Mix64(x) == r
  {
    FirstShift30(x, a);
    FirstShift27(m, b);
    FirstShift31(n, r);
    FirstProducts(a, m, b, n);
    MixIs(x, a, m, b, n, r);
  }

  /** The first output published for splitmix64 from seed 0: its state is one step of the golden ratio. */
  lemma FirstOutput(x: Word)
    requires x == 0x9e3779b97f4a7c15
    ensures Mix64(x) == 0xe220a8397b1dcdaf
  {
    FirstRounds(x, 0x9e3779bb07979af0, 0x6f68261b57e7a770, 0x6f682616bae3641a, 0xe220a838bf5c9dde,
                0xe220a8397b1dcdaf);
  }

  lemma SecondShift30(x: Word, a: Word)
    requires x == 0x3c6ef372fe94f82a && a == 0x3c6ef3720f2f35e1
    ensures XorShift(x, 30) == a
  {
    PowersOfMix();
    XorShiftIs(x, 30, 0x4000_0000, a, 0x3c, 0x6e, 0xf3, 0x72, 0xfe, 0x94, 0xf8, 0x2a,
               0x00, 0x00, 0x00, 0x00, 0xf1, 0xbb, 0xcd, 0xcb);
  }

  lemma SecondShift27(m: Word, b: Word)
    requires m == 0x2a94fcbfccb43499 && b == 0x2a94fcba9e2ba360
    ensures XorShift(m, 27) == b
  {
    PowersOfMix();
    XorShiftIs(m, 27, 0x800_0000, b, 0x2a, 0x94, 0xfc, 0xbf, 0xcc, 0xb4, 0x34, 0x99,
               0x00, 0x00, 0x00, 0x05, 0x52, 0x9f, 0x97, 0xf9);
  }

  lemma SecondShift31(n: Word, r: Word)
    requires n == 0x6e789e6a7d485920 && r == 0x6e789e6aa1b965f4
    ensures XorShift(n, 31) == r
  {
    PowersOfMix();
    XorShiftIs(n, 31, 0x8000_0000, r, 0x6e, 0x78, 0x9e, 0x6a, 0x7d, 0x48, 0x59, 0x20,
               0x00, 0x00, 0x00, 0x00, 0xdc, 0xf1, 0x3c, 0xd4);
  }

  lemma SecondProducts(a: Word, m: Word, b: Word, n: Word)
    requires a == 0x3c6ef3720f2f35e1 && m == 0x2a94fcbfccb43499
    requires b == 0x2a94fcba9e2ba360 && n == 0x6e789e6a7d485920
    ensures Mul64(a, C1) == m && Mul64(b, C2) == n
  {
  }

  lemma SecondRounds(x: Word, a: Word, m: Word, b: Word, n: Word, r: Word)
    requires x == 0x3c6ef372fe94f82a && a == 0x3c6ef3720f2f35e1 && m == 0x2a94fcbfccb43499
    requires b == 0x2a94fcba9e2ba360 && n == 0x6e789e6a7d485920 && r == 0x6e789e6aa1b965f4
    ensures Mix64(x) == r
  {
    SecondShift30(x, a);
    SecondShift27(m, b);
    SecondShift31(n, r);
    SecondProducts(a, m, b, n);
    MixIs(x, a, m, b, n, r);
  }

  /** The second output published for splitmix64 from seed 0: its state is two steps of the golden ratio. */
  lemma SecondOutput(x: Word)
    requires x == 2 * 0x9e3779b97f4a7c15 % WORDS
    ensures Mix64(x) == 0x6e789e6aa1b965f4
  {
    SecondRounds(x, 0x3c6ef3720f2f35e1, 0x2a94fcbfccb43499, 0x2a94fcba9e2ba360, 0x6e789e6a7d485920,
                 0x6e789e6aa1b965f4);
  }

  lemma ThirdShift30(x: Word, a: Word)
    requires x == 0xdaa66d2c7ddf743f && a == 0xdaa66d2f1746c08e
    ensures XorShift(x, 30) == a
  {
    PowersOfMix();
    XorShiftIs(x, 30, 0x4000_0000, a, 0xda, 0xa6, 0x6d, 0x2c, 0x7d, 0xdf, 0x74, 0x3f,
               0x00, 0x00, 0x00, 0x03, 0x6a, 0x99, 0xb4, 0xb1);
  }

  lemma ThirdShift27(m: Word, b: Word)
    requires m == 0xf1c3dd6322d82c9e && b == 0xf1c3dd7d1aa380fa
    ensures XorShift(m, 27) == b
  {
    PowersOfMix();
    XorShiftIs(m, 27, 0x800_0000, b, 0xf1, 0xc3, 0xdd, 0x63, 0x22, 0xd8, 0x2c, 0x9e,
               0x00, 0x00, 0x00, 0x1e, 0x38, 0x7b, 0xac, 0x64);
  }

  lemma ThirdShift31(n: Word, r: Word)
    requires n == 0x06c45d188d81ff7e && r == 0x06c45d188009454f
    ensures XorShift(n, 31) == r
  {
    PowersOfMix();
    XorShiftIs(n, 31, 0x8000_0000, r, 0x06, 0xc4, 0x5d, 0x18, 0x8d, 0x81, 0xff, 0x7e,
               0x00, 0x00, 0x00, 0x00, 0x0d, 0x88, 0xba, 0x31);
  }

  lemma ThirdProducts(a: Word, m: Word, b: Word, n: Word)
    requires a == 0xdaa66d2f1746c08e && m == 0xf1c3dd6322d82c9e
    requires b == 0xf1c3dd7d1aa380fa && n == 0x06c45d188d81ff7e
    ensures Mul64(a, C1) == m && Mul64(b, C2) == n
  {
  }

  lemma ThirdRounds(x: Word, a: Word, m: Word, b: Word, n: Word, r: Word)
    requires x == 0xdaa66d2c7ddf743f && a == 0xdaa66d2f1746c08e && m == 0xf1c3dd6322d82c9e
    requires b == 0xf1c3dd7d1aa380fa && n == 0x06c45d188d81ff7e && r == 0x06c45d188009454f
    ensures Mix64(x) == r
  {
    ThirdShift30(x, a);
    ThirdShift27(m, b);
    ThirdShift31(n, r);
    ThirdProducts(a, m, b, n);
    MixIs(x, a, m, b, n, r);
  }

  /** The third output published for splitmix64 from seed 0: its state is three steps of the golden ratio. */
  lemma ThirdOutput(x: Word)
    requires x == 3 * 0x9e3779b97f4a7c15 % WORDS
    ensures Mix64(x) == 0x06c45d188009454f
  {
    ThirdRounds(x, 0xdaa66d2f1746c08e, 0xf1c3dd6322d82c9e, 0xf1c3dd7d1aa380fa, 0x06c45d188d81ff7e,
                0x06c45d188009454f);
  }

  // ---- the stream of a connection ----

  /** State s of the splitmix64 generator that starts at seed: each output adds the golden ratio. */
  function GeneratorState(seed: Word, s: nat): Word {
    if s == 0 then seed else Add64(GeneratorState(seed, s - 1), 0x9e3779b97f4a7c15)
  }

  /** The hash of a connection at sequence number s is output s of the splitmix64 generator that
      starts at the connection number, scrambled by one output of its own. */
  lemma HashIsOutput(conn: Word, s: Word)
    ensures ConnSeqHash(conn, s) == Mix64(GeneratorState(Mix64(Add64(conn, 0x9e3779b97f4a7c15)), s))
  {
    StateIsMultiple(Mix64(Add64(conn, GOLDEN)), s);
  }

  lemma {:induction false} StateIsMultiple(seed: Word, s: nat)
    ensures GeneratorState(seed, s) == Add64(seed, s * GOLDEN % WORDS)
  {
    if s > 0 {
      StateIsMultiple(seed, s - 1);
      ModAdd(seed, (s - 1) * GOLDEN);
      ModAdd(seed, s * GOLDEN);
      ModAdd(GOLDEN, seed + (s - 1) * GOLDEN);
      assert s * GOLDEN == (s - 1) * GOLDEN + GOLDEN;
    }
  }

  lemma ModAdd(a: nat, b: nat)
    ensures (a + b % WORDS) % WORDS == (a + b) % WORDS
  {
  }
}
