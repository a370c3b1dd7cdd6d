/** Powers of two and the bitwise operators of unsigned machine words, on naturals.
    A word is a natural below Pow2(64); every operator is defined bit by bit, so
    nothing here depends on a fixed width. */
module Bits {

  function Pow2(n: nat): (p: nat)
    ensures p > 0
  {
    if n == 0 then 1 else 2 * Pow2(n - 1)
  }

  /** Logical right shift, one bit at a time. */
  function Shr(v: nat, k: nat): nat {
    if k == 0 then v else Shr(v / 2, k - 1)
  }

  /** Left shift, on words wide enough not to lose bits. */
  function Shl(v: nat, k: nat): nat {
    if k == 0 then v else 2 * Shl(v, k - 1)
  }

  /** Number of bits of v, the loop of bitLen written as a recursion. */
  function BitLen(v: nat): nat {
    if v == 0 then 0 else 1 + BitLen(v / 2)
  }

  /** Bit i of v. */
  predicate Bit(v: nat, i: nat) {
    if i == 0 then v % 2 == 1 else Bit(v / 2, i - 1)
  }

  function Or(a: nat, b: nat): nat
    decreases a + b
  {
    if a == 0 && b == 0 then 0
    else 2 * Or(a / 2, b / 2) + (if a % 2 == 1 || b % 2 == 1 then 1 else 0)
  }

  function And(a: nat, b: nat): nat {
    if a == 0 then 0
    else 2 * And(a / 2, b / 2) + (if a % 2 == 1 && b % 2 == 1 then 1 else 0)
  }

  function Xor(a: nat, b: nat): nat
    decreases a + b
  {
    if a == 0 && b == 0 then 0
    else 2 * Xor(a / 2, b / 2) + (if a % 2 != b % 2 then 1 else 0)
  }

  function PopCount(v: nat): nat {
    if v == 0 then 0 else v % 2 + PopCount(v / 2)
  }

  function Max(a: int, b: int): int { if a < b then b else a }

  function Min(a: int, b: int): int { if a < b then a else b }

  // ---- powers of two ----

  lemma {:induction false} Pow2Add(a: nat, b: nat)
    ensures Pow2(a + b) == Pow2(a) * Pow2(b)
  {
    if a == 0 {
    } else {
      Pow2Add(a - 1, b);
      assert Pow2(a + b) == 2 * Pow2(a + b - 1);
      assert 2 * (Pow2(a - 1) * Pow2(b)) == (2 * Pow2(a - 1)) * Pow2(b);
    }
  }

  lemma {:induction false} Pow2Mono(a: nat, b: nat)
    requires a <= b
    ensures Pow2(a) <= Pow2(b)
    ensures a < b ==> 2 * Pow2(a) <= Pow2(b)
    decreases b - a
  {
    if a < b {
      Pow2Mono(a + 1, b);
    }
  }

  lemma Pow2Concrete()
    ensures Pow2(11) == 2048
    ensures Pow2(14) == 16384
    ensures Pow2(18) == 262144
    ensures Pow2(62) == 0x4000_0000_0000_0000
    ensures Pow2(63) == 0x8000_0000_0000_0000
    ensures Pow2(64) == 0x1_0000_0000_0000_0000
  {
    assert Pow2(8) == 256;
    assert Pow2(16) == 65536 by { Pow2Add(8, 8); }
    assert Pow2(32) == 65536 * 65536 by { Pow2Add(16, 16); }
    assert Pow2(48) == 65536 * 65536 * 65536 by { Pow2Add(32, 16); }
    assert Pow2(62) == 65536 * 65536 * 65536 * Pow2(14) by { Pow2Add(48, 14); }
    assert Pow2(64) == 2 * Pow2(63) && Pow2(63) == 2 * Pow2(62);
  }

  // ---- shifts ----

  lemma {:induction false} ShlAdd(a: nat, b: nat, k: nat)
    ensures Shl(a + b, k) == Shl(a, k) + Shl(b, k)
  {
    if k > 0 {
      ShlAdd(a, b, k - 1);
    }
  }

  lemma {:induction false} ShlPow2(m: nat, k: nat)
    ensures Shl(Pow2(m), k) == Pow2(m + k)
  {
    if k > 0 {
      ShlPow2(m, k - 1);
    }
  }

  lemma {:induction false} ShlZero(k: nat)
    ensures Shl(0, k) == 0
  {
    if k > 0 {
      ShlZero(k - 1);
    }
  }

  lemma ShlSucc(a: nat, k: nat)
    ensures Shl(a + 1, k) == Shl(a, k) + Pow2(k)
  {
    ShlAdd(a, 1, k);
    ShlPow2(0, k);
  }

  lemma ShlMono(a: nat, b: nat, k: nat)
    requires a <= b
    ensures Shl(a, k) <= Shl(b, k)
    ensures a < b ==> Shl(a, k) + Pow2(k) <= Shl(b, k)
  {
    ShlAdd(a, b - a, k);
    if a < b {
      ShlAdd(1, b - a - 1, k);
      ShlPow2(0, k);
    }
  }

  /** v << k is v times Pow2(k). */
  lemma {:induction false} ShlIsMul(v: nat, k: nat)
    ensures Shl(v, k) == v * Pow2(k)
  {
    if k > 0 {
      ShlIsMul(v, k - 1);
      assert 2 * (v * Pow2(k - 1)) == v * (2 * Pow2(k - 1));
    }
  }

  /** Every value of the step [s << k, (s + 1) << k) shifts back to s. */
  lemma {:induction false} ShrOfStep(u: nat, s: nat, k: nat)
    requires Shl(s, k) <= u < Shl(s, k) + Pow2(k)
    ensures Shr(u, k) == s
    decreases k
  {
    if k > 0 {
      ShrOfStep(u / 2, s, k - 1);
    }
  }

  /** A word is its high part shifted back plus its low k bits. */
  lemma {:induction false} ShrSandwich(v: nat, k: nat)
    ensures v == Shl(Shr(v, k), k) + And(v, Pow2(k) - 1)
    ensures 0 <= And(v, Pow2(k) - 1) < Pow2(k)
    decreases k
  {
    if k == 0 {
      AndNone(v);
    } else {
      ShrSandwich(v / 2, k - 1);
      assert (Pow2(k) - 1) / 2 == Pow2(k - 1) - 1 && (Pow2(k) - 1) % 2 == 1;
      AndHalves(v, Pow2(k) - 1);
    }
  }

  lemma AndHalves(a: nat, b: nat)
    ensures And(a, b) == 2 * And(a / 2, b / 2) + (if a % 2 == 1 && b % 2 == 1 then 1 else 0)
  {
  }

  lemma ShrRange(v: nat, m: nat, k: nat)
    ensures v < Pow2(m + k) ==> Shr(v, k) < Pow2(m)
    ensures Pow2(m + k) <= v ==> Pow2(m) <= Shr(v, k)
  {
    ShrSandwich(v, k);
    ShlPow2(m, k);
    if Shr(v, k) < Pow2(m) {
      ShlMono(Shr(v, k), Pow2(m), k);
    } else {
      ShlMono(Pow2(m), Shr(v, k), k);
    }
  }

  lemma {:induction false} ShrMono(u: nat, v: nat, k: nat)
    requires u <= v
    ensures Shr(u, k) <= Shr(v, k)
    decreases k
  {
    if k > 0 {
      ShrMono(u / 2, v / 2, k - 1);
    }
  }

  lemma {:induction false} ShrShr(v: nat, a: nat, b: nat)
    ensures Shr(Shr(v, a), b) == Shr(v, a + b)
    decreases a
  {
    if a > 0 {
      ShrShr(v / 2, a - 1, b);
    }
  }

  // ---- bit length ----

  /** BitLen(v) is the unique k with Pow2(k - 1) <= v < Pow2(k). */
  lemma {:induction false} BitLenBounds(v: nat)
    ensures v < Pow2(BitLen(v))
    ensures v > 0 ==> BitLen(v) > 0 && Pow2(BitLen(v) - 1) <= v
  {
    if v > 1 {
      BitLenBounds(v / 2);
    }
  }

  lemma BitLenUnique(v: nat, k: nat)
    requires v < Pow2(k) && (k > 0 ==> Pow2(k - 1) <= v)
    ensures BitLen(v) == k
  {
    BitLenBounds(v);
    if BitLen(v) < k {
      Pow2Mono(BitLen(v), k - 1);
    }
    if BitLen(v) > k {
      Pow2Mono(k, BitLen(v) - 1);
    }
  }

  lemma {:induction false} BitLenOr(a: nat, b: nat)
    ensures BitLen(Or(a, b)) == Max(BitLen(a), BitLen(b))
    decreases a + b
  {
    if a != 0 || b != 0 {
      BitLenOr(a / 2, b / 2);
      assert Or(a, b) / 2 == Or(a / 2, b / 2);
      OrZero(a, b);
    }
  }

  lemma {:induction false} OrZero(a: nat, b: nat)
    ensures Or(a, b) == 0 <==> a == 0 && b == 0
    decreases a + b
  {
    if a != 0 || b != 0 {
      OrZero(a / 2, b / 2);
    }
  }

  // ---- operators, bit by bit ----

  lemma OrHalves(a: nat, b: nat)
    ensures Or(a, b) / 2 == Or(a / 2, b / 2)
    ensures Or(a, b) % 2 == 1 <==> a % 2 == 1 || b % 2 == 1
  {
  }

  lemma {:induction false} BitOr(a: nat, b: nat, i: nat)
    ensures Bit(Or(a, b), i) <==> Bit(a, i) || Bit(b, i)
    decreases i
  {
    OrHalves(a, b);
    if i > 0 {
      BitOr(a / 2, b / 2, i - 1);
    }
  }

  lemma {:induction false} AndNone(x: nat)
    ensures And(x, 0) == 0
  {
    if x > 0 {
      AndNone(x / 2);
    }
  }

  /** word & (1 << k) is zero exactly when bit k is clear. */
  lemma {:induction false} AndSingle(x: nat, k: nat)
    ensures And(x, Pow2(k)) == 0 <==> !Bit(x, k)
    decreases k
  {
    if k == 0 {
      AndNone(x / 2);
    } else {
      AndSingle(x / 2, k - 1);
      assert Pow2(k) / 2 == Pow2(k - 1) && Pow2(k) % 2 == 0;
      if x == 0 {
        NoBits(k);
      }
    }
  }

  lemma {:induction false} NoBits(i: nat)
    ensures !Bit(0, i)
  {
    if i > 0 {
      NoBits(i - 1);
    }
  }

  lemma {:induction false} BitPow2(k: nat, i: nat)
    ensures Bit(Pow2(k), i) <==> i == k
  {
    if k == 0 {
      if i > 0 {
        NoBits(i - 1);
      }
    } else if i > 0 {
      BitPow2(k - 1, i - 1);
    }
  }

  lemma {:induction false} OrBound(a: nat, b: nat, n: nat)
    requires a < Pow2(n) && b < Pow2(n)
    ensures Or(a, b) < Pow2(n)
    decreases n
  {
    if n > 0 {
      OrBound(a / 2, b / 2, n - 1);
    }
  }

  // ---- exclusive or ----

  lemma {:induction false} XorCancel(a: nat, b: nat)
    ensures Xor(Xor(a, b), b) == a
    decreases a + b
  {
    if a != 0 || b != 0 {
      XorCancel(a / 2, b / 2);
      assert Xor(a, b) / 2 == Xor(a / 2, b / 2);
    }
  }

  lemma {:induction false} XorComm(a: nat, b: nat)
    ensures Xor(a, b) == Xor(b, a)
    decreases a + b
  {
    if a != 0 || b != 0 {
      XorComm(a / 2, b / 2);
    }
  }

  lemma XorHalf(a: nat, b: nat)
    ensures Xor(a, b) / 2 == Xor(a / 2, b / 2)
  {
  }

  lemma {:induction false} XorShr(a: nat, b: nat, k: nat)
    ensures Shr(Xor(a, b), k) == Xor(Shr(a, k), Shr(b, k))
    decreases k
  {
    if k > 0 {
      XorHalf(a, b);
      XorShr(a / 2, b / 2, k - 1);
    }
  }

  lemma {:induction false} XorBound(a: nat, b: nat, n: nat)
    requires a < Pow2(n) && b < Pow2(n)
    ensures Xor(a, b) < Pow2(n)
    decreases n
  {
    if n > 0 {
      XorBound(a / 2, b / 2, n - 1);
    }
  }
}
