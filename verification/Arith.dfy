/** The few facts about products and quotients of integers that the proofs share. */
module Arith {

  lemma MulSign(d: int, q: int)
    requires d > 0
    ensures q >= 1 ==> d * q >= d
    ensures q <= -1 ==> d * q <= -d
  {
  }

  lemma MulComm(a: int, b: int)
    ensures a * b == b * a
  {
  }

  lemma MulMono(a: int, b: int, c: nat)
    requires a <= b
    ensures a * c <= b * c
  {
  }

  /** Multiplying by a positive factor keeps the order, strictly. */
  lemma MulOrder(a: int, b: int, t: int)
    requires t > 0
    ensures a <= b <==> a * t <= b * t
    ensures a < b <==> a * t < b * t
    ensures (a + 1) * t == a * t + t && (a - 1) * t == a * t - t
  {
    assert (a - b) * t == a * t - b * t;
    assert (a - b) * t == t * (a - b);
    MulSign(t, a - b);
  }

  /** v lies in the step of size d that starts at v / d * d. */
  lemma DivFloor(v: int, d: int)
    requires d > 0
    ensures v / d * d <= v < v / d * d + d
    ensures v == d * (v / d) + v % d && 0 <= v % d < d
  {
    assert v == d * (v / d) + v % d;
  }

  lemma DivUnique(v: int, d: int, q: int, r: int)
    requires d > 0 && 0 <= r < d
    requires v == d * q + r
    ensures v / d == q && v % d == r
  {
    var dq := v / d - q;
    assert d * dq == r - v % d by {
      DivFloor(v, d);
      assert d * (v / d) - d * q == d * dq;
    }
    MulSign(d, dq);
  }

  lemma DivMono(u: int, v: int, d: int)
    requires d > 0 && u <= v
    ensures u / d <= v / d
  {
    DivFloor(u, d);
    DivFloor(v, d);
    MulOrder(u / d, v / d + 1, d);
    MulOrder(v / d, v / d, d);
  }
}
