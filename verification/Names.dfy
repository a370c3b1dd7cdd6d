/** The member names the workloads use, as bytes. */
module Names {
  import opened Decimal

  type Name = bytes

  const LETTER_M: byte := 109
  const LETTER_U: byte := 117
  const DASH: byte := 45

  /** memberName: "m" and the index. */
  function MemberName(idx: nat): Name { [LETTER_M] + Digits(idx) }

  /** refillName: "mu", the connection, "-", the sequence number. */
  function RefillName(conn: nat, seqNo: nat): Name { [LETTER_M, LETTER_U] + Digits(conn) + [DASH] + Digits(seqNo) }

  lemma NameExamples()
    ensures MemberName(12) == Ascii("m12") && RefillName(3, 4) == Ascii("mu3-4")
  {
    assert Digits(12) == Digits(1) + [50];
  }

  lemma MemberNameInjective(a: nat, b: nat)
    requires MemberName(a) == MemberName(b)
    ensures a == b
  {
    assert MemberName(a)[1..] == Digits(a) && MemberName(b)[1..] == Digits(b);
    DigitsInjective(a, b);
  }

  /** No preloaded member carries a refill name: the second byte is a digit in one, a letter in the other. */
  lemma MemberIsNotRefill(idx: nat, conn: nat, seqNo: nat)
    ensures MemberName(idx) != RefillName(conn, seqNo)
  {
    DigitsRoundTrip(idx);
    assert MemberName(idx)[1] == Digits(idx)[0];
    assert IsDigit(Digits(idx)[0]);
    assert RefillName(conn, seqNo)[1] == LETTER_U;
  }

  /** Position of the first dash, |s| when there is none. */
  function FirstDash(s: bytes): (r: nat)
    ensures r <= |s| && (r < |s| ==> s[r] == DASH)
    ensures forall k :: 0 <= k < r ==> s[k] != DASH
  {
    if s == [] || s[0] == DASH then 0 else 1 + FirstDash(s[1..])
  }

  lemma DashAfterDigits(a: bytes, x: bytes)
    requires AllDigits(a)
    ensures FirstDash(a + [DASH] + x) == |a|
  {
    var s := a + [DASH] + x;
    assert s[|a|] == DASH;
    assert forall k :: 0 <= k < |a| ==> s[k] == a[k] && IsDigit(a[k]);
  }

  /** Digits before the first dash and bytes after it can be told apart. */
  lemma SplitAtDash(a: bytes, x: bytes, b: bytes, y: bytes)
    requires AllDigits(a) && AllDigits(b)
    requires a + [DASH] + x == b + [DASH] + y
    ensures a == b && x == y
  {
    DashAfterDigits(a, x);
    DashAfterDigits(b, y);
    assert a == (a + [DASH] + x)[..|a|] && b == (b + [DASH] + y)[..|a|];
    assert x == (a + [DASH] + x)[|a| + 1..] && y == (b + [DASH] + y)[|a| + 1..];
  }

  lemma RefillNameInjective(c: nat, s: nat, c': nat, s': nat)
    requires RefillName(c, s) == RefillName(c', s')
    ensures c == c' && s == s'
  {
    DigitsRoundTrip(c);
    DigitsRoundTrip(c');
    assert RefillName(c, s)[2..] == Digits(c) + [DASH] + Digits(s);
    assert RefillName(c', s')[2..] == Digits(c') + [DASH] + Digits(s');
    SplitAtDash(Digits(c), Digits(s), Digits(c'), Digits(s'));
    DigitsInjective(c, c');
    DigitsInjective(s, s');
  }
}
