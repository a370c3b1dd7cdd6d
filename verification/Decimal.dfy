/** Base-10 text of integers, as strconv writes and reads it. */
module Decimal {
  import opened Arith

  type byte = b: int | 0 <= b < 256
  type bytes = seq<byte>

  const MIN_INT64: int := -0x8000_0000_0000_0000
  const MAX_INT64: int := 0x7FFF_FFFF_FFFF_FFFF

  datatype Option<+T> = None | Some(value: T)

  /** The bytes of a text of ASCII characters. */
  function Ascii(s: string): (b: bytes)
    requires forall i :: 0 <= i < |s| ==> s[i] as int < 128
    ensures |b| == |s| && forall i :: 0 <= i < |s| ==> b[i] == s[i] as int
  {
    seq(|s|, i requires 0 <= i < |s| => s[i] as int)
  }

  predicate IsDigit(b: byte) { 48 <= b <= 57 }

  predicate AllDigits(s: bytes) { forall i :: 0 <= i < |s| ==> IsDigit(s[i]) }

  /** The shortest decimal text of n. */
  function Digits(n: nat): (s: bytes)
    ensures |s| > 0
  {
    if n < 10 then [48 + n] else Digits(n / 10) + [48 + n % 10]
  }

  function FormatInt(n: int): (s: bytes)
    ensures |s| > 0
  {
    if n < 0 then [45] + Digits(-n) else Digits(n)
  }

  /** The number a run of digits denotes. */
  function NatValue(s: bytes): nat
    requires AllDigits(s)
  {
    if s == [] then 0 else 10 * NatValue(s[..|s| - 1]) + (s[|s| - 1] - 48)
  }

  function Magnitude(s: bytes): bytes
    requires s != []
  {
    if s[0] == 43 || s[0] == 45 then s[1..] else s
  }

  /** strconv.ParseInt(s, 10, 64). */
  function ParseInt(s: bytes): Option<int> {
    if s == [] then None else
    var digits := Magnitude(s);
    if digits == [] || !AllDigits(digits) then None else
    var n: int := if s[0] == 45 then 0 - NatValue(digits) else NatValue(digits);
    if MIN_INT64 <= n <= MAX_INT64 then Some(n) else None
  }

  lemma {:induction false} DigitsRoundTrip(n: nat)
    ensures AllDigits(Digits(n)) && NatValue(Digits(n)) == n
  {
    if n >= 10 {
      DigitsRoundTrip(n / 10);
      var s := Digits(n);
      assert s[..|s| - 1] == Digits(n / 10);
    } else {
      assert Digits(n)[..0] == [];
    }
  }

  /** What is formatted is read back, over the whole int64 range. */
  lemma ParseFormat(n: int)
    requires MIN_INT64 <= n <= MAX_INT64
    ensures ParseInt(FormatInt(n)) == Some(n)
  {
    DigitsRoundTrip(if n < 0 then -n else n);
    if n >= 0 {
      assert IsDigit(Digits(n)[0]);
    }
  }

  lemma FormatExample()
    ensures FormatInt(-70) == Ascii("-70") && FormatInt(8) == Ascii("8")
  {
    assert Digits(70) == Digits(7) + [48];
  }

  /** Padding puts zeros before the digits. */
  lemma PaddedShape(w: nat, n: nat)
    ensures Padded(w, n) == (if |Digits(n)| < w then seq(w - |Digits(n)|, i => 48) else []) + Digits(n)
  {
    PadToShape(w, Digits(n));
  }

  lemma {:induction false} PadToShape(w: nat, s: bytes)
    ensures PadTo(w, s) == (if |s| < w then seq(w - |s|, i => 48) else []) + s
    decreases w - |s|
  {
    if |s| < w {
      PadToShape(w, [48] + s);
    }
  }

  lemma FormatHasNoLineFeed(n: int)
    ensures forall b :: b in FormatInt(n) ==> b == 45 || IsDigit(b)
    ensures 10 !in FormatInt(n) && 13 !in FormatInt(n)
  {
    DigitsRoundTrip(if n < 0 then -n else n);
  }

  lemma DigitsInjective(a: nat, b: nat)
    requires Digits(a) == Digits(b)
    ensures a == b
  {
    DigitsRoundTrip(a);
    DigitsRoundTrip(b);
  }

  /** printf's %0wd. */
  function Padded(w: nat, n: nat): bytes
    decreases w
  {
    if |Digits(n)| >= w then Digits(n) else PadTo(w, Digits(n))
  }

  function PadTo(w: nat, s: bytes): bytes
    decreases w - |s|
  {
    if |s| >= w then s else PadTo(w, [48] + s)
  }

  lemma {:induction false} LeadingZero(s: bytes)
    requires AllDigits(s)
    ensures AllDigits([48] + s) && NatValue([48] + s) == NatValue(s)
  {
    var z: bytes := [48] + s;
    if s == [] {
      assert z[..0] == [];
    } else {
      LeadingZero(s[..|s| - 1]);
      assert z[..|z| - 1] == [48] + s[..|s| - 1];
    }
  }

  lemma {:induction false} PadToValue(w: nat, s: bytes)
    requires AllDigits(s)
    ensures AllDigits(PadTo(w, s)) && NatValue(PadTo(w, s)) == NatValue(s)
    decreases w - |s|
  {
    if |s| < w {
      LeadingZero(s);
      PadToValue(w, [48] + s);
    }
  }

  /** Zero padding keeps numbers apart, also past the padded width. */
  lemma PaddedInjective(w: nat, a: nat, b: nat)
    requires Padded(w, a) == Padded(w, b)
    ensures a == b
  {
    DigitsRoundTrip(a);
    DigitsRoundTrip(b);
    PadToValue(w, Digits(a));
    PadToValue(w, Digits(b));
  }
}
