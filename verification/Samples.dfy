/** Bags of recorded samples, kept as sequences: counting, order statistics and extremes.
    This is the reference the histogram is compared with. */
module Samples {
  import opened Bits

  /** How many elements satisfy p. */
  function Count(s: seq<int>, p: int -> bool): (n: nat)
    ensures n <= |s|
  {
    if s == [] then 0 else Count(s[..|s| - 1], p) + (if p(s[|s| - 1]) then 1 else 0)
  }

  function AtMost(x: int): int -> bool { (y: int) => y <= x }

  function Below(x: int): int -> bool { (y: int) => y < x }

  /** v is the k-th smallest sample, counting from 1: it is what index k - 1 of the
      sorted samples holds. */
  ghost predicate IsKthSmallest(s: seq<int>, k: int, v: int) {
    v in s && Count(s, Below(v)) < k <= Count(s, AtMost(v))
  }

  /** The extremes as the recorder tracks them, from the initial values lo and hi. */
  function MinFrom(s: seq<int>, lo: int): int {
    if s == [] then lo else Min(MinFrom(s[..|s| - 1], lo), s[|s| - 1])
  }

  function MaxFrom(s: seq<int>, hi: int): int {
    if s == [] then hi else Max(MaxFrom(s[..|s| - 1], hi), s[|s| - 1])
  }

  // ---- counting ----

  lemma Unsnoc(s: seq<int>)
    requires s != []
    ensures s == s[..|s| - 1] + [s[|s| - 1]]
    ensures forall x :: x in s <==> x in s[..|s| - 1] || x == s[|s| - 1]
  {
  }

  lemma {:induction false} CountConcat(a: seq<int>, b: seq<int>, p: int -> bool)
    ensures Count(a + b, p) == Count(a, p) + Count(b, p)
    decreases |b|
  {
    if b == [] {
      assert a + b == a;
    } else {
      assert (a + b)[..|a + b| - 1] == a + b[..|b| - 1];
      CountConcat(a, b[..|b| - 1], p);
    }
  }

  lemma {:induction false} CountMono(s: seq<int>, p: int -> bool, q: int -> bool)
    requires forall x :: x in s && p(x) ==> q(x)
    ensures Count(s, p) <= Count(s, q)
  {
    if s != [] {
      Unsnoc(s);
      var x := s[|s| - 1];
      assert x in s;
      CountMono(s[..|s| - 1], p, q);
    }
  }

  lemma CountEq(s: seq<int>, p: int -> bool, q: int -> bool)
    requires forall x :: x in s ==> p(x) == q(x)
    ensures Count(s, p) == Count(s, q)
  {
    CountMono(s, p, q);
    CountMono(s, q, p);
  }

  lemma {:induction false} CountAll(s: seq<int>, p: int -> bool)
    requires forall x :: x in s ==> p(x)
    ensures Count(s, p) == |s|
  {
    if s != [] {
      Unsnoc(s);
      var x := s[|s| - 1];
      assert x in s && p(x);
      CountAll(s[..|s| - 1], p);
    }
  }

  lemma {:induction false} CountNone(s: seq<int>, p: int -> bool)
    requires forall x :: x in s ==> !p(x)
    ensures Count(s, p) == 0
  {
    if s != [] {
      Unsnoc(s);
      var x := s[|s| - 1];
      assert x in s && !p(x);
      CountNone(s[..|s| - 1], p);
    }
  }

  /** Counting a disjunction of exclusive properties. */
  lemma {:induction false} CountSplit(s: seq<int>, p: int -> bool, q: int -> bool, r: int -> bool)
    requires forall x :: x in s ==> r(x) == (p(x) || q(x)) && !(p(x) && q(x))
    ensures Count(s, r) == Count(s, p) + Count(s, q)
  {
    if s != [] {
      Unsnoc(s);
      var x := s[|s| - 1];
      assert x in s && r(x) == (p(x) || q(x)) && !(p(x) && q(x));
      CountSplit(s[..|s| - 1], p, q, r);
    }
  }

  lemma {:induction false} CountMiddle(a: seq<int>, x: int, b: seq<int>, p: int -> bool)
    ensures Count(a + [x] + b, p) == Count(a + b, p) + (if p(x) then 1 else 0)
    decreases |b|
  {
    var whole, less := a + [x] + b, a + b;
    if b == [] {
      assert whole[..|whole| - 1] == a && less == a;
    } else {
      var n := |b| - 1;
      assert whole[..|whole| - 1] == a + [x] + b[..n] && whole[|whole| - 1] == b[n];
      assert less[..|less| - 1] == a + b[..n] && less[|less| - 1] == b[n];
      CountMiddle(a, x, b[..n], p);
    }
  }

  /** An element of a bag splits any sequence of the bag around it. */
  lemma SplitAround(t: seq<int>, x: int) returns (a: seq<int>, b: seq<int>)
    requires x in multiset(t)
    ensures t == a + [x] + b
  {
    var j :| 0 <= j < |t| && t[j] == x;
    a, b := t[..j], t[j + 1..];
  }

  lemma BagOfParts(s: seq<int>, a: seq<int>, x: int, b: seq<int>)
    requires multiset(s + [x]) == multiset(a + [x] + b)
    ensures multiset(s) == multiset(a + b)
  {
    assert multiset(s) == multiset(s + [x]) - multiset{x};
    assert multiset(a + b) == multiset(a + [x] + b) - multiset{x};
  }

  /** Counting sees only the bag, never the order of recording. */
  lemma {:induction false} CountOfBag(s: seq<int>, t: seq<int>, p: int -> bool)
    requires multiset(s) == multiset(t)
    ensures Count(s, p) == Count(t, p)
  {
    if s == [] {
      assert |t| == |multiset(t)| == |multiset(s)| == 0;
    } else {
      var s', x := s[..|s| - 1], s[|s| - 1];
      Unsnoc(s);
      assert x in multiset(s);
      var a, b := SplitAround(t, x);
      BagOfParts(s', a, x, b);
      CountOfBag(s', a + b, p);
      CountMiddle(a, x, b, p);
    }
  }

  // ---- order statistics ----

  /** Every rank from 1 to |s| has a sample. */
  lemma {:induction false} KthSmallestExists(s: seq<int>, k: int) returns (v: int)
    requires 1 <= k <= |s|
    ensures IsKthSmallest(s, k, v)
  {
    var m := s[0];
    var i := 1;
    while i < |s|
      invariant 1 <= i <= |s| && m in s
      invariant forall j :: 0 <= j < i ==> s[j] <= m
    {
      if s[i] > m { m := s[i]; }
      i := i + 1;
    }
    CountAll(s, AtMost(m));
    v := Descend(s, k, m);
  }

  /** From a sample at or above rank k, step down to the sample of rank k. */
  lemma {:induction false} Descend(s: seq<int>, k: int, top: int) returns (v: int)
    requires 1 <= k <= Count(s, AtMost(top)) && top in s
    ensures IsKthSmallest(s, k, v)
    decreases Count(s, AtMost(top))
  {
    if Count(s, Below(top)) < k {
      v := top;
    } else {
      var b := GreatestBelow(s, top);
      CountEq(s, Below(top), AtMost(b));
      CountStrict(s, top);
      v := Descend(s, k, b);
    }
  }

  lemma GreatestBelow(s: seq<int>, top: int) returns (b: int)
    requires Count(s, Below(top)) > 0
    ensures b in s && b < top
    ensures forall x :: x in s ==> (x < top <==> x <= b)
  {
    if forall x :: x in s ==> !Below(top)(x) {
      CountNone(s, Below(top));
    }
    var w :| w in s && Below(top)(w);
    b := w;
    var i := 0;
    while i < |s|
      invariant 0 <= i <= |s| && b in s && b < top
      invariant forall j :: 0 <= j < i && s[j] < top ==> s[j] <= b
    {
      if b < s[i] < top { b := s[i]; }
      i := i + 1;
    }
  }

  lemma CountStrict(s: seq<int>, x: int)
    requires x in s
    ensures Count(s, Below(x)) < Count(s, AtMost(x))
  {
    var here := (y: int) => y == x;
    CountSplit(s, Below(x), here, AtMost(x));
    CountPositive(s, here, x);
  }

  lemma {:induction false} CountPositive(s: seq<int>, p: int -> bool, x: int)
    requires x in s && p(x)
    ensures Count(s, p) > 0
  {
    if s[|s| - 1] != x {
      CountPositive(s[..|s| - 1], p, x);
    }
  }

  /** The k-th smallest is one value, and it grows with k. */
  lemma KthSmallestMonotone(s: seq<int>, k: int, v: int, k': int, v': int)
    requires IsKthSmallest(s, k, v) && IsKthSmallest(s, k', v') && k <= k'
    ensures v <= v'
  {
    if v' < v {
      CountMono(s, AtMost(v'), Below(v));
    }
  }

  /** On sorted samples the k-th smallest is the element at index k - 1. */
  lemma KthSmallestOfSorted(s: seq<int>, k: int)
    requires forall i, j :: 0 <= i < j < |s| ==> s[i] <= s[j]
    requires 1 <= k <= |s|
    ensures IsKthSmallest(s, k, s[k - 1])
  {
    var v := s[k - 1];
    assert s == s[..k] + s[k..] == s[..k - 1] + s[k - 1..];
    CountConcat(s[..k], s[k..], AtMost(v));
    CountAll(s[..k], AtMost(v));
    CountConcat(s[..k - 1], s[k - 1..], Below(v));
    CountNone(s[k - 1..], Below(v));
  }

  // ---- extremes ----

  lemma {:induction false} MinConcat(a: seq<int>, b: seq<int>, lo: int)
    ensures MinFrom(a + b, lo) == Min(MinFrom(a, lo), MinFrom(b, lo))
    ensures MinFrom(b, lo) <= lo
    decreases |b|
  {
    if b == [] {
      assert a + b == a;
      MinAtMostStart(a, lo);
    } else {
      assert (a + b)[..|a + b| - 1] == a + b[..|b| - 1];
      MinConcat(a, b[..|b| - 1], lo);
    }
  }

  lemma {:induction false} MinAtMostStart(s: seq<int>, lo: int)
    ensures MinFrom(s, lo) <= lo
  {
    if s != [] {
      MinAtMostStart(s[..|s| - 1], lo);
    }
  }

  lemma {:induction false} MaxConcat(a: seq<int>, b: seq<int>, hi: int)
    ensures MaxFrom(a + b, hi) == Max(MaxFrom(a, hi), MaxFrom(b, hi))
    decreases |b|
  {
    if b == [] {
      assert a + b == a;
      MaxAtLeastStart(a, hi);
    } else {
      assert (a + b)[..|a + b| - 1] == a + b[..|b| - 1];
      MaxConcat(a, b[..|b| - 1], hi);
    }
  }

  lemma {:induction false} MaxAtLeastStart(s: seq<int>, hi: int)
    ensures hi <= MaxFrom(s, hi)
  {
    if s != [] {
      MaxAtLeastStart(s[..|s| - 1], hi);
    }
  }

  /** With starting values no sample crosses, the tracked extremes are the real ones. */
  lemma {:induction false} ExtremesAreExact(s: seq<int>, lo: int, hi: int)
    requires s != [] && forall x :: x in s ==> hi <= x <= lo
    ensures MinFrom(s, lo) in s && MaxFrom(s, hi) in s
    ensures forall x :: x in s ==> MinFrom(s, lo) <= x <= MaxFrom(s, hi)
  {
    var s', x := s[..|s| - 1], s[|s| - 1];
    Unsnoc(s);
    assert x in s && hi <= x <= lo;
    if s' != [] {
      forall y | y in s' ensures hi <= y <= lo {
        assert y in s;
      }
      ExtremesAreExact(s', lo, hi);
    }
  }
}
