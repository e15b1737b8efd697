/** Amounts of money as exact reals, and the rounding to cents that every total goes through. */
module Money {
  /** Math.round(n * 100): halves go up. */
  function CentsOf(x: real): int {
    (x * 100.0 + 0.5).Floor
  }

  /** round2. */
  function Round2(x: real): real {
    CentsOf(x) as real / 100.0
  }

  /** A whole number of cents. */
  predicate IsCents(x: real) {
    (x * 100.0).Floor as real == x * 100.0
  }

  function Abs(x: real): real {
    if x < 0.0 then -x else x
  }

  const HALF_CENT := 0.005

  lemma IntegerFloor(x: real, n: int)
    requires n as real <= x < n as real + 1.0
    ensures x.Floor == n
  {
  }

  lemma WholeCents(n: int)
    ensures IsCents(n as real / 100.0)
  {
    var x := n as real / 100.0;
    assert x * 100.0 == n as real;
    IntegerFloor(x * 100.0, n);
  }

  lemma RoundIsCents(x: real)
    ensures IsCents(Round2(x))
  {
    WholeCents(CentsOf(x));
  }

  /** The nearest cent, and of two as near the higher one. */
  lemma RoundIsClose(x: real)
    ensures -HALF_CENT < Round2(x) - x <= HALF_CENT
  {
    var c := x * 100.0 + 0.5;
    assert c - 1.0 < c.Floor as real <= c;
  }

  lemma RoundOfCents(x: real)
    requires IsCents(x)
    ensures Round2(x) == x
  {
    IntegerFloor(x * 100.0 + 0.5, (x * 100.0).Floor);
  }

  lemma RoundMonotone(x: real, y: real)
    requires x <= y
    ensures Round2(x) <= Round2(y)
  {
    var c, d := x * 100.0 + 0.5, y * 100.0 + 0.5;
    assert c.Floor as real <= c <= d < d.Floor as real + 1.0;
    assert c.Floor <= d.Floor;
  }

  lemma CentsAdd(x: real, y: real)
    requires IsCents(x) && IsCents(y)
    ensures IsCents(x + y)
  {
    var n := (x * 100.0).Floor + (y * 100.0).Floor;
    assert (x + y) * 100.0 == n as real;
    IntegerFloor((x + y) * 100.0, n);
  }

  /** The sum of f over a list. */
  function Sum<T>(s: seq<T>, f: T -> real): real {
    if s == [] then 0.0 else Sum(s[..|s| - 1], f) + f(s[|s| - 1])
  }

  lemma SumOfOneMore<T>(s: seq<T>, x: T, f: T -> real)
    ensures Sum(s + [x], f) == Sum(s, f) + f(x)
  {
    assert (s + [x])[..|s|] == s;
  }

  lemma {:induction false} SumConcat<T>(a: seq<T>, b: seq<T>, f: T -> real)
    ensures Sum(a + b, f) == Sum(a, f) + Sum(b, f)
  {
    if b == [] {
      assert a + b == a;
    } else {
      var n := |b| - 1;
      SumConcat(a, b[..n], f);
      assert a + b == (a + b[..n]) + [b[n]];
      SumOfOneMore(a + b[..n], b[n], f);
    }
  }

  lemma {:induction false} SumIsCents<T>(s: seq<T>, f: T -> real)
    requires forall x :: x in s ==> IsCents(f(x))
    ensures IsCents(Sum(s, f))
  {
    if s == [] {
      WholeCents(0);
    } else {
      var n := |s| - 1;
      SumIsCents(s[..n], f);
      CentsAdd(Sum(s[..n], f), f(s[n]));
    }
  }

  lemma {:induction false} SumMonotone<T>(s: seq<T>, f: T -> real, g: T -> real)
    requires forall x :: x in s ==> f(x) <= g(x)
    ensures Sum(s, f) <= Sum(s, g)
  {
    if s != [] {
      SumMonotone(s[..|s| - 1], f, g);
    }
  }

  lemma {:induction false} SumEqual<T>(s: seq<T>, f: T -> real, g: T -> real)
    requires forall x :: x in s ==> f(x) == g(x)
    ensures Sum(s, f) == Sum(s, g)
  {
    if s != [] {
      SumEqual(s[..|s| - 1], f, g);
    }
  }

  /** When every f is within e of its g, the sums are within the sum of the e. */
  lemma {:induction false} SumClose<T>(s: seq<T>, f: T -> real, g: T -> real, e: T -> real)
    requires forall x :: x in s ==> -e(x) <= f(x) - g(x) <= e(x)
    ensures -Sum(s, e) <= Sum(s, f) - Sum(s, g) <= Sum(s, e)
  {
    if s != [] {
      SumClose(s[..|s| - 1], f, g, e);
    }
  }

  /** A sum does not depend on the order of its list. */
  lemma {:induction false} SumPermutes<T>(a: seq<T>, b: seq<T>, f: T -> real)
    requires multiset(a) == multiset(b)
    ensures Sum(a, f) == Sum(b, f)
    decreases |a|
  {
    if a == [] {
      assert |multiset(b)| == 0;
    } else {
      var n := |a| - 1;
      var x := a[n];
      assert a == a[..n] + [x];
      assert x in multiset(b);
      var k :| 0 <= k < |b| && b[k] == x;
      var rest := b[..k] + b[k + 1..];
      assert b == b[..k] + [x] + b[k + 1..];
      assert multiset(rest) == multiset(b) - multiset{x} == multiset(a[..n]);
      SumPermutes(a[..n], rest, f);
      SumConcat(b[..k], b[k + 1..], f);
      SumConcat(b[..k] + [x], b[k + 1..], f);
      SumOfOneMore(b[..k], x, f);
    }
  }
}
