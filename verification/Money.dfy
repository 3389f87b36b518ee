/** Rounding to two decimals, halves up, on exact reals. */
module Money {
  import opened Sums

  function Round2(value: real): real {
    (value * 100.0 + 0.5).Floor as real / 100.0
  }

  /** A whole number of hundredths. */
  ghost predicate InCents(value: real) {
    value * 100.0 == (value * 100.0).Floor as real
  }

  lemma Round2IsNearest(value: real)
    ensures value - 0.005 < Round2(value) <= value + 0.005
    ensures InCents(Round2(value))
  {
    var n := (value * 100.0 + 0.5).Floor;
    assert Round2(value) * 100.0 == n as real;
  }

  lemma CentsAreUnchanged(value: real)
    requires InCents(value)
    ensures Round2(value) == value
  {
    var n := (value * 100.0).Floor;
    assert (n as real + 0.5).Floor == n;
  }

  lemma CentsAddUp(a: real, b: real)
    requires InCents(a) && InCents(b)
    ensures InCents(a + b)
  {
    var m, n := (a * 100.0).Floor, (b * 100.0).Floor;
    assert (a + b) * 100.0 == (m + n) as real;
  }

  lemma CentsSubtract(a: real, b: real)
    requires InCents(a) && InCents(b)
    ensures InCents(a - b)
  {
    var m, n := (a * 100.0).Floor, (b * 100.0).Floor;
    assert (a - b) * 100.0 == (m - n) as real;
  }

  lemma ZeroIsInCents()
    ensures InCents(0.0)
  {
  }

  lemma {:induction false} SumInCents<T>(xs: seq<T>, f: T -> real)
    requires forall i :: 0 <= i < |xs| ==> InCents(f(xs[i]))
    ensures InCents(SumSeq(xs, f))
  {
    if |xs| == 0 {
      ZeroIsInCents();
    } else {
      hide InCents;
      SumInCents(xs[..|xs| - 1], f);
      CentsAddUp(SumSeq(xs[..|xs| - 1], f), f(xs[|xs| - 1]));
    }
  }

  function Abs(x: real): real {
    if x < 0.0 then -x else x
  }
}
