/** Finite sums of reals, over sequences and over sets. */
module Sums {

  function SumSeq<T>(xs: seq<T>, f: T -> real): real {
    if |xs| == 0 then 0.0 else SumSeq(xs[..|xs| - 1], f) + f(xs[|xs| - 1])
  }

  lemma SumSeqSnoc<T>(xs: seq<T>, x: T, f: T -> real)
    ensures SumSeq(xs + [x], f) == SumSeq(xs, f) + f(x)
  {
    assert (xs + [x])[..|xs|] == xs;
  }

  lemma {:induction false} SumSeqConcat<T>(xs: seq<T>, ys: seq<T>, f: T -> real)
    ensures SumSeq(xs + ys, f) == SumSeq(xs, f) + SumSeq(ys, f)
    decreases |ys|
  {
    if |ys| == 0 {
      assert xs + ys == xs;
    } else {
      assert (xs + ys)[..|xs + ys| - 1] == xs + ys[..|ys| - 1];
      SumSeqConcat(xs, ys[..|ys| - 1], f);
    }
  }

  lemma {:induction false} SumSeqSame<T>(xs: seq<T>, f: T -> real, g: T -> real)
    requires forall i :: 0 <= i < |xs| ==> f(xs[i]) == g(xs[i])
    ensures SumSeq(xs, f) == SumSeq(xs, g)
  {
    if |xs| == 0 {
    } else {
      SumSeqSame(xs[..|xs| - 1], f, g);
    }
  }

  lemma SumSeqRemove<T>(xs: seq<T>, i: nat, f: T -> real)
    requires i < |xs|
    ensures SumSeq(xs, f) == SumSeq(xs[..i] + xs[i + 1..], f) + f(xs[i])
  {
    hide SumSeq;
    assert xs == xs[..i] + [xs[i]] + xs[i + 1..];
    SumSeqConcat(xs[..i] + [xs[i]], xs[i + 1..], f);
    SumSeqSnoc(xs[..i], xs[i], f);
    SumSeqConcat(xs[..i], xs[i + 1..], f);
  }

  /** The order of the terms does not matter. */
  lemma {:induction false} SumSeqPermutes<T>(xs: seq<T>, ys: seq<T>, f: T -> real)
    requires multiset(xs) == multiset(ys)
    ensures SumSeq(xs, f) == SumSeq(ys, f)
    decreases |xs|
  {
    if |xs| == 0 {
      assert |multiset(ys)| == 0;
    } else {
      var x := xs[|xs| - 1];
      assert x in multiset(xs);
      assert x in ys;
      var i :| 0 <= i < |ys| && ys[i] == x;
      var rest := ys[..i] + ys[i + 1..];
      assert xs == xs[..|xs| - 1] + [x];
      assert ys == ys[..i] + [x] + ys[i + 1..];
      assert multiset(xs[..|xs| - 1]) == multiset(xs) - multiset{x};
      assert multiset(rest) == multiset(ys) - multiset{x};
      SumSeqPermutes(xs[..|xs| - 1], rest, f);
      SumSeqRemove(ys, i, f);
    }
  }

  ghost function SumSet<T>(s: set<T>, f: T -> real): real {
    if s == {} then 0.0
    else
      var x :| x in s;
      f(x) + SumSet(s - {x}, f)
  }

  lemma {:induction false} SumSetRemove<T>(s: set<T>, f: T -> real, x: T)
    requires x in s
    ensures SumSet(s, f) == f(x) + SumSet(s - {x}, f)
    decreases |s|
  {
    var y :| y in s && SumSet(s, f) == f(y) + SumSet(s - {y}, f);
    if x != y {
      SumSetRemove(s - {y}, f, x);
      SumSetRemove(s - {x}, f, y);
      assert s - {y} - {x} == s - {x} - {y};
    }
  }

  lemma SumSetAdd<T>(s: set<T>, f: T -> real, x: T)
    requires x !in s
    ensures SumSet(s + {x}, f) == SumSet(s, f) + f(x)
  {
    SumSetRemove(s + {x}, f, x);
    assert s + {x} - {x} == s;
  }

  lemma {:induction false} SumSetSame<T>(s: set<T>, f: T -> real, g: T -> real)
    requires forall x :: x in s ==> f(x) == g(x)
    ensures SumSet(s, f) == SumSet(s, g)
    decreases |s|
  {
    if s == {} {
    } else {
      var x :| x in s;
      SumSetSame(s - {x}, f, g);
      SumSetRemove(s, f, x);
      SumSetRemove(s, g, x);
    }
  }

  /** Changing one term changes the sum by as much. */
  lemma SumSetChange<T>(s: set<T>, f: T -> real, g: T -> real, x: T)
    requires x in s && forall y :: y in s && y != x ==> f(y) == g(y)
    ensures SumSet(s, g) == SumSet(s, f) + g(x) - f(x)
  {
    SumSetRemove(s, f, x);
    SumSetRemove(s, g, x);
    SumSetSame(s - {x}, f, g);
  }

  lemma {:induction false} SumSetNonNegative<T>(s: set<T>, f: T -> real)
    requires forall x :: x in s ==> f(x) >= 0.0
    ensures SumSet(s, f) >= 0.0
    ensures SumSet(s, f) == 0.0 <==> forall x :: x in s ==> f(x) == 0.0
    decreases |s|
  {
    if s == {} {
    } else {
      var x :| x in s;
      SumSetRemove(s, f, x);
      SumSetNonNegative(s - {x}, f);
    }
  }

  /** Moving each term by at most half a cent moves the sum by at most half a cent per term. */
  lemma {:induction false} SumSetWithinHalfCents<T>(s: set<T>, f: T -> real, g: T -> real)
    requires forall x :: x in s ==> -0.005 <= g(x) - f(x) <= 0.005
    ensures -0.005 * |s| as real <= SumSet(s, g) - SumSet(s, f) <= 0.005 * |s| as real
    decreases |s|
  {
    if s == {} {
    } else {
      var x :| x in s;
      SumSetRemove(s, f, x);
      SumSetRemove(s, g, x);
      SumSetWithinHalfCents(s - {x}, f, g);
      assert |s - {x}| == |s| - 1;
    }
  }
}
