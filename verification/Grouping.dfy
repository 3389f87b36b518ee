/** Splitting a sequence by a key, and what adding up over the parts gives. */
module Grouping {
  import opened Sums

  function KeysOf<T>(xs: seq<T>, keyOf: T -> string): set<string> {
    set i | 0 <= i < |xs| :: keyOf(xs[i])
  }

  /** The elements with one key, in order. */
  function Bucket<T>(xs: seq<T>, keyOf: T -> string, key: string): seq<T> {
    if |xs| == 0 then []
    else
      Bucket(xs[..|xs| - 1], keyOf, key)
      + if keyOf(xs[|xs| - 1]) == key then [xs[|xs| - 1]] else []
  }

  function BucketSum<T>(xs: seq<T>, keyOf: T -> string, f: T -> real): string -> real {
    key => SumSeq(Bucket(xs, keyOf, key), f)
  }

  lemma KeysOfSnoc<T>(xs: seq<T>, x: T, keyOf: T -> string)
    ensures KeysOf(xs + [x], keyOf) == KeysOf(xs, keyOf) + {keyOf(x)}
  {
    var all := xs + [x];
    assert all[|xs|] == x;
    assert forall i :: 0 <= i < |xs| ==> all[i] == xs[i];
    forall k | k in KeysOf(xs, keyOf)
      ensures k in KeysOf(all, keyOf)
    {
      var i :| 0 <= i < |xs| && keyOf(xs[i]) == k;
      assert keyOf(all[i]) == k;
    }
  }

  lemma BucketSnoc<T>(xs: seq<T>, x: T, keyOf: T -> string, key: string)
    ensures Bucket(xs + [x], keyOf, key) == Bucket(xs, keyOf, key) + if keyOf(x) == key then [x] else []
  {
    assert (xs + [x])[..|xs|] == xs;
  }

  lemma {:induction false} NoKeyNoBucket<T>(xs: seq<T>, keyOf: T -> string, key: string)
    requires key !in KeysOf(xs, keyOf)
    ensures Bucket(xs, keyOf, key) == []
  {
    if |xs| == 0 {
    } else {
      assert xs == xs[..|xs| - 1] + [xs[|xs| - 1]];
      KeysOfSnoc(xs[..|xs| - 1], xs[|xs| - 1], keyOf);
      NoKeyNoBucket(xs[..|xs| - 1], keyOf, key);
    }
  }

  /** Taking in element `i` extends the bucket of its key and no other. */
  lemma BucketsSnoc<T>(xs: seq<T>, x: T, keyOf: T -> string)
    ensures KeysOf(xs + [x], keyOf) == KeysOf(xs, keyOf) + {keyOf(x)}
    ensures keyOf(x) !in KeysOf(xs, keyOf) ==> Bucket(xs, keyOf, keyOf(x)) == []
    ensures Bucket(xs + [x], keyOf, keyOf(x)) == Bucket(xs, keyOf, keyOf(x)) + [x]
    ensures forall k :: k != keyOf(x) ==> Bucket(xs + [x], keyOf, k) == Bucket(xs, keyOf, k)
  {
    hide Bucket, KeysOf;
    KeysOfSnoc(xs, x, keyOf);
    BucketSnoc(xs, x, keyOf, keyOf(x));
    if keyOf(x) !in KeysOf(xs, keyOf) {
      NoKeyNoBucket(xs, keyOf, keyOf(x));
    }
    forall k | k != keyOf(x)
      ensures Bucket(xs + [x], keyOf, k) == Bucket(xs, keyOf, k)
    {
      BucketSnoc(xs, x, keyOf, k);
      assert Bucket(xs, keyOf, k) + [] == Bucket(xs, keyOf, k);
    }
  }

  lemma BucketSumSnoc<T>(xs: seq<T>, x: T, keyOf: T -> string, f: T -> real, key: string)
    ensures BucketSum(xs + [x], keyOf, f)(key)
         == BucketSum(xs, keyOf, f)(key) + if key == keyOf(x) then f(x) else 0.0
  {
    hide SumSeq, Bucket;
    BucketSnoc(xs, x, keyOf, key);
    if key == keyOf(x) {
      SumSeqSnoc(Bucket(xs, keyOf, key), x, f);
    } else {
      assert Bucket(xs, keyOf, key) + [] == Bucket(xs, keyOf, key);
    }
  }

  lemma UnseenKeySumsToNothing<T>(xs: seq<T>, keyOf: T -> string, f: T -> real, key: string)
    requires key !in KeysOf(xs, keyOf)
    ensures BucketSum(xs, keyOf, f)(key) == 0.0
  {
    NoKeyNoBucket(xs, keyOf, key);
  }

  lemma PartitionStep<T>(xs: seq<T>, x: T, keyOf: T -> string, f: T -> real)
    ensures SumSet(KeysOf(xs + [x], keyOf), BucketSum(xs + [x], keyOf, f))
         == SumSet(KeysOf(xs, keyOf), BucketSum(xs, keyOf, f)) + f(x)
  {
    hide SumSet, BucketSum, KeysOf;
    var k, was, now := keyOf(x), BucketSum(xs, keyOf, f), BucketSum(xs + [x], keyOf, f);
    KeysOfSnoc(xs, x, keyOf);
    forall key
      ensures now(key) == was(key) + if key == k then f(x) else 0.0
    {
      BucketSumSnoc(xs, x, keyOf, f, key);
    }
    if k in KeysOf(xs, keyOf) {
      assert KeysOf(xs + [x], keyOf) == KeysOf(xs, keyOf);
      SumSetChange(KeysOf(xs, keyOf), was, now, k);
    } else {
      SumSetAdd(KeysOf(xs, keyOf), now, k);
      SumSetSame(KeysOf(xs, keyOf), now, was);
      UnseenKeySumsToNothing(xs, keyOf, f, k);
    }
  }

  lemma NothingToGroup<T>(keyOf: T -> string, f: T -> real)
    ensures SumSet(KeysOf([], keyOf), BucketSum([], keyOf, f)) == 0.0 && SumSeq([], f) == 0.0
  {
    assert KeysOf([], keyOf) == {};
  }

  /** Whatever is added up element by element, the buckets add up to the whole. */
  lemma {:induction false} BucketsPartition<T>(xs: seq<T>, keyOf: T -> string, f: T -> real)
    ensures SumSet(KeysOf(xs, keyOf), BucketSum(xs, keyOf, f)) == SumSeq(xs, f)
  {
    hide SumSet, SumSeq, BucketSum, KeysOf;
    if |xs| == 0 {
      NothingToGroup(keyOf, f);
      assert xs == [];
    } else {
      var before, x := xs[..|xs| - 1], xs[|xs| - 1];
      assert xs == before + [x];
      BucketsPartition(before, keyOf, f);
      PartitionStep(before, x, keyOf, f);
      SumSeqSnoc(before, x, f);
    }
  }

  // ----- permutations

  lemma {:induction false} BucketCounts<T>(xs: seq<T>, keyOf: T -> string, key: string, x: T)
    ensures multiset(Bucket(xs, keyOf, key))[x] == if keyOf(x) == key then multiset(xs)[x] else 0
  {
    if |xs| == 0 {
    } else {
      var before, last := xs[..|xs| - 1], xs[|xs| - 1];
      assert xs == before + [last];
      assert multiset(xs) == multiset(before) + multiset{last};
      BucketCounts(before, keyOf, key, x);
    }
  }

  lemma BucketPermutes<T(!new)>(a: seq<T>, b: seq<T>, keyOf: T -> string, key: string)
    requires multiset(a) == multiset(b)
    ensures multiset(Bucket(a, keyOf, key)) == multiset(Bucket(b, keyOf, key))
  {
    forall x
      ensures multiset(Bucket(a, keyOf, key))[x] == multiset(Bucket(b, keyOf, key))[x]
    {
      BucketCounts(a, keyOf, key, x);
      BucketCounts(b, keyOf, key, x);
    }
  }

  lemma BucketAmong<T>(xs: seq<T>, keyOf: T -> string, key: string)
    ensures forall i :: 0 <= i < |Bucket(xs, keyOf, key)| ==> Bucket(xs, keyOf, key)[i] in xs
  {
    forall i | 0 <= i < |Bucket(xs, keyOf, key)|
      ensures Bucket(xs, keyOf, key)[i] in xs
    {
      var x := Bucket(xs, keyOf, key)[i];
      assert x in multiset(Bucket(xs, keyOf, key));
      BucketCounts(xs, keyOf, key, x);
      assert x in multiset(xs);
    }
  }

  lemma SameElements<T>(a: seq<T>, b: seq<T>)
    requires multiset(a) == multiset(b)
    ensures |a| == |b|
    ensures forall i :: 0 <= i < |a| ==> a[i] in b
  {
    assert |a| == |multiset(a)| == |multiset(b)| == |b|;
    forall i | 0 <= i < |a|
      ensures a[i] in b
    {
      assert a[i] in multiset(a);
      assert a[i] in multiset(b);
    }
  }

  lemma KeysAmong<T>(a: seq<T>, b: seq<T>, keyOf: T -> string)
    requires forall i :: 0 <= i < |a| ==> a[i] in b
    ensures KeysOf(a, keyOf) <= KeysOf(b, keyOf)
  {
    forall k | k in KeysOf(a, keyOf)
      ensures k in KeysOf(b, keyOf)
    {
      var i :| 0 <= i < |a| && keyOf(a[i]) == k;
      var j :| 0 <= j < |b| && b[j] == a[i];
      assert keyOf(b[j]) == k;
    }
  }
}
