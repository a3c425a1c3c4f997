// Counting and bucketing, as the statistics screens and the admin summary
// do it: one counter per bucket, zero when nothing falls into it.
module Tally {
  import opened Common

  /** The elements that pass `p` and land in bucket `k`. */
  function InBucket<T>(p: T -> bool, key: T -> int, k: int): T -> bool
  {
    x => p(x) && key(x) == k
  }

  /** The elements that pass `p` and land in one of the buckets `0 .. n - 1`. */
  function InBuckets<T>(p: T -> bool, key: T -> int, n: int): T -> bool
  {
    x => p(x) && 0 <= key(x) < n
  }

  /** Bucket counts `0 .. n - 1`, zero-filled. */
  function Buckets<T>(xs: seq<T>, p: T -> bool, key: T -> int, n: nat): (r: seq<nat>)
    ensures |r| == n
    ensures forall k :: 0 <= k < n ==> r[k] == Count(xs, InBucket(p, key, k))
  {
    if n == 0 then [] else Buckets(xs, p, key, n - 1) + [Count(xs, InBucket(p, key, n - 1))]
  }

  function Sum(s: seq<nat>): nat
  {
    if |s| == 0 then 0 else Sum(s[..|s| - 1]) + s[|s| - 1]
  }

  /** Counting a disjoint union adds the counts. */
  lemma {:induction false} CountDisjoint<T>(xs: seq<T>, p: T -> bool, q: T -> bool, r: T -> bool)
    requires forall x :: r(x) == (p(x) || q(x)) && !(p(x) && q(x))
    ensures Count(xs, r) == Count(xs, p) + Count(xs, q)
  {
    if |xs| > 0 {
      CountDisjoint(xs[1..], p, q, r);
    }
  }

  /** Predicates that agree everywhere count alike. */
  lemma {:induction false} CountSame<T>(xs: seq<T>, p: T -> bool, q: T -> bool)
    requires forall x :: p(x) == q(x)
    ensures Count(xs, p) == Count(xs, q)
  {
    if |xs| > 0 {
      CountSame(xs[1..], p, q);
    }
  }

  /** The buckets together hold every counted element once: the zero fill loses nothing. */
  lemma {:induction false} BucketsSum<T>(xs: seq<T>, p: T -> bool, key: T -> int, n: nat)
    ensures Sum(Buckets(xs, p, key, n)) == Count(xs, InBuckets(p, key, n))
  {
    if n == 0 {
      CountSame(xs, InBuckets(p, key, 0), x => false);
      NoneCounted(xs);
    } else {
      var b := Buckets(xs, p, key, n);
      assert b[..n - 1] == Buckets(xs, p, key, n - 1);
      BucketsSum(xs, p, key, n - 1);
      CountDisjoint(xs, InBuckets(p, key, n - 1), InBucket(p, key, n - 1), InBuckets(p, key, n));
    }
  }

  lemma NoneCounted<T>(xs: seq<T>)
    ensures Count(xs, x => false) == 0
  {
  }

  /** Replacing one element changes the count only by what that element contributes. */
  lemma {:induction false} CountUpdate<T>(xs: seq<T>, i: nat, x: T, p: T -> bool)
    requires i < |xs|
    ensures Count(xs[i := x], p) + (if p(xs[i]) then 1 else 0) == Count(xs, p) + (if p(x) then 1 else 0)
  {
    if i > 0 {
      assert xs[i := x][1..] == xs[1..][i - 1 := x];
      CountUpdate(xs[1..], i - 1, x, p);
    } else {
      assert xs[i := x][1..] == xs[1..];
    }
  }

  /** Appending one element adds what it contributes. */
  lemma {:induction false} CountAppendOne<T>(xs: seq<T>, x: T, p: T -> bool)
    ensures Count(xs + [x], p) == Count(xs, p) + (if p(x) then 1 else 0)
  {
    if |xs| > 0 {
      assert (xs + [x])[1..] == xs[1..] + [x];
      CountAppendOne(xs[1..], x, p);
    } else {
      assert (xs + [x])[1..] == [];
    }
  }

  /** The month names the charts label their twelve months with, January first. */
  const MonthNames: seq<string> := ["Jan", "Feb", "Mar", "Apr", "May", "Jun", "Jul", "Aug", "Sep", "Oct", "Nov", "Dec"]

  /** One entry of a chart series. */
  datatype Bucket = Bucket(name: string, count: nat)

  function BucketTotal(s: seq<Bucket>): nat
  {
    if |s| == 0 then 0 else BucketTotal(s[..|s| - 1]) + s[|s| - 1].count
  }

  lemma {:induction false} BucketTotalIsSum(s: seq<Bucket>, c: seq<nat>)
    requires |s| == |c| && forall i :: 0 <= i < |s| ==> s[i].count == c[i]
    ensures BucketTotal(s) == Sum(c)
  {
    if |s| > 0 {
      BucketTotalIsSum(s[..|s| - 1], c[..|c| - 1]);
    }
  }

  // ---------------------------------------------------------------------
  // Counting under string keys, as a JavaScript object does
  // ---------------------------------------------------------------------

  /** `counts[m] || 0` */
  function Get(counts: map<string, nat>, m: string): nat
  {
    if m in counts then counts[m] else 0
  }

  /** The elements whose key is `name`. */
  function KeyIs<T>(key: T -> Option<string>, name: string): T -> bool
  {
    x => key(x) == Some(name)
  }

  /** The keys of the elements that have one, in list order, repeats kept. */
  function Keyed<T>(xs: seq<T>, key: T -> Option<string>): seq<string>
  {
    if |xs| == 0 then []
    else (if key(xs[0]).Some? then [key(xs[0]).value] else []) + Keyed(xs[1..], key)
  }

  lemma {:induction false} KeyedMember<T>(xs: seq<T>, key: T -> Option<string>, name: string)
    ensures name in Keyed(xs, key) <==> Count(xs, KeyIs(key, name)) > 0
  {
    if |xs| > 0 {
      KeyedMember(xs[1..], key, name);
    }
  }

  lemma {:induction false} KeyedAppend<T>(xs: seq<T>, x: T, key: T -> Option<string>)
    ensures Keyed(xs + [x], key) == Keyed(xs, key) + (if key(x).Some? then [key(x).value] else [])
  {
    if |xs| > 0 {
      assert (xs + [x])[1..] == xs[1..] + [x];
      KeyedAppend(xs[1..], x, key);
    } else {
      assert (xs + [x])[1..] == [];
    }
  }

  /** The distinct elements of `s` in order of first occurrence: the key order of a JavaScript object. */
  function Distinct(s: seq<string>): seq<string>
  {
    if |s| == 0 then []
    else
      var d := Distinct(s[..|s| - 1]);
      if s[|s| - 1] in d then d else d + [s[|s| - 1]]
  }

  lemma {:induction false} DistinctMember(s: seq<string>, x: string)
    ensures x in Distinct(s) <==> x in s
  {
    if |s| > 0 {
      DistinctMember(s[..|s| - 1], x);
      assert x in s <==> x in s[..|s| - 1] || x == s[|s| - 1];
    }
  }

  lemma {:induction false} DistinctUnique(s: seq<string>)
    ensures forall i, j :: 0 <= i < j < |Distinct(s)| ==> Distinct(s)[i] != Distinct(s)[j]
  {
    if |s| > 0 {
      DistinctUnique(s[..|s| - 1]);
      DistinctMember(s[..|s| - 1], s[|s| - 1]);
    }
  }

  /** Appending one element to the input appends it to the result unless it was seen. */
  lemma DistinctAppend(s: seq<string>, x: string)
    ensures Distinct(s + [x]) == if x in Distinct(s) then Distinct(s) else Distinct(s) + [x]
  {
    assert (s + [x])[..|s|] == s;
  }

  /**
   * One step of `counts[k] = (counts[k] || 0) + 1` over a list: the counters
   * and the key order stay in line with the prefix read so far.
   */
  lemma KeyStep<T>(xs: seq<T>, i: nat, key: T -> Option<string>, k: Option<string>,
                   keys: seq<string>, counts: map<string, nat>, keys': seq<string>, counts': map<string, nat>)
    requires i < |xs| && k == key(xs[i])
    requires keys == Distinct(Keyed(xs[..i], key))
    requires forall name :: name in counts <==> name in keys
    requires forall name :: Get(counts, name) == Count(xs[..i], KeyIs(key, name))
    requires counts' == if k.Some? then counts[k.value := Get(counts, k.value) + 1] else counts
    requires keys' == if k.Some? && k.value !in counts then keys + [k.value] else keys
    ensures keys' == Distinct(Keyed(xs[..i + 1], key))
    ensures forall name :: name in counts' <==> name in keys'
    ensures forall name :: Get(counts', name) == Count(xs[..i + 1], KeyIs(key, name))
  {
    var p, x := xs[..i], xs[i];
    assert xs[..i + 1] == p + [x];
    forall name {
      CountAppendOne(p, x, KeyIs(key, name));
    }
    KeyedAppend(p, x, key);
    if key(x).Some? {
      DistinctAppend(Keyed(p, key), key(x).value);
    } else {
      assert Keyed(p, key) + [] == Keyed(p, key);
    }
  }

  /**
   * A `forEach` that bumps `counts[key(x)]` for every element with a key:
   * the counters, and the keys in the order they were first set.
   */
  method CountByKey<T>(xs: seq<T>, key: T -> Option<string>) returns (keys: seq<string>, counts: map<string, nat>)
    ensures keys == Distinct(Keyed(xs, key))
    ensures forall name :: name in counts <==> name in keys
    ensures forall name :: Get(counts, name) == Count(xs, KeyIs(key, name))
  {
    counts := map[];
    keys := [];
    for i := 0 to |xs|
      invariant keys == Distinct(Keyed(xs[..i], key))
      invariant forall name :: name in counts <==> name in keys
      invariant forall name :: Get(counts, name) == Count(xs[..i], KeyIs(key, name))
    {
      var k := key(xs[i]);
      ghost var keys0, counts0 := keys, counts;
      keys := if k.Some? && k.value !in counts then keys + [k.value] else keys;
      counts := if k.Some? then counts[k.value := Get(counts, k.value) + 1] else counts;
      KeyStep(xs, i, key, k, keys0, counts0, keys, counts);
    }
    assert xs[..|xs|] == xs;
  }
}
