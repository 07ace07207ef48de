/** Lookup, order-preserving filtering, grouping and summing over sequences. */
module Seqs {
  import opened Wrappers

  /** `findIndex(x => key(x) === k)`: the first index whose key is `k`, if any. */
  function IndexOf<T, K(==)>(s: seq<T>, key: T -> K, k: K): (r: Option<nat>)
    ensures r.Some? ==> r.value < |s| && key(s[r.value]) == k
    ensures r.Some? ==> forall j :: 0 <= j < r.value ==> key(s[j]) != k
    ensures r.None? ==> forall j :: 0 <= j < |s| ==> key(s[j]) != k
  {
    if s == [] then None
    else if key(s[0]) == k then Some(0)
    else match IndexOf(s[1..], key, k)
      case None => None
      case Some(i) => Some(i + 1)
  }

  /** An element appended under a key nobody has is found at the end. */
  lemma {:induction false} IndexOfAppended<T, K>(s: seq<T>, x: T, key: T -> K)
    requires forall i :: 0 <= i < |s| ==> key(s[i]) != key(x)
    ensures IndexOf(s + [x], key, key(x)) == Some(|s|)
  {
    if s != [] {
      assert (s + [x])[1..] == s[1..] + [x];
      IndexOfAppended(s[1..], x, key);
    }
  }

  /** Lookup depends only on the keys, in order. */
  lemma {:induction false} IndexOfSameKeys<T, K>(a: seq<T>, b: seq<T>, key: T -> K, k: K)
    requires |a| == |b| && forall j :: 0 <= j < |a| ==> key(a[j]) == key(b[j])
    ensures IndexOf(a, key, k) == IndexOf(b, key, k)
  {
    if a != [] {
      IndexOfSameKeys(a[1..], b[1..], key, k);
    }
  }

  /** The elements of `s` whose key is `k`, in their original order. */
  function Having<T, K(==)>(s: seq<T>, key: T -> K, k: K): seq<T>
  {
    if s == [] then []
    else (if key(s[0]) == k then [s[0]] else []) + Having(s[1..], key, k)
  }

  /** The selection is no longer than the input and holds exactly the elements with key `k`. */
  lemma {:induction false} HavingSpec<T, K>(s: seq<T>, key: T -> K, k: K)
    ensures |Having(s, key, k)| <= |s|
    ensures forall x :: x in Having(s, key, k) <==> x in s && key(x) == k
  {
    if s != [] {
      HavingSpec(s[1..], key, k);
      assert s == [s[0]] + s[1..];
    }
  }

  /** Filtering distributes over concatenation: it keeps the relative order. */
  lemma {:induction false} HavingConcat<T, K>(a: seq<T>, b: seq<T>, key: T -> K, k: K)
    ensures Having(a + b, key, k) == Having(a, key, k) + Having(b, key, k)
  {
    if a == [] {
      assert a + b == b;
    } else {
      var cabeza := if key(a[0]) == k then [a[0]] else [];
      assert (a + b)[1..] == a[1..] + b;
      HavingConcat(a[1..], b, key, k);
      assert Having(a + b, key, k) == cabeza + Having(a[1..] + b, key, k);
      assert Having(a, key, k) == cabeza + Having(a[1..], key, k);
    }
  }

  /** Two keys that select the same elements select the same subsequence. */
  lemma {:induction false} HavingSameSelection<T, K1, K2>(s: seq<T>, key1: T -> K1, k1: K1, key2: T -> K2, k2: K2)
    requires forall i :: 0 <= i < |s| ==> (key1(s[i]) == k1 <==> key2(s[i]) == k2)
    ensures Having(s, key1, k1) == Having(s, key2, k2)
  {
    if s != [] {
      HavingSameSelection(s[1..], key1, k1, key2, k2);
    }
  }

  /** When every element has key `k`, selecting `k` keeps the whole sequence. */
  lemma {:induction false} HavingAll<T, K>(s: seq<T>, key: T -> K, k: K)
    requires forall i :: 0 <= i < |s| ==> key(s[i]) == k
    ensures Having(s, key, k) == s
  {
    if s != [] {
      HavingAll(s[1..], key, k);
      assert s == [s[0]] + s[1..];
    }
  }

  /** When no element has key `k`, selecting `k` keeps nothing. */
  lemma {:induction false} HavingNone<T, K>(s: seq<T>, key: T -> K, k: K)
    requires forall i :: 0 <= i < |s| ==> key(s[i]) != k
    ensures Having(s, key, k) == []
  {
    if s != [] {
      HavingNone(s[1..], key, k);
    }
  }

  /** `s.filter(p)`: the elements satisfying `p`, in order. */
  function Filter<T>(s: seq<T>, p: T -> bool): seq<T> {
    Having(s, p, true)
  }

  /** The elements of `s` whose key is not `k`, in their original order. */
  function Without<T, K(==)>(s: seq<T>, key: T -> K, k: K): (r: seq<T>)
    ensures |r| <= |s|
    ensures forall i :: 0 <= i < |r| ==> r[i] in s && key(r[i]) != k
    ensures forall i :: 0 <= i < |s| && key(s[i]) != k ==> s[i] in r
  {
    if s == [] then []
    else (if key(s[0]) != k then [s[0]] else []) + Without(s[1..], key, k)
  }

  /** Every element is selected by exactly one of `Having` and `Without`. */
  lemma {:induction false} HavingWithoutSplit<T, K>(s: seq<T>, key: T -> K, k: K)
    ensures |Having(s, key, k)| + |Without(s, key, k)| == |s|
  {
    if s != [] {
      HavingWithoutSplit(s[1..], key, k);
    }
  }

  /** Removing a key no element has keeps the sequence. */
  lemma {:induction false} WithoutAbsent<T, K>(s: seq<T>, key: T -> K, k: K)
    requires forall i :: 0 <= i < |s| ==> key(s[i]) != k
    ensures Without(s, key, k) == s
  {
    if s != [] {
      WithoutAbsent(s[1..], key, k);
    }
  }

  lemma {:induction false} WithoutConcat<T, K>(a: seq<T>, b: seq<T>, key: T -> K, k: K)
    ensures Without(a + b, key, k) == Without(a, key, k) + Without(b, key, k)
  {
    if a == [] {
      assert a + b == b;
    } else {
      assert (a + b)[1..] == a[1..] + b;
      WithoutConcat(a[1..], b, key, k);
    }
  }

  /** The number of elements of `s` whose key is `k`. */
  function CountHaving<T, K(==)>(s: seq<T>, key: T -> K, k: K): nat {
    |Having(s, key, k)|
  }

  /** Sum of `f` over the elements of `s`. */
  function SumOf<T>(s: seq<T>, f: T -> int): int {
    if s == [] then 0 else f(s[0]) + SumOf(s[1..], f)
  }

  lemma {:induction false} SumOfConcat<T>(a: seq<T>, b: seq<T>, f: T -> int)
    ensures SumOf(a + b, f) == SumOf(a, f) + SumOf(b, f)
  {
    if a == [] {
      assert a + b == b;
    } else {
      assert (a + b)[1..] == a[1..] + b;
      SumOfConcat(a[1..], b, f);
    }
  }

  /**
   * Groups `s` by key into an object of arrays: every element lands in the
   * bucket of its key, and a bucket exists only for a key some element has.
   */
  function GroupBy<T, K(==)>(s: seq<T>, key: T -> K): (m: map<K, seq<T>>)
    ensures forall i :: 0 <= i < |s| ==> key(s[i]) in m
    ensures forall k :: k in m ==> m[k] != [] && m[k] == Having(s, key, k)
  {
    if s == [] then map[]
    else
      var m0 := GroupBy(s[1..], key);
      GroupByCons(s, key, m0);
      m0[key(s[0]) := [s[0]] + (if key(s[0]) in m0 then m0[key(s[0])] else [])]
  }

  /** Adding the first element in front of its bucket extends the grouping of the tail. */
  lemma GroupByCons<T, K>(s: seq<T>, key: T -> K, m0: map<K, seq<T>>)
    requires s != []
    requires forall i :: 0 <= i < |s| - 1 ==> key(s[1..][i]) in m0
    requires forall k :: k in m0 ==> m0[k] != [] && m0[k] == Having(s[1..], key, k)
    ensures var m := m0[key(s[0]) := [s[0]] + (if key(s[0]) in m0 then m0[key(s[0])] else [])];
      && (forall i :: 0 <= i < |s| ==> key(s[i]) in m)
      && (forall k :: k in m ==> m[k] != [] && m[k] == Having(s, key, k))
  {
    var m := m0[key(s[0]) := [s[0]] + (if key(s[0]) in m0 then m0[key(s[0])] else [])];
    forall i | 0 <= i < |s| ensures key(s[i]) in m {
      if i > 0 {
        assert s[i] == s[1..][i - 1];
      }
    }
    forall k | k in m ensures m[k] != [] && m[k] == Having(s, key, k) {
      if k !in m0 {
        GroupByNoBucket(s[1..], key, m0, k);
      }
    }
  }

  /** A key without a bucket selects nothing. */
  lemma GroupByNoBucket<T, K>(s: seq<T>, key: T -> K, m: map<K, seq<T>>, k: K)
    requires forall i :: 0 <= i < |s| ==> key(s[i]) in m
    requires k !in m
    ensures Having(s, key, k) == []
  {
  }
}
