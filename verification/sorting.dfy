/**
 * Stable sorting by an integer pair key, compared lexicographically.
 * Array.prototype.sort is stable, so a comparator that orders by one field
 * and breaks ties by another sorts by the pair of both fields and keeps
 * elements with equal pairs in their input order.
 */
module Sorting {
  import opened Seqs

  type Key = (int, int)

  predicate KeyLe(a: Key, b: Key) {
    a.0 < b.0 || (a.0 == b.0 && a.1 <= b.1)
  }

  predicate SortedBy<T>(s: seq<T>, key: T -> Key) {
    forall i, j :: 0 <= i < j < |s| ==> KeyLe(key(s[i]), key(s[j]))
  }

  /** Inserts `x` before the first element whose key is not below its own. */
  function Insert<T>(x: T, s: seq<T>, key: T -> Key): (r: seq<T>)
    ensures multiset(r) == multiset(s) + multiset{x}
    ensures |r| == |s| + 1
  {
    if s == [] then [x]
    else if KeyLe(key(x), key(s[0])) then [x] + s
    else
      assert s == [s[0]] + s[1..];
      [s[0]] + Insert(x, s[1..], key)
  }

  /** Inserting into a sorted sequence keeps it sorted. */
  lemma {:induction false} InsertSorted<T>(x: T, s: seq<T>, key: T -> Key)
    requires SortedBy(s, key)
    ensures SortedBy(Insert(x, s, key), key)
  {
    if s != [] && !KeyLe(key(x), key(s[0])) {
      var t := Insert(x, s[1..], key);
      InsertSorted(x, s[1..], key);
      forall j | 0 <= j < |t| ensures KeyLe(key(s[0]), key(t[j])) {
        assert t[j] in multiset(s[1..]) + multiset{x};
        if t[j] != x {
          var m :| 0 <= m < |s[1..]| && s[1..][m] == t[j];
          assert s[m + 1] == t[j];
        }
      }
      assert Insert(x, s, key) == [s[0]] + t;
    }
  }

  /** Stable insertion sort, ascending by key. */
  function SortBy<T>(s: seq<T>, key: T -> Key): (r: seq<T>)
    ensures SortedBy(r, key)
    ensures multiset(r) == multiset(s)
    ensures |r| == |s|
  {
    if s == [] then []
    else
      assert s == [s[0]] + s[1..];
      InsertSorted(s[0], SortBy(s[1..], key), key);
      Insert(s[0], SortBy(s[1..], key), key)
  }

  lemma {:induction false} InsertKeepsTies<T>(x: T, s: seq<T>, key: T -> Key, k: Key)
    ensures Having(Insert(x, s, key), key, k)
         == (if key(x) == k then [x] else []) + Having(s, key, k)
  {
    if s == [] {
      assert Insert(x, s, key) == [x] + s;
      HavingConcat([x], s, key, k);
    } else if KeyLe(key(x), key(s[0])) {
      assert Insert(x, s, key) == [x] + s;
      HavingConcat([x], s, key, k);
    } else {
      var t := Insert(x, s[1..], key);
      var hx: seq<T> := if key(x) == k then [x] else [];
      var hs: seq<T> := if key(s[0]) == k then [s[0]] else [];
      assert Insert(x, s, key) == [s[0]] + t;
      InsertKeepsTies(x, s[1..], key, k);
      assert Having(t, key, k) == hx + Having(s[1..], key, k);
      assert Having([s[0]] + t, key, k) == hs + Having(t, key, k) by {
        HavingConcat([s[0]], t, key, k);
      }
      assert Having(s, key, k) == hs + Having(s[1..], key, k);
      // Equal keys would have put `x` first, so at most one of the two heads is selected.
      assert hx == [] || hs == [];
      CabezasConmutan(hx, hs, Having(s[1..], key, k));
    }
  }

  /** Two prefixes of which at most one is non-empty can be prepended in either order. */
  lemma CabezasConmutan<T>(hx: seq<T>, hs: seq<T>, resto: seq<T>)
    requires hx == [] || hs == []
    ensures hs + (hx + resto) == hx + (hs + resto)
  {
    if hx == [] {
      assert hx + resto == resto;
      assert hx + (hs + resto) == hs + resto;
    } else {
      assert hs + (hx + resto) == hx + resto;
      assert hs + resto == resto;
    }
  }

  /** Stability: the elements sharing a key appear in the output in input order. */
  lemma {:induction false} SortStable<T>(s: seq<T>, key: T -> Key, k: Key)
    ensures Having(SortBy(s, key), key, k) == Having(s, key, k)
  {
    if s != [] {
      SortStable(s[1..], key, k);
      InsertKeepsTies(s[0], SortBy(s[1..], key), key, k);
    }
  }
}
