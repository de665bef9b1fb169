/** Python's `list.sort(key=...)` and `sorted(..., key=...)`: a stable sort by a
    key, for any key type whose `<` is a strict total order. */
module Ordering {
  import opened Wrappers
  import opened Seqs

  /** `lt` behaves like Python's `<` on a type whose values are totally ordered. */
  ghost predicate StrictTotalOrder<K(!new)>(lt: (K, K) -> bool) {
    && (forall a :: !lt(a, a))
    && (forall a, b, c :: lt(a, b) && lt(b, c) ==> lt(a, c))
    && (forall a, b :: a != b ==> lt(a, b) || lt(b, a))
  }

  /** No element's key is smaller than the key of an element before it. */
  ghost predicate Sorted<T, K>(s: seq<T>, key: T -> K, lt: (K, K) -> bool) {
    forall i, j :: 0 <= i < j < |s| ==> !lt(key(s[j]), key(s[i]))
  }

  /** `r` is what a stable sort of `s` by `key` returns: sorted, a permutation of `s`,
      and elements with equal keys in the order they had in `s`. */
  ghost predicate IsStableSortOf<T, K(!new)>(r: seq<T>, s: seq<T>, key: T -> K, lt: (K, K) -> bool) {
    && Sorted(r, key, lt)
    && multiset(r) == multiset(s)
    && forall k :: Filter(r, KeyIs(key, k)) == Filter(s, KeyIs(key, k))
  }

  /** Integer `<`, as a value that can be passed where an order is expected. */
  predicate IntLess(a: int, b: int) {
    a < b
  }

  /** Inserts `x`, which came before all of `s`, into the sorted `s`: it goes
      in front of the first element whose key is not smaller than its own. */
  function Insert<T, K>(x: T, s: seq<T>, key: T -> K, lt: (K, K) -> bool): (r: seq<T>)
    ensures |r| == |s| + 1
    ensures multiset(r) == multiset(s) + multiset{x}
  {
    if |s| == 0 || !lt(key(s[0]), key(x)) then [x] + s
    else
      assert s == [s[0]] + s[1..];
      [s[0]] + Insert(x, s[1..], key, lt)
  }

  /** Insertion sort: stable because each element is inserted before its equals. */
  function SortBy<T, K>(s: seq<T>, key: T -> K, lt: (K, K) -> bool): (r: seq<T>)
    ensures |r| == |s|
    ensures multiset(r) == multiset(s)
  {
    if |s| == 0 then []
    else
      assert s == [s[0]] + s[1..];
      Insert(s[0], SortBy(s[1..], key, lt), key, lt)
  }

  lemma IntLessIsStrictTotalOrder()
    ensures StrictTotalOrder(IntLess)
  {
  }

  lemma {:induction false} InsertSorted<T, K(!new)>(x: T, s: seq<T>, key: T -> K, lt: (K, K) -> bool)
    requires StrictTotalOrder(lt)
    requires Sorted(s, key, lt)
    ensures Sorted(Insert(x, s, key, lt), key, lt)
  {
    if |s| == 0 || !lt(key(s[0]), key(x)) {
      forall j | 0 < j < |[x] + s|
        ensures !lt(key(([x] + s)[j]), key(x))
      {
        if j > 1 {
          assert !lt(key(s[j - 1]), key(s[0]));
        }
      }
    } else {
      var t := Insert(x, s[1..], key, lt);
      InsertSorted(x, s[1..], key, lt);
      forall j | 0 <= j < |t|
        ensures !lt(key(t[j]), key(s[0]))
      {
        assert t[j] in multiset(t);
        if t[j] != x {
          assert t[j] in multiset(s[1..]);
          var m :| 0 <= m < |s[1..]| && s[1..][m] == t[j];
          assert s[m + 1] == t[j];
        }
      }
    }
  }

  lemma {:induction false} SortBySorted<T, K(!new)>(s: seq<T>, key: T -> K, lt: (K, K) -> bool)
    requires StrictTotalOrder(lt)
    ensures Sorted(SortBy(s, key, lt), key, lt)
  {
    if |s| > 0 {
      SortBySorted(s[1..], key, lt);
      InsertSorted(s[0], SortBy(s[1..], key, lt), key, lt);
    }
  }

  /** Inserting `x` keeps it ahead of every element with the same key. */
  lemma {:induction false} InsertStable<T, K(!new)>(x: T, s: seq<T>, key: T -> K, lt: (K, K) -> bool, k: K)
    requires forall a :: !lt(a, a)
    ensures Filter(Insert(x, s, key, lt), KeyIs(key, k)) == Filter([x] + s, KeyIs(key, k))
  {
    if |s| > 0 && lt(key(s[0]), key(x)) {
      var f := KeyIs(key, k);
      var rest := s[1..];
      var head, mid, tail := Filter([s[0]], f), Filter([x], f), Filter(rest, f);
      InsertStable(x, rest, key, lt, k);
      calc {
        Filter(Insert(x, s, key, lt), f);
        Filter([s[0]] + Insert(x, rest, key, lt), f);
        { FilterAppend([s[0]], Insert(x, rest, key, lt), f); }
        head + Filter(Insert(x, rest, key, lt), f);
        { FilterAppend([x], rest, f); }
        head + (mid + tail);
        { assert head == [] || mid == []; }
        mid + (head + tail);
        { FilterAppend([s[0]], rest, f); assert [s[0]] + rest == s; }
        mid + Filter(s, f);
        { FilterAppend([x], s, f); }
        Filter([x] + s, f);
      }
    }
  }

  lemma {:induction false} SortByStable<T, K(!new)>(s: seq<T>, key: T -> K, lt: (K, K) -> bool, k: K)
    requires forall a :: !lt(a, a)
    ensures Filter(SortBy(s, key, lt), KeyIs(key, k)) == Filter(s, KeyIs(key, k))
  {
    if |s| > 0 {
      var f := KeyIs(key, k);
      SortByStable(s[1..], key, lt, k);
      InsertStable(s[0], SortBy(s[1..], key, lt), key, lt, k);
      FilterAppend([s[0]], SortBy(s[1..], key, lt), f);
      FilterAppend([s[0]], s[1..], f);
      assert s == [s[0]] + s[1..];
    }
  }

  /** SortBy meets the full description of a stable sort. */
  lemma SortByIsStableSort<T, K(!new)>(s: seq<T>, key: T -> K, lt: (K, K) -> bool)
    requires StrictTotalOrder(lt)
    ensures IsStableSortOf(SortBy(s, key, lt), s, key, lt)
  {
    SortBySorted(s, key, lt);
    forall k {
      SortByStable(s, key, lt, k);
    }
  }

  lemma {:induction false} InsertSum<T, K>(x: T, s: seq<T>, key: T -> K, lt: (K, K) -> bool, f: T -> int)
    ensures SumOf(Insert(x, s, key, lt), f) == f(x) + SumOf(s, f)
  {
    if |s| > 0 && lt(key(s[0]), key(x)) {
      InsertSum(x, s[1..], key, lt, f);
    }
  }

  /** Sorting does not change a sum over the elements. */
  lemma {:induction false} SortBySum<T, K>(s: seq<T>, key: T -> K, lt: (K, K) -> bool, f: T -> int)
    ensures SumOf(SortBy(s, key, lt), f) == SumOf(s, f)
  {
    if |s| > 0 {
      SortBySum(s[1..], key, lt, f);
      InsertSum(s[0], SortBy(s[1..], key, lt), key, lt, f);
    }
  }

  /** No two elements share a key. */
  ghost predicate DistinctBy<T, K>(s: seq<T>, key: T -> K) {
    forall i, j :: 0 <= i < j < |s| ==> key(s[i]) != key(s[j])
  }

  lemma PermutationKeepsDistinctBy<T, K>(s: seq<T>, r: seq<T>, key: T -> K)
    requires DistinctBy(s, key) && multiset(r) == multiset(s)
    ensures DistinctBy(r, key)
  {
    assert Distinct(s);
    forall i, j | 0 <= i < j < |r|
      ensures key(r[i]) != key(r[j])
    {
      if r[i] == r[j] {
        RepeatMultiplicity(r, i, j);
        DistinctMultiplicity(s, r[i]);
      } else {
        assert r[i] in multiset(s) && r[j] in multiset(s);
        var a :| 0 <= a < |s| && s[a] == r[i];
        var b :| 0 <= b < |s| && s[b] == r[j];
      }
    }
  }

  /** Sorted with no shared keys means strictly ascending. */
  lemma SortedDistinctIsStrict<T, K(!new)>(s: seq<T>, key: T -> K, lt: (K, K) -> bool)
    requires StrictTotalOrder(lt) && Sorted(s, key, lt) && DistinctBy(s, key)
    ensures forall i, j :: 0 <= i < j < |s| ==> lt(key(s[i]), key(s[j]))
  {
  }
}
