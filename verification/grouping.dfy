/** Python's `defaultdict(list)` filled by `d[key(x)].append(x)` over a list,
    kept as an insertion-ordered list of buckets (dicts iterate in insertion
    order). Elements whose key is `None` are skipped, as the scripts do with
    `continue`. */
module Grouping {
  import opened Wrappers
  import opened Seqs

  datatype Bucket<K, T> = Bucket(key: K, items: seq<T>)

  /** `list(d.keys())` */
  function Keys<K, T>(bs: seq<Bucket<K, T>>): (r: seq<K>)
    ensures |r| == |bs|
    ensures forall i :: 0 <= i < |bs| ==> r[i] == bs[i].key
  {
    seq(|bs|, i requires 0 <= i < |bs| => bs[i].key)
  }

  ghost predicate DistinctKeys<K, T>(bs: seq<Bucket<K, T>>) {
    forall i, j :: 0 <= i < j < |bs| ==> bs[i].key != bs[j].key
  }

  /** `d.get(k, [])` */
  function ItemsAt<K(==), T>(bs: seq<Bucket<K, T>>, k: K): seq<T> {
    if |bs| == 0 then []
    else if bs[0].key == k then bs[0].items
    else ItemsAt(bs[1..], k)
  }

  /** `d[k].append(x)`: extends the bucket for `k`, or opens one at the end. */
  function Append<K(==), T>(bs: seq<Bucket<K, T>>, k: K, x: T): seq<Bucket<K, T>> {
    if |bs| == 0 then [Bucket(k, [x])]
    else if bs[0].key == k then [bs[0].(items := bs[0].items + [x])] + bs[1..]
    else [bs[0]] + Append(bs[1..], k, x)
  }

  /** The predicate "is grouped at all". */
  function HasKey<T, K>(key: T -> Option<K>): T -> bool {
    x => key(x).Some?
  }

  /** The loop `for x in xs: if key(x) is not None: d[key(x)].append(x)`. */
  function GroupBy<T, K(==)>(xs: seq<T>, key: T -> Option<K>): seq<Bucket<K, T>>
    decreases |xs|
  {
    if |xs| == 0 then []
    else
      var x := xs[|xs| - 1];
      var bs := GroupBy(xs[..|xs| - 1], key);
      if key(x).Some? then Append(bs, key(x).value, x) else bs
  }

  /** `sum(len(v) for v in d.values())` */
  function TotalItems<K, T>(bs: seq<Bucket<K, T>>): nat {
    if |bs| == 0 then 0 else |bs[0].items| + TotalItems(bs[1..])
  }

  lemma {:induction false} AppendItemsAt<K, T>(bs: seq<Bucket<K, T>>, k: K, x: T, k': K)
    ensures ItemsAt(Append(bs, k, x), k') == ItemsAt(bs, k') + (if k' == k then [x] else [])
  {
    if |bs| > 0 && bs[0].key != k {
      AppendItemsAt(bs[1..], k, x, k');
    }
  }

  lemma {:induction false} AppendKeys<K, T>(bs: seq<Bucket<K, T>>, k: K, x: T)
    ensures Keys(Append(bs, k, x)) == Keys(bs) + (if k in Keys(bs) then [] else [k])
  {
    if |bs| > 0 {
      if bs[0].key != k {
        AppendKeys(bs[1..], k, x);
        assert Keys(bs) == [bs[0].key] + Keys(bs[1..]);
        assert k in Keys(bs) <==> k in Keys(bs[1..]);
      }
    }
  }

  lemma {:induction false} AppendTotal<K, T>(bs: seq<Bucket<K, T>>, k: K, x: T)
    ensures TotalItems(Append(bs, k, x)) == TotalItems(bs) + 1
  {
    if |bs| > 0 && bs[0].key != k {
      AppendTotal(bs[1..], k, x);
    }
  }

  /** The items of a bucket are all non-empty when every bucket was opened by an append. */
  ghost predicate NonEmptyBuckets<K, T>(bs: seq<Bucket<K, T>>) {
    forall i :: 0 <= i < |bs| ==> |bs[i].items| > 0
  }

  lemma {:induction false} AppendKeepsShape<K, T>(bs: seq<Bucket<K, T>>, k: K, x: T)
    requires DistinctKeys(bs) && NonEmptyBuckets(bs)
    ensures DistinctKeys(Append(bs, k, x)) && NonEmptyBuckets(Append(bs, k, x))
  {
    AppendKeys(bs, k, x);
    var r := Append(bs, k, x);
    assert Keys(r) == Keys(bs) + (if k in Keys(bs) then [] else [k]);
    forall i, j | 0 <= i < j < |r|
      ensures r[i].key != r[j].key
    {
      assert Keys(r)[i] == r[i].key && Keys(r)[j] == r[j].key;
      if j < |bs| {
        assert Keys(bs)[i] == bs[i].key && Keys(bs)[j] == bs[j].key;
      } else {
        assert Keys(bs)[i] == bs[i].key;
      }
    }
    AppendNonEmpty(bs, k, x);
  }

  lemma {:induction false} AppendNonEmpty<K, T>(bs: seq<Bucket<K, T>>, k: K, x: T)
    requires NonEmptyBuckets(bs)
    ensures NonEmptyBuckets(Append(bs, k, x))
  {
    if |bs| > 0 && bs[0].key != k {
      AppendNonEmpty(bs[1..], k, x);
    }
  }

  /** In a dict, each key's entry is the one `d[k]` finds. */
  lemma {:induction false} ItemsAtOwnKey<K, T>(bs: seq<Bucket<K, T>>, i: nat)
    requires DistinctKeys(bs) && i < |bs|
    ensures ItemsAt(bs, bs[i].key) == bs[i].items
  {
    if i > 0 {
      assert bs[0].key != bs[i].key;
      ItemsAtOwnKey(bs[1..], i - 1);
    }
  }

  lemma {:induction false} ItemsAtMissing<K, T>(bs: seq<Bucket<K, T>>, k: K)
    requires k !in Keys(bs)
    ensures ItemsAt(bs, k) == []
  {
    if |bs| > 0 {
      assert Keys(bs)[0] == bs[0].key;
      assert Keys(bs[1..]) == Keys(bs)[1..];
      ItemsAtMissing(bs[1..], k);
    }
  }

  /** `d.get(k, [])` after the loop is exactly `[x for x in xs if key(x) == k]`. */
  lemma {:induction false} GroupByItems<T, K>(xs: seq<T>, key: T -> Option<K>, k: K)
    ensures ItemsAt(GroupBy(xs, key), k) == Filter(xs, KeyIs(key, Some(k)))
    decreases |xs|
  {
    if |xs| > 0 {
      var init, x := xs[..|xs| - 1], xs[|xs| - 1];
      assert xs == init + [x];
      GroupByItems(init, key, k);
      FilterAppend(init, [x], KeyIs(key, Some(k)));
      if key(x).Some? {
        AppendItemsAt(GroupBy(init, key), key(x).value, x, k);
      }
    }
  }

  /** The keys are distinct and no bucket is empty. */
  lemma {:induction false} GroupByShape<T, K>(xs: seq<T>, key: T -> Option<K>)
    ensures DistinctKeys(GroupBy(xs, key)) && NonEmptyBuckets(GroupBy(xs, key))
    decreases |xs|
  {
    if |xs| > 0 {
      var init, x := xs[..|xs| - 1], xs[|xs| - 1];
      GroupByShape(init, key);
      if key(x).Some? {
        AppendKeepsShape(GroupBy(init, key), key(x).value, x);
      }
    }
  }

  /** A key is present exactly when some element carries it. */
  lemma GroupByKeys<T, K>(xs: seq<T>, key: T -> Option<K>, k: K)
    ensures k in Keys(GroupBy(xs, key)) <==> Filter(xs, KeyIs(key, Some(k))) != []
  {
    var bs := GroupBy(xs, key);
    GroupByItems(xs, key, k);
    GroupByShape(xs, key);
    if k in Keys(bs) {
      var i :| 0 <= i < |bs| && Keys(bs)[i] == k;
      ItemsAtOwnKey(bs, i);
    } else {
      ItemsAtMissing(bs, k);
    }
  }

  /** The whole grouping: distinct keys, each bucket holding exactly the
      elements with its key in their original order, and every keyed element
      in some bucket. */
  lemma GroupByContents<T, K>(xs: seq<T>, key: T -> Option<K>)
    ensures DistinctKeys(GroupBy(xs, key))
    ensures forall i :: 0 <= i < |GroupBy(xs, key)| ==>
      GroupBy(xs, key)[i].items == Filter(xs, KeyIs(key, Some(GroupBy(xs, key)[i].key))) != []
    ensures forall j :: 0 <= j < |xs| && key(xs[j]).Some? ==> key(xs[j]).value in Keys(GroupBy(xs, key))
  {
    var bs := GroupBy(xs, key);
    GroupByShape(xs, key);
    forall i | 0 <= i < |bs|
      ensures bs[i].items == Filter(xs, KeyIs(key, Some(bs[i].key))) != []
    {
      ItemsAtOwnKey(bs, i);
      GroupByItems(xs, key, bs[i].key);
    }
    forall j | 0 <= j < |xs| && key(xs[j]).Some?
      ensures key(xs[j]).value in Keys(bs)
    {
      assert xs[j] in Filter(xs, KeyIs(key, Some(key(xs[j]).value)));
      GroupByKeys(xs, key, key(xs[j]).value);
    }
  }

  /** The buckets partition the keyed elements: their sizes add up to the
      number of elements with a key. */
  lemma {:induction false} GroupByPartition<T, K>(xs: seq<T>, key: T -> Option<K>)
    ensures TotalItems(GroupBy(xs, key)) == Count(xs, HasKey(key))
    decreases |xs|
  {
    if |xs| > 0 {
      var init, x := xs[..|xs| - 1], xs[|xs| - 1];
      assert xs == init + [x];
      GroupByPartition(init, key);
      FilterAppend(init, [x], HasKey(key));
      if key(x).Some? {
        AppendTotal(GroupBy(init, key), key(x).value, x);
      }
    }
  }
}
