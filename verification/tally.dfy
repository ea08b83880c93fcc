/** Counting records by key: the `reduce((acc, item) => { acc[k] = (acc[k] || 0) + 1 }, {})`
    histograms and the `filter(...).length` counts of the dashboard charts. */
module Tally {
  import opened Seqs

  /** The number of items of `s` whose key is `k`. */
  function CountKey<T, K(==)>(s: seq<T>, key: T -> K, k: K): (n: nat)
    ensures n <= |s|
    ensures n > 0 <==> k in KeySet(s, key)
    decreases |s|
  {
    if |s| == 0 then 0
    else
      var pre := s[..|s| - 1];
      assert s == pre + [s[|s| - 1]];
      KeySetSnoc(pre, s[|s| - 1], key);
      CountKey(pre, key, k) + (if key(s[|s| - 1]) == k then 1 else 0)
  }

  /** One more item adds one to the count of its own key only. */
  lemma CountKeySnoc<T, K>(s: seq<T>, x: T, key: T -> K, k: K)
    ensures CountKey(s + [x], key, k) == CountKey(s, key, k) + (if key(x) == k then 1 else 0)
  {
    assert (s + [x])[..|s|] == s;
  }

  /** The histogram built by the `reduce`: one entry per key, its value the number
      of items carrying it. */
  function Histogram<T, K(==)>(s: seq<T>, key: T -> K): (h: map<K, nat>)
    ensures h.Keys == KeySet(s, key)
    ensures forall k :: k in h ==> h[k] == CountKey(s, key, k)
    ensures forall k :: k in h ==> h[k] >= 1
    decreases |s|
  {
    if |s| == 0 then map[]
    else
      var pre := s[..|s| - 1];
      var k := key(s[|s| - 1]);
      var h0 := Histogram(pre, key);
      assert s == pre + [s[|s| - 1]];
      KeySetSnoc(pre, s[|s| - 1], key);
      h0[k := (if k in h0 then h0[k] else 0) + 1]
  }

  /** The sum of the counts of the keys listed in `ks`. */
  function SumCounts<T, K(==)>(s: seq<T>, key: T -> K, ks: seq<K>): nat
    decreases |ks|
  {
    if |ks| == 0 then 0 else CountKey(s, key, ks[0]) + SumCounts(s, key, ks[1..])
  }

  /** The sum of the values a map gives the keys listed in `ks`
      (`Object.values(...)` added up). */
  function SumValues<K>(h: map<K, nat>, ks: seq<K>): nat
    requires forall i :: 0 <= i < |ks| ==> ks[i] in h
    decreases |ks|
  {
    if |ks| == 0 then 0 else h[ks[0]] + SumValues(h, ks[1..])
  }

  /** How many times `v` is listed in `ks`. */
  function Occurrences<K(==)>(ks: seq<K>, v: K): nat
    decreases |ks|
  {
    if |ks| == 0 then 0 else (if ks[0] == v then 1 else 0) + Occurrences(ks[1..], v)
  }

  /** A value is listed once in a duplicate-free list that holds it, else never. */
  lemma {:induction false} OccurrencesDistinct<K>(ks: seq<K>, v: K)
    requires forall i, j :: 0 <= i < j < |ks| ==> ks[i] != ks[j]
    ensures Occurrences(ks, v) == if v in ks then 1 else 0
    decreases |ks|
  {
    if |ks| > 0 {
      OccurrencesDistinct(ks[1..], v);
      if ks[0] == v {
        assert forall j :: 0 <= j < |ks[1..]| ==> ks[1..][j] == ks[j + 1];
        assert v !in ks[1..];
      } else {
        assert v in ks <==> v in ks[1..] by {
          assert ks == [ks[0]] + ks[1..];
        }
      }
    }
  }

  /** Appending one item adds one to the sum for every listing of its key. */
  lemma {:induction false} SumCountsSnoc<T, K>(s: seq<T>, x: T, key: T -> K, ks: seq<K>)
    ensures SumCounts(s + [x], key, ks) == SumCounts(s, key, ks) + Occurrences(ks, key(x))
    decreases |ks|
  {
    if |ks| > 0 {
      SumCountsSnoc(s, x, key, ks[1..]);
      assert (s + [x])[..|s + [x]| - 1] == s;
    }
  }

  /** Summing the counts over a duplicate-free list of keys that covers every key
      present gives the number of items: each item is counted exactly once. */
  lemma {:induction false} SumCountsCovering<T, K>(s: seq<T>, key: T -> K, ks: seq<K>)
    requires forall i, j :: 0 <= i < j < |ks| ==> ks[i] != ks[j]
    requires forall k :: k in KeySet(s, key) ==> k in ks
    ensures SumCounts(s, key, ks) == |s|
    decreases |s|
  {
    if |s| == 0 {
      SumCountsEmpty(s, key, ks);
    } else {
      var pre := s[..|s| - 1];
      var x := s[|s| - 1];
      assert s == pre + [x];
      KeySetSnoc(pre, x, key);
      SumCountsCovering(pre, key, ks);
      SumCountsSnoc(pre, x, key, ks);
      OccurrencesDistinct(ks, key(x));
    }
  }

  lemma {:induction false} SumCountsEmpty<T, K>(s: seq<T>, key: T -> K, ks: seq<K>)
    requires |s| == 0
    ensures SumCounts(s, key, ks) == 0
    decreases |ks|
  {
    if |ks| > 0 {
      SumCountsEmpty(s, key, ks[1..]);
    }
  }

  /** Over the histogram's own keys, in first-occurrence order (the order
      `Object.keys` lists them), the counts add up to the number of items. */
  lemma HistogramTotal<T, K(!new)>(s: seq<T>, key: T -> K)
    ensures forall i :: 0 <= i < |Distinct(Map(key, s))| ==> Distinct(Map(key, s))[i] in Histogram(s, key)
    ensures SumValues(Histogram(s, key), Distinct(Map(key, s))) == |s|
  {
    var h := Histogram(s, key);
    var ks := Distinct(Map(key, s));
    assert forall k :: k in ks <==> k in KeySet(s, key) by {
      forall k ensures k in ks <==> k in KeySet(s, key) {
        if k in KeySet(s, key) {
          var i :| 0 <= i < |s| && key(s[i]) == k;
          assert Map(key, s)[i] == k;
        }
      }
    }
    SumValuesIsSumCounts(s, key, ks);
    SumCountsCovering(s, key, ks);
  }

  lemma {:induction false} SumValuesIsSumCounts<T, K>(s: seq<T>, key: T -> K, ks: seq<K>)
    requires forall i :: 0 <= i < |ks| ==> ks[i] in Histogram(s, key)
    ensures SumValues(Histogram(s, key), ks) == SumCounts(s, key, ks)
    decreases |ks|
  {
    if |ks| > 0 {
      SumValuesIsSumCounts(s, key, ks[1..]);
    }
  }
}
