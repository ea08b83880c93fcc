/** `list.sort(key=..., reverse=True)` on a string key: the sorted permutation,
    largest key first, computed by insertion. */
module Sorting {
  import opened Text
  import opened Seqs

  /** Every element's key is at least the key of every element after it. */
  ghost predicate SortedDesc<T>(s: seq<T>, key: T -> string)
  {
    forall i, j :: 0 <= i < j < |s| ==> StrLe(key(s[j]), key(s[i]))
  }

  /** Inserts `x` into a descending sequence after every element whose key is at
      least `key(x)`, so equal keys keep their arrival order. */
  function InsertDesc<T>(x: T, s: seq<T>, key: T -> string): (r: seq<T>)
    requires SortedDesc(s, key)
    ensures SortedDesc(r, key)
    ensures multiset(r) == multiset(s) + multiset{x}
    ensures |r| == |s| + 1
    decreases |s|
  {
    if |s| == 0 then [x]
    else
      var pre := s[..|s| - 1];
      var last := s[|s| - 1];
      if StrLe(key(x), key(last)) then
        AppendSmallest(s, x, key);
        s + [x]
      else
        StrLeTotal(key(x), key(last));
        var front := InsertDesc(x, pre, key);
        AppendAfterInsert(s, front, x, key);
        front + [last]
  }

  /** An element whose key is at most the last key may go at the end. */
  lemma AppendSmallest<T>(s: seq<T>, x: T, key: T -> string)
    requires |s| > 0 && SortedDesc(s, key)
    requires StrLe(key(x), key(s[|s| - 1]))
    ensures SortedDesc(s + [x], key)
  {
    var last := s[|s| - 1];
    forall i | 0 <= i < |s| ensures StrLe(key(x), key(s[i])) {
      if i < |s| - 1 {
        StrLeTransitive(key(x), key(last), key(s[i]));
      }
    }
    assert forall i :: 0 <= i < |s| ==> (s + [x])[i] == s[i];
  }

  /** The last element of a descending `s`, put after the front with `x`
      inserted, when its key is at most `key(x)`. */
  lemma AppendAfterInsert<T>(s: seq<T>, front: seq<T>, x: T, key: T -> string)
    requires |s| > 0 && SortedDesc(s, key)
    requires StrLe(key(s[|s| - 1]), key(x))
    requires SortedDesc(front, key)
    requires multiset(front) == multiset(s[..|s| - 1]) + multiset{x}
    ensures SortedDesc(front + [s[|s| - 1]], key)
    ensures multiset(front + [s[|s| - 1]]) == multiset(s) + multiset{x}
  {
    var pre := s[..|s| - 1];
    var last := s[|s| - 1];
    var r := front + [last];
    forall i | 0 <= i < |front| ensures StrLe(key(last), key(r[i])) {
      assert r[i] == front[i];
      var y := front[i];
      assert y in multiset(front);
      if y != x {
        assert y in multiset(pre);
        var k :| 0 <= k < |pre| && pre[k] == y;
        assert s[k] == y;
      }
    }
    assert forall i :: 0 <= i < |front| ==> r[i] == front[i];
    assert s == pre + [last];
  }

  /** The sorted permutation of `s`, largest key first. */
  function SortDesc<T>(s: seq<T>, key: T -> string): (r: seq<T>)
    ensures SortedDesc(r, key)
    ensures multiset(r) == multiset(s)
    ensures |r| == |s|
    decreases |s|
  {
    if |s| == 0 then []
    else
      assert s == s[..|s| - 1] + [s[|s| - 1]];
      InsertDesc(s[|s| - 1], SortDesc(s[..|s| - 1], key), key)
  }

  /** The test "has key `k`". */
  function HasKey<T>(key: T -> string, k: string): T -> bool
  {
    x => key(x) == k
  }

  /** Inserting `x` puts it after every element of its own key. */
  lemma {:induction false} InsertDescStable<T(!new)>(x: T, s: seq<T>, key: T -> string, k: string)
    requires SortedDesc(s, key)
    ensures Filter(HasKey(key, k), InsertDesc(x, s, key))
            == Filter(HasKey(key, k), s) + (if key(x) == k then [x] else [])
    decreases |s|
  {
    var p := HasKey(key, k);
    if |s| == 0 {
      FilterSnoc(p, [], x);
    } else {
      var pre := s[..|s| - 1];
      var last := s[|s| - 1];
      if StrLe(key(x), key(last)) {
        FilterSnoc(p, s, x);
      } else {
        InsertDescStable(x, pre, key, k);
        StrLeReflexive(key(x));
        FrontLast(s);
        StableStep(p, pre, last, InsertDesc(x, pre, key), x);
      }
    }
  }

  /** Appending `last` after the insertion point, when `x` and `last` are not
      both selected. */
  lemma StableStep<T(!new)>(p: T -> bool, pre: seq<T>, last: T, front: seq<T>, x: T)
    requires Filter(p, front) == Filter(p, pre) + (if p(x) then [x] else [])
    requires !(p(x) && p(last))
    ensures Filter(p, front + [last]) == Filter(p, pre + [last]) + (if p(x) then [x] else [])
  {
    FilterSnoc(p, front, last);
    FilterSnoc(p, pre, last);
  }

  /** The sort is stable: the elements of any one key keep their input order. */
  lemma {:induction false} SortDescStable<T(!new)>(s: seq<T>, key: T -> string, k: string)
    ensures Filter(HasKey(key, k), SortDesc(s, key)) == Filter(HasKey(key, k), s)
    decreases |s|
  {
    if |s| > 0 {
      var pre := s[..|s| - 1];
      var last := s[|s| - 1];
      SortDescStable(pre, key, k);
      InsertDescStable(last, SortDesc(pre, key), key, k);
      FrontLast(s);
      FilterSnoc(HasKey(key, k), pre, last);
    }
  }
}
