/** Order-preserving selections over sequences: `Array.prototype.filter`, a
    list-comprehension `if`, and first-occurrence de-duplication as done with a
    JavaScript `Map`/`Set` or a Python dict that is filled while scanning. */
module Seqs {

  /** `a` is obtained from `b` by deleting zero or more elements. */
  ghost predicate IsSubseq<T>(a: seq<T>, b: seq<T>)
    decreases |b|
  {
    if |a| == 0 then true
    else if |b| == 0 then false
    else (a[|a| - 1] == b[|b| - 1] && IsSubseq(a[..|a| - 1], b[..|b| - 1]))
         || IsSubseq(a, b[..|b| - 1])
  }

  /** A non-empty sequence is its front followed by its last element. */
  lemma FrontLast<T>(s: seq<T>)
    requires |s| > 0
    ensures s == s[..|s| - 1] + [s[|s| - 1]]
  {
  }

  /** Appending a non-empty sequence is appending its front, then its last element. */
  lemma AppendFrontLast<T>(x: seq<T>, b: seq<T>)
    requires |b| > 0
    ensures x + b == (x + b[..|b| - 1]) + [b[|b| - 1]]
  {
  }

  lemma {:induction false} SubseqOfSelf<T>(s: seq<T>)
    ensures IsSubseq(s, s)
    decreases |s|
  {
    if |s| > 0 {
      SubseqOfSelf(s[..|s| - 1]);
    }
  }

  lemma {:induction false} SubseqEmpty<T>(s: seq<T>)
    ensures IsSubseq([], s)
  {
  }

  /** Elements of a subsequence are elements of the whole, and it is no longer. */
  lemma {:induction false} SubseqElements<T>(a: seq<T>, b: seq<T>)
    requires IsSubseq(a, b)
    ensures |a| <= |b|
    ensures forall x :: x in a ==> x in b
    decreases |b|
  {
    if |a| > 0 {
      if a[|a| - 1] == b[|b| - 1] && IsSubseq(a[..|a| - 1], b[..|b| - 1]) {
        SubseqElements(a[..|a| - 1], b[..|b| - 1]);
        assert a == a[..|a| - 1] + [a[|a| - 1]];
        assert b == b[..|b| - 1] + [b[|b| - 1]];
      } else {
        SubseqElements(a, b[..|b| - 1]);
        assert b == b[..|b| - 1] + [b[|b| - 1]];
      }
    }
  }

  /** The elements of `s` that satisfy `p`, in their original order. */
  function Filter<T(!new)>(p: T -> bool, s: seq<T>): (r: seq<T>)
    ensures |r| <= |s|
    ensures forall i :: 0 <= i < |r| ==> p(r[i])
    ensures forall x :: x in r <==> x in s && p(x)
    ensures IsSubseq(r, s)
    decreases |s|
  {
    if |s| == 0 then []
    else
      var init := Filter(p, s[..|s| - 1]);
      var last := s[|s| - 1];
      FrontLast(s);
      if p(last) then
        var r := init + [last];
        assert r[..|r| - 1] == init;
        r
      else init
  }

  /** Filtering keeps every occurrence of a passing value and none of a failing one. */
  lemma {:induction false} FilterCount<T(!new)>(p: T -> bool, s: seq<T>, x: T)
    ensures multiset(Filter(p, s))[x] == if p(x) then multiset(s)[x] else 0
    decreases |s|
  {
    if |s| > 0 {
      var pre := s[..|s| - 1];
      var last := s[|s| - 1];
      FilterCount(p, pre, x);
      FrontLast(s);
      FilterSnoc(p, pre, last);
      assert multiset(s) == multiset(pre) + multiset{last};
    }
  }

  /** Filtering a sequence extended by one element. */
  lemma FilterSnoc<T(!new)>(p: T -> bool, s: seq<T>, x: T)
    ensures Filter(p, s + [x]) == Filter(p, s) + (if p(x) then [x] else [])
  {
    assert (s + [x])[..|s|] == s;
  }

  /** Filtering keeps everything exactly when every element passes. */
  lemma {:induction false} FilterAll<T(!new)>(p: T -> bool, s: seq<T>)
    requires forall i :: 0 <= i < |s| ==> p(s[i])
    ensures Filter(p, s) == s
    decreases |s|
  {
    if |s| > 0 {
      FilterAll(p, s[..|s| - 1]);
      FrontLast(s);
      FilterSnoc(p, s[..|s| - 1], s[|s| - 1]);
    }
  }

  /** Filtering distributes over concatenation. */
  lemma {:induction false} FilterAppend<T(!new)>(p: T -> bool, a: seq<T>, b: seq<T>)
    ensures Filter(p, a + b) == Filter(p, a) + Filter(p, b)
    decreases |b|
  {
    if |b| == 0 {
      assert a + b == a;
    } else {
      var b' := b[..|b| - 1];
      assert (a + b)[..|a + b| - 1] == a + b';
      FilterAppend(p, a, b');
    }
  }

  /** Splitting by a predicate and by its negation accounts for every element. */
  lemma {:induction false} FilterComplement<T(!new)>(p: T -> bool, q: T -> bool, s: seq<T>)
    requires forall x :: q(x) == !p(x)
    ensures |Filter(p, s)| + |Filter(q, s)| == |s|
    decreases |s|
  {
    if |s| > 0 {
      FilterComplement(p, q, s[..|s| - 1]);
    }
  }

  /** Filtering after a map is mapping after filtering, when the two tests agree
      through the map. */
  lemma {:induction false} FilterMap<T(!new), U(!new)>(p: U -> bool, q: T -> bool, f: T -> U, s: seq<T>)
    requires forall x :: q(x) == p(f(x))
    ensures Filter(p, Map(f, s)) == Map(f, Filter(q, s))
    decreases |s|
  {
    if |s| > 0 {
      var pre := s[..|s| - 1];
      var x := s[|s| - 1];
      assert s == pre + [x];
      FilterMap(p, q, f, pre);
      FilterMapSnoc(p, q, f, pre, x);
    }
  }

  lemma FilterMapSnoc<T(!new), U(!new)>(p: U -> bool, q: T -> bool, f: T -> U, pre: seq<T>, x: T)
    requires q(x) == p(f(x))
    requires Filter(p, Map(f, pre)) == Map(f, Filter(q, pre))
    ensures Filter(p, Map(f, pre + [x])) == Map(f, Filter(q, pre + [x]))
  {
    MapAppend(f, pre, [x]);
    assert Map(f, [x]) == [f(x)];
    FilterSnoc(p, Map(f, pre), f(x));
    FilterSnoc(q, pre, x);
    if q(x) {
      MapAppend(f, Filter(q, pre), [x]);
    } else {
      assert Filter(q, pre + [x]) == Filter(q, pre);
    }
  }

  /** The set of keys that occur in `s`. */
  function KeySet<T, K(==)>(s: seq<T>, key: T -> K): set<K>
  {
    set i | 0 <= i < |s| :: key(s[i])
  }

  lemma KeySetMember<T, K>(s: seq<T>, key: T -> K, x: T)
    requires x in s
    ensures key(x) in KeySet(s, key)
  {
    var i :| 0 <= i < |s| && s[i] == x;
  }

  lemma KeySetSnoc<T, K>(s: seq<T>, x: T, key: T -> K)
    ensures KeySet(s + [x], key) == KeySet(s, key) + {key(x)}
  {
    var t := s + [x];
    assert t[|s|] == x;
    assert forall i :: 0 <= i < |s| ==> t[i] == s[i];
  }

  /** `x` occurs in `s`, and no element before that occurrence shares its key:
      the element a first-insertion map would keep for `key(x)`. */
  ghost predicate IsFirstWithKey<T, K>(s: seq<T>, key: T -> K, x: T)
  {
    exists k :: 0 <= k < |s| && s[k] == x && forall m :: 0 <= m < k ==> key(s[m]) != key(x)
  }

  lemma FirstWithKeyExtends<T, K>(s: seq<T>, t: seq<T>, key: T -> K, x: T)
    requires IsFirstWithKey(s, key, x)
    ensures IsFirstWithKey(s + t, key, x)
  {
    var k :| 0 <= k < |s| && s[k] == x && forall m :: 0 <= m < k ==> key(s[m]) != key(x);
    assert (s + t)[k] == x;
    assert forall m :: 0 <= m < k ==> (s + t)[m] == s[m];
  }

  /** The position of the first element of `s` whose key is `k`, or `|s|` when
      there is none. */
  function FirstIndex<T, K(==)>(s: seq<T>, key: T -> K, k: K): (r: nat)
    ensures r <= |s|
    ensures r < |s| ==> key(s[r]) == k
    ensures forall m :: 0 <= m < r ==> key(s[m]) != k
    decreases |s|
  {
    if |s| == 0 then 0
    else if key(s[0]) == k then 0
    else
      var r := 1 + FirstIndex(s[1..], key, k);
      assert forall m :: 1 <= m < r ==> s[m] == s[1..][m - 1];
      r
  }

  /** The three properties of `FirstIndex` pin it down. */
  lemma FirstIndexUnique<T, K>(s: seq<T>, key: T -> K, k: K, i: nat)
    requires i <= |s|
    requires i < |s| ==> key(s[i]) == k
    requires forall m :: 0 <= m < i ==> key(s[m]) != k
    ensures FirstIndex(s, key, k) == i
  {
  }

  /** A key occurs exactly when its first position lies inside the sequence. */
  lemma FirstIndexPresent<T, K>(s: seq<T>, key: T -> K, k: K)
    ensures k in KeySet(s, key) <==> FirstIndex(s, key, k) < |s|
  {
    if k in KeySet(s, key) {
      var i :| 0 <= i < |s| && key(s[i]) == k;
    }
  }

  /** Appending elements does not move the first position of a key already present. */
  lemma FirstIndexExtends<T, K>(s: seq<T>, t: seq<T>, key: T -> K, k: K)
    requires k in KeySet(s, key)
    ensures FirstIndex(s + t, key, k) == FirstIndex(s, key, k)
  {
    FirstIndexPresent(s, key, k);
    var i := FirstIndex(s, key, k);
    assert forall m :: 0 <= m <= i ==> (s + t)[m] == s[m];
    FirstIndexUnique(s + t, key, k, i);
  }

  /** The key of an element appended to a sequence without it sits at the end. */
  lemma FirstIndexNew<T, K>(s: seq<T>, x: T, key: T -> K)
    requires key(x) !in KeySet(s, key)
    ensures FirstIndex(s + [x], key, key(x)) == |s|
  {
    forall m | 0 <= m < |s| ensures key((s + [x])[m]) != key(x) {
      assert (s + [x])[m] == s[m];
      KeySetMember(s, key, s[m]);
    }
    FirstIndexUnique(s + [x], key, key(x), |s|);
  }

  /** The keys of `r` come in the order in which they first occur in `s`. */
  ghost predicate InFirstOrder<T, K>(r: seq<T>, s: seq<T>, key: T -> K)
  {
    forall i, j :: 0 <= i < j < |r| ==> FirstIndex(s, key, key(r[i])) < FirstIndex(s, key, key(r[j]))
  }

  /** The order of keys already present survives appending to `s`. */
  lemma OrderExtends<T, K>(r: seq<T>, s: seq<T>, x: T, key: T -> K)
    requires KeySet(r, key) <= KeySet(s, key)
    requires InFirstOrder(r, s, key)
    ensures InFirstOrder(r, s + [x], key)
    ensures forall i :: 0 <= i < |r| ==> FirstIndex(s + [x], key, key(r[i])) < |s|
  {
    forall i | 0 <= i < |r|
      ensures FirstIndex(s + [x], key, key(r[i])) == FirstIndex(s, key, key(r[i])) < |s|
    {
      KeySetMember(r, key, r[i]);
      FirstIndexExtends(s, [x], key, key(r[i]));
      FirstIndexPresent(s, key, key(r[i]));
    }
  }

  /** An element whose key is new to `s` keeps the order when appended to both. */
  lemma OrderKeep<T, K>(r: seq<T>, s: seq<T>, x: T, key: T -> K)
    requires KeySet(r, key) <= KeySet(s, key)
    requires InFirstOrder(r, s, key)
    requires key(x) !in KeySet(s, key)
    ensures InFirstOrder(r + [x], s + [x], key)
  {
    OrderExtends(r, s, x, key);
    FirstIndexNew(s, x, key);
    var r' := r + [x];
    forall i, j | 0 <= i < j < |r'|
      ensures FirstIndex(s + [x], key, key(r'[i])) < FirstIndex(s + [x], key, key(r'[j]))
    {
      assert r'[i] == r[i];
      if j < |r| {
        assert r'[j] == r[j];
      }
    }
  }

  /** The scan `for item of s: if key(item) not in seen: seen.add(key(item)); keep item`,
      started from an already-populated `seen`. It keeps, in input order, the
      first item of each key not in `seen`. */
  function DedupeFrom<T, K(==)>(s: seq<T>, key: T -> K, seen: set<K>): (r: seq<T>)
    ensures IsSubseq(r, s)
    ensures |r| <= |s|
    ensures forall i, j :: 0 <= i < j < |r| ==> key(r[i]) != key(r[j])
    ensures KeySet(r, key) == KeySet(s, key) - seen
    ensures forall i :: 0 <= i < |r| ==> IsFirstWithKey(s, key, r[i])
    ensures InFirstOrder(r, s, key)
    decreases |s|
  {
    if |s| == 0 then []
    else
      var pre := s[..|s| - 1];
      var last := s[|s| - 1];
      var init := DedupeFrom(pre, key, seen);
      FrontLast(s);
      if key(last) in seen || key(last) in KeySet(init, key) then
        DedupeSkip(init, pre, last, key, seen);
        OrderExtends(init, pre, last, key);
        init
      else
        DedupeKeep(init, pre, last, key, seen);
        OrderKeep(init, pre, last, key);
        init + [last]
  }

  /** An item whose key was seen before is dropped. */
  lemma DedupeSkip<T, K>(init: seq<T>, pre: seq<T>, last: T, key: T -> K, seen: set<K>)
    requires IsSubseq(init, pre)
    requires KeySet(init, key) == KeySet(pre, key) - seen
    requires forall i :: 0 <= i < |init| ==> IsFirstWithKey(pre, key, init[i])
    requires key(last) in seen || key(last) in KeySet(init, key)
    ensures IsSubseq(init, pre + [last])
    ensures KeySet(init, key) == KeySet(pre + [last], key) - seen
    ensures forall i :: 0 <= i < |init| ==> IsFirstWithKey(pre + [last], key, init[i])
  {
    KeySetSnoc(pre, last, key);
    SubseqExtend(init, pre, last);
    FirstsExtend(init, pre, [last], key);
  }

  /** An item with a new key is kept, and is the first with that key. */
  lemma DedupeKeep<T, K>(init: seq<T>, pre: seq<T>, last: T, key: T -> K, seen: set<K>)
    requires IsSubseq(init, pre)
    requires forall i, j :: 0 <= i < j < |init| ==> key(init[i]) != key(init[j])
    requires KeySet(init, key) == KeySet(pre, key) - seen
    requires forall i :: 0 <= i < |init| ==> IsFirstWithKey(pre, key, init[i])
    requires key(last) !in seen && key(last) !in KeySet(init, key)
    ensures IsSubseq(init + [last], pre + [last])
    ensures forall i, j :: 0 <= i < j < |init + [last]| ==> key((init + [last])[i]) != key((init + [last])[j])
    ensures KeySet(init + [last], key) == KeySet(pre + [last], key) - seen
    ensures forall i :: 0 <= i < |init + [last]| ==> IsFirstWithKey(pre + [last], key, (init + [last])[i])
  {
    KeepSubseq(init, pre, last);
    KeepDistinct(init, last, key);
    KeepKeySet(init, pre, last, key, seen);
    KeepFirsts(init, pre, last, key, seen);
  }

  lemma KeepSubseq<T>(init: seq<T>, pre: seq<T>, last: T)
    requires IsSubseq(init, pre)
    ensures IsSubseq(init + [last], pre + [last])
  {
    var r := init + [last];
    assert r[..|r| - 1] == init;
    assert (pre + [last])[..|pre|] == pre;
  }

  lemma KeepKeySet<T, K>(init: seq<T>, pre: seq<T>, last: T, key: T -> K, seen: set<K>)
    requires KeySet(init, key) == KeySet(pre, key) - seen
    requires key(last) !in seen
    ensures KeySet(init + [last], key) == KeySet(pre + [last], key) - seen
  {
    KeySetSnoc(pre, last, key);
    KeySetSnoc(init, last, key);
    AddKeyOutsideSeen(KeySet(init, key), KeySet(pre, key), seen, key(last));
  }

  lemma KeepFirsts<T, K>(init: seq<T>, pre: seq<T>, last: T, key: T -> K, seen: set<K>)
    requires KeySet(init, key) == KeySet(pre, key) - seen
    requires forall i :: 0 <= i < |init| ==> IsFirstWithKey(pre, key, init[i])
    requires key(last) !in seen && key(last) !in KeySet(init, key)
    ensures forall i :: 0 <= i < |init + [last]| ==> IsFirstWithKey(pre + [last], key, (init + [last])[i])
  {
    var r := init + [last];
    KeepFirst(pre, last, key);
    FirstsExtend(init, pre, [last], key);
    forall i | 0 <= i < |r| ensures IsFirstWithKey(pre + [last], key, r[i]) {
      if i < |init| {
        assert r[i] == init[i];
      }
    }
  }

  lemma AddKeyOutsideSeen<K>(a: set<K>, b: set<K>, seen: set<K>, k: K)
    requires a == b - seen && k !in seen
    ensures a + {k} == (b + {k}) - seen
  {
  }

  lemma KeepDistinct<T, K>(init: seq<T>, last: T, key: T -> K)
    requires forall i, j :: 0 <= i < j < |init| ==> key(init[i]) != key(init[j])
    requires key(last) !in KeySet(init, key)
    ensures forall i, j :: 0 <= i < j < |init + [last]| ==> key((init + [last])[i]) != key((init + [last])[j])
  {
    var r := init + [last];
    forall i, j | 0 <= i < j < |r| ensures key(r[i]) != key(r[j]) {
      assert r[i] == init[i];
      if j == |init| {
        KeySetMember(init, key, init[i]);
      } else {
        assert r[j] == init[j];
      }
    }
  }

  lemma KeepFirst<T, K>(pre: seq<T>, last: T, key: T -> K)
    requires key(last) !in KeySet(pre, key)
    ensures IsFirstWithKey(pre + [last], key, last)
  {
    var s := pre + [last];
    assert s[|pre|] == last;
    forall m | 0 <= m < |pre| ensures key(s[m]) != key(last) {
      assert s[m] == pre[m];
      KeySetMember(pre, key, pre[m]);
    }
  }

  lemma SubseqExtend<T>(a: seq<T>, b: seq<T>, x: T)
    requires IsSubseq(a, b)
    ensures IsSubseq(a, b + [x])
  {
    assert (b + [x])[..|b|] == b;
  }

  lemma FirstsExtend<T, K>(r: seq<T>, s: seq<T>, t: seq<T>, key: T -> K)
    requires forall i :: 0 <= i < |r| ==> IsFirstWithKey(s, key, r[i])
    ensures forall i :: 0 <= i < |r| ==> IsFirstWithKey(s + t, key, r[i])
  {
    forall i | 0 <= i < |r| ensures IsFirstWithKey(s + t, key, r[i]) {
      FirstWithKeyExtends(s, t, key, r[i]);
    }
  }

  /** First-occurrence de-duplication by key, starting from nothing seen. */
  function DedupeBy<T, K(==)>(s: seq<T>, key: T -> K): (r: seq<T>)
    ensures IsSubseq(r, s)
    ensures |r| <= |s|
    ensures forall i, j :: 0 <= i < j < |r| ==> key(r[i]) != key(r[j])
    ensures KeySet(r, key) == KeySet(s, key)
    ensures forall i :: 0 <= i < |r| ==> IsFirstWithKey(s, key, r[i])
    ensures InFirstOrder(r, s, key)
  {
    DedupeFrom(s, key, {})
  }

  /** A sequence whose keys are already pairwise distinct is left as it is. */
  lemma {:induction false} DedupeDistinct<T, K>(s: seq<T>, key: T -> K, seen: set<K>)
    requires forall i, j :: 0 <= i < j < |s| ==> key(s[i]) != key(s[j])
    requires forall i :: 0 <= i < |s| ==> key(s[i]) !in seen
    ensures DedupeFrom(s, key, seen) == s
    decreases |s|
  {
    if |s| > 0 {
      var pre := s[..|s| - 1];
      var last := s[|s| - 1];
      DedupeDistinct(pre, key, seen);
      LastKeyNew(s, key);
      assert DedupeFrom(s, key, seen) == DedupeFrom(pre, key, seen) + [last];
    }
  }

  lemma LastKeyNew<T, K>(s: seq<T>, key: T -> K)
    requires |s| > 0
    requires forall i, j :: 0 <= i < j < |s| ==> key(s[i]) != key(s[j])
    ensures key(s[|s| - 1]) !in KeySet(s[..|s| - 1], key)
  {
    var pre := s[..|s| - 1];
    forall i | 0 <= i < |pre| ensures key(pre[i]) != key(s[|s| - 1]) {
      assert pre[i] == s[i];
    }
  }

  /** De-duplicating twice is the same as de-duplicating once. */
  lemma DedupeIdempotent<T, K>(s: seq<T>, key: T -> K)
    ensures DedupeBy(DedupeBy(s, key), key) == DedupeBy(s, key)
  {
    DedupeDistinct(DedupeBy(s, key), key, {});
  }

  function Itself<T>(x: T): T
  {
    x
  }

  /** `[...new Set(s)]`: each value once, in the order of its first occurrence. */
  function Distinct<T(==,!new)>(s: seq<T>): (r: seq<T>)
    ensures IsSubseq(r, s)
    ensures forall i, j :: 0 <= i < j < |r| ==> r[i] != r[j]
    ensures forall x :: x in r <==> x in s
    ensures InFirstOrder(r, s, Itself)
  {
    var r := DedupeBy(s, Itself);
    assert forall x :: x in r <==> x in s by {
      forall x ensures x in r <==> x in s {
        if x in r { KeySetMember(r, Itself, x); }
        if x in s { KeySetMember(s, Itself, x); }
      }
    }
    r
  }

  /** The first position of a value in a mapped sequence is the first position of
      an element mapped to it. */
  lemma FirstIndexMap<T, U>(f: T -> U, s: seq<T>, u: U)
    ensures FirstIndex(Map(f, s), Itself, u) == FirstIndex(s, f, u)
  {
    FirstIndexUnique(Map(f, s), Itself, u, FirstIndex(s, f, u));
  }

  lemma MapAppend<T, U>(f: T -> U, a: seq<T>, b: seq<T>)
    ensures Map(f, a + b) == Map(f, a) + Map(f, b)
  {
  }

  /** `data.map(f)`. */
  function Map<T, U>(f: T -> U, s: seq<T>): (r: seq<U>)
    ensures |r| == |s|
    ensures forall i :: 0 <= i < |s| ==> r[i] == f(s[i])
  {
    seq(|s|, i requires 0 <= i < |s| => f(s[i]))
  }
}
