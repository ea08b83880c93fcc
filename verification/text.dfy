/** The string operations the collector and the dashboard apply to command
    output and record fields: prefix tests, character replacement, case
    mapping, `strip`, `split(sep)`, whitespace `split()`, `int(...)` and the
    ordering of strings. Strings are sequences of code points; case mapping and
    whitespace are modelled for the ASCII range. */
module Text {
  import opened Wrappers
  import opened Seqs

  /** Python's `str.isspace` restricted to ASCII: space, \t, \n, \v, \f, \r and
      the four separators \x1c-\x1f. */
  predicate IsSpace(c: char)
  {
    c == ' ' || ('\t' <= c <= '\r') || ('\U{1C}' <= c <= '\U{1F}')
  }

  predicate NoSpace(s: string)
  {
    forall k :: 0 <= k < |s| ==> !IsSpace(s[k])
  }

  /** `s.startswith(prefix)` / `s.startsWith(prefix)`. */
  predicate StartsWith(s: string, prefix: string)
  {
    |prefix| <= |s| && s[..|prefix|] == prefix
  }

  /** `s.replace(from, to)` for single characters. */
  function ReplaceChar(s: string, from: char, to: char): (r: string)
    ensures |r| == |s|
    ensures forall i :: 0 <= i < |s| ==> r[i] == if s[i] == from then to else s[i]
    ensures from != to ==> from !in r
  {
    Map(c => if c == from then to else c, s)
  }

  /** `s.replace(c, '')`: every occurrence of `c` removed, the rest kept in order. */
  function RemoveChar(s: string, c: char): (r: string)
    ensures c !in r
    ensures forall x :: x != c ==> multiset(r)[x] == multiset(s)[x]
    ensures IsSubseq(r, s)
    ensures c !in s ==> r == s
  {
    var keep := x => x != c;
    var r := Filter(keep, s);
    assert forall x :: x != c ==> multiset(r)[x] == multiset(s)[x] by {
      forall x | x != c ensures multiset(r)[x] == multiset(s)[x] {
        FilterCount(keep, s, x);
      }
    }
    if c !in s then
      FilterAll(keep, s);
      r
    else r
  }

  function UpperChar(c: char): char
  {
    if 'a' <= c <= 'z' then (c as int - 32) as char else c
  }

  function LowerChar(c: char): char
  {
    if 'A' <= c <= 'Z' then (c as int + 32) as char else c
  }

  /** `s.upper()` on ASCII letters. */
  function Upper(s: string): (r: string)
    ensures |r| == |s|
    ensures forall i :: 0 <= i < |s| ==> r[i] == UpperChar(s[i])
    ensures forall i :: 0 <= i < |r| ==> !('a' <= r[i] <= 'z')
  {
    Map(UpperChar, s)
  }

  /** `s.lower()` on ASCII letters. */
  function Lower(s: string): (r: string)
    ensures |r| == |s|
    ensures forall i :: 0 <= i < |s| ==> r[i] == LowerChar(s[i])
    ensures forall i :: 0 <= i < |r| ==> !('A' <= r[i] <= 'Z')
  {
    Map(LowerChar, s)
  }

  // ---------------------------------------------------------------------------
  // strip

  function TrimStart(s: string): (r: string)
    ensures |r| <= |s| && r == s[|s| - |r|..]
    ensures forall k :: 0 <= k < |s| - |r| ==> IsSpace(s[k])
    ensures |r| > 0 ==> !IsSpace(r[0])
    decreases |s|
  {
    if |s| > 0 && IsSpace(s[0]) then TrimStart(s[1..]) else s
  }

  function TrimEnd(s: string): (r: string)
    ensures |r| <= |s| && r == s[..|r|]
    ensures forall k :: |r| <= k < |s| ==> IsSpace(s[k])
    ensures |r| > 0 ==> !IsSpace(r[|r| - 1])
    decreases |s|
  {
    if |s| > 0 && IsSpace(s[|s| - 1]) then TrimEnd(s[..|s| - 1]) else s
  }

  /** `r` is `s` with its leading and trailing whitespace cut off. */
  ghost predicate IsStripOf(r: string, s: string)
  {
    && (|r| == 0 || (!IsSpace(r[0]) && !IsSpace(r[|r| - 1])))
    && exists i, j :: 0 <= i <= j <= |s| && r == s[i..j]
                      && (forall k :: 0 <= k < i ==> IsSpace(s[k]))
                      && (forall k :: j <= k < |s| ==> IsSpace(s[k]))
  }

  /** `s.strip()`. */
  function Strip(s: string): (r: string)
    ensures IsStripOf(r, s)
  {
    var t := TrimStart(s);
    var r := TrimEnd(t);
    StripParts(s, t, r);
    r
  }

  /** What `TrimStart` and then `TrimEnd` guarantee is what `strip` promises. */
  lemma StripParts(s: string, t: string, r: string)
    requires |t| <= |s| && t == s[|s| - |t|..]
    requires forall k :: 0 <= k < |s| - |t| ==> IsSpace(s[k])
    requires |t| > 0 ==> !IsSpace(t[0])
    requires |r| <= |t| && r == t[..|r|]
    requires forall k :: |r| <= k < |t| ==> IsSpace(t[k])
    requires |r| > 0 ==> !IsSpace(r[|r| - 1])
    ensures IsStripOf(r, s)
  {
    var i := |s| - |t|;
    var j := i + |r|;
    assert r == s[i..j];
    forall k | j <= k < |s| ensures IsSpace(s[k]) {
      assert s[k] == t[k - i];
    }
    assert |r| > 0 ==> r[0] == t[0];
  }

  /** Stripping a string that has no surrounding whitespace leaves it as it is. */
  lemma StripUnpadded(s: string)
    requires |s| == 0 || (!IsSpace(s[0]) && !IsSpace(s[|s| - 1]))
    ensures Strip(s) == s
  {
  }

  lemma StripIdempotent(s: string)
    ensures Strip(Strip(s)) == Strip(s)
  {
    StripUnpadded(Strip(s));
  }

  // ---------------------------------------------------------------------------
  // split(sep) and join

  /** `sep.join(parts)`. */
  function Join(parts: seq<string>, sep: char): (r: string)
    requires |parts| >= 1
    decreases |parts|
  {
    if |parts| == 1 then parts[0]
    else Join(parts[..|parts| - 1], sep) + [sep] + parts[|parts| - 1]
  }

  /** The parts with `c` added to the end of the last one. */
  function AppendToLast(parts: seq<string>, c: char): (r: seq<string>)
    requires |parts| >= 1
    ensures |r| == |parts|
  {
    parts[..|parts| - 1] + [parts[|parts| - 1] + [c]]
  }

  lemma JoinExtendLast(parts: seq<string>, sep: char, c: char)
    requires |parts| >= 1
    ensures Join(AppendToLast(parts, c), sep) == Join(parts, sep) + [c]
  {
    var q := AppendToLast(parts, c);
    assert q[..|q| - 1] == parts[..|parts| - 1];
  }

  /** `s.split(sep)` with a one-character separator: the pieces between the
      separators. */
  function Split(s: string, sep: char): (r: seq<string>)
    ensures |r| >= 1
    ensures forall i :: 0 <= i < |r| ==> sep !in r[i]
    decreases |s|
  {
    if |s| == 0 then [""]
    else
      var pre := s[..|s| - 1];
      var c := s[|s| - 1];
      var parts := Split(pre, sep);
      if c == sep then parts + [""]
      else
        var r := AppendToLast(parts, c);
        assert forall i :: 0 <= i < |r| - 1 ==> r[i] == parts[i];
        r
  }

  /** There is one more piece than there are separators. */
  lemma {:induction false} SplitCount(s: string, sep: char)
    ensures |Split(s, sep)| == multiset(s)[sep] + 1
    decreases |s|
  {
    if |s| > 0 {
      var pre := s[..|s| - 1];
      SplitCount(pre, sep);
      FrontLast(s);
      assert multiset(s) == multiset(pre) + multiset{s[|s| - 1]};
    }
  }

  /** How `Split` treats one more character. */
  lemma SplitSnoc(pre: string, c: char, sep: char)
    ensures Split(pre + [c], sep) ==
      if c == sep then Split(pre, sep) + [""] else AppendToLast(Split(pre, sep), c)
  {
    assert (pre + [c])[..|pre + [c]| - 1] == pre;
  }

  /** Joining the pieces with the separator gives back the string. */
  lemma {:induction false} JoinSplit(s: string, sep: char)
    ensures Join(Split(s, sep), sep) == s
    decreases |s|
  {
    if |s| > 0 {
      var pre := s[..|s| - 1];
      var c := s[|s| - 1];
      JoinSplit(pre, sep);
      FrontLast(s);
      JoinSplitSnoc(pre, c, sep);
    }
  }

  lemma JoinSplitSnoc(pre: string, c: char, sep: char)
    requires Join(Split(pre, sep), sep) == pre
    ensures Join(Split(pre + [c], sep), sep) == pre + [c]
  {
    var parts := Split(pre, sep);
    SplitSnoc(pre, c, sep);
    if c == sep {
      JoinAppendEmpty(parts, sep);
    } else {
      JoinExtendLast(parts, sep, c);
    }
  }

  lemma JoinAppendEmpty(parts: seq<string>, sep: char)
    requires |parts| >= 1
    ensures Join(parts + [""], sep) == Join(parts, sep) + [sep]
  {
    var r := parts + [""];
    assert r[..|r| - 1] == parts;
  }

  lemma {:induction false} SplitSingle(w: string, sep: char)
    requires sep !in w
    ensures Split(w, sep) == [w]
    decreases |w|
  {
    if |w| > 0 {
      var pre := w[..|w| - 1];
      SplitSingle(pre, sep);
      FrontLast(w);
      SplitSnoc(pre, w[|w| - 1], sep);
    }
  }

  lemma JoinLast(parts: seq<string>, sep: char)
    requires |parts| > 1
    ensures Join(parts, sep) == Join(parts[..|parts| - 1], sep) + [sep] + parts[|parts| - 1]
    ensures parts == parts[..|parts| - 1] + [parts[|parts| - 1]]
  {
  }

  /** Splitting what was joined gives back the parts, when no part holds the separator. */
  lemma {:induction false} SplitJoin(parts: seq<string>, sep: char)
    requires |parts| >= 1
    requires forall i :: 0 <= i < |parts| ==> sep !in parts[i]
    ensures Split(Join(parts, sep), sep) == parts
    decreases |parts|
  {
    if |parts| == 1 {
      SplitSingle(parts[0], sep);
    } else {
      var init := parts[..|parts| - 1];
      var last := parts[|parts| - 1];
      assert forall i :: 0 <= i < |init| ==> init[i] == parts[i];
      SplitJoin(init, sep);
      JoinLast(parts, sep);
      SplitConcat(Join(init, sep), sep, last);
      SplitSingle(last, sep);
    }
  }

  /** Splitting at a separator splits the two sides independently. */
  lemma {:induction false} SplitConcat(a: string, sep: char, b: string)
    ensures Split(a + [sep] + b, sep) == Split(a, sep) + Split(b, sep)
    decreases |b|
  {
    if |b| == 0 {
      assert a + [sep] + b == a + [sep];
      SplitSnoc(a, sep, sep);
    } else {
      var b' := b[..|b| - 1];
      var c := b[|b| - 1];
      SplitConcat(a, sep, b');
      AppendFrontLast(a + [sep], b);
      FrontLast(b);
      SplitSnoc(a + [sep] + b', c, sep);
      SplitSnoc(b', c, sep);
      ConcatSnoc(Split(a, sep), Split(b', sep), c, sep);
    }
  }

  /** Adding a character after a concatenation of pieces acts on the second part. */
  lemma ConcatSnoc(pa: seq<string>, pb: seq<string>, c: char, sep: char)
    requires |pb| >= 1
    ensures (if c == sep then (pa + pb) + [""] else AppendToLast(pa + pb, c))
            == pa + (if c == sep then pb + [""] else AppendToLast(pb, c))
  {
    if c != sep {
      assert (pa + pb)[..|pa + pb| - 1] == pa + pb[..|pb| - 1];
    }
  }

  /** The piece before the first separator (`s.split(sep)[0]`). */
  function Before(s: string, sep: char): (r: string)
    ensures sep !in r
    ensures StartsWith(s, r)
    ensures |r| < |s| ==> s[|r|] == sep
    ensures sep !in s ==> r == s
  {
    var parts := Split(s, sep);
    JoinSplit(s, sep);
    JoinHead(parts, sep);
    if sep !in s then
      SplitSingle(s, sep);
      parts[0]
    else parts[0]
  }

  lemma {:induction false} JoinHead(parts: seq<string>, sep: char)
    requires |parts| >= 1
    ensures StartsWith(Join(parts, sep), parts[0])
    ensures |parts| > 1 ==> |Join(parts, sep)| > |parts[0]| && Join(parts, sep)[|parts[0]|] == sep
    decreases |parts|
  {
    if |parts| > 1 {
      JoinHead(parts[..|parts| - 1], sep);
    }
  }

  // ---------------------------------------------------------------------------
  // split() on runs of whitespace

  /** `s.split()`: the maximal runs of non-whitespace characters. */
  function SplitWhitespace(s: string): (r: seq<string>)
    ensures forall i :: 0 <= i < |r| ==> |r[i]| > 0 && NoSpace(r[i])
    decreases |s|
  {
    if |s| == 0 then []
    else
      var pre := s[..|s| - 1];
      var c := s[|s| - 1];
      var fields := SplitWhitespace(pre);
      if IsSpace(c) then fields
      else if |pre| > 0 && !IsSpace(pre[|pre| - 1]) && |fields| > 0 then
        fields[..|fields| - 1] + [fields[|fields| - 1] + [c]]
      else fields + [[c]]
  }

  /** How `SplitWhitespace` treats one more character. */
  lemma SplitWhitespaceSnoc(pre: string, c: char)
    ensures SplitWhitespace(pre + [c]) ==
      var fields := SplitWhitespace(pre);
      if IsSpace(c) then fields
      else if |pre| > 0 && !IsSpace(pre[|pre| - 1]) && |fields| > 0 then
        fields[..|fields| - 1] + [fields[|fields| - 1] + [c]]
      else fields + [[c]]
  {
    assert (pre + [c])[..|pre + [c]| - 1] == pre;
  }

  lemma {:induction false} SplitWhitespaceWord(w: string)
    requires |w| > 0 && NoSpace(w)
    ensures SplitWhitespace(w) == [w]
    decreases |w|
  {
    if |w| == 1 {
      assert w[..0] == [];
      assert w == [] + [w[0]];
    } else {
      var pre := w[..|w| - 1];
      SplitWhitespaceWord(pre);
      assert w == pre + [w[|w| - 1]];
      assert !IsSpace(pre[|pre| - 1]);
    }
  }

  lemma {:induction false} SplitWhitespaceAfterSpace(a: string, w: string)
    requires |w| > 0 && NoSpace(w)
    ensures SplitWhitespace(a + [' '] + w) == SplitWhitespace(a) + [w]
    decreases |w|
  {
    var c := w[|w| - 1];
    var w' := w[..|w| - 1];
    var pre := a + [' '] + w';
    assert w == w' + [c];
    assert a + [' '] + w == pre + [c];
    SplitWhitespaceSnoc(pre, c);
    if |w'| == 0 {
      assert pre == a + [' '];
      SplitWhitespaceSnoc(a, ' ');
    } else {
      SplitWhitespaceAfterSpace(a, w');
      assert pre[|pre| - 1] == w'[|w'| - 1];
      var fields := SplitWhitespace(pre);
      assert fields[..|fields| - 1] == SplitWhitespace(a);
    }
  }

  /** Splitting on whitespace undoes joining non-empty, whitespace-free fields
      with single spaces. */
  lemma {:induction false} SplitWhitespaceJoin(fields: seq<string>)
    requires |fields| >= 1
    requires forall i :: 0 <= i < |fields| ==> |fields[i]| > 0 && NoSpace(fields[i])
    ensures SplitWhitespace(Join(fields, ' ')) == fields
    decreases |fields|
  {
    if |fields| == 1 {
      SplitWhitespaceWord(fields[0]);
    } else {
      var init := fields[..|fields| - 1];
      assert forall i :: 0 <= i < |init| ==> init[i] == fields[i];
      SplitWhitespaceJoin(init);
      JoinLast(fields, ' ');
      SplitWhitespaceAfterSpace(Join(init, ' '), fields[|fields| - 1]);
    }
  }

  // ---------------------------------------------------------------------------
  // String order (Python `<=` and `sort` on `str`: code point by code point)

  predicate StrLe(a: string, b: string)
    decreases |a|
  {
    if |a| == 0 then true
    else if |b| == 0 then false
    else if a[0] != b[0] then a[0] < b[0]
    else StrLe(a[1..], b[1..])
  }

  lemma {:induction false} StrLeReflexive(a: string)
    ensures StrLe(a, a)
    decreases |a|
  {
    if |a| > 0 {
      StrLeReflexive(a[1..]);
    }
  }

  lemma {:induction false} StrLeTotal(a: string, b: string)
    ensures StrLe(a, b) || StrLe(b, a)
    decreases |a|
  {
    if |a| > 0 && |b| > 0 && a[0] == b[0] {
      StrLeTotal(a[1..], b[1..]);
    }
  }

  lemma {:induction false} StrLeAntisymmetric(a: string, b: string)
    requires StrLe(a, b) && StrLe(b, a)
    ensures a == b
    decreases |a|
  {
    if |a| > 0 && |b| > 0 {
      StrLeAntisymmetric(a[1..], b[1..]);
      assert a == [a[0]] + a[1..];
      assert b == [b[0]] + b[1..];
    }
  }

  lemma {:induction false} StrLeTransitive(a: string, b: string, c: string)
    requires StrLe(a, b) && StrLe(b, c)
    ensures StrLe(a, c)
    decreases |a|
  {
    if |a| > 0 && |b| > 0 && |c| > 0 && a[0] == b[0] && b[0] == c[0] {
      StrLeTransitive(a[1..], b[1..], c[1..]);
    }
  }

  // ---------------------------------------------------------------------------
  // int(s) on decimal text

  predicate IsDigit(c: char)
  {
    '0' <= c <= '9'
  }

  predicate AllDigits(s: string)
  {
    forall k :: 0 <= k < |s| ==> IsDigit(s[k])
  }

  function DigitsValue(s: string): nat
    requires AllDigits(s)
    decreases |s|
  {
    if |s| == 0 then 0
    else DigitsValue(s[..|s| - 1]) * 10 + (s[|s| - 1] as int - '0' as int)
  }

  /** `int(s)` for decimal text: surrounding whitespace, an optional sign and at
      least one digit; None where Python raises ValueError. */
  function ParseInt(s: string): (r: Option<int>)
    ensures r.Some? ==> |Strip(s)| > 0
  {
    var t := Strip(s);
    if |t| > 0 && (t[0] == '-' || t[0] == '+') then
      if |t| > 1 && AllDigits(t[1..]) then
        Some((if t[0] == '-' then -1 else 1) * DigitsValue(t[1..]))
      else None
    else if |t| > 0 && AllDigits(t) then Some(DigitsValue(t))
    else None
  }

  /** `str(n)` for a natural number. */
  function ShowNat(n: nat): (r: string)
    ensures |r| > 0 && AllDigits(r)
    ensures DigitsValue(r) == n
    decreases n
  {
    var d := [('0' as int + n % 10) as char];
    if n < 10 then d
    else
      var r := ShowNat(n / 10) + d;
      assert r[..|r| - 1] == ShowNat(n / 10);
      r
  }

  /** Reading back a printed number gives the number. */
  lemma ParseShow(n: nat)
    ensures ParseInt(ShowNat(n)) == Some(n)
  {
    var s := ShowNat(n);
    assert IsDigit(s[0]) && IsDigit(s[|s| - 1]);
    StripUnpadded(s);
    assert Strip(s) == s;
    assert s[0] != '-' && s[0] != '+';
  }
}
