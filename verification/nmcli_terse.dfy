/** `nmcli -t` (terse) output and a parser that honours its escaping.

    In terse mode nmcli separates fields with ':' and writes a ':' or '\'
    inside a value as "\:" or "\\". A BSSID such as AA:BB:CC:DD:EE:FF is
    therefore printed as AA\:BB\:CC\:DD\:EE\:FF. `SplitTerse` splits on the
    unescaped separators only and undoes the escapes; the collector's own
    `split(':')` is `CollectorDevices.ParseWifiLine`. */
module NmcliTerse {
  import opened Wrappers
  import opened Text
  import opened Records
  import CollectorDevices

  /** How nmcli prints one value. */
  function Escape(s: string): (r: string)
    ensures |r| >= |s|
    decreases |s|
  {
    if |s| == 0 then []
    else
      if s[0] == ':' || s[0] == '\\' then ['\\', s[0]] + Escape(s[1..])
      else [s[0]] + Escape(s[1..])
  }

  /** Escaping adds no ':' and removes none: each is preceded by a '\\'. */
  lemma {:induction false} EscapeColons(s: string)
    ensures multiset(Escape(s))[':'] == multiset(s)[':']
    decreases |s|
  {
    if |s| > 0 {
      var c := s[0];
      EscapeColons(s[1..]);
      assert s == [c] + s[1..];
      assert multiset(s)[':'] == multiset([c])[':'] + multiset(s[1..])[':'];
      var p := if c == ':' || c == '\\' then ['\\', c] else [c];
      assert Escape(s) == p + Escape(s[1..]);
      assert multiset(Escape(s))[':'] == multiset(p)[':'] + multiset(Escape(s[1..]))[':'];
    }
  }

  /** One terse line: the escaped values joined with ':'. */
  function JoinTerse(fields: seq<string>): string
    requires |fields| >= 1
    decreases |fields|
  {
    if |fields| == 1 then Escape(fields[0])
    else Escape(fields[0]) + [':'] + JoinTerse(fields[1..])
  }

  /** Prepends `c` to the first field. */
  function Cons(c: char, parts: seq<string>): seq<string>
    requires |parts| >= 1
  {
    [[c] + parts[0]] + parts[1..]
  }

  /** Splits a terse line on its unescaped ':' and removes the escapes. A lone
      trailing '\' is kept as it is. */
  function SplitTerse(s: string): (r: seq<string>)
    ensures |r| >= 1
    decreases |s|
  {
    if |s| == 0 then [""]
    else if s[0] == '\\' && |s| >= 2 then Cons(s[1], SplitTerse(s[2..]))
    else if s[0] == ':' then [""] + SplitTerse(s[1..])
    else Cons(s[0], SplitTerse(s[1..]))
  }

  /** An escaped value followed by the rest of a line becomes the head of the
      first field. */
  lemma SplitEscapePair(c: char, rest: string)
    ensures SplitTerse(['\\', c] + rest) == Cons(c, SplitTerse(rest))
  {
    var s := ['\\', c] + rest;
    assert s[0] == '\\' && s[1] == c && s[2..] == rest;
  }

  lemma SplitPlainChar(c: char, rest: string)
    requires c != ':' && c != '\\'
    ensures SplitTerse([c] + rest) == Cons(c, SplitTerse(rest))
  {
    var s := [c] + rest;
    assert s[0] == c && s[1..] == rest;
  }

  /** Splitting an escaped value character by character. */
  lemma SplitEscapedStep(v: string, t: string)
    requires |v| >= 1
    ensures SplitTerse(Escape(v) + t) == Cons(v[0], SplitTerse(Escape(v[1..]) + t))
  {
    var rest := Escape(v[1..]) + t;
    if v[0] == ':' || v[0] == '\\' {
      assert Escape(v) + t == ['\\', v[0]] + rest;
      SplitEscapePair(v[0], rest);
    } else {
      assert Escape(v) + t == [v[0]] + rest;
      SplitPlainChar(v[0], rest);
    }
  }

  lemma PrependToHead(v: string, w: string)
    requires |v| >= 1
    ensures [v[0]] + (v[1..] + w) == v + w
  {
    assert v == [v[0]] + v[1..];
  }

  lemma ConsHead(v: string, parts: seq<string>)
    requires |v| >= 1 && |parts| >= 1
    ensures Cons(v[0], [v[1..] + parts[0]] + parts[1..]) == [v + parts[0]] + parts[1..]
  {
    var inner := [v[1..] + parts[0]] + parts[1..];
    assert inner[0] == v[1..] + parts[0];
    assert inner[1..] == parts[1..];
    PrependToHead(v, parts[0]);
  }

  lemma {:induction false} SplitEscaped(v: string, t: string)
    ensures var parts := SplitTerse(t);
            SplitTerse(Escape(v) + t) == [v + parts[0]] + parts[1..]
    decreases |v|
  {
    var parts := SplitTerse(t);
    if |v| == 0 {
      assert Escape(v) + t == t;
      assert v + parts[0] == parts[0];
      assert parts == [parts[0]] + parts[1..];
    } else {
      SplitEscaped(v[1..], t);
      SplitEscapedStep(v, t);
      ConsHead(v, parts);
    }
  }

  /** Splitting a terse line gives back exactly the values printed, whatever
      they contain. */
  lemma {:induction false} SplitJoinTerse(fields: seq<string>)
    requires |fields| >= 1
    ensures SplitTerse(JoinTerse(fields)) == fields
    decreases |fields|
  {
    var v := fields[0];
    if |fields| == 1 {
      SplitEscaped(v, "");
      assert Escape(v) + "" == JoinTerse(fields);
      assert SplitTerse("") == [""];
      assert v + "" == v;
    } else {
      var t := [':'] + JoinTerse(fields[1..]);
      SplitJoinTerse(fields[1..]);
      SplitColon(JoinTerse(fields[1..]));
      assert SplitTerse(t) == [""] + fields[1..];
      SplitEscaped(v, t);
      assert Escape(v) + t == JoinTerse(fields);
      assert v + "" == v;
      assert ([""] + fields[1..])[1..] == fields[1..];
      assert fields == [v] + fields[1..];
    }
  }

  lemma SplitColon(rest: string)
    ensures SplitTerse([':'] + rest) == [""] + SplitTerse(rest)
  {
    var s := [':'] + rest;
    assert s[0] == ':' && s[1..] == rest;
  }

  /** The Wi-Fi line parser with terse splitting: exactly three fields, an
      integer signal, the name stripped and the BSSID's colons removed. */
  function ParseWifiLineTerse(line: string, now: string): (r: Option<DeviceRecord>)
    ensures r.Some? ==>
              var f := SplitTerse(line);
              && |f| == 3
              && ParseInt(f[2]).Some?
              && r.value == DeviceRecord(now, WifiType, Strip(f[0]),
                                         WifiDetails(Upper(RemoveChar(f[1], ':')), ParseInt(f[2]).value))
    ensures line != "" && |SplitTerse(line)| == 3 && ParseInt(SplitTerse(line)[2]).Some? ==> r.Some?
  {
    if line == "" then None
    else
      var fields := SplitTerse(line);
      if |fields| != 3 then None
      else
        match ParseInt(fields[2])
        case None => None
        case Some(signal) =>
          Some(DeviceRecord(now, WifiType, Strip(fields[0]),
                            WifiDetails(Upper(RemoveChar(fields[1], ':')), signal)))
  }

  /** Every line nmcli prints for a network is read back as that network, with
      the BSSID's colons removed. */
  lemma TerseLineParsed(ssid: string, bssid: string, signal: nat, now: string)
    ensures ParseWifiLineTerse(JoinTerse([ssid, bssid, ShowNat(signal)]), now)
            == Some(DeviceRecord(now, WifiType, Strip(ssid), WifiDetails(Upper(RemoveChar(bssid, ':')), signal)))
  {
    var fields := [ssid, bssid, ShowNat(signal)];
    SplitJoinTerse(fields);
    ParseShow(signal);
    var line := JoinTerse(fields);
    assert line == Escape(ssid) + [':'] + JoinTerse(fields[1..]);
  }

  /** The collector's plain `split(':')` drops every network whose BSSID holds a
      colon, which is every real BSSID: the escaped colons add fields. */
  lemma SplitOnEveryColonDropsBssid(ssid: string, bssid: string, signal: nat, now: string)
    requires ':' in bssid
    ensures CollectorDevices.ParseWifiLine(JoinTerse([ssid, bssid, ShowNat(signal)]), now).None?
  {
    var fields := [ssid, bssid, ShowNat(signal)];
    var tail := JoinTerse(fields[1..]);
    assert tail == Escape(bssid) + [':'] + Escape(ShowNat(signal)) by {
      assert fields[1..][0] == bssid && fields[1..][1..] == [ShowNat(signal)];
      assert JoinTerse([ShowNat(signal)]) == Escape(ShowNat(signal));
    }
    EscapeColons(ssid);
    EscapeColons(bssid);
    EscapeColons(ShowNat(signal));
    assert multiset(tail)[':'] >= 1 + multiset(bssid)[':'];
    assert multiset(bssid)[':'] >= 1;
    var line := JoinTerse(fields);
    assert line == Escape(ssid) + [':'] + tail;
    assert multiset(line)[':'] >= 3;
    SplitCount(line, ':');
  }
}
