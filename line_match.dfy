/** The key/value line matcher: `trim()` followed by
    `PDSKeyValueRegExp = /^([a-zA-Z0-9_.]+)\s=\s(.*)/` (index.js:23, index.js:97-99). */
module LineMatch {
  import opened Wrappers
  import opened Bytes

  /** The ASCII members of the whitespace class shared by the regular expression's `\s`
      and by `String.prototype.trim`: tab, line feed, vertical tab, form feed,
      carriage return and space. */
  predicate IsSpace(b: byte)
  {
    b == Space || 0x09 <= b <= 0x0D
  }

  /** The character class `[a-zA-Z0-9_.]`. */
  predicate IsKeyChar(b: byte)
  {
    || 0x41 <= b <= 0x5A
    || 0x61 <= b <= 0x7A
    || 0x30 <= b <= 0x39
    || b == Underscore
    || b == Dot
  }

  /** The ASCII line terminators, which the regular expression's `.` does not match. */
  predicate IsLineTerminator(b: byte)
  {
    b == LineFeed || b == CarriageReturn
  }

  predicate AllSpace(s: Text)
  {
    forall j :: 0 <= j < |s| ==> IsSpace(s[j])
  }

  /** `s` with its leading whitespace removed. */
  function TrimStart(s: Text): (r: Text)
    ensures |r| <= |s| && r == s[|s| - |r|..]
    ensures AllSpace(s[..|s| - |r|])
    ensures r == [] || !IsSpace(r[0])
  {
    if s != [] && IsSpace(s[0]) then TrimStart(s[1..]) else s
  }

  /** `s` with its trailing whitespace removed. */
  function TrimEnd(s: Text): (r: Text)
    ensures |r| <= |s| && r == s[..|r|]
    ensures AllSpace(s[|r|..])
    ensures r == [] || !IsSpace(r[|r| - 1])
  {
    if s != [] && IsSpace(s[|s| - 1]) then TrimEnd(s[..|s| - 1]) else s
  }

  /** `s.trim()` on ASCII whitespace: the infix of `s` left after removing whitespace
      from both ends. */
  function Trim(s: Text): (r: Text)
    ensures |r| <= |s|
    ensures r == [] || (!IsSpace(r[0]) && !IsSpace(r[|r| - 1]))
  {
    TrimEnd(TrimStart(s))
  }

  /** `Trim(s)` is what is left of `s` after whitespace is removed at both ends: `s` is
      whitespace, then `Trim(s)`, then whitespace. */
  lemma TrimInfix(s: Text)
    ensures var r := Trim(s);
      exists a :: 0 <= a <= |s| - |r| && s[a..a + |r|] == r && AllSpace(s[..a]) && AllSpace(s[a + |r|..])
  {
    var u := TrimStart(s);
    var r := TrimEnd(u);
    assert Trim(s) == r;
    var a := |s| - |u|;
    TrimInfixAt(s, u, r, a);
  }

  lemma TrimInfixAt(s: Text, u: Text, r: Text, a: nat)
    requires a <= |s| && u == s[a..] && AllSpace(s[..a])
    requires |r| <= |u| && r == u[..|r|] && AllSpace(u[|r|..])
    ensures 0 <= a <= |s| - |r| && s[a..a + |r|] == r && AllSpace(s[..a]) && AllSpace(s[a + |r|..])
  {
    assert s[a + |r|..] == u[|r|..];
  }

  /** Length of the longest prefix of key characters: all that the greedy group
      `([a-zA-Z0-9_.]+)` can take. */
  function KeyLength(t: Text): (n: nat)
    ensures n <= |t|
    ensures forall j :: 0 <= j < n ==> IsKeyChar(t[j])
    ensures n < |t| ==> !IsKeyChar(t[n])
  {
    if t != [] && IsKeyChar(t[0]) then 1 + KeyLength(t[1..]) else 0
  }

  /** What the greedy group `(.*)` takes: the longest prefix with no line terminator. */
  function RestOfLine(t: Text): (v: Text)
    ensures |v| <= |t| && v == t[..|v|]
    ensures forall j :: 0 <= j < |v| ==> !IsLineTerminator(v[j])
    ensures |v| < |t| ==> IsLineTerminator(t[|v|])
  {
    if t != [] && !IsLineTerminator(t[0]) then [t[0]] + RestOfLine(t[1..]) else []
  }

  /** `PDSKeyValueRegExp.exec(t)`: the two capture groups, or None where `exec` gives `null`.
      A shorter key cannot be tried with success, because the byte after it would be
      a key character and not whitespace, so the greedy run is the only candidate. */
  function MatchKeyValue(t: Text): Option<(Text, Text)>
  {
    var n := KeyLength(t);
    if 0 < n && n + 3 <= |t| && IsSpace(t[n]) && t[n + 1] == EqualsSign && IsSpace(t[n + 2])
    then Some((t[..n], RestOfLine(t[n + 3..])))
    else None
  }

  /** The regular expression read literally: `t` starts with a non-empty run `key` of
      key characters, then one whitespace byte, `=` and one whitespace byte, and
      `value` is what follows up to the first line terminator or the end. */
  predicate KeyValueShape(t: Text, key: Text, value: Text)
  {
    var n := |key|;
    var m := n + 3 + |value|;
    && 0 < n && m <= |t| && t[..n] == key
    && (forall j :: 0 <= j < n ==> IsKeyChar(key[j]))
    && IsSpace(t[n]) && t[n + 1] == EqualsSign && IsSpace(t[n + 2])
    && t[n + 3..m] == value
    && (forall j :: 0 <= j < |value| ==> !IsLineTerminator(value[j]))
    && (m < |t| ==> IsLineTerminator(t[m]))
  }

  /** A successful match has the shape the regular expression describes. */
  lemma MatchHasShape(t: Text, key: Text, value: Text)
    requires MatchKeyValue(t) == Some((key, value))
    ensures KeyValueShape(t, key, value)
  {
    var n := KeyLength(t);
    assert key == t[..n] && value == RestOfLine(t[n + 3..]);
    assert t[n + 3..n + 3 + |value|] == t[n + 3..][..|value|];
  }

  /** Any split of `t` with the shape the regular expression describes is the one the
      greedy matcher finds. */
  lemma ShapeIsMatched(t: Text, key: Text, value: Text)
    requires KeyValueShape(t, key, value)
    ensures MatchKeyValue(t) == Some((key, value))
  {
    var n := |key|;
    assert forall j :: 0 <= j < n ==> IsKeyChar(t[j]) by {
      forall j | 0 <= j < n ensures IsKeyChar(t[j]) { assert t[j] == key[j]; }
    }
    KeyLengthExact(t, n);
    RestOfLineExact(t[n + 3..], |value|);
    assert t[n + 3..][..|value|] == value;
  }

  /** The matcher succeeds with `(key, value)` exactly when `t` has the shape the
      regular expression describes with those capture groups. */
  lemma MatchKeyValueIff(t: Text, key: Text, value: Text)
    ensures MatchKeyValue(t) == Some((key, value)) <==> KeyValueShape(t, key, value)
  {
    if MatchKeyValue(t) == Some((key, value)) {
      MatchHasShape(t, key, value);
    }
    if KeyValueShape(t, key, value) {
      ShapeIsMatched(t, key, value);
    }
  }

  /** A failed match means no choice of capture groups fits the regular expression. */
  lemma NoMatchMeansNoShape(t: Text, key: Text, value: Text)
    requires MatchKeyValue(t) == None
    ensures !KeyValueShape(t, key, value)
  {
    MatchKeyValueIff(t, key, value);
  }

  lemma KeyLengthExact(t: Text, n: nat)
    requires n < |t| && !IsKeyChar(t[n])
    requires forall j :: 0 <= j < n ==> IsKeyChar(t[j])
    ensures KeyLength(t) == n
  {
  }

  lemma RestOfLineExact(t: Text, n: nat)
    requires n <= |t| && (n < |t| ==> IsLineTerminator(t[n]))
    requires forall j :: 0 <= j < n ==> !IsLineTerminator(t[j])
    ensures RestOfLine(t) == t[..n]
  {
  }

  /** Whitespace in front of a string is all that `TrimStart` removes from it. */
  lemma {:induction false} TrimStartSkipsSpaces(p: Text, u: Text)
    requires AllSpace(p)
    ensures TrimStart(p + u) == TrimStart(u)
  {
    if p == [] {
      assert p + u == u;
    } else {
      assert (p + u)[0] == p[0];
      assert (p + u)[1..] == p[1..] + u;
      TrimStartSkipsSpaces(p[1..], u);
    }
  }

  /** Whitespace after a string is all that `TrimEnd` removes from it. */
  lemma {:induction false} TrimEndSkipsSpaces(u: Text, q: Text)
    requires AllSpace(q)
    ensures TrimEnd(u + q) == TrimEnd(u)
  {
    if q == [] {
      assert u + q == u;
    } else {
      assert (u + q)[|u + q| - 1] == q[|q| - 1];
      assert (u + q)[..|u + q| - 1] == u + q[..|q| - 1];
      TrimEndSkipsSpaces(u, q[..|q| - 1]);
    }
  }

  /** Trimming recovers a string that has no whitespace at either end from any
      whitespace padding around it; so `Trim` is determined by its contract. */
  lemma TrimPadded(p: Text, t: Text, q: Text)
    requires AllSpace(p) && AllSpace(q)
    requires t == [] || (!IsSpace(t[0]) && !IsSpace(t[|t| - 1]))
    ensures Trim(p + t + q) == t
  {
    assert p + t + q == p + (t + q);
    TrimStartSkipsSpaces(p, t + q);
    if t == [] {
      assert t + q == q;
      assert TrimEnd(TrimStart(q)) == [];
    } else {
      TrimEndSkipsSpaces(t, q);
    }
  }

  /** A string without whitespace at either end is left as it is. */
  lemma TrimUnpadded(t: Text)
    requires t == [] || (!IsSpace(t[0]) && !IsSpace(t[|t| - 1]))
    ensures Trim(t) == t
  {
    assert TrimStart(t) == t;
  }

  /** Trimming twice is the same as trimming once. */
  lemma TrimIdempotent(s: Text)
    ensures Trim(Trim(s)) == Trim(s)
  {
    TrimUnpadded(Trim(s));
  }

  /** `key = value` written out has the shape of the regular expression with those
      capture groups, when the key is made of key characters and the value has no line
      terminator. */
  lemma FormattedShape(key: Text, value: Text)
    requires key != [] && forall j :: 0 <= j < |key| ==> IsKeyChar(key[j])
    requires forall j :: 0 <= j < |value| ==> !IsLineTerminator(value[j])
    ensures KeyValueShape(key + [Space, EqualsSign, Space] + value, key, value)
  {
    var t := key + [Space, EqualsSign, Space] + value;
    assert t[..|key|] == key;
    assert t[|key| + 3..|key| + 3 + |value|] == value;
  }

  /** A line written as `key = value`, with any whitespace around it, is matched back to
      `(key, value)` when the key is a non-empty run of key characters and the value has
      no line terminator and does not end in whitespace (which `trim` would remove). */
  lemma MatchFormattedLine(p: Text, key: Text, value: Text, q: Text)
    requires AllSpace(p) && AllSpace(q)
    requires key != [] && forall j :: 0 <= j < |key| ==> IsKeyChar(key[j])
    requires value != [] && !IsSpace(value[|value| - 1])
    requires forall j :: 0 <= j < |value| ==> !IsLineTerminator(value[j])
    ensures MatchKeyValue(Trim(p + key + [Space, EqualsSign, Space] + value + q)) == Some((key, value))
  {
    var t := key + [Space, EqualsSign, Space] + value;
    assert p + key + [Space, EqualsSign, Space] + value + q == p + t + q;
    assert t[0] == key[0] && !IsSpace(t[0]);
    assert t[|t| - 1] == value[|value| - 1];
    TrimPadded(p, t, q);
    FormattedShape(key, value);
    MatchKeyValueIff(t, key, value);
  }
}
