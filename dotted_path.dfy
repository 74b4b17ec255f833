/** The dotted path strings the scanner builds (`currSections.join('.')`, index.js:88 and
    index.js:100) and the way `lodash.set` splits such a string into property names. */
module DottedPath {
  import opened Bytes

  /** `parts.join('.')`. */
  function Join(parts: seq<Text>): Text
  {
    if |parts| == 0 then []
    else if |parts| == 1 then parts[0]
    else parts[0] + [Dot] + Join(parts[1..])
  }

  /** The property names `lodash.set` reads from a path made of names and dots: the
      pieces between dots, where a leading, trailing or doubled dot gives an empty
      name and the empty path is the single empty name. */
  function Split(s: Text): (r: seq<Text>)
    ensures |r| >= 1
    ensures forall k :: 0 <= k < |r| ==> Dot !in r[k]
  {
    if s == [] then [[]]
    else
      var rest := Split(s[1..]);
      if s[0] == Dot then [[]] + rest else [[s[0]] + rest[0]] + rest[1..]
  }

  /** The path that opening a section assigns `{}` to (index.js:88). */
  function SectionPath(sections: seq<Text>): seq<Text>
  {
    Split(Join(sections))
  }

  /** The path that a key/value line assigns its value to:
      `currSections.join('.').concat('.' + key)` (index.js:100). */
  function ValuePath(sections: seq<Text>, key: Text): seq<Text>
  {
    Split(Join(sections) + [Dot] + key)
  }

  /** A string without dots is one property name. */
  lemma {:induction false} SplitNoDot(s: Text)
    requires Dot !in s
    ensures Split(s) == [s]
  {
    if s != [] {
      SplitNoDot(s[1..]);
      assert [s[0]] + s[1..] == s;
    }
  }

  /** Splitting at a dot splits the two sides independently. */
  lemma {:induction false} SplitAtDot(a: Text, b: Text)
    ensures Split(a + [Dot] + b) == Split(a) + Split(b)
  {
    if a == [] {
      assert a + [Dot] + b == [Dot] + b;
      assert ([Dot] + b)[1..] == b;
    } else {
      var s := a + [Dot] + b;
      assert s[0] == a[0];
      assert s[1..] == a[1..] + [Dot] + b;
      SplitAtDot(a[1..], b);
    }
  }

  /** Joining a name in front of a non-empty list adds the name and one dot. */
  lemma JoinCons(h: Text, rest: seq<Text>)
    requires rest != []
    ensures Join([h] + rest) == h + [Dot] + Join(rest)
  {
    assert ([h] + rest)[1..] == rest;
  }

  /** Prefixing the first name with a byte prefixes the joined string with it. */
  lemma JoinExtendFirst(c: byte, head: Text, tail: seq<Text>)
    ensures Join([[c] + head] + tail) == [c] + Join([head] + tail)
  {
    if tail == [] {
      assert [[c] + head] + tail == [[c] + head];
      assert [head] + tail == [head];
    } else {
      JoinCons([c] + head, tail);
      JoinCons(head, tail);
      var j := Join(tail);
      assert ([c] + head) + [Dot] + j == [c] + (head + [Dot] + j);
    }
  }

  /** Joining the split pieces with dots gives the path string back. */
  lemma {:induction false} JoinSplit(s: Text)
    ensures Join(Split(s)) == s
  {
    if s != [] {
      var rest := Split(s[1..]);
      JoinSplit(s[1..]);
      if s[0] == Dot {
        JoinCons([], rest);
      } else {
        JoinExtendFirst(s[0], rest[0], rest[1..]);
        assert [rest[0]] + rest[1..] == rest;
      }
      assert [s[0]] + s[1..] == s;
    }
  }

  /** Names without dots, joined and split again, come back unchanged. */
  lemma {:induction false} SplitJoin(parts: seq<Text>)
    requires parts != []
    requires forall k :: 0 <= k < |parts| ==> Dot !in parts[k]
    ensures Split(Join(parts)) == parts
  {
    SplitNoDot(parts[0]);
    if |parts| > 1 {
      SplitJoin(parts[1..]);
      SplitAtDot(parts[0], Join(parts[1..]));
      assert [parts[0]] + parts[1..] == parts;
    }
  }

  /** Appending a name to a non-empty section list appends one dot and the name. */
  lemma {:induction false} JoinPush(parts: seq<Text>, name: Text)
    requires parts != []
    ensures Join(parts + [name]) == Join(parts) + [Dot] + name
  {
    var ps := parts + [name];
    if |parts| > 1 {
      assert ps[1..] == parts[1..] + [name];
      JoinPush(parts[1..], name);
      assert Join(ps) == parts[0] + [Dot] + (Join(parts[1..]) + [Dot] + name);
    } else {
      assert ps[1..] == [name];
    }
  }

  /** A value's path is the path of its section followed by the key's pieces, so with
      no open section it starts with the empty name. */
  lemma ValuePathSplits(sections: seq<Text>, key: Text)
    ensures ValuePath(sections, key) == SectionPath(sections) + Split(key)
    ensures sections == [] ==> ValuePath(sections, key) == [[]] + Split(key)
  {
    SplitAtDot(Join(sections), key);
  }

  /** Pushing a section adds the pieces of its name below the enclosing section's path. */
  lemma SectionPathPush(sections: seq<Text>, name: Text)
    ensures SectionPath(sections + [name]) ==
              if sections == [] then Split(name) else SectionPath(sections) + Split(name)
  {
    if sections == [] {
      assert sections + [name] == [name];
    } else {
      JoinPush(sections, name);
      SplitAtDot(Join(sections), name);
    }
  }

  /** With names and key free of dots, every section is one level and the key one more. */
  lemma PlainNamesNest(sections: seq<Text>, key: Text)
    requires sections != []
    requires forall k :: 0 <= k < |sections| ==> Dot !in sections[k]
    requires Dot !in key
    ensures SectionPath(sections) == sections
    ensures ValuePath(sections, key) == sections + [key]
  {
    SplitJoin(sections);
    SplitNoDot(key);
    ValuePathSplits(sections, key);
  }
}
