/** Small buffers run through the reference definition of the scanner, for names, keys
    and values that are each one lower-case letter. */
module ScannerExamples {
  import opened Wrappers
  import opened Bytes
  import opened LineMatch
  import opened DottedPath
  import opened Tree
  import opened Scanner
  import opened ScannerProperties

  /** A lower-case ASCII letter. */
  predicate IsLetter(b: byte)
  {
    0x61 <= b <= 0x7A
  }

  /** A `=` at `i` marks the line as holding a key. */
  lemma ScanEquals(buf: Text, i: nat, s: Scan)
    requires i < |buf| && ScanPrefix(buf, i) == Ok(s) && buf[i] == EqualsSign
    ensures ScanPrefix(buf, i + 1) == Ok(s.(detectedKey := true))
  {
    EqualsMarksKey(buf, i, s);
  }

  /** A matching key line ends at the `\n` at `i`. */
  lemma ScanKeyLine(buf: Text, i: nat, s: Scan, key: Text, value: Text)
    requires i < |buf| && ScanPrefix(buf, i) == Ok(s)
    requires buf[i] == LineFeed && s.detectedKey
    requires MatchKeyValue(CommittedLine(buf, i, s)) == Some((key, value))
    ensures ScanPrefix(buf, i + 1) ==
              Ok(s.(detectedKey := false, ret := DeepSet(s.ret, ValuePath(s.sections, key), Leaf(value)), rNOffset := i + 1))
  {
    KeyLineStep(buf, i, s, key, value);
  }

  /** A key line that does not match fails at the `\n` at `i`. */
  lemma ScanBadLine(buf: Text, i: nat, s: Scan, line: Text)
    requires i < |buf| && ScanPrefix(buf, i) == Ok(s)
    requires buf[i] == LineFeed && s.detectedKey
    requires CommittedLine(buf, i, s) == line && MatchKeyValue(line) == None
    ensures ScanPrefix(buf, i + 1) == Err(MalformedLine(line))
  {
    BadLineStep(buf, i, s);
  }

  /** A `\n` on a line without `=` only moves the line start. */
  lemma ScanBlankLine(buf: Text, i: nat, s: Scan)
    requires i < |buf| && ScanPrefix(buf, i) == Ok(s)
    requires buf[i] == LineFeed && !s.detectedKey
    ensures ScanPrefix(buf, i + 1) == Ok(s.(rNOffset := i + 1))
  {
  }

  /** The line `k = v` matches with key `k` and value `v`. */
  lemma KeyLineMatches(line: Text, k: byte, v: byte)
    requires IsLetter(k) && IsLetter(v)
    requires line == [k, Space, EqualsSign, Space, v]
    ensures MatchKeyValue(line) == Some(([k], [v]))
  {
    FormattedShape([k], [v]);
    assert [k] + [Space, EqualsSign, Space] + [v] == line;
    MatchKeyValueIff(line, [k], [v]);
  }

  /** The line `k = v` is its own trimmed form. */
  lemma KeyLineTrimmed(line: Text, k: byte, v: byte)
    requires IsLetter(k) && IsLetter(v)
    requires line == [k, Space, EqualsSign, Space, v]
    ensures Trim(line) == line
  {
    assert [] + line + [] == line;
    TrimPadded([], line, []);
  }

  /** `<a>\r\nk = v\r\n</a>\r\n`. */
  function CrlfBuffer(a: byte, k: byte, v: byte): Text
  {
    [OpenAngle, a, CloseAngle, CarriageReturn, LineFeed,
     k, Space, EqualsSign, Space, v, CarriageReturn, LineFeed,
     OpenAngle, Slash, a, CloseAngle, CarriageReturn, LineFeed]
  }

  /** The `>` of a leading `<a>` pushes `a` and makes it an empty object. */
  lemma LeadingSectionPushed(buf: Text, a: byte)
    requires IsLetter(a) && 3 <= |buf|
    requires buf[0] == OpenAngle && buf[1] == a && buf[2] == CloseAngle
    ensures PushSection(buf, 2, Start.(offsetSection := 1, openSection := true))
            == Scan(Obj(map[[a] := Empty]), [[a]], 1, 0, false, false)
  {
    assert buf[1..2] == [a];
    SplitNoDot([a]);
    assert SectionPath([[a]]) == [[a]];
  }

  /** A `>` that completes an opening marker pushes the name (index.js:85-89). */
  lemma ScanSectionOpen(buf: Text, i: nat, s: Scan)
    requires i < |buf| && ScanPrefix(buf, i) == Ok(s)
    requires buf[i] == CloseAngle && s.openSection
    ensures ScanPrefix(buf, i + 1) == Ok(PushSection(buf, i, s))
  {
  }

  /** After the opening line, `a` is an empty object and the only open section. */
  lemma CrlfSectionOpened(a: byte, k: byte, v: byte)
    requires IsLetter(a) && IsLetter(k) && IsLetter(v)
    ensures ScanPrefix(CrlfBuffer(a, k, v), 5) == Ok(Scan(Obj(map[[a] := Empty]), [[a]], 1, 5, false, false))
  {
    var buf := CrlfBuffer(a, k, v);
    var opening := Start.(offsetSection := 1, openSection := true);
    OpenMarkerStartsName(buf, 0, Start);
    assert ScanPrefix(buf, 1) == Ok(opening);
    SkipPlain(buf, 1, 2, opening);
    ScanSectionOpen(buf, 2, opening);
    LeadingSectionPushed(buf, a);
    var inA := Scan(Obj(map[[a] := Empty]), [[a]], 1, 0, false, false);
    SkipPlain(buf, 3, 4, inA);
    ScanBlankLine(buf, 4, inA);
  }

  /** Up to the `\n` of the key line, the line `k = v` is pending. */
  lemma CrlfKeyPending(a: byte, k: byte, v: byte)
    requires IsLetter(a) && IsLetter(k) && IsLetter(v)
    ensures ScanPrefix(CrlfBuffer(a, k, v), 11) == Ok(Scan(Obj(map[[a] := Empty]), [[a]], 1, 5, false, true))
  {
    var buf := CrlfBuffer(a, k, v);
    var line5 := Scan(Obj(map[[a] := Empty]), [[a]], 1, 5, false, false);
    CrlfSectionOpened(a, k, v);
    SkipPlain(buf, 5, 7, line5);
    ScanEquals(buf, 7, line5);
    SkipPlain(buf, 8, 11, line5.(detectedKey := true));
  }

  /** The line that the `\n` of the key line commits is `k = v`. */
  lemma CrlfCommittedLine(a: byte, k: byte, v: byte)
    requires IsLetter(a) && IsLetter(k) && IsLetter(v)
    ensures CommittedLine(CrlfBuffer(a, k, v), 11, Scan(Obj(map[[a] := Empty]), [[a]], 1, 5, false, true))
            == [k, Space, EqualsSign, Space, v]
  {
    var line := CrlfBuffer(a, k, v)[5..10];
    assert line == [k, Space, EqualsSign, Space, v];
    KeyLineTrimmed(line, k, v);
  }

  /** Inside section `a`, key `k` is written below `a`. */
  lemma KeyInSection(a: byte, k: byte, v: byte)
    requires IsLetter(a) && IsLetter(k)
    ensures DeepSet(Obj(map[[a] := Empty]), ValuePath([[a]], [k]), Leaf([v])) == Obj(map[[a] := Obj(map[[k] := Leaf([v])])])
  {
    SplitNoDot([a]);
    SplitNoDot([k]);
    ValuePathSplits([[a]], [k]);
    assert ValuePath([[a]], [k]) == [[a], [k]];
    assert DeepSet(Empty, [[k]], Leaf([v])) == Obj(map[[k] := Leaf([v])]);
  }

  /** After the key line, `a` holds `k: "v"`. */
  lemma CrlfKeyCommitted(a: byte, k: byte, v: byte)
    requires IsLetter(a) && IsLetter(k) && IsLetter(v)
    ensures ScanPrefix(CrlfBuffer(a, k, v), 12) ==
            Ok(Scan(Obj(map[[a] := Obj(map[[k] := Leaf([v])])]), [[a]], 1, 12, false, false))
  {
    var buf := CrlfBuffer(a, k, v);
    var pending := Scan(Obj(map[[a] := Empty]), [[a]], 1, 5, false, true);
    CrlfKeyPending(a, k, v);
    CrlfCommittedLine(a, k, v);
    KeyLineMatches([k, Space, EqualsSign, Space, v], k, v);
    ScanKeyLine(buf, 11, pending, [k], [v]);
    KeyInSection(a, k, v);
  }

  /** `<a>\r\nk = v\r\n</a>\r\n` gives `{ a: { k: "v" } }`: with CRLF line ends the byte
      that the line slice drops is the `\r`. */
  lemma CrlfSection(a: byte, k: byte, v: byte)
    requires IsLetter(a) && IsLetter(k) && IsLetter(v)
    ensures Parse(CrlfBuffer(a, k, v)) == Ok(Obj(map[[a] := Obj(map[[k] := Leaf([v])])]))
  {
    var buf := CrlfBuffer(a, k, v);
    var done := Scan(Obj(map[[a] := Obj(map[[k] := Leaf([v])])]), [[a]], 1, 12, false, false);
    CrlfKeyCommitted(a, k, v);
    var closed := done.(sections := []);
    CloseMarkerStep(buf, 12, done);
    assert ScanPrefix(buf, 13) == Ok(closed);
    SkipPlain(buf, 13, 17, closed);
    ScanBlankLine(buf, 17, closed);
  }

  /** `k = v\n`, with a bare LF. */
  function LfBuffer(k: byte, v: byte): Text
  {
    [k, Space, EqualsSign, Space, v, LineFeed]
  }

  /** The slice before the bare LF drops the `v`; trimmed, `k =` is left. */
  lemma LfCommittedLine(k: byte, v: byte)
    requires IsLetter(k) && IsLetter(v)
    ensures CommittedLine(LfBuffer(k, v), 5, Start.(detectedKey := true)) == [k, Space, EqualsSign]
  {
    var trimmed := [k, Space, EqualsSign];
    assert LfBuffer(k, v)[0..4] == [] + trimmed + [Space];
    TrimPadded([], trimmed, [Space]);
  }

  /** `k =` does not match: nothing follows the `=`. */
  lemma KeyWithoutValueFails(k: byte)
    requires IsLetter(k)
    ensures MatchKeyValue([k, Space, EqualsSign]) == None
  {
    KeyLengthExact([k, Space, EqualsSign], 1);
  }

  /** Up to the LF of `k = v\n`, a key is pending on the first line. */
  lemma LfKeyPending(k: byte, v: byte)
    requires IsLetter(k) && IsLetter(v)
    ensures ScanPrefix(LfBuffer(k, v), 5) == Ok(Start.(detectedKey := true))
  {
    var buf := LfBuffer(k, v);
    SkipPlain(buf, 0, 2, Start);
    ScanEquals(buf, 2, Start);
    SkipPlain(buf, 3, 5, Start.(detectedKey := true));
  }

  /** The LF of `k = v\n` commits the first three bytes, which do not match. */
  lemma LfLineRejected(k: byte, v: byte)
    requires IsLetter(k) && IsLetter(v)
    ensures CommittedLine(LfBuffer(k, v), 5, Start.(detectedKey := true)) == LfBuffer(k, v)[..3]
    ensures MatchKeyValue(LfBuffer(k, v)[..3]) == None
  {
    LfCommittedLine(k, v);
    KeyWithoutValueFails(k);
    assert LfBuffer(k, v)[..3] == [k, Space, EqualsSign];
  }

  /** The scan of `k = v\n` fails at the LF. */
  lemma LfFailsAtLineEnd(k: byte, v: byte)
    requires IsLetter(k) && IsLetter(v)
    ensures ScanPrefix(LfBuffer(k, v), 6) == Err(MalformedLine(LfBuffer(k, v)[..3]))
  {
    LfKeyPending(k, v);
    LfLineRejected(k, v);
    ScanBadLine(LfBuffer(k, v), 5, Start.(detectedKey := true), LfBuffer(k, v)[..3]);
  }

  /** `k = v\n` with a bare LF fails: the slice drops the `v`, and `k =` does not match. */
  lemma LfLineLosesLastByte(k: byte, v: byte)
    requires IsLetter(k) && IsLetter(v)
    ensures Parse(LfBuffer(k, v)) == Err(MalformedLine([k, Space, EqualsSign]))
  {
    LfFailsAtLineEnd(k, v);
    assert LfBuffer(k, v)[..3] == [k, Space, EqualsSign];
  }

  /** `<a>\nk = v\n</a>\n`, a section written with bare LFs. */
  function LfSectionBuffer(a: byte, k: byte, v: byte): Text
  {
    [OpenAngle, a, CloseAngle, LineFeed,
     k, Space, EqualsSign, Space, v, LineFeed,
     OpenAngle, Slash, a, CloseAngle, LineFeed]
  }

  /** After the opening line, `a` is an empty object and the only open section. */
  lemma LfSectionOpened(a: byte, k: byte, v: byte)
    requires IsLetter(a) && IsLetter(k) && IsLetter(v)
    ensures ScanPrefix(LfSectionBuffer(a, k, v), 4) == Ok(Scan(Obj(map[[a] := Empty]), [[a]], 1, 4, false, false))
  {
    var buf := LfSectionBuffer(a, k, v);
    var opening := Start.(offsetSection := 1, openSection := true);
    OpenMarkerStartsName(buf, 0, Start);
    assert ScanPrefix(buf, 1) == Ok(opening);
    SkipPlain(buf, 1, 2, opening);
    ScanSectionOpen(buf, 2, opening);
    LeadingSectionPushed(buf, a);
    ScanBlankLine(buf, 3, Scan(Obj(map[[a] := Empty]), [[a]], 1, 0, false, false));
  }

  /** Up to the LF of the key line, the line `k = v` is pending inside `a`. */
  lemma LfSectionKeyPending(a: byte, k: byte, v: byte)
    requires IsLetter(a) && IsLetter(k) && IsLetter(v)
    ensures ScanPrefix(LfSectionBuffer(a, k, v), 9) == Ok(Scan(Obj(map[[a] := Empty]), [[a]], 1, 4, false, true))
  {
    var buf := LfSectionBuffer(a, k, v);
    var line4 := Scan(Obj(map[[a] := Empty]), [[a]], 1, 4, false, false);
    LfSectionOpened(a, k, v);
    SkipPlain(buf, 4, 6, line4);
    ScanEquals(buf, 6, line4);
    SkipPlain(buf, 7, 9, line4.(detectedKey := true));
  }

  /** The LF of the key line commits `k =`, which does not match. */
  lemma LfSectionLineRejected(a: byte, k: byte, v: byte)
    requires IsLetter(a) && IsLetter(k) && IsLetter(v)
    ensures CommittedLine(LfSectionBuffer(a, k, v), 9, Scan(Obj(map[[a] := Empty]), [[a]], 1, 4, false, true))
            == LfSectionBuffer(a, k, v)[4..7]
    ensures MatchKeyValue(LfSectionBuffer(a, k, v)[4..7]) == None
  {
    var trimmed := [k, Space, EqualsSign];
    assert LfSectionBuffer(a, k, v)[4..8] == [] + trimmed + [Space];
    TrimPadded([], trimmed, [Space]);
    assert LfSectionBuffer(a, k, v)[4..7] == trimmed;
    KeyWithoutValueFails(k);
  }

  /** The scan of `<a>\nk = v\n</a>\n` fails at the LF of its key line. */
  lemma LfSectionFailsAtLineEnd(a: byte, k: byte, v: byte)
    requires IsLetter(a) && IsLetter(k) && IsLetter(v)
    ensures ScanPrefix(LfSectionBuffer(a, k, v), 10) == Err(MalformedLine(LfSectionBuffer(a, k, v)[4..7]))
  {
    var pending := Scan(Obj(map[[a] := Empty]), [[a]], 1, 4, false, true);
    LfSectionKeyPending(a, k, v);
    LfSectionLineRejected(a, k, v);
    ScanBadLine(LfSectionBuffer(a, k, v), 9, pending, LfSectionBuffer(a, k, v)[4..7]);
  }

  /** `<a>\nk = v\n</a>\n` fails with `k =`: a section written with bare LFs loses the
      last byte of each key line, as `k = v\n` does at the root. */
  lemma LfSectionFails(a: byte, k: byte, v: byte)
    requires IsLetter(a) && IsLetter(k) && IsLetter(v)
    ensures Parse(LfSectionBuffer(a, k, v)) == Err(MalformedLine([k, Space, EqualsSign]))
  {
    LfSectionFailsAtLineEnd(a, k, v);
    ScanErrorIsFinal(LfSectionBuffer(a, k, v), 10);
    assert LfSectionBuffer(a, k, v)[4..7] == [k, Space, EqualsSign];
  }

  /** `k = v\r\n`. */
  function RootBuffer(k: byte, v: byte): Text
  {
    [k, Space, EqualsSign, Space, v, CarriageReturn, LineFeed]
  }

  /** The slice before the LF drops the `\r`, leaving `k = v`. */
  lemma RootCommittedLine(k: byte, v: byte)
    requires IsLetter(k) && IsLetter(v)
    ensures CommittedLine(RootBuffer(k, v), 6, Start.(detectedKey := true)) == [k, Space, EqualsSign, Space, v]
  {
    var line := RootBuffer(k, v)[0..5];
    assert line == [k, Space, EqualsSign, Space, v];
    KeyLineTrimmed(line, k, v);
  }

  /** With no open section, key `k` is written below the empty name. */
  lemma KeyAtRoot(k: byte, v: byte)
    requires IsLetter(k)
    ensures DeepSet(Empty, ValuePath([], [k]), Leaf([v])) == Obj(map[[] := Obj(map[[k] := Leaf([v])])])
  {
    SplitNoDot([k]);
    ValuePathSplits([], [k]);
    assert ValuePath([], [k]) == [[], [k]];
    assert DeepSet(Empty, [[k]], Leaf([v])) == Obj(map[[k] := Leaf([v])]);
  }

  /** Up to the LF of `k = v\r\n`, a key is pending on the first line. */
  lemma RootKeyPending(k: byte, v: byte)
    requires IsLetter(k) && IsLetter(v)
    ensures ScanPrefix(RootBuffer(k, v), 6) == Ok(Start.(detectedKey := true))
  {
    var buf := RootBuffer(k, v);
    SkipPlain(buf, 0, 2, Start);
    ScanEquals(buf, 2, Start);
    SkipPlain(buf, 3, 6, Start.(detectedKey := true));
  }

  /** The LF of `k = v\r\n` commits the first five bytes, which match as `k` and `v`. */
  lemma RootLineMatches(k: byte, v: byte)
    requires IsLetter(k) && IsLetter(v)
    ensures CommittedLine(RootBuffer(k, v), 6, Start.(detectedKey := true)) == RootBuffer(k, v)[..5]
    ensures MatchKeyValue(RootBuffer(k, v)[..5]) == Some(([k], [v]))
  {
    RootCommittedLine(k, v);
    assert RootBuffer(k, v)[..5] == [k, Space, EqualsSign, Space, v];
    KeyLineMatches(RootBuffer(k, v)[..5], k, v);
  }

  /** The LF of `k = v\r\n` writes `v` at the root path of `k`. */
  lemma RootKeyCommitted(k: byte, v: byte)
    requires IsLetter(k) && IsLetter(v)
    ensures ScanPrefix(RootBuffer(k, v), 7) ==
              Ok(Scan(DeepSet(Empty, ValuePath([], [k]), Leaf([v])), [], 0, 7, false, false))
  {
    RootKeyPending(k, v);
    RootLineMatches(k, v);
    ScanKeyLine(RootBuffer(k, v), 6, Start.(detectedKey := true), [k], [v]);
  }

  /** A key outside every section lands under the empty name: `k = v\r\n` gives
      `{ "": { k: "v" } }`, since the path is `''.concat('.k')`. */
  lemma RootKeyUnderEmptyName(k: byte, v: byte)
    requires IsLetter(k) && IsLetter(v)
    ensures Parse(RootBuffer(k, v)) == Ok(Obj(map[[] := Obj(map[[k] := Leaf([v])])]))
  {
    RootKeyCommitted(k, v);
    KeyAtRoot(k, v);
  }

  /** `k=v\r\n`, without the spaces around `=`. */
  function TightBuffer(k: byte, v: byte): Text
  {
    [k, EqualsSign, v, CarriageReturn, LineFeed]
  }

  /** The slice before the LF drops the `\r`, leaving `k=v`. */
  lemma TightCommittedLine(k: byte, v: byte)
    requires IsLetter(k) && IsLetter(v)
    ensures CommittedLine(TightBuffer(k, v), 4, Start.(detectedKey := true)) == [k, EqualsSign, v]
  {
    var line := [k, EqualsSign, v];
    assert TightBuffer(k, v)[0..3] == [] + line + [];
    TrimPadded([], line, []);
  }

  /** `k=v` does not match: a whitespace byte must follow the key. */
  lemma TightLineFails(k: byte, v: byte)
    requires IsLetter(k)
    ensures MatchKeyValue([k, EqualsSign, v]) == None
  {
    KeyLengthExact([k, EqualsSign, v], 1);
  }

  /** Up to the LF of `k=v\r\n`, a key is pending on the first line. */
  lemma TightKeyPending(k: byte, v: byte)
    requires IsLetter(k) && IsLetter(v)
    ensures ScanPrefix(TightBuffer(k, v), 4) == Ok(Start.(detectedKey := true))
  {
    var buf := TightBuffer(k, v);
    SkipPlain(buf, 0, 1, Start);
    ScanEquals(buf, 1, Start);
    SkipPlain(buf, 2, 4, Start.(detectedKey := true));
  }

  /** The LF of `k=v\r\n` commits the first three bytes, which do not match. */
  lemma TightLineRejected(k: byte, v: byte)
    requires IsLetter(k) && IsLetter(v)
    ensures CommittedLine(TightBuffer(k, v), 4, Start.(detectedKey := true)) == TightBuffer(k, v)[..3]
    ensures MatchKeyValue(TightBuffer(k, v)[..3]) == None
  {
    TightCommittedLine(k, v);
    TightLineFails(k, v);
    assert TightBuffer(k, v)[..3] == [k, EqualsSign, v];
  }

  /** The scan of `k=v\r\n` fails at the LF. */
  lemma TightFailsAtLineEnd(k: byte, v: byte)
    requires IsLetter(k) && IsLetter(v)
    ensures ScanPrefix(TightBuffer(k, v), 5) == Err(MalformedLine(TightBuffer(k, v)[..3]))
  {
    TightKeyPending(k, v);
    TightLineRejected(k, v);
    ScanBadLine(TightBuffer(k, v), 4, Start.(detectedKey := true), TightBuffer(k, v)[..3]);
  }

  /** `k=v\r\n`, without the spaces around `=`, is a malformed line. */
  lemma MissingSpacesFail(k: byte, v: byte)
    requires IsLetter(k) && IsLetter(v)
    ensures Parse(TightBuffer(k, v)) == Err(MalformedLine([k, EqualsSign, v]))
  {
    TightFailsAtLineEnd(k, v);
    assert TightBuffer(k, v)[..3] == [k, EqualsSign, v];
  }

  /** A stray closer before any section is tolerated and pops nothing. */
  lemma StrayCloserTolerated(a: byte)
    requires IsLetter(a)
    ensures Parse([OpenAngle, Slash, a, CloseAngle, CarriageReturn, LineFeed]) == Ok(Empty)
  {
    var buf := [OpenAngle, Slash, a, CloseAngle, CarriageReturn, LineFeed];
    CloseMarkerStep(buf, 0, Start);
    assert ScanPrefix(buf, 1) == Ok(Start);
    SkipPlain(buf, 1, 5, Start);
    ScanBlankLine(buf, 5, Start);
  }
}
