/** The single-pass byte scanner `PDSReader.parsePDSBuffer` (index.js:73-106): a
    reference definition one byte at a time (`Step`, `ScanPrefix`, `Parse`) and the
    loop itself (`ParsePDSBuffer`), proved to compute it. */
module Scanner {
  import opened Wrappers
  import opened Bytes
  import opened LineMatch
  import opened DottedPath
  import opened Tree

  /** The loop's local state: the result tree `ret`, the stack `currSections` and
      `offsetSection`, `rNOffset`, `openSection`, `detectedKey` (index.js:74-76). */
  datatype Scan = Scan(
    ret: Node,
    sections: seq<Text>,
    offsetSection: nat,
    rNOffset: nat,
    openSection: bool,
    detectedKey: bool)

  /** A key/value line that the regular expression does not match. In the source the
      `null` from `exec` is destructured and throws; here the error carries the trimmed
      line the match was tried on. */
  datatype ParseError = MalformedLine(line: Text)

  /** The state before the first byte (index.js:74-76). */
  const Start: Scan := Scan(Empty, [], 0, 0, false, false)

  /** `buf[i] === CHAR.cO && buf[i + 1] !== CHAR.cC`; past the end `buf[i + 1]` is
      `undefined`, which differs from `CHAR.cC`. */
  predicate IsOpenMarker(buf: Text, i: nat)
    requires i < |buf|
  {
    buf[i] == OpenAngle && !(i + 1 < |buf| && buf[i + 1] == Slash)
  }

  /** `buf[i] === CHAR.cO && buf[i + 1] === CHAR.cC`. */
  predicate IsCloseMarker(buf: Text, i: nat)
    requires i < |buf|
  {
    buf[i] == OpenAngle && i + 1 < |buf| && buf[i + 1] == Slash
  }

  /** `Array.prototype.pop`, which leaves an empty array as it is. */
  function Pop(sections: seq<Text>): (r: seq<Text>)
    ensures |r| == if sections == [] then 0 else |sections| - 1
    ensures r <= sections
  {
    if sections == [] then sections else sections[..|sections| - 1]
  }

  /** What holds of the state before byte `i`: the two slices the loop takes are in
      bounds, a pending key has its `=` strictly before `i`, and `ret` is an object. */
  predicate Bounded(buf: Text, i: nat, s: Scan)
  {
    && i <= |buf|
    && s.offsetSection <= i
    && s.rNOffset <= i
    && (s.detectedKey ==> s.rNOffset < i)
    && s.ret.Obj?
  }

  /** The line a `\n` at `i` commits: from `rNOffset` up to, but not including, the byte
      before the `\n` (`buf.slice(rNOffset, i - 1)`, index.js:98), trimmed. */
  function CommittedLine(buf: Text, i: nat, s: Scan): Text
    requires Bounded(buf, i, s) && s.detectedKey
  {
    Trim(buf[s.rNOffset..i - 1])
  }

  /** The `>` branch while a section is opening: push the bytes from `offsetSection` up
      to `i` and assign a fresh `{}` at the dotted path of the new stack
      (index.js:85-89). */
  function PushSection(buf: Text, i: nat, s: Scan): (r: Scan)
    requires i < |buf| && Bounded(buf, i, s)
    ensures Bounded(buf, i + 1, r)
  {
    var sections := s.sections + [buf[s.offsetSection..i]];
    s.(sections := sections, ret := DeepSet(s.ret, SectionPath(sections), Empty), openSection := false)
  }

  /** The `\n` branch: a pending key commits the line, which fails when it does not match;
      either way the next line starts after the `\n` (index.js:94-103). */
  function EndLine(buf: Text, i: nat, s: Scan): (r: Result<Scan, ParseError>)
    requires i < |buf| && Bounded(buf, i, s)
    ensures r.Ok? ==> Bounded(buf, i + 1, r.value)
  {
    if s.detectedKey then
      var line := CommittedLine(buf, i, s);
      match MatchKeyValue(line)
      case None => Err(MalformedLine(line))
      case Some((key, value)) =>
        Ok(s.(detectedKey := false, ret := DeepSet(s.ret, ValuePath(s.sections, key), Leaf(value)), rNOffset := i + 1))
    else
      Ok(s.(rNOffset := i + 1))
  }

  /** A `\n` is neither marker nor `>` nor `=`: the loop body goes to its `\n` branch. */
  lemma NewlineStep(buf: Text, i: nat, s: Scan)
    requires i < |buf| && Bounded(buf, i, s) && buf[i] == LineFeed
    ensures Step(buf, i, s) == EndLine(buf, i, s)
  {
    assert !IsOpenMarker(buf, i) && !IsCloseMarker(buf, i);
  }

  /** A pending key line that matches ends by writing its value (index.js:95-102). */
  lemma KeyLineEnds(buf: Text, i: nat, s: Scan, key: Text, value: Text)
    requires i < |buf| && Bounded(buf, i, s) && s.detectedKey
    requires MatchKeyValue(CommittedLine(buf, i, s)) == Some((key, value))
    ensures EndLine(buf, i, s) ==
              Ok(s.(detectedKey := false, ret := DeepSet(s.ret, ValuePath(s.sections, key), Leaf(value)), rNOffset := i + 1))
  {
  }

  /** A pending key line that does not match fails with its trimmed text (index.js:97). */
  lemma BadLineEnds(buf: Text, i: nat, s: Scan)
    requires i < |buf| && Bounded(buf, i, s) && s.detectedKey
    requires MatchKeyValue(CommittedLine(buf, i, s)) == None
    ensures EndLine(buf, i, s) == Err(MalformedLine(CommittedLine(buf, i, s)))
  {
  }

  /** A line without `=` ends by only moving the line start (index.js:102). */
  lemma PlainLineEnds(buf: Text, i: nat, s: Scan)
    requires i < |buf| && Bounded(buf, i, s) && !s.detectedKey
    ensures EndLine(buf, i, s) == Ok(s.(rNOffset := i + 1))
  {
  }

  /** One iteration of the loop body on byte `i` (index.js:78-103). */
  function Step(buf: Text, i: nat, s: Scan): (r: Result<Scan, ParseError>)
    requires i < |buf| && Bounded(buf, i, s)
    ensures r.Ok? ==> Bounded(buf, i + 1, r.value)
  {
    if IsOpenMarker(buf, i) then
      Ok(s.(offsetSection := i + 1, openSection := true))
    else if IsCloseMarker(buf, i) then
      Ok(s.(sections := Pop(s.sections)))
    else if buf[i] == CloseAngle && s.openSection then
      Ok(PushSection(buf, i, s))
    else if buf[i] == EqualsSign then
      Ok(s.(detectedKey := true))
    else if buf[i] == LineFeed then
      EndLine(buf, i, s)
    else
      Ok(s)
  }

  /** The state after the first `n` bytes, or the error that ended the scan. */
  function ScanPrefix(buf: Text, n: nat): (r: Result<Scan, ParseError>)
    requires n <= |buf|
    ensures r.Ok? ==> Bounded(buf, n, r.value)
  {
    if n == 0 then Ok(Start)
    else
      match ScanPrefix(buf, n - 1)
      case Err(e) => Err(e)
      case Ok(s) => Step(buf, n - 1, s)
  }

  /** `PDSReader.parsePDSBuffer(buf)`: the tree after the last byte, or the failure. */
  function Parse(buf: Text): Result<Node, ParseError>
  {
    match ScanPrefix(buf, |buf|)
    case Err(e) => Err(e)
    case Ok(s) => Ok(s.ret)
  }

  /** Once a line fails to match, the scan stays failed with that error. */
  lemma {:induction false} ErrorPersists(buf: Text, k: nat, n: nat)
    requires k <= n <= |buf|
    requires ScanPrefix(buf, k).Err?
    ensures ScanPrefix(buf, n) == ScanPrefix(buf, k)
    decreases n - k
  {
    if k < n {
      ErrorPersists(buf, k + 1, n);
    }
  }

  /** The scanning loop of `parsePDSBuffer`, with its local variables. */
  method ParsePDSBuffer(buf: Text) returns (result: Result<Node, ParseError>)
    ensures result == Parse(buf)
  {
    var ret := Empty;
    var currSections: seq<Text> := [];
    var offsetSection, rNOffset, openSection, detectedKey := 0, 0, false, false;
    for i := 0 to |buf|
      invariant ScanPrefix(buf, i) == Ok(Scan(ret, currSections, offsetSection, rNOffset, openSection, detectedKey))
    {
      ghost var before := Scan(ret, currSections, offsetSection, rNOffset, openSection, detectedKey);
      assert ScanPrefix(buf, i + 1) == Step(buf, i, before);
      if IsOpenMarker(buf, i) {
        offsetSection := i + 1;
        openSection := true;
        assert Step(buf, i, before) == Ok(Scan(ret, currSections, offsetSection, rNOffset, openSection, detectedKey));
      } else if IsCloseMarker(buf, i) {
        if currSections != [] {
          currSections := currSections[..|currSections| - 1];
        }
        assert currSections == Pop(before.sections);
        assert Step(buf, i, before) == Ok(Scan(ret, currSections, offsetSection, rNOffset, openSection, detectedKey));
      } else if buf[i] == CloseAngle && openSection {
        var sectionName := buf[offsetSection..i];
        currSections := currSections + [sectionName];
        ret := DeepSet(ret, SectionPath(currSections), Empty);
        openSection := false;
        assert Step(buf, i, before) == Ok(PushSection(buf, i, before));
        assert PushSection(buf, i, before) == Scan(ret, currSections, offsetSection, rNOffset, openSection, detectedKey);
      } else if buf[i] == EqualsSign {
        detectedKey := true;
        assert Step(buf, i, before) == Ok(Scan(ret, currSections, offsetSection, rNOffset, openSection, detectedKey));
      } else if buf[i] == LineFeed {
        assert Step(buf, i, before) == EndLine(buf, i, before);
        if detectedKey {
          detectedKey := false;
          var line := Trim(buf[rNOffset..i - 1]);
          assert line == CommittedLine(buf, i, before);
          var m := MatchKeyValue(line);
          if m.None? {
            BadLineEnds(buf, i, before);
            result := Err(MalformedLine(line));
            assert ScanPrefix(buf, i + 1) == Err(MalformedLine(line));
            ErrorPersists(buf, i + 1, |buf|);
            return;
          }
          var (key, value) := m.value;
          KeyLineEnds(buf, i, before, key, value);
          ret := DeepSet(ret, ValuePath(currSections, key), Leaf(value));
        } else {
          PlainLineEnds(buf, i, before);
        }
        rNOffset := i + 1;
        assert EndLine(buf, i, before) == Ok(Scan(ret, currSections, offsetSection, rNOffset, openSection, detectedKey));
      } else {
        assert Step(buf, i, before) == Ok(before);
      }
      assert ScanPrefix(buf, i + 1) == Ok(Scan(ret, currSections, offsetSection, rNOffset, openSection, detectedKey));
    }
    result := Ok(ret);
  }
}
