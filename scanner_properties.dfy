/** What the scanner promises, byte by byte and over whole buffers. */
module ScannerProperties {
  import opened Wrappers
  import opened Bytes
  import opened LineMatch
  import opened DottedPath
  import opened Tree
  import opened Scanner

  /** A close marker pops exactly one section, or nothing when none is open, whatever
      label follows `</` and whatever the open sections are called; nothing else changes
      (index.js:82-83). */
  lemma CloseMarkerStep(buf: Text, i: nat, s: Scan)
    requires i < |buf| && Bounded(buf, i, s)
    requires IsCloseMarker(buf, i)
    ensures Step(buf, i, s) == Ok(s.(sections := Pop(s.sections)))
    ensures s.sections != [] ==> Pop(s.sections) == s.sections[..|s.sections| - 1]
    ensures s.sections == [] ==> Pop(s.sections) == []
  {
  }

  /** A `<` that does not start a close marker records where the name starts and opens
      a section, and changes nothing else (index.js:78-80). */
  lemma OpenMarkerStartsName(buf: Text, i: nat, s: Scan)
    requires i < |buf| && Bounded(buf, i, s)
    requires buf[i] == OpenAngle && (i + 1 == |buf| || buf[i + 1] != Slash)
    ensures Step(buf, i, s) == Ok(s.(offsetSection := i + 1, openSection := true))
  {
  }

  /** A `=` marks the current line as a key/value line and changes nothing else
      (index.js:91-92). */
  lemma EqualsMarksKey(buf: Text, i: nat, s: Scan)
    requires i < |buf| && Bounded(buf, i, s)
    requires buf[i] == EqualsSign
    ensures Step(buf, i, s) == Ok(s.(detectedKey := true))
  {
  }

  /** Every byte other than `<`, `=`, `\n`, and `>` ending an opening marker, leaves the
      state as it was (index.js:78-103 has no branch for it). */
  lemma OtherByteIgnored(buf: Text, i: nat, s: Scan)
    requires i < |buf| && Bounded(buf, i, s)
    requires buf[i] != OpenAngle && buf[i] != EqualsSign && buf[i] != LineFeed
    requires buf[i] == CloseAngle ==> !s.openSection
    ensures Step(buf, i, s) == Ok(s)
  {
  }

  /** A `>` that completes an opening marker pushes the bytes from `offsetSection` up to
      the `>` and assigns a fresh `{}` at the dotted path of the new stack
      (index.js:85-89). */
  lemma SectionOpenStep(buf: Text, i: nat, s: Scan)
    requires i < |buf| && Bounded(buf, i, s)
    requires buf[i] == CloseAngle && s.openSection
    ensures Step(buf, i, s) ==
              Ok(s.(sections := s.sections + [buf[s.offsetSection..i]],
                    ret := DeepSet(s.ret, SectionPath(s.sections + [buf[s.offsetSection..i]]), Empty),
                    openSection := false))
  {
  }

  /** A `\n` ending a line with a `=` whose trimmed text matches writes the value at the
      stack's path followed by the key, and starts the next line (index.js:94-102). */
  lemma KeyLineStep(buf: Text, i: nat, s: Scan, key: Text, value: Text)
    requires i < |buf| && Bounded(buf, i, s)
    requires buf[i] == LineFeed && s.detectedKey
    requires MatchKeyValue(CommittedLine(buf, i, s)) == Some((key, value))
    ensures Step(buf, i, s) ==
              Ok(s.(detectedKey := false, ret := DeepSet(s.ret, ValuePath(s.sections, key), Leaf(value)), rNOffset := i + 1))
  {
    NewlineStep(buf, i, s);
    KeyLineEnds(buf, i, s, key, value);
  }

  /** A `\n` ending a line with a `=` whose trimmed text does not match fails with that
      text (index.js:97). */
  lemma BadLineStep(buf: Text, i: nat, s: Scan)
    requires i < |buf| && Bounded(buf, i, s)
    requires buf[i] == LineFeed && s.detectedKey
    requires MatchKeyValue(CommittedLine(buf, i, s)) == None
    ensures Step(buf, i, s) == Err(MalformedLine(CommittedLine(buf, i, s)))
  {
    NewlineStep(buf, i, s);
    BadLineEnds(buf, i, s);
  }

  /** Every `\n` that does not fail moves the line start past itself, clears the pending
      key and leaves the stack and the section state alone (index.js:94-103). */
  lemma NewlineAdvancesLine(buf: Text, i: nat, s: Scan)
    requires i < |buf| && Bounded(buf, i, s)
    requires buf[i] == LineFeed
    requires Step(buf, i, s).Ok?
    ensures Step(buf, i, s).value.rNOffset == i + 1
    ensures !Step(buf, i, s).value.detectedKey
    ensures Step(buf, i, s).value.sections == s.sections
    ensures Step(buf, i, s).value.openSection == s.openSection
    ensures Step(buf, i, s).value.offsetSection == s.offsetSection
    ensures !s.detectedKey ==> Step(buf, i, s).value.ret == s.ret
  {
  }

  /** The tree changes only when a `>` closes an opening marker or when a `\n` ends a
      key/value line; any other byte leaves it as it was (index.js:78-103). */
  lemma TreeChangesOnlyAtSectionOrLine(buf: Text, i: nat, s: Scan)
    requires i < |buf| && Bounded(buf, i, s)
    requires Step(buf, i, s).Ok? && Step(buf, i, s).value.ret != s.ret
    ensures (buf[i] == CloseAngle && s.openSection) || (buf[i] == LineFeed && s.detectedKey)
  {
  }

  // ---------------------------------------------------------------------------
  // States the scan reaches

  /** What holds of the state after the first `n` bytes of a scan that has not failed. */
  ghost predicate Reachable(buf: Text, n: nat, s: Scan)
    requires n <= |buf|
  {
    && Bounded(buf, n, s)
    // the current line starts at the beginning or just after a `\n`, and has none
    && (s.rNOffset == 0 || buf[s.rNOffset - 1] == LineFeed)
    && (forall j :: s.rNOffset <= j < n ==> buf[j] != LineFeed)
    // a key is pending exactly when the current line holds a `=`
    && (s.detectedKey <==> exists j :: s.rNOffset <= j < n && buf[j] == EqualsSign)
    // an open section started right after an opening `<`, with no `>` nor opening `<` since
    && (s.openSection ==> 0 < s.offsetSection && IsOpenMarker(buf, s.offsetSection - 1))
    && (s.openSection ==> forall j :: s.offsetSection <= j < n ==> !IsOpenMarker(buf, j) && buf[j] != CloseAngle)
    // every open or opening section is paid for by a `<`
    && |s.sections| + (if s.openSection then 1 else 0) <= Count(buf[..n], OpenAngle)
  }

  lemma CountPush(buf: Text, i: nat)
    requires i < |buf|
    ensures Count(buf[..i + 1], OpenAngle) == Count(buf[..i], OpenAngle) + (if buf[i] == OpenAngle then 1 else 0)
  {
    assert buf[..i + 1][..i] == buf[..i];
  }

  lemma OpenKeepsReachable(buf: Text, i: nat, s: Scan)
    requires i < |buf| && Reachable(buf, i, s) && IsOpenMarker(buf, i)
    ensures Reachable(buf, i + 1, s.(offsetSection := i + 1, openSection := true))
  {
    CountPush(buf, i);
  }

  lemma CloseKeepsReachable(buf: Text, i: nat, s: Scan)
    requires i < |buf| && Reachable(buf, i, s) && IsCloseMarker(buf, i)
    ensures Reachable(buf, i + 1, s.(sections := Pop(s.sections)))
  {
    CountPush(buf, i);
  }

  lemma PushKeepsReachable(buf: Text, i: nat, s: Scan)
    requires i < |buf| && Reachable(buf, i, s) && buf[i] == CloseAngle && s.openSection
    ensures Reachable(buf, i + 1, PushSection(buf, i, s))
  {
    CountPush(buf, i);
  }

  lemma EqualsKeepsReachable(buf: Text, i: nat, s: Scan)
    requires i < |buf| && Reachable(buf, i, s) && buf[i] == EqualsSign
    ensures Reachable(buf, i + 1, s.(detectedKey := true))
  {
    CountPush(buf, i);
    assert s.rNOffset <= i && buf[i] == EqualsSign;
  }

  lemma NewlineKeepsReachable(buf: Text, i: nat, s: Scan)
    requires i < |buf| && Reachable(buf, i, s) && buf[i] == LineFeed
    requires Step(buf, i, s).Ok?
    ensures Reachable(buf, i + 1, Step(buf, i, s).value)
  {
    CountPush(buf, i);
    NewlineAdvancesLine(buf, i, s);
  }

  lemma OtherKeepsReachable(buf: Text, i: nat, s: Scan)
    requires i < |buf| && Reachable(buf, i, s)
    requires buf[i] != OpenAngle && buf[i] != EqualsSign && buf[i] != LineFeed
    requires buf[i] == CloseAngle ==> !s.openSection
    ensures Reachable(buf, i + 1, s)
  {
    CountPush(buf, i);
    assert (exists j :: s.rNOffset <= j < i + 1 && buf[j] == EqualsSign) ==>
             (exists j :: s.rNOffset <= j < i && buf[j] == EqualsSign);
  }

  lemma StepKeepsReachable(buf: Text, i: nat, s: Scan)
    requires i < |buf| && Reachable(buf, i, s)
    requires Step(buf, i, s).Ok?
    ensures Reachable(buf, i + 1, Step(buf, i, s).value)
  {
    if IsOpenMarker(buf, i) {
      OpenMarkerStartsName(buf, i, s);
      OpenKeepsReachable(buf, i, s);
    } else if IsCloseMarker(buf, i) {
      CloseMarkerStep(buf, i, s);
      CloseKeepsReachable(buf, i, s);
    } else if buf[i] == CloseAngle && s.openSection {
      assert Step(buf, i, s) == Ok(PushSection(buf, i, s));
      PushKeepsReachable(buf, i, s);
    } else if buf[i] == EqualsSign {
      EqualsMarksKey(buf, i, s);
      EqualsKeepsReachable(buf, i, s);
    } else if buf[i] == LineFeed {
      NewlineKeepsReachable(buf, i, s);
    } else {
      OtherByteIgnored(buf, i, s);
      OtherKeepsReachable(buf, i, s);
    }
  }

  /** Every state the scan reaches satisfies `Reachable`. */
  lemma {:induction false} ScanPrefixReachable(buf: Text, n: nat)
    requires n <= |buf| && ScanPrefix(buf, n).Ok?
    ensures Reachable(buf, n, ScanPrefix(buf, n).value)
  {
    if n == 0 {
      assert buf[..0] == [];
    } else {
      ScanPrefixReachable(buf, n - 1);
      StepKeepsReachable(buf, n - 1, ScanPrefix(buf, n - 1).value);
    }
  }

  /** The stack never holds more sections than `<` bytes have been read; the stack only
      grows at a `>` that completes an opening marker (index.js:77-104). */
  lemma DepthBound(buf: Text, n: nat)
    requires n <= |buf| && ScanPrefix(buf, n).Ok?
    ensures |ScanPrefix(buf, n).value.sections| <= Count(buf[..n], OpenAngle)
  {
    ScanPrefixReachable(buf, n);
  }

  /** A `>` that completes an opening marker pushes the bytes between that marker's `<`
      and the `>` as one section, stops the opening, and assigns a fresh, empty object at
      the dotted path of the whole stack: what was there before is gone, and every path
      that parts from it reads as before (index.js:85-89). */
  lemma SectionOpens(buf: Text, i: nat, s: Scan)
    requires i < |buf| && ScanPrefix(buf, i) == Ok(s)
    requires buf[i] == CloseAngle && s.openSection
    ensures 0 < s.offsetSection && IsOpenMarker(buf, s.offsetSection - 1)
    ensures forall j :: s.offsetSection <= j < i ==> !IsOpenMarker(buf, j) && buf[j] != CloseAngle
    ensures ScanPrefix(buf, i + 1).Ok?
    ensures ScanPrefix(buf, i + 1).value.sections == s.sections + [buf[s.offsetSection..i]]
    ensures !ScanPrefix(buf, i + 1).value.openSection
    ensures Get(ScanPrefix(buf, i + 1).value.ret, SectionPath(s.sections + [buf[s.offsetSection..i]])) == Some(Empty)
    ensures forall q :: Diverge(SectionPath(s.sections + [buf[s.offsetSection..i]]), q) ==>
              Get(ScanPrefix(buf, i + 1).value.ret, q) == Get(s.ret, q)
  {
    ScanPrefixReachable(buf, i);
    var path := SectionPath(s.sections + [buf[s.offsetSection..i]]);
    GetAfterSet(s.ret, path, Empty);
    forall q | Diverge(path, q) ensures Get(DeepSet(s.ret, path, Empty), q) == Get(s.ret, q) {
      GetAwayFromSet(s.ret, path, Empty, q);
    }
  }

  /** A line that holds a `=` has a key pending when its `\n` arrives. */
  lemma KeyPendingAtLineEnd(buf: Text, i: nat, s: Scan, j: nat)
    requires i < |buf| && ScanPrefix(buf, i) == Ok(s)
    requires s.rNOffset <= j < i && buf[j] == EqualsSign
    ensures s.detectedKey && 0 < i && s.rNOffset <= i - 1
  {
    ScanPrefixReachable(buf, i);
  }

  /** A committed line that does not match fails the scan and the whole parse. */
  lemma BadLineFailsParse(buf: Text, i: nat, s: Scan)
    requires i < |buf| && ScanPrefix(buf, i) == Ok(s)
    requires buf[i] == LineFeed && s.detectedKey
    requires MatchKeyValue(CommittedLine(buf, i, s)) == None
    ensures ScanPrefix(buf, i + 1) == Err(MalformedLine(CommittedLine(buf, i, s)))
    ensures Parse(buf) == Err(MalformedLine(CommittedLine(buf, i, s)))
  {
    BadLineStep(buf, i, s);
    ErrorPersists(buf, i + 1, |buf|);
  }

  /** The first error the scan meets is what `Parse` reports. */
  lemma ScanErrorIsFinal(buf: Text, n: nat)
    requires n <= |buf| && ScanPrefix(buf, n).Err?
    ensures Parse(buf) == Err(ScanPrefix(buf, n).error)
  {
    ErrorPersists(buf, n, |buf|);
  }

  /** A committed line that matches writes its value and leaves every path that parts
      from the value's path as it was. */
  lemma KeyLineWrites(buf: Text, i: nat, s: Scan, key: Text, value: Text)
    requires i < |buf| && ScanPrefix(buf, i) == Ok(s)
    requires buf[i] == LineFeed && s.detectedKey
    requires MatchKeyValue(CommittedLine(buf, i, s)) == Some((key, value))
    ensures ScanPrefix(buf, i + 1).Ok?
    ensures ScanPrefix(buf, i + 1).value.sections == s.sections
    ensures Get(ScanPrefix(buf, i + 1).value.ret, ValuePath(s.sections, key)) == Some(Leaf(value))
    ensures forall q :: Diverge(ValuePath(s.sections, key), q) ==>
              Get(ScanPrefix(buf, i + 1).value.ret, q) == Get(s.ret, q)
  {
    KeyLineStep(buf, i, s, key, value);
    var path := ValuePath(s.sections, key);
    GetAfterSet(s.ret, path, Leaf(value));
    forall q | Diverge(path, q) ensures Get(DeepSet(s.ret, path, Leaf(value)), q) == Get(s.ret, q) {
      GetAwayFromSet(s.ret, path, Leaf(value), q);
    }
  }

  /** A `\n` ending a line that holds a `=` commits that line: the slice from the line
      start to the byte before the `\n` is in bounds and leaves that byte out; the
      trimmed slice either fails to match, and then the whole parse fails with it and
      returns no tree, or it gives `(key, value)`, and then `value` is at the path of
      the stack followed by the key, and every path that parts from it reads as before
      (index.js:94-101). */
  lemma LineCommits(buf: Text, i: nat, s: Scan, j: nat)
    requires i < |buf| && ScanPrefix(buf, i) == Ok(s)
    requires buf[i] == LineFeed
    requires s.rNOffset <= j < i && buf[j] == EqualsSign
    ensures s.detectedKey && 0 < i && s.rNOffset <= i - 1
    ensures MatchKeyValue(Trim(buf[s.rNOffset..i - 1])).None? ==>
              ScanPrefix(buf, i + 1) == Err(MalformedLine(Trim(buf[s.rNOffset..i - 1]))) &&
              Parse(buf) == Err(MalformedLine(Trim(buf[s.rNOffset..i - 1])))
    ensures MatchKeyValue(Trim(buf[s.rNOffset..i - 1])).Some? ==>
              var (key, value) := MatchKeyValue(Trim(buf[s.rNOffset..i - 1])).value;
              && ScanPrefix(buf, i + 1).Ok?
              && ScanPrefix(buf, i + 1).value.sections == s.sections
              && Get(ScanPrefix(buf, i + 1).value.ret, ValuePath(s.sections, key)) == Some(Leaf(value))
              && forall q :: Diverge(ValuePath(s.sections, key), q) ==>
                   Get(ScanPrefix(buf, i + 1).value.ret, q) == Get(s.ret, q)
  {
    KeyPendingAtLineEnd(buf, i, s, j);
    var line := Trim(buf[s.rNOffset..i - 1]);
    assert line == CommittedLine(buf, i, s);
    match MatchKeyValue(line)
    case None =>
      BadLineFailsParse(buf, i, s);
    case Some((key, value)) =>
      KeyLineWrites(buf, i, s, key, value);
  }

  /** A `\n` ending a line without `=` leaves the tree alone and only moves the line
      start (index.js:94-95, index.js:102). */
  lemma LineWithoutEqualsIgnored(buf: Text, i: nat, s: Scan)
    requires i < |buf| && ScanPrefix(buf, i) == Ok(s)
    requires buf[i] == LineFeed
    requires forall j :: s.rNOffset <= j < i ==> buf[j] != EqualsSign
    ensures ScanPrefix(buf, i + 1) == Ok(s.(rNOffset := i + 1))
  {
    ScanPrefixReachable(buf, i);
  }

  lemma {:induction false} TrailingBytesKeepTree(buf: Text, k: nat, n: nat)
    requires k <= n <= |buf| && ScanPrefix(buf, k).Ok?
    requires forall j :: k <= j < |buf| ==> buf[j] != LineFeed && buf[j] != CloseAngle
    ensures ScanPrefix(buf, n).Ok? && ScanPrefix(buf, n).value.ret == ScanPrefix(buf, k).value.ret
    decreases n
  {
    if k < n {
      TrailingBytesKeepTree(buf, k, n - 1);
      var s := ScanPrefix(buf, n - 1).value;
      assert buf[n - 1] != LineFeed && buf[n - 1] != CloseAngle;
      assert Step(buf, n - 1, s) == Ok(ScanPrefix(buf, n).value);
    }
  }

  /** Bytes after the last `\n` record nothing: when they hold no `\n` (and no `>` that
      could open a section), the parse returns the tree as it stood before them, even
      if they hold a complete `key = value` text (the loop of index.js:77 ends with the
      key still pending). */
  lemma UnterminatedLineNotRecorded(buf: Text, k: nat)
    requires k <= |buf| && ScanPrefix(buf, k).Ok?
    requires forall j :: k <= j < |buf| ==> buf[j] != LineFeed && buf[j] != CloseAngle
    ensures Parse(buf) == Ok(ScanPrefix(buf, k).value.ret)
  {
    TrailingBytesKeepTree(buf, k, |buf|);
  }

  /** A buffer with no `=` at all cannot fail (index.js:91-101). */
  lemma {:induction false} NoEqualsNeverFails(buf: Text, n: nat)
    requires n <= |buf|
    requires forall j :: 0 <= j < |buf| ==> buf[j] != EqualsSign
    ensures ScanPrefix(buf, n).Ok? && !ScanPrefix(buf, n).value.detectedKey
  {
    if n > 0 {
      NoEqualsNeverFails(buf, n - 1);
    }
  }

  /** Bytes with no `\n` never fail the scan and commit no line: only a `\n` reaches the
      match at index.js:97, so a last line without one is never recorded, whatever it
      holds (index.js:77, index.js:94). */
  lemma {:induction false} NoNewlineNeverFails(buf: Text, k: nat, n: nat)
    requires k <= n <= |buf| && ScanPrefix(buf, k).Ok?
    requires forall j :: k <= j < n ==> buf[j] != LineFeed
    ensures ScanPrefix(buf, n).Ok?
    ensures ScanPrefix(buf, n).value.rNOffset == ScanPrefix(buf, k).value.rNOffset
    decreases n
  {
    if k < n {
      NoNewlineNeverFails(buf, k, n - 1);
      assert buf[n - 1] != LineFeed;
    }
  }

  /** A byte that no branch of the loop body acts on in state `s`. */
  predicate Plain(b: byte, s: Scan)
  {
    b != OpenAngle && b != EqualsSign && b != LineFeed && (b == CloseAngle ==> !s.openSection)
  }

  /** Plain bytes from `i` up to `j` leave the scan state as it was. */
  lemma {:induction false} SkipPlain(buf: Text, i: nat, j: nat, s: Scan)
    requires i <= j <= |buf| && ScanPrefix(buf, i) == Ok(s)
    requires forall k :: i <= k < j ==> Plain(buf[k], s)
    ensures ScanPrefix(buf, j) == Ok(s)
    decreases j - i
  {
    if i < j {
      OtherByteIgnored(buf, i, s);
      SkipPlain(buf, i + 1, j, s);
    }
  }

  /** The state after the first `n` bytes depends only on those bytes, on whether a byte
      follows them, and on that byte, which the marker tests look at (`buf[i + 1]`,
      index.js:78 and index.js:82). */
  lemma {:induction false} ScanPrefixLocal(b1: Text, b2: Text, n: nat)
    requires n <= |b1| && n <= |b2| && b1[..n] == b2[..n]
    requires n < |b1| <==> n < |b2|
    requires n < |b1| ==> b1[n] == b2[n]
    ensures ScanPrefix(b1, n) == ScanPrefix(b2, n)
  {
    if n > 0 {
      assert b1[..n - 1] == b2[..n - 1] by {
        assert b1[..n - 1] == b1[..n][..n - 1] && b2[..n - 1] == b2[..n][..n - 1];
      }
      assert b1[n - 1] == b1[..n][n - 1] && b2[n - 1] == b2[..n][n - 1];
      ScanPrefixLocal(b1, b2, n - 1);
      match ScanPrefix(b1, n - 1)
      case Err(_) =>
      case Ok(s) =>
        StepLocal(b1, b2, n - 1, s);
    }
  }

  lemma StepLocal(b1: Text, b2: Text, i: nat, s: Scan)
    requires i < |b1| && i < |b2| && b1[..i + 1] == b2[..i + 1]
    requires i + 1 < |b1| <==> i + 1 < |b2|
    requires i + 1 < |b1| ==> b1[i + 1] == b2[i + 1]
    requires Bounded(b1, i, s)
    ensures Step(b1, i, s) == Step(b2, i, s)
  {
    forall k | 0 <= k <= i
      ensures b1[k] == b2[k]
    {
      assert b1[k] == b1[..i + 1][k] && b2[k] == b2[..i + 1][k];
    }
    assert b1[s.offsetSection..i] == b2[s.offsetSection..i];
    if s.detectedKey {
      assert b1[s.rNOffset..i - 1] == b2[s.rNOffset..i - 1];
    }
  }

  /** With no opening marker pending, a close marker `</` followed by a label and its `>`
      pops one section and changes nothing else, whatever the label holds, as long as
      it has no `<`, `=`, `\n` or `>` (index.js:82-83). Without an opening marker pending
      is needed: in `<a</b>` the `>` completes the opening `<a` and pushes `a</b`. */
  lemma CloserPops(buf: Text, i: nat, j: nat, s: Scan)
    requires i + 2 <= j < |buf| && ScanPrefix(buf, i) == Ok(s) && !s.openSection
    requires IsCloseMarker(buf, i) && buf[j] == CloseAngle
    requires forall k :: i + 2 <= k < j ==>
               buf[k] != OpenAngle && buf[k] != EqualsSign && buf[k] != LineFeed && buf[k] != CloseAngle
    ensures ScanPrefix(buf, j + 1) == Ok(s.(sections := Pop(s.sections)))
  {
    CloseMarkerStep(buf, i, s);
    SkipPlain(buf, i + 1, j + 1, s.(sections := Pop(s.sections)));
  }

  /** The closer's label is not consulted: two buffers that agree up to `</` and differ
      only in the label bytes before the closer's `>` reach the same state after it. */
  lemma CloserLabelIgnored(b1: Text, b2: Text, i: nat, j: nat)
    requires i + 2 <= j < |b1| && j < |b2| && b1[..i + 2] == b2[..i + 2]
    requires ScanPrefix(b1, i).Ok? && !ScanPrefix(b1, i).value.openSection
    requires IsCloseMarker(b1, i) && b1[j] == CloseAngle && b2[j] == CloseAngle
    requires forall k :: i + 2 <= k < j ==>
               b1[k] != OpenAngle && b1[k] != EqualsSign && b1[k] != LineFeed && b1[k] != CloseAngle
    requires forall k :: i + 2 <= k < j ==>
               b2[k] != OpenAngle && b2[k] != EqualsSign && b2[k] != LineFeed && b2[k] != CloseAngle
    ensures ScanPrefix(b1, j + 1) == ScanPrefix(b2, j + 1)
  {
    assert b1[..i] == b2[..i] by {
      assert b1[..i] == b1[..i + 2][..i] && b2[..i] == b2[..i + 2][..i];
    }
    assert b1[i] == b1[..i + 2][i] && b2[i] == b2[..i + 2][i];
    assert b1[i + 1] == b1[..i + 2][i + 1] && b2[i + 1] == b2[..i + 2][i + 1];
    ScanPrefixLocal(b1, b2, i);
    var s := ScanPrefix(b1, i).value;
    CloserPops(b1, i, j, s);
    CloserPops(b2, i, j, s);
  }

  /** Bytes with no `\n` and no `<` after a point where no opening marker is pending never
      fail the scan and leave the tree as it was; a `>` among them does nothing. */
  lemma {:induction false} TrailingPlainBytesKeepTree(buf: Text, k: nat, n: nat)
    requires k <= n <= |buf| && ScanPrefix(buf, k).Ok? && !ScanPrefix(buf, k).value.openSection
    requires forall j :: k <= j < |buf| ==> buf[j] != LineFeed && buf[j] != OpenAngle
    ensures ScanPrefix(buf, n).Ok? && !ScanPrefix(buf, n).value.openSection
    ensures ScanPrefix(buf, n).value.ret == ScanPrefix(buf, k).value.ret
    decreases n
  {
    if k < n {
      TrailingPlainBytesKeepTree(buf, k, n - 1);
      var s := ScanPrefix(buf, n - 1).value;
      assert buf[n - 1] != LineFeed && buf[n - 1] != OpenAngle;
      assert Step(buf, n - 1, s) == Ok(ScanPrefix(buf, n).value);
    }
  }

  /** An unterminated last line records nothing even when it holds a `>`, such as
      `k = a>b`, provided no opening marker is pending where it starts and it has no `<`
      (index.js:77, index.js:85). */
  lemma UnterminatedPlainLineNotRecorded(buf: Text, k: nat)
    requires k <= |buf| && ScanPrefix(buf, k).Ok? && !ScanPrefix(buf, k).value.openSection
    requires forall j :: k <= j < |buf| ==> buf[j] != LineFeed && buf[j] != OpenAngle
    ensures Parse(buf) == Ok(ScanPrefix(buf, k).value.ret)
  {
    TrailingPlainBytesKeepTree(buf, k, |buf|);
  }
}
