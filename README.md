# nimCfgReader scanner in Dafny

This project models `PDSReader.parsePDSBuffer` from the nimCfgReader package (index.js). That function reads a Nimsoft/UIM `.cfg` (PDS) configuration buffer in one pass and builds a nested key/value tree from it:

```
<section>
key.with.dots = some value
   <nested>
   other_key = 123
   </nested>
</section>
```

The model has eight modules, one file each:

- `Wrappers` (wrappers.dfy): the `Option` and `Result` datatypes, for the regular expression's `null` and for a parse that throws.
- `Bytes` (bytes.dfy): the buffer's byte type and the `CHAR` codes (`<`, `>`, `/`, `=`, `\n`).
- `LineMatch` (line_match.dfy): `trim()` and the regular expression `PDSKeyValueRegExp`, written as total functions, with a reference reading of the regular expression (`KeyValueShape`).
- `DottedPath` (dotted_path.dfy): `currSections.join('.')`, the `.${key}` suffix, and how `lodash.set` splits a dotted path into property names.
- `Tree` (tree.dfy): the result value (`Leaf` for a string, `Obj` for a plain object) and `lodash.set` as a map-only deep assignment, with lemmas that say exactly what it changes.
- `Scanner` (scanner.dfy): the loop state (`ret`, `currSections`, `offsetSection`, `rNOffset`, `openSection`, `detectedKey`). It defines one loop iteration as a function (`Step`), the fold over a prefix (`ScanPrefix`) and the whole parse (`Parse`). `ParsePDSBuffer` is the imperative `for` loop itself, proved to return `Parse(buf)`.
- `ScannerProperties` (scanner_properties.dfy): per-byte and whole-buffer properties of the scan.
- `ScannerExamples` (scanner_examples.dfy): small buffers worked through, for names, keys and values that are each one lower-case letter.

## Where the code departs from the evidently intended result

The model follows index.js in every case below.

- **Line ends.** The line slice is `buf.slice(rNOffset, i - 1)`, which drops the byte just before each `\n`. That byte is the `\r` of CRLF input. With bare `\n` line ends, the last byte of each key/value line is lost. So `<a>\nk = v\n</a>\n`, which the format is evidently meant to read as `{ a: { k: "v" } }`, fails in the code: the line `k = ` trims to `k =`, which does not match (`ScannerExamples.LfSectionFails`; `ScannerExamples.LfLineLosesLastByte` shows the same for `k = v\n` at the root). The CRLF form gives `{ a: { k: "v" } }` (`ScannerExamples.CrlfSection`).
- **Keys outside any section.** They are not stored at the root. The path is `''.concat('.k')`, so `lodash.set` sees the names `""` and `k`, and `k = v` gives `{ "": { k: "v" } }` (`ScannerExamples.RootKeyUnderEmptyName`).
- **Malformed lines.** The code raises no dedicated error. `exec` returns `null` and destructuring it throws. Here that is the error value `MalformedLine(line)`, which carries the trimmed line. No partial tree is returned.
- **String input.** It is not converted to bytes. The code compares `buf[i]` with numeric codes, and a one-character string never equals a number. The model takes bytes only.

## Model

| member | source | states |
|---|---|---|
| `Scanner.ParsePDSBuffer` | index.js:73-106 | the loop over the buffer, with its six state variables, returns exactly `Parse(buf)`: the tree after the last byte, or the first malformed line; it terminates after `|buf|` iterations |
| `Scanner.ScanPrefix` | index.js:77-104 | the state after any prefix of the buffer keeps both slices of the loop in bounds and `ret` an object |
| `Scanner.Step` | index.js:78-103 | one iteration, branch by branch; the next state again keeps the slices `offsetSection..i` and `rNOffset..i-1` in bounds |
| `Scanner.PushSection` | index.js:85-89 | the `>` branch: the next state keeps the slices in bounds and `ret` an object |
| `Scanner.EndLine` | index.js:94-103 | the `\n` branch: a successful next state keeps the slices in bounds and `ret` an object |
| `Scanner.Pop` | index.js:83 | `Array.prototype.pop` removes the last name, and leaves an empty stack empty |
| `Scanner.ErrorPersists` | index.js:97 | once a line fails to match, the scan stays failed with that same error up to the end |
| `ScannerProperties.SkipPlain` | index.js:78-103 | bytes that no branch acts on (not `<`, `=` or `\n`, and `>` only with no opening marker pending) leave the whole scan state as it was |
| `ScannerProperties.CloserPops` | index.js:82-83 | with no opening marker pending, `</`, a label without `<`, `=`, `\n` or `>`, and its `>` pop exactly one section (nothing on an empty stack) and change nothing else |
| `ScannerProperties.CloserLabelIgnored` | index.js:82-83 | the closer's label is never consulted: two buffers that agree up to `</` and differ only in the label before its `>` reach the same state after that `>` |
| `ScannerProperties.ScanPrefixLocal` | index.js:77-104 | the state after `n` bytes depends only on those bytes and on the one byte after them that the marker tests look at |
| `ScannerProperties.SectionOpens` | index.js:78-89 | in a reachable state, the pushed name is exactly the bytes after the last opening `<`, which contain no opening `<` and no `>`; the stack grows by one; afterwards the tree at the stack's path is an empty object, so reopening clears it, and every path that parts from it reads as before |
| `ScannerProperties.NewlineAdvancesLine` | index.js:94-103 | every successful `\n` sets `rNOffset` to `i + 1` and clears `detectedKey`; the stack and section state stay as they were; without a pending key the tree is unchanged |
| `ScannerProperties.LineCommits` | index.js:91-101 | when the current line holds a `=`, its `\n` commits it: `rNOffset <= i - 1`, and the committed text is `buf[rNOffset..i-1]` trimmed, so the byte before `\n` is left out; on a mismatch the whole parse fails with that line; on a match the value is at the stack's path followed by the key's pieces, and every path that parts from it reads as before |
| `ScannerProperties.KeyPendingAtLineEnd` | index.js:91-95 | a line that holds a `=` has `detectedKey` set when its `\n` arrives, and the slice `rNOffset..i-1` the `\n` takes is in bounds (`rNOffset <= i - 1`); it can be empty, as in `=\n` |
| `ScannerProperties.BadLineFailsParse` | index.js:97-99 | a committed line that does not match fails both the scan from that byte on and the whole parse, with that line |
| `ScannerProperties.KeyLineWrites` | index.js:97-100 | a committed line that matches puts `Leaf(value)` at the value path, keeps the stack, and leaves every path that parts from the value path as it was |
| `ScannerProperties.LineWithoutEqualsIgnored` | index.js:94-102 | a `\n` ending a line without `=` only moves `rNOffset`; the tree is unchanged |
| `ScannerProperties.TreeChangesOnlyAtSectionOrLine` | index.js:78-103 | the tree changes only at a `>` completing an opening marker, or at a `\n` with a pending key |
| `ScannerProperties.StepKeepsReachable` | index.js:78-103 | each iteration preserves the scan invariant `Reachable`: line start after a `\n`, `detectedKey` iff the line holds a `=`, the open marker's position, and the depth bound |
| `ScannerProperties.OpenKeepsReachable` | index.js:78-80 | an opening `<` keeps `Reachable`, with the new open marker just before `offsetSection` |
| `ScannerProperties.CloseKeepsReachable` | index.js:82-83 | a closing `</` keeps `Reachable` after the pop |
| `ScannerProperties.PushKeepsReachable` | index.js:85-89 | a `>` completing an opening marker keeps `Reachable`: the extra name is paid for by its `<` |
| `ScannerProperties.EqualsKeepsReachable` | index.js:91-92 | a `=` keeps `Reachable`, with itself as the `=` of the current line |
| `ScannerProperties.NewlineKeepsReachable` | index.js:94-103 | a successful `\n` keeps `Reachable` with an empty current line |
| `ScannerProperties.OtherKeepsReachable` | index.js:78-103 | a byte that no branch acts on keeps `Reachable` |
| `ScannerProperties.ScanPrefixReachable` | index.js:77-104 | every state the scan reaches satisfies `Reachable` |
| `ScannerProperties.DepthBound` | index.js:77-104 | the stack never holds more names than the number of `<` bytes read |
| `ScannerProperties.UnterminatedLineNotRecorded` | index.js:77 | bytes after the last `\n` (without a `>`) leave the returned tree as it was before them, even when they spell a complete `key = value` |
| `ScannerProperties.UnterminatedPlainLineNotRecorded` | index.js:77-104 | bytes after the last `\n` leave the returned tree as it was when they hold no `<` and no opening marker is pending before them, even with a `>` among them |
| `ScannerProperties.TrailingPlainBytesKeepTree` | index.js:77-104 | bytes with no `\n` and no `<` after a point with no opening marker pending never fail the scan, never open a marker, and leave the tree as it was |
| `ScannerProperties.TrailingBytesKeepTree` | index.js:77-104 | bytes with no `\n` and no `>` never fail the scan and leave the tree as it was |
| `ScannerProperties.NoNewlineNeverFails` | index.js:77-104 | bytes with no `\n` never fail the scan and commit no line (`rNOffset` stays), whatever else they hold, so a last line without `\n` such as `<s>k = v` is never matched |
| `ScannerProperties.NoEqualsNeverFails` | index.js:91-101 | a buffer without `=` never fails and never has a key pending |
| `LineMatch.TrimStart` | index.js:98 | the result is the suffix left after all leading whitespace |
| `LineMatch.TrimEnd` | index.js:98 | the result is the prefix left before all trailing whitespace |
| `LineMatch.Trim` | index.js:98 | the result is no longer than the input and neither starts nor ends with whitespace (that it is the input with only whitespace cut from its ends is `TrimInfix`) |
| `LineMatch.TrimInfix` | index.js:98 | `Trim(s)` sits in `s` with only whitespace before and after it |
| `LineMatch.TrimUnpadded` | index.js:98 | a string without whitespace at either end is its own trimmed form |
| `LineMatch.TrimPadded` | index.js:98 | trimming any whitespace padding of a string with no whitespace at its ends gives that string back, so the contract of `Trim` determines it |
| `LineMatch.TrimIdempotent` | index.js:98 | trimming twice equals trimming once |
| `LineMatch.KeyLength` | index.js:23 | the greedy `[a-zA-Z0-9_.]+` run: all key characters, followed by a non-key character or the end |
| `LineMatch.RestOfLine` | index.js:23 | the greedy `(.*)`: the longest prefix without a line terminator |
| `LineMatch.MatchKeyValueIff` | index.js:23 | the matcher returns `(key, value)` exactly when the line is a non-empty key of `[A-Za-z0-9_.]`, one whitespace byte, `=`, one whitespace byte, and `value` runs to the first line terminator or the end |
| `LineMatch.MatchHasShape` | index.js:23 | a successful match has the regular expression's shape with the returned capture groups |
| `LineMatch.ShapeIsMatched` | index.js:23 | any key and value that fit the regular expression are the ones the greedy matcher returns |
| `LineMatch.KeyLengthExact` | index.js:23 | a run of key characters ended by a non-key character is the key the greedy group takes |
| `LineMatch.RestOfLineExact` | index.js:23 | a prefix without line terminators ended by a terminator or the end is what `(.*)` takes |
| `LineMatch.NoMatchMeansNoShape` | index.js:23 | a failed match means no key and value fit the regular expression |
| `LineMatch.FormattedShape` | index.js:23 | `key = value` written out has the regular expression's shape with those capture groups |
| `LineMatch.MatchFormattedLine` | index.js:23 | a line written as `key = value`, with any whitespace padding, is trimmed and matched back to `(key, value)` when the key is a non-empty run of `[A-Za-z0-9_.]` and the value is non-empty, holds no `\n` or `\r`, and does not end in whitespace (trimming would cut that) |
| `DottedPath.Split` | index.js:88 | `lodash.set` property names: at least one, none containing a dot |
| `DottedPath.SplitNoDot` | index.js:88 | a name without dots is one property name |
| `DottedPath.SplitAtDot` | index.js:100 | splitting `a + "." + b` splits each side on its own |
| `DottedPath.JoinSplit` | index.js:88 | joining the split names with dots gives the path back |
| `DottedPath.SplitJoin` | index.js:88 | dot-free names, joined and split again, come back unchanged |
| `DottedPath.JoinPush` | index.js:87-88 | pushing a name onto a non-empty stack appends one dot and the name to the joined path |
| `DottedPath.ValuePathSplits` | index.js:100 | a value's path is its section's path followed by the key's pieces; with an empty stack it starts with the empty name `""` |
| `DottedPath.SectionPathPush` | index.js:87-88 | pushing a section adds its name's pieces below the enclosing section's path, so dotted section names nest further |
| `DottedPath.PlainNamesNest` | index.js:88 | when no name or key contains a dot, each section is one level and the key one more |
| `Tree.DeepSet` | index.js:88 | deep assignment returns an object with the first name added to its keys |
| `Tree.GetBelowSet` | index.js:88 | after `set(n, p, v)`, everything below `p` is read from `v` |
| `Tree.GetAfterSet` | index.js:100 | after `set(n, p, v)`, the value at `p` is `v` |
| `Tree.GetAwayFromSet` | index.js:100 | `set(n, p, v)` leaves every path that parts from `p` as it was, including when a string or nothing stood on the way |
| `Tree.ObjectsAboveSet` | index.js:88 | after `set(n, p, v)`, every strict prefix of `p` leads to an object, since strings on the way are replaced by `{}` |
| `Tree.SetOverwrites` | index.js:100 | writing twice at one path is the same as writing the second value once: last write wins |
| `ScannerExamples.CrlfSection` | index.js:73-106 | `<a>\r\nk = v\r\n</a>\r\n` parses to `{ a: { k: "v" } }` |
| `ScannerExamples.CrlfSectionOpened` | index.js:78-89 | after `<a>\r\n`, `a` is an empty object and the only open section |
| `ScannerExamples.CrlfKeyCommitted` | index.js:94-100 | after `<a>\r\nk = v\r\n`, `a` holds `k: "v"` |
| `ScannerExamples.LfLineLosesLastByte` | index.js:98 | `k = v\n` with a bare LF fails with the line `k =` |
| `ScannerExamples.LfSectionFails` | index.js:94-99 | `<a>\nk = v\n</a>\n` with bare LFs fails with the line `k =` |
| `ScannerExamples.RootKeyUnderEmptyName` | index.js:100 | `k = v\r\n` parses to `{ "": { k: "v" } }` |
| `ScannerExamples.MissingSpacesFail` | index.js:97 | `k=v\r\n` fails with the line `k=v` |
| `ScannerExamples.StrayCloserTolerated` | index.js:82-83 | `</a>\r\n` on an empty stack parses to `{}` without failing |

## Left out

- The `PDSReader` constructor's `.cfg` extension check (index.js:40-47) and `read()` (index.js:58-65) are left out. They are file-system glue: `path.extname`, an asynchronous `fs.readFile` and `Object.assign` into `_content`.
- UTF-8 decoding by `toString()` (index.js:86, index.js:98) is left out. Names, keys and values stay raw bytes.
- Unicode whitespace and line terminators (U+00A0, U+2028, U+FEFF and others) are left out, because recognising them needs decoded text. `trim()` and `\s` are modelled on the ASCII whitespace bytes 0x09-0x0D and 0x20, and the regular expression's `.` stops at `\n` and `\r`.
- `lodash.set` path syntax beyond dots is left out: brackets, quotes, numeric names that create arrays, and the shortcut that treats the whole path as one key when the object already has it. That library is not part of this model. Only dot splitting into plain objects is modelled.
- String input (index.d.ts:13) is left out. No conversion happens in the code, and with a string no byte test ever succeeds.
- index.d.ts is type declarations only. benchmark/index.js and test/benchmark.js are timing harnesses. benchmark/index.js calls `parseConfigurationBuffer`, which index.js does not define.
- Keys and section names that are inherited property names of JavaScript objects (`constructor`, `toString`, `__proto__`, `hasOwnProperty` and the like) are left out. In JavaScript the standalone `lodash.set` package, which has no guard for them, finds these names on the prototype chain and walks into them, so `constructor.x = v` inside a section writes `x` onto the global `Object` function and `__proto__.x = v` writes onto `Object.prototype`, which every object then inherits. The model's objects are plain maps with no inherited names: every name reads as absent until it is written.
- Determinism and the absence of state shared between calls hold of the model by construction, since `Parse` is a function. They are not stated as separate lemmas. In JavaScript the prototype writes above make one call visible to later calls.
