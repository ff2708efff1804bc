# any-converter: a verified model of its editors, recovery protocol, streams, lock and logs

any-converter is a local gateway between AI coding agents and model vendors. To connect an agent it rewrites
that agent's configuration files in place, keeps recovery data beside them, and takes everything back on
disconnect. While it runs it cuts event streams into blocks, serializes token refreshes with a lock file, and
keeps usage totals and request logs. This project models those parts in Dafny and proves what they promise.

## What is modelled

**Format-preserving editors** (`crates/agent-wiring/src/edit/json.rs`, `env.rs`). Text is a sequence of characters.

- *JSON and JSONC.* `JsonLexer` and `JsonStrict` say what a JSONC document is and which tree it stands for;
  `JsonReader` is the stripped copy with a reader for RFC 8259; `JsonParser` is the editor's own lenient parser with
  spans and errors; `JsonScanner` and `JsonLoops` are the scanning loops as they run. `JsonEdit` holds `set` and `del`
  as string surgery. `JsonWritten` builds documents from their parts, and `JsonDerived` shows that the guard accepts
  nothing else. The laws build up: the guard accepts exactly the strict documents (`JsonGuard`), the lenient
  parser agrees on them (`JsonAgreement`), parsing depends only on the text it consumes (`JsonLocality`), member
  lists can be cut and joined (`JsonCompose`), and so each edit changes the tree at its path and nothing else
  (`JsonSetLaws`, `JsonDocument`, `JsonCommas`, `JsonDelLaws`), a path being keys joined with dots (`JsonPaths`), and
  an edit that fails names the reason (`JsonErrors`). `set` leaves the other text alone (`JsonFrame`), `del` makes one
  bounded cut, and which comments survive it is said exactly (`JsonDelFrame`, `JsonComments`); on a text laid out one
  member a line both give exactly the layout of the changed tree (`JsonPretty`, `JsonPrettyDel`). A value set reads back
  (`JsonReading`) and can be taken out again (`JsonUndo`, `JsonEmptied`). `JsonCases` holds inputs at which a law takes
  its other branch.
- *dotenv.* `DotEnv` is the line grammar, quoting, escaping and the three operations; `DotEnvEditor` the loops;
  `DotEnvText` builds whole texts from their parts and says what each operation makes of them; `DotEnvLine` and
  `DotEnvLaws` hold the laws for texts as they stand, `DotEnvMark` those for texts in which a byte order mark comes to
  the front.

**Connect and disconnect recovery** (`wiring.rs`, `backup/*`, `atomic.rs`). `Files` is a small disk whose every
operation is a step; `Recovery` gives connect, failed connect and disconnect as traces of such steps; `RecoveryEngine`
runs them and logs exactly those traces; `RecoveryLaws` watches every run, with a crash after any step and user edits
in between; `RecoveryOutcome` says what a disconnect leaves. `KeyMaps`, `AgentSpecs`, `GeminiSpec` and `SpecEngine`
model the stash and the Claude Code and Gemini CLI specifications over key maps.

**Event streams** (`sse.rs`, `proxy.rs`): `Sse`, after section 9.2 of the WHATWG HTML Living Standard, `SseFields` for
the lines of a block and their endings, and `SseMargins` for carriage returns.

**Lock file** (`lockfile.rs`): `Lock` with every file operation a step and `LockDrop` for its drops, `LockTakeover`
with atomic attempts.

**Folds and logs** (`storage.rs`, `stats.rs`, `catalog.rs`, `request_log.rs`): `Totals`, `Folds`, `Split`,
`SplitEngine`, `Catalog`, `RequestLog`.

Loops and objects of the source are methods and classes here; each is proved equal to a specification function, and
the laws are proved about those functions.

## Where the obvious claim is false

Each is proved as an exact condition, with an input that breaks the claim.

- `set` on an object that holds only a comma, such as `{,}`, is let through by the guard, and its output is no JSON
  (`JsonDocument.SetOneLaw`, `JsonCases.StrayCommaStays`). The guard also takes text that ends inside a block comment;
  the parser may then fail (`JsonAgreement.AcceptedTextParses`, `JsonCases.OpenCommentFails`).
- `del` leaves a comma too many when a member's comma is not on its line right behind the value
  (`JsonDelLaws.DelOneLaw`, `JsonCases.CommaOnNextLine`).
- `del` is documented to preserve the comments of untouched members. It loses the one behind the member before the
  last, and the one above the next member when the removed one shares its line
  (`JsonDelFrame.DelKeepsComments`, `JsonCases.LastTakesComment`, `JsonCases.InlineTakesComment`).
- A map reader, for which the last of equal keys wins, does not see a `set`, which changes the first
  (`JsonReading.SetReadsBack`, `JsonCases.DoubledKey`).
- `set` on a text without content answers `{}` plus the new keys, so comments of such a text are lost; the module
  documentation promises that comments survive (`JsonFrame.SetKeepsText`, `JsonFrame.OnlyCommentIsLost`).
- `del` does not undo a `set` of a URL in `{}`: the two slashes in the value are taken for a comment
  (`JsonUndo.DelUndoesSet`, `JsonCases.EmptyComesBack`, `JsonCases.UrlLeavesBraces`).
- dotenv: an empty unquoted value directly before `#` swallows the comment (`DotEnvLaws.SetOneReadsBack`,
  `DotEnvLaws.TouchingComment`); an appended line can absorb a lone carriage return (`DotEnvMark.SetFrame`,
  `DotEnvLaws.LoneCrIsLost`); a `del` can move a byte order mark to the front, which hides another key or brings the
  deleted one back (`DotEnvMark.DelFrame`, `DotEnvMark.ExposedMarkIsLost`, `DotEnvMark.DeletedKeyComesBack`).
- A second connect stashes the gateway's own value for a key that was absent at the first
  (`AgentSpecs.ClaudeComesBack`, `AgentSpecs.SecondConnectKeepsOurs`), and so does the next connect after one that died
  between writing the configuration and saving the stash (`AgentSpecs.CrashKeepsOurs`). A failed second connect takes
  later edits back (`Recovery.FailedConnectUndoesItself`, `Recovery.FailedReconnectTakesEditBack`).
- A disconnect of a file without a record still edits it (`RecoveryLaws.DisconnectHarmless`,
  `RecoveryLaws.UnrecordedEditIsUnprotected`).
- After a crashed holder two contenders can both get the lock, exactly when one removes the other's file
  (`Lock.FailsExactlyAfterHit`, `Lock.TwoGuardsAfterCrash`).
- A guard that was taken over is documented never to delete its successor's file. It can when another process removes
  its file between its reading the payload back and its removing the path, and only then
  (`LockDrop.HitsExactlyAfterOvertaking`, `LockTakeover.LateRemovalHitsSuccessor`).
- The catalog's text before hashing is meant to tell catalogs apart; ids and names that hold a NUL defeat it
  (`Catalog.RowCollidesIff`, `Catalog.CatalogCollidesIff`, `Catalog.SeparatorsCollide`).
- With carriage returns the stream and the batch splitter can differ (`SseMargins.StreamIsBatch`,
  `Sse.CarriageReturnsDiffer`).

## Model

| member | source | states |
|---|---|---|
| `JsonLexer.DecodeEncode` | `crates/agent-wiring/src/edit/json.rs:198-220` | decoding a string literal written by the serializer gives the string back, for every string |
| `JsonLexer.StringEndEncoded` | `crates/agent-wiring/src/edit/json.rs:745-761` | the string scanner stops at exactly the quote that closes an encoded string |
| `JsonParser.ParsedDocumentIsWellFormed` | `crates/agent-wiring/src/edit/json.rs:610-792` | whenever parsing succeeds, spans are in bounds, nested, ordered and disjoint, objects run from brace to brace, and only trivia, colons and commas stand between member spans |
| `JsonScanner.Parser.SkipTrivia` | `crates/agent-wiring/src/edit/json.rs:763-792` | the trivia loop stops where the specification says, comments left open included |
| `JsonScanner.Parser.ScanString` | `crates/agent-wiring/src/edit/json.rs:745-761` | the string loop ends behind the closing quote or fails as the specification does |
| `JsonScanner.Parser.Document` | `crates/agent-wiring/src/edit/json.rs:610-621` | the parser object returns the specified root node or error |
| `JsonScanner.Parser.Value` | `crates/agent-wiring/src/edit/json.rs:623-658` | one value is parsed as specified, the position left behind it |
| `JsonScanner.Parser.ReadObject` | `crates/agent-wiring/src/edit/json.rs:660-709` | the member loop yields the specified members in order, or the first error, with its place |
| `JsonScanner.Parser.ReadArray` | `crates/agent-wiring/src/edit/json.rs:711-743` | the array loop ends behind the bracket as specified |
| `JsonLoops.StripJsoncPasses` | `crates/agent-wiring/src/edit/json.rs:477-533` | the comment pass with its two flags, then the comma pass, compute the stripped copy |
| `JsonLoops.StripTrailingCommas` | `crates/agent-wiring/src/edit/json.rs:535-575` | the comma pass with lookahead computes its specification |
| `JsonLocality.ValueLocal` | `crates/agent-wiring/src/edit/json.rs:91-95` | a value of an accepted document is the same value, its nodes moved along, wherever its text stands in front of a delimiter |
| `JsonStripLaws.StripKeepsPlace` | `crates/agent-wiring/src/edit/json.rs:477-575` | the stripped copy has, at every offset, the same character inside strings, the same line breaks everywhere, blanks for comments, and code minus some commas |
| `JsonStripLaws.StripLeavesNoComment` | `crates/agent-wiring/src/edit/json.rs:477-533` | the stripped copy holds no comment outside its strings |
| `JsonGuard.GuardIsStrict` | `crates/agent-wiring/src/edit/json.rs:91-95` | the guard accepts a text if and only if it is a strict JSONC document: stripping and then reading JSON (RFC 8259) is reading JSONC directly |
| `JsonAgreement.AcceptedTextParses` | `crates/agent-wiring/src/edit/json.rs:91-95` | on accepted text the lenient parser finds the same nodes, and it fails exactly when a final block comment of more than its opening is left open and the last character is visible |
| `JsonWritten.WrittenIsRead` | `crates/agent-wiring/src/edit/json.rs:91-95` | every document written out from its parts, with any blanks, comments, escapes, numbers and trailing commas, is accepted and parsed, and its tree is the one its parts mean |
| `JsonWritten.CharsDecoded` | `crates/agent-wiring/src/edit/json.rs:745-761` | a string literal written character by character, plain or with any escape, decodes to the characters meant |
| `JsonDerived.AcceptedIffWritten` | `crates/agent-wiring/src/edit/json.rs:91-95` | and the guard accepts nothing else: a text passes if and only if it can be written out from such parts, the last comment perhaps left open |
| `JsonErrors.ParserPointsAt` | `crates/agent-wiring/src/edit/json.rs:610-792` | whatever stops the parser, it names the reason for what stands at the place it stopped at |
| `JsonLoops.FindMemberTailEnd` | `crates/agent-wiring/src/edit/json.rs:365-390` | the tail scan passes one comma and one comment on the line, as specified |
| `JsonLoops.FindNextSignificant` | `crates/agent-wiring/src/edit/json.rs:403-426` | the scan loop stops at the next character that is neither white space nor comment |
| `JsonLoops.FindInsert` | `crates/agent-wiring/src/edit/json.rs:251-257` | the backward scan stops behind the last character that is not a blank or a carriage return |
| `JsonLoops.FindIndentUnit` | `crates/agent-wiring/src/edit/json.rs:451-467` | the line loop returns the first deeper indentation, or two spaces |
| `JsonMember.BuiltMemberParses` | `crates/agent-wiring/src/edit/json.rs:198-216` | the built member text, wherever it stands before a delimiter, parses to the key with the missing objects nested around the value |
| `JsonValues.SerializedIsValueText` | `crates/agent-wiring/src/edit/json.rs:218-220` | the compact text of every JSON value is a complete value and stands for that value |
| `JsonSet.InsertedTree` | `crates/agent-wiring/src/edit/json.rs:222-295` | inserting a member appends exactly it to the object, whatever comments, trailing comma, indentation or line ending, unless the object holds only a comma |
| `JsonSetLaws.ReplacedLeaf` | `crates/agent-wiring/src/edit/json.rs:152-163` | replacing a value changes that member only; all keys, their order and all other value texts stay |
| `JsonSetLaws.EditTree` | `crates/agent-wiring/src/edit/json.rs:137-196` | along any path the edit changes the tree at the path and the text inside the object only, and succeeds exactly along objects |
| `JsonDocument.SetOneLaw` | `crates/agent-wiring/src/edit/json.rs:97-117` | `set` of one path succeeds if and only if the guard passes and the path runs through objects; its output is accepted again if and only if it did not insert beside a stray comma, and then its tree is the old one with the path replaced or appended |
| `JsonPaths.SegmentsOfDotted` | `crates/agent-wiring/src/edit/json.rs:99-103` | a path joined with dots from keys that are not empty and hold no dot has exactly those keys for its segments |
| `JsonPaths.SegmentsJoined` | `crates/agent-wiring/src/edit/json.rs:99-103` | a dot joins the segments of what stands on its two sides, and empty parts are dropped |
| `JsonPaths.SetDotted` | `crates/agent-wiring/src/edit/json.rs:97-117` | `set` of keys joined with dots succeeds if and only if the text is an accepted object and nothing but objects is on the way; the value is then found under those keys, one inside the other, and every path that parts from them holds what it held |
| `JsonErrors.ErrorsAreNamed` | `crates/agent-wiring/src/edit/json.rs:97-135` | an edit that fails names what is wrong: no JSON, a path of dots only, the character a comment is left open over, a root that is no object, or the key of the value that stands in the way |
| `JsonPretty.SetStaysPretty` | `crates/agent-wiring/src/edit/json.rs:137-295` | a text laid out one member a line, in any indentation and either line ending, is after `set` exactly the layout of the changed tree in that same indentation and line ending; with a value in the way `set` fails |
| `JsonPretty.StyleDetected` | `crates/agent-wiring/src/edit/json.rs:451-467` | on such a text the unit and the line ending found are its own |
| `JsonCommas.StrayEdited` | `crates/agent-wiring/src/edit/json.rs:137-196` | after an accepted `set` a path leads to an object that holds only a comma if and only if it does so inside the written value, for paths that go on from the one set, and in the text before, for all others |
| `JsonCommas.SetListLaw` | `crates/agent-wiring/src/edit/json.rs:61-65` | a list of assignments succeeds if and only if its paths run through objects and none but the last leads to an object that holds only a comma, in the first text or in a value written before; its output is accepted if and only if the last does not either, and then exactly those changes are made, in order |
| `JsonCommas.SetOnFirst` | `crates/agent-wiring/src/edit/json.rs:48-66` | the same for the whole call: the byte order mark is kept, a text without content starts as `{}`, anything else must be an accepted object |
| `JsonFrame.SetLeavesRest` | `crates/agent-wiring/src/edit/json.rs:137-295` | `set` replaces the text of one value, or puts in one member, on lines of its own, and at most one comma and drops only blanks of the closing line; every other character, comments included, stays |
| `JsonFrame.SetKeepsText` | `crates/agent-wiring/src/edit/json.rs:48-66` | over a whole list the text is kept but for one such edit an assignment, if and only if it has content, or no comment to lose |
| `JsonFrame.ContentlessAlike` | `crates/agent-wiring/src/edit/json.rs:48-60` | texts without content give the same result, whatever their comments say |
| `JsonFrame.OnlyCommentIsLost` | `crates/agent-wiring/src/edit/json.rs:48-60` | `// note` alone gives the same result as the empty text |
| `JsonReading.GetAfterSet` | `crates/agent-wiring/src/edit/json.rs:23-38` | a reader that takes the last of equal keys finds the new value if no key on the path is doubled, else the old one; below arrays it may read in any way |
| `JsonReading.GetOtherAfterSet` | `crates/agent-wiring/src/edit/json.rs:23-38` | every path that parts from the one set reads as before |
| `JsonReading.SetReadsBack` | `crates/agent-wiring/src/edit/json.rs:23-66` | both laws on the text: what a map reader finds in the output of `set` |
| `JsonCases.DoubledKey` | `crates/agent-wiring/src/edit/json.rs:23-66` | a doubled key: `set` succeeds and the old value is still read |
| `JsonCases.StrayCommaStays` | `crates/agent-wiring/src/edit/json.rs:276-295` | `{,}`: `set` succeeds and its output is no longer accepted |
| `JsonCases.OpenCommentFails` | `crates/agent-wiring/src/edit/json.rs:97-117` | an object with a comment left open behind it: the guard passes and `set` fails in the parser |
| `JsonDel.LineCutRemoves` | `crates/agent-wiring/src/edit/json.rs:341-347` | cutting a member's own line removes it if its comma stands on that line, and breaks the object otherwise |
| `JsonDel.RemovesInline` | `crates/agent-wiring/src/edit/json.rs:348` | cutting up to the next key always removes exactly that member |
| `JsonDel.RemovesLast` | `crates/agent-wiring/src/edit/json.rs:351-360` | the last member goes and a trailing comma moves to the one before; it breaks if and only if that comma is not attached |
| `JsonDelLaws.RemoveOnlyTree` | `crates/agent-wiring/src/edit/json.rs:323-339` | removing the only member leaves an empty object in every branch |
| `JsonDelLaws.RemoveTree` | `crates/agent-wiring/src/edit/json.rs:320-363` | removing a member leaves no value exactly when a comma is left over, else the tree without that member |
| `JsonDelLaws.DelTree` | `crates/agent-wiring/src/edit/json.rs:297-318` | along any path `del` removes the addressed member or nothing, and changes nothing outside the object |
| `JsonDelLaws.DelOneLaw` | `crates/agent-wiring/src/edit/json.rs:119-135` | `del` of one path succeeds on every object document; its output is accepted if and only if no comma is left over, and then exactly the member is gone |
| `JsonPaths.DelDotted` | `crates/agent-wiring/src/edit/json.rs:119-135` | after `del` of keys joined with dots nothing is found under them, unless the last one was doubled, and every path that parts from them holds what it held |
| `JsonPrettyDel.DelStaysPretty` | `crates/agent-wiring/src/edit/json.rs:297-390` | on a text laid out one member a line `del` gives exactly the layout without the member, `{}` for an only one, or its braces on two lines if its text looks like a comment; a path that leads nowhere or into a value that is no object changes nothing |
| `JsonDelLaws.DelAllLaw` | `crates/agent-wiring/src/edit/json.rs:84-87` | a list of deletions succeeds if and only if no path is empty and none but the last leaves a comma over; its output is accepted if and only if the last does not either, and then exactly those members are gone |
| `JsonDelLaws.DelLaw` | `crates/agent-wiring/src/edit/json.rs:77-89` | the same for the whole call: the byte order mark is kept and a text without content is returned as it is |
| `JsonCases.CommaOnNextLine` | `crates/agent-wiring/src/edit/json.rs:320-363` | a last member whose comma stands on the next line: `del` succeeds and its output is no longer accepted |
| `JsonDelFrame.DelLeavesRest` | `crates/agent-wiring/src/edit/json.rs:297-363` | `del` of a path that leads nowhere changes nothing; else it makes one cut: the line of the member with its tail, or from its key to the next, or from the end of the value before to the end of its tail with a comma put back, or for the only member everything between the braces if no comment is there, else its own line, or from its key to the end of its tail |
| `JsonDelFrame.DelKeepsComments` | `crates/agent-wiring/src/edit/json.rs:68-89` | the comments of the output are those of the input without the removed member's own and its tail's, if and only if the member is not the last of several with a comment between the value before and its key, and does not share its line and have a comment between its tail and the next key |
| `JsonCases.LastTakesComment` | `crates/agent-wiring/src/edit/json.rs:351-360` | any two members with a comment between them: `del` of the last takes the comment along |
| `JsonCases.InlineTakesComment` | `crates/agent-wiring/src/edit/json.rs:348` | a member on the line of the brace, a comment above the next one: `del` takes the comment along |
| `JsonUndo.UndoneIsSame` | `crates/agent-wiring/src/edit/json.rs:222-251` | the text left by insert and remove is the original if and only if the object closes plainly |
| `JsonUndo.DelUndoesSet` | `crates/agent-wiring/src/edit/json.rs:222-363` | for every path, `del` after `set` gives the text back character for character if and only if the key is new in an object that exists and that object closes plainly: behind its last value only the optional comma and one line ending of the document's style before the brace's own line; without members exactly `{}`, or a brace on its own line if a comment is seen |
| `JsonCases.EmptyComesBack` | `crates/agent-wiring/src/edit/json.rs:320-335` | on `{}` `del` after `set` gives `{}` back if and only if nothing in the written value looks like a comment |
| `JsonCases.UrlLeavesBraces` | `crates/agent-wiring/src/edit/json.rs:320-335` | every string with two slashes in it does, as any URL: `{}` does not come back |
| `DotEnvEditor.ScanLine` | `crates/agent-wiring/src/edit/env.rs:122-206` | the scanning loops find key, value span and quote style as specified, or no assignment |
| `DotEnvEditor.Escape` | `crates/agent-wiring/src/edit/env.rs:267-280` | the escaping loop computes its specification |
| `DotEnvEditor.Unescape` | `crates/agent-wiring/src/edit/env.rs:282-304` | the unescaping loop computes its specification |
| `DotEnvEditor.ReadKey` | `crates/agent-wiring/src/edit/env.rs:22-33` | the last assignment of the key wins |
| `DotEnvEditor.SetInLines` | `crates/agent-wiring/src/edit/env.rs:46-72` | the backward loop rewrites the last assignment of the key, or ends the last line and appends |
| `DotEnvEditor.SetKeys` | `crates/agent-wiring/src/edit/env.rs:41-75` | all assignments are made in order on the lines of the text |
| `DotEnvEditor.DelKeys` | `crates/agent-wiring/src/edit/env.rs:81-94` | exactly the lines that assign one of the keys are dropped |
| `DotEnvText.PartsRead` | `crates/agent-wiring/src/edit/env.rs:122-225` | a line put together from its parts (indentation, `export`, key, blanks around the sign, a value in one of the three quote styles with any escapes, a comment) is read as that key and the value meant |
| `DotEnvText.TextRead` | `crates/agent-wiring/src/edit/env.rs:22-33` | `get` on any text of such lines, comments, blank lines and lines that assign nothing finds the last value given to the key |
| `DotEnvText.TextDeleted` | `crates/agent-wiring/src/edit/env.rs:81-94` | `del` leaves exactly the lines that give none of its keys |
| `DotEnvText.TextRewritten` | `crates/agent-wiring/src/edit/env.rs:50-62` | `set` of a key the text gives respells that one value in its own quotes and leaves every other part as it stands |
| `DotEnvText.TextExtended` | `crates/agent-wiring/src/edit/env.rs:64-72` | `set` of any other key ends the last line if need be and adds one line, in the line ending of the text |
| `DotEnvLine.UnescapeEscape` | `crates/agent-wiring/src/edit/env.rs:267-304` | unescaping undoes escaping for every string |
| `DotEnvLine.ScanEscaped` | `crates/agent-wiring/src/edit/env.rs:165-177` | the scanner stops at exactly the quote that closes an escaped value |
| `DotEnvLine.ReplaceReadsBack` | `crates/agent-wiring/src/edit/env.rs:208-245` | rewriting a line keeps its key, and the value reads back if and only if it does not fuse with a comment, in all three quote styles |
| `DotEnvMark.SetReadsBack` | `crates/agent-wiring/src/edit/env.rs:22-75` | `get` after `set` finds the value, last of a list of assignments, if and only if the key is well formed, the value does not fuse, and the key does not stand behind a byte order mark at the start of what was an empty text |
| `DotEnvLaws.SetOneReadsBack` | `crates/agent-wiring/src/edit/env.rs:22-75` | `get(set(t, k=v), k) = v` for every text, key and string, if and only if the key can stand on a line, is not hidden by a byte order mark and the value does not fuse |
| `DotEnvLaws.TouchingComment` | `crates/agent-wiring/src/edit/env.rs:190-206` | `KEY=#note`: the value written does not read back |
| `DotEnvMark.SetFrame` | `crates/agent-wiring/src/edit/env.rs:41-75` | one more assignment, of any key, leaves every other key as it read if and only if no added line holds it or absorbs its lone carriage return, and no first line that holds it behind a byte order mark is rewritten to another value |
| `DotEnvLaws.OnlyCrDisturbs` | `crates/agent-wiring/src/edit/env.rs:64-72` | if the key can stand on a line, only a lost carriage return can disturb another |
| `DotEnvLaws.LoneCrIsLost` | `crates/agent-wiring/src/edit/env.rs:64-72` | `A=x` with a lone carriage return at the end loses it to the next `set` |
| `DotEnvLaws.SetSplicesValue` | `crates/agent-wiring/src/edit/env.rs:50-62` | when the key is assigned, the text changes in exactly one value span |
| `DotEnvLaws.SetAppendsLine` | `crates/agent-wiring/src/edit/env.rs:64-72` | when it is not, exactly one line is appended, after ending the last one |
| `DotEnvMark.DelFrame` | `crates/agent-wiring/src/edit/env.rs:81-94` | for every text and key, `del` removes every assignment of its keys and leaves every other key as it read, if and only if no byte order mark on which the key hangs comes to the front of a text without one |
| `DotEnvMark.ExposedMarkIsLost` | `crates/agent-wiring/src/edit/env.rs:81-94` | such a mark hides the key it belongs to |
| `DotEnvMark.DeletedKeyComesBack` | `crates/agent-wiring/src/edit/env.rs:81-94` | and a deleted key that stood behind it is assigned again |
| `DotEnvMark.DelUndoesSet` | `crates/agent-wiring/src/edit/env.rs:41-94` | for an unassigned key, `del` after `set` gives the text back if and only if the key can stand on a line, is not hidden by a byte order mark, and the text is empty or ended a line |
| `Files.WriteIsAtomic` | `crates/agent-wiring/src/atomic.rs:38-79` | a crash after any step of a write leaves the old file or the new one, whole, and no other file changed |
| `Files.WriteEffect` | `crates/agent-wiring/src/atomic.rs:38-79` | an uninterrupted write leaves the new contents and no temporary file; equal contents are not written |
| `Files.FileSystem.WriteAtomic` | `crates/agent-wiring/src/atomic.rs:38-79` | the running write performs exactly the specified steps |
| `RecoveryEngine.Snapshot.Take` | `crates/agent-wiring/src/backup/snapshot.rs:39-55` | the snapshot loop performs exactly the specified steps; files with a record are skipped |
| `RecoveryEngine.Snapshot.ClearRecord` | `crates/agent-wiring/src/backup/snapshot.rs:80-85` | backup and marker are removed, in this order |
| `RecoveryEngine.Snapshot.PreserveBad` | `crates/agent-wiring/src/backup/snapshot.rs:93-98` | an unreadable backup is renamed to an unused name |
| `RecoveryEngine.Wiring.Connect` | `crates/agent-wiring/src/wiring.rs:77-102` | snapshot, agent edits and, on failure, restore: after success every file holds its last edit, after failure every file within reach its record, and each covered file has its old record or what it held before the call |
| `Recovery.ConnectOutcome` | `crates/agent-wiring/src/wiring.rs:77-102` | the same of the steps, for every file, covered or not |
| `RecoveryEngine.Wiring.RestoreAfterFailedConnect` | `crates/agent-wiring/src/wiring.rs:188-211` | the restore loop performs exactly the specified steps, passing over files it cannot read or write |
| `RecoveryEngine.Wiring.Disconnect` | `crates/agent-wiring/src/wiring.rs:105-185` | agent edits and the decision for each file: exactly the specified steps, the files kept, and the list of warnings in order |
| `Recovery.TakeRecords` | `crates/agent-wiring/src/backup/snapshot.rs:39-55` | after a snapshot every covered file has its old record or one of its contents now; no other record changes |
| `Recovery.RestoreFromRecords` | `crates/agent-wiring/src/wiring.rs:188-211` | restoring puts every reachable file's record back in place and keeps all records |
| `Recovery.FailedConnectRestores` | `crates/agent-wiring/src/wiring.rs:83-101` | after a failed connect, whatever the agent wrote, every restorable file equals its record and all records survive |
| `Recovery.FailedConnectUndoesItself` | `crates/agent-wiring/src/wiring.rs:83-101` | a failed connect leaves a file as it found it if and only if it had no record or equalled it |
| `Recovery.FailedReconnectTakesEditBack` | `crates/agent-wiring/src/wiring.rs:83-101` | a connect, an edit by hand and a second connect that fails: the file holds again what it held before the first |
| `RecoveryLaws.StartIsSound` | `crates/agent-wiring/src/backup/snapshot.rs:33-38` | a disk without records is where such runs may start |
| `RecoveryLaws.HarmlessStep` | `crates/agent-wiring/src/wiring.rs:77-185` | each harmless file operation keeps every file protected: its record is what was taken, and a changed file has one |
| `RecoveryLaws.RecordsOutlast` | `crates/agent-wiring/src/backup/snapshot.rs:39-98` | a record is never replaced: it stands, or the file equals it, or it was set aside whole; and a file changes only under a record |
| `RecoveryLaws.WriteHarmless` | `crates/agent-wiring/src/atomic.rs:38-79` | a write is harmless throughout if and only if it is not needed or its target may change now |
| `RecoveryLaws.DisconnectHarmless` | `crates/agent-wiring/src/wiring.rs:105-185` | a disconnect is harmless throughout if and only if its edits change only files with a record |
| `RecoveryLaws.EveryRunIsSafe` | `crates/agent-wiring/src/wiring.rs:77-185` | over every run of connects, failed connects, disconnects and user edits, each broken off anywhere, all file operations are harmless and every file stays protected |
| `RecoveryLaws.ChangedFilesHaveRecords` | `crates/agent-wiring/src/wiring.rs:77-185` | with readable backups, a file changed by the gateway always has the record that was taken |
| `RecoveryLaws.UnrecordedEditIsUnprotected` | `crates/agent-wiring/src/wiring.rs:115` | disconnecting a file without a record leaves it changed and unprotected |
| `RecoveryOutcome.SettleOutcome` | `crates/agent-wiring/src/wiring.rs:123-166` | a file is kept if and only if it cannot be restored without losing a change; then it and its record are untouched, else it equals its record, which is gone |
| `RecoveryOutcome.DisconnectOutcome` | `crates/agent-wiring/src/wiring.rs:105-170` | the same for the whole disconnect: a file kept holds its last edit, every other one its record |
| `RecoveryOutcome.DisconnectLeavesAlone` | `crates/agent-wiring/src/wiring.rs:123-170` | a file without a record, with one that cannot be read, or not covered holds its last edit; an unreadable backup is moved aside whole |
| `RecoveryOutcome.KeptInOrder` | `crates/agent-wiring/src/wiring.rs:121-170` | the files kept are those that cannot be restored, and the warnings name those with an unreadable backup, in the order of the covered files: settling one has no say in another |
| `RecoveryOutcome.ConnectThenDisconnect` | `crates/agent-wiring/src/wiring.rs:77-185` | from a disk without records, through connect, user changes and disconnect, every file not kept is byte for byte as before, or absent again |
| `KeyMaps.Stash.Record` | `crates/agent-wiring/src/backup/stash.rs:61-70` | values are inserted, empty ones remove their key, other agents stay |
| `KeyMaps.Stash.TakeNamespace` | `crates/agent-wiring/src/backup/stash.rs:73-75` | the namespace is returned and removed, other agents stay |
| `KeyMaps.Stash.RecordOldValues` | `crates/agent-wiring/src/spec/mod.rs:167-176` | only non-empty values without an entry are recorded |
| `KeyMaps.RecordedEntry` | `crates/agent-wiring/src/spec/mod.rs:167-176` | an entry never changes once there; otherwise it becomes the value if that is not empty |
| `KeyMaps.RecordFills` | `crates/agent-wiring/src/backup/stash.rs:61-70` | no entry is ever empty, and other agents' entries stay |
| `AgentSpecs.StashHoldsFirst` | `crates/agent-wiring/src/spec/mod.rs:167-176` | after any number of connects the stash holds the first value that was not empty |
| `AgentSpecs.ClaudeConnectLeaves` | `crates/agent-wiring/src/spec/claude.rs:59-105` | connect is refused if and only if the file has an `apiKeyHelper`; else each of the seven owned keys holds the gateway's own field for it, a tier without a model and every other key what it held, and the API key is gone |
| `AgentSpecs.ClaudeRestores` | `crates/agent-wiring/src/spec/claude.rs:59-133` | after any connects, refused ones and ones that die before saving the stash included, any user edits and a disconnect, owned keys end with the first non-empty value the saved ones saw or are gone, and every other key is as the user left it |
| `AgentSpecs.ClaudeComesBack` | `crates/agent-wiring/src/spec/claude.rs:59-133` | an owned key ends as it was before the first saved connect if and only if it held a non-empty string, or was absent and no later connect saw a value there |
| `AgentSpecs.ClaudeOneConnect` | `crates/agent-wiring/src/spec/claude.rs:59-133` | after one connect an owned key ends as the text of what it held, or gone if that was absent or empty, so it comes back if and only if it was absent or held a non-empty string |
| `AgentSpecs.SecondConnectKeepsOurs` | `crates/agent-wiring/src/spec/mod.rs:167-176` | with the base URL absent at first, two connects and a disconnect leave the gateway's own URL |
| `AgentSpecs.CrashKeepsOurs` | `crates/agent-wiring/src/spec/claude.rs:99-103` | a connect that dies between writing the configuration and saving the stash, then one that goes through: exactly which keys still come back, and with which value the others end |
| `GeminiSpec.GeminiConnectLeaves` | `crates/agent-wiring/src/spec/gemini.rs:68-116` | connect leaves the gateway's URL, key and model in the environment without a Google key, the selected type at `GEMINI_API_KEY` if there was one, and every other key as it was |
| `GeminiSpec.GeminiOneConnect` | `crates/agent-wiring/src/spec/gemini.rs:68-160` | after one connect every environment key that was absent or not empty comes back, and the selected type as the text of what it was |
| `GeminiSpec.GeminiRestores` | `crates/agent-wiring/src/spec/gemini.rs:68-160` | the same for the two Gemini files; a missing file stays missing |
| `GeminiSpec.GeminiComesBack` | `crates/agent-wiring/src/spec/gemini.rs:68-160` | exactly which environment keys and whether the selected type come back |
| `SpecEngine.SortKeys` | `crates/agent-wiring/src/spec/claude.rs:118-125` | the loop sorts the owned keys into those to set, with their stashed values, and those to delete |
| `SpecEngine.ConnectClaude` | `crates/agent-wiring/src/spec/claude.rs:59-105` | the running connect yields the specified keys and stash; `apiKeyHelper` refuses and changes nothing |
| `SpecEngine.DisconnectClaude` | `crates/agent-wiring/src/spec/claude.rs:107-133` | the running disconnect yields the specified keys; a missing file drops the stash |
| `SpecEngine.ConnectGemini` | `crates/agent-wiring/src/spec/gemini.rs:68-116` | the running connect yields the specified environment, settings and stash |
| `SpecEngine.DisconnectGemini` | `crates/agent-wiring/src/spec/gemini.rs:118-160` | the running disconnect yields the specified files and stash |
| `Sse.SplitAppend` | `crates/core/src/sse.rs:75-79` | appending text changes only the last piece of a split |
| `Sse.ChunkingChangesNothing` | `crates/server/src/proxy.rs:432-502` | however a stream is cut, its blocks and the trimmed leftover are those of the whole text, for every text |
| `SseMargins.StreamIsBatch` | `crates/server/src/proxy.rs:686-696` | the stream's blocks equal the batch splitter's, for every way of cutting, if and only if every carriage return stands in the white space around what lies between two blank lines |
| `Sse.CarriageReturnsDiffer` | `crates/core/src/sse.rs:69-74` | a text on which they differ |
| `Sse.BlockParses` | `crates/core/src/sse.rs:32-55` | a formatted event's block parses to that event |
| `Sse.FormattedBlocks` | `crates/core/src/sse.rs:69-90` | the formatted events split into their blocks, one each |
| `Sse.EventsComeBack` | `crates/core/src/sse.rs:32-90` | any list of single-line events that trimming leaves alone comes back from its text, cut anywhere |
| `Sse.Buffer.TakeComplete` | `crates/server/src/proxy.rs:686-696` | the loop takes the complete blocks out of the buffer and leaves the last piece |
| `Sse.Buffer.Drain` | `crates/server/src/proxy.rs:432-502` | the streaming loop with its final buffer yields the blocks of the whole text |
| `Sse.ParseSseBlock` | `crates/core/src/sse.rs:32-55` | the line loop returns the last event name and the joined data lines, or nothing without data |
| `SseFields.FieldsAreRead` | `crates/core/src/sse.rs:32-55` | a block of any `data:`, `event:`, comment and unknown lines, in any order, with any spaces and line endings, has the last name given, and its data cut at the line breaks is the list of its data lines; it is nothing without one |
| `SseFields.EndingsMakeNoDifference` | `crates/core/src/sse.rs:69-80` | the batch splitter finds the same blocks whether a line ends in LF, CRLF or CR |
| `SseFields.Trimmed` | `crates/core/src/sse.rs:75-79` | trimming takes away the white space around a text and nothing of it |
| `Lock.MutualExclusion` | `crates/server/src/lockfile.rs:87-173` | with every file operation a step of its own, any number of processes and any deaths, two guards never coexist unless the file of a live owner was removed as abandoned |
| `Lock.FailsExactlyAfterHit` | `crates/server/src/lockfile.rs:138-149` | a part of a run has a continuation without further such removals into two guards if and only if the run holds such a removal |
| `Lock.TimelyIsHitFree` | `crates/server/src/lockfile.rs:138-149` | there is none while no lock file outlives the threshold |
| `Lock.TakeoverFromTheDead` | `crates/server/src/lockfile.rs:138-149` | one contender takes over a dead holder's file and holds the lock alone, for every threshold |
| `Lock.CrashedHolder` | `crates/server/src/lockfile.rs:138-149` | a run in which a holder dies and two contenders judge its file stale |
| `Lock.TwoGuardsAfterCrash` | `crates/server/src/lockfile.rs:138-149` | continued, both contenders hold a guard, for every threshold |
| `LockTakeover.DropSparesSuccessors` | `crates/server/src/lockfile.rs:167-172` | over every run with takeovers at most one live guard owns the file, and a drop removes only its own |
| `LockTakeover.LosesOnlyWhenStale` | `crates/server/src/lockfile.rs:138-149` | a guard loses its file only by its own drop or death or to a contender for whom it is too old |
| `LockTakeover.TakenOverWhenOld` | `crates/server/src/lockfile.rs:87-119` | a file left alone falls to a contender in two attempts if it is older than the threshold, and stands untouched if not |
| `LockTakeover.OneGuardWithoutTakeover` | `crates/server/src/lockfile.rs:106-155` | while no attempt finds the file abandoned there is at most one guard |
| `LockDrop.DropRemovesOwn` | `crates/server/src/lockfile.rs:158-172` | with read-back and removal apart, any number of processes and any deaths: every drop removes the dropper's own file, unless a removal took away the file of a process that had read its payload back |
| `LockDrop.HitsExactlyAfterOvertaking` | `crates/server/src/lockfile.rs:158-172` | a part of a run has a continuation without another such removal into a drop that deletes the file of another's guard, if and only if the run holds such a removal |
| `LockDrop.HitFreeIsOvertakeFree` | `crates/server/src/lockfile.rs:158-172` | there is none in a run that removes no live owner's file as abandoned: where exclusion holds, drops are safe |
| `LockTakeover.LateRemovalHitsSuccessor` | `crates/server/src/lockfile.rs:167-172` | for every threshold a run with such a removal, continued until the overtaken holder removes its successor's file |
| `LockTakeover.LockFile.TryAcquire` | `crates/server/src/lockfile.rs:106-154` | one attempt creates the file, removes an abandoned one, or changes nothing |
| `LockTakeover.LockFile.AcquireTimeout` | `crates/server/src/lockfile.rs:87-103` | the retry loop ends with the file ours, or at the deadline with a holder that is not too old |
| `LockTakeover.LockFile.DropGuard` | `crates/server/src/lockfile.rs:167-172` | the file goes if and only if it still holds the guard's payload |
| `Catalog.SortSorts` | `crates/agent-wiring/src/sync/catalog.rs:95-103` | sorting orders the rows and keeps them |
| `Catalog.SortedIsUnique` | `crates/agent-wiring/src/sync/catalog.rs:95-103` | there is only one sorted order of the same rows |
| `Catalog.RowsByField` | `crates/agent-wiring/src/sync/catalog.rs:95-103` | the order of the rows: by id, for equal ids by name, then those without reasoning, then by context, none first, texts by their first difference |
| `Catalog.DecimalDenotes` | `crates/agent-wiring/src/sync/catalog.rs:105-115` | the digits of a context window denote it, without leading zeros |
| `Catalog.RowsAreRead` | `crates/agent-wiring/src/sync/catalog.rs:105-115` | cut at its separators, the text of any rows without NUL in an id or a name gives the rows back, field by field |
| `Catalog.RowsAreInjective` | `crates/agent-wiring/src/sync/catalog.rs:105-115` | the row text tells all row lists apart, given ids and names without NUL |
| `Catalog.SameTextIffReordered` | `crates/agent-wiring/src/sync/catalog.rs:94-116` | two catalogs without NUL in an id or a name have the same text before hashing if and only if one is a reordering of the other |
| `Catalog.RowCollidesIff` | `crates/agent-wiring/src/sync/catalog.rs:105-115` | another model has the same row text if and only if the id or the name holds a NUL |
| `Catalog.CatalogCollidesIff` | `crates/agent-wiring/src/sync/catalog.rs:94-116` | with any text allowed in ids and names, another catalog has the same text before hashing if and only if the catalog has several rows or its only row holds a NUL |
| `Catalog.SeparatorsCollide` | `crates/agent-wiring/src/sync/catalog.rs:111-114` | two catalogs of one row, with a NUL in an id and in a name, share a text |
| `Catalog.DigestText` | `crates/agent-wiring/src/sync/catalog.rs:94-116` | the loop pushes the sorted rows' text |
| `Folds.IndexesAgree` | `crates/server/src/storage.rs:443-495` | for any rows in any order and every additive counter, series, providers, models and agents each sum to the grand total |
| `Folds.EntriesAreRowSums` | `crates/server/src/storage.rs:443-495` | each entry of each index is the sum of exactly the rows with its key, and exists if and only if there is such a row |
| `Folds.FieldsAreSummed` | `crates/server/src/storage.rs:443-495` | the totals and each entry, field by field, are the sums over all rows, or over those with that bucket, provider, model or agent |
| `Folds.ModelNamesItsProvider` | `crates/server/src/storage.rs:474-491` | a model names a provider if and only if all its rows have it |
| `Folds.LatencyIsMaximum` | `crates/server/src/storage.rs:598` | the grand maximum is the largest latency of the rows |
| `Folds.Tally.FoldSummaryRow` | `crates/server/src/storage.rs:443-495` | one row updates the totals and all four indexes in place as specified |
| `Folds.Tally.FoldAll` | `crates/server/src/storage.rs:179-188` | the row loop leaves the summary of all rows |
| `Totals.SumAdded` | `crates/server/src/storage.rs:587-608` | adding to one entry of an index adds that much to its sum, whatever the order of the entries |
| `Split.KeptFitsBucket` | `crates/server/src/storage.rs:397-432` | whatever values are kept, in every bucket they add up to no more than the bucket |
| `Split.SplitHoldsRows` | `crates/server/src/storage.rs:397-432` | what a series keeps for a bucket and a value is the sum of exactly the rows with both, and there is no entry for the empty value |
| `Split.RetainedHoldsRows` | `crates/server/src/storage.rs:424-431` | after the retain the kept values of a bucket hold what they held, the others are gone, and so are buckets without one |
| `Split.WeightsAreTokens` | `crates/server/src/storage.rs:397-432` | a value is ranked by the input and output tokens of its rows |
| `Split.TableRow` | `crates/cli/src/stats.rs:527-546` | a value has a table row if and only if some point has it, and the row is the capped sum over the points |
| `SplitEngine.KeepBusiest` | `crates/server/src/storage.rs:417-424` | at most 24 values are kept, each outranking every other by weight and then name |
| `SplitEngine.KeptAreBusiest` | `crates/server/src/storage.rs:417-423` | if a value is left out, 24 are kept and none of them is lighter, or as heavy and later in the alphabet |
| `SplitEngine.SeriesSplit` | `crates/server/src/storage.rs:397-432` | one pass, the ranking and the retain yield the split of the kept values, or nothing |
| `Split.TableAddsUp` | `crates/cli/src/stats.rs:527-546` | the table's rows and `other` sum to the series total if and only if no point's kept values exceed it |
| `Split.SplitTableIsTotal` | `crates/cli/src/stats.rs:527-546` | from any rows, for any split and any values kept, or none, the table's rows and `other` are exactly the grand total |
| `SplitEngine.SplitRows` | `crates/cli/src/stats.rs:527-546` | the nested loops with their saturating sums compute the table |
| `SplitEngine.AddPoint` | `crates/cli/src/stats.rs:531-537` | one point's values go into the table and their capped sum is kept |
| `RequestLog.ScanFindsEnd` | `crates/server/src/request_log.rs:290-309` | without gaps the segment scan stops at the first unused index |
| `RequestLog.WriteStores` | `crates/server/src/request_log.rs:277-310` | writing a record extends the last segment if its line still fits, in bytes of UTF-8, and starts the next one otherwise, so segments stay numbered without gaps, within 10 MiB or a single line |
| `RequestLog.LogReadsBack` | `crates/server/src/request_log.rs:277-310` | one writer and no deletions: the segments of a date, in index order, read back as exactly the lines written, in order |
| `RequestLog.SizeIsBytes` | `crates/server/src/request_log.rs:290-309` | the size of a line is the number of its bytes in UTF-8 |
| `RequestLog.Utf8Denotes` | `crates/server/src/request_log.rs:281` | the bytes counted are those a UTF-8 decoder reads back as the character |
| `RequestLog.LogDir.RequestLogPath` | `crates/server/src/request_log.rs:290-310` | the scan loop picks the specified segment |
| `RequestLog.LogDir.WriteRecord` | `crates/server/src/request_log.rs:277-288` | one line is appended to that segment and nothing else changes |
| `RequestLog.Writer.Run` | `crates/server/src/request_log.rs:215-242` | every record goes to its segment at once, and the database gets the specified batches: all records in order, none lost or doubled, nothing left waiting |
| `RequestLog.BatchesAreChunks` | `crates/server/src/request_log.rs:215-242` | the records that come in before a quiet interval or the end go out in pieces of 256, the last one with what is left, and then it starts afresh |

## Left out

- Byte offsets: text is a sequence of characters, where the code indexes UTF-8 bytes. All delimiters are ASCII; slicing inside a character cannot be expressed.
- JsonGuard.GuardIsStrict: the guard reads RFC 8259; serde_json's number range, nesting limit and map type are not modelled. A written value is any serialized JSON value.
- JSON arrays are leaves of the tree; what `get` finds below one is any function of the array's text.
- JsonDelLaws.DelAllLaw: leftover commas are looked for in each text of the list when its turn comes, not in the first one alone; so in `JsonDelLaws.DelLaw`.
- `edit/toml.rs`, `spec/codex.rs` and `spec/pi.rs`: `toml_edit` is not part of this model, and list filtering would only add easy members.
- Paths: covered files, backups, markers, temporary and set-aside copies are told apart by construction, not by their suffixes; unused names come from a counter.
- DotEnvMark.SetReadsBack: earlier keys of a list hold no line break; the last key may be any string. `DotEnvMark.SetFrame` asks it of every key.
- Files.FileSystem.WriteAtomic: directories, permission bits, syncing, the retry on a taken temporary name, the removal of a temporary file after a failed write, and the sweep of old ones.
- RecoveryEngine.Wiring.Connect: the stash and applied files, and a failing save of the latter, are not on the recovery disk.
- RecoveryEngine.Wiring.Disconnect: the same; `semantically_equal` and `is_empty_document` are arbitrary functions of file and bytes.
- Failures inside a call are breaks after any step; a failing removal in `clear` leaves a record that equals its file and is not modelled.
- The specifications work on key maps: an `env` that is not an object, or text that is not JSON, makes `set` fail and is not modelled there. Drift state and applied values are left out.
- Format conversion, UTF-8 repair of chunks, logging and sending inside the streaming loop.
- Directory creation, I/O errors and the asynchronous wrapper of the lock.
- SHA-256: the text before hashing is modelled, the hash is not. Names are compared character by character.
- SQL, the queries' filters, `cost_usd`, account and session groups, the heatmap and the order of the group lists.
- Sums in the summary are unbounded; the table's saturating sums are modelled as they are. The order and rendering of the table's rows are left out.
- The JSON text of a request record, the digits of segment file names and failing writes. A batch handed to the database counts as flushed whether or not the insert succeeds.
- HTTP handlers, sign-in flows, plugins, the desktop shell and all TypeScript.
