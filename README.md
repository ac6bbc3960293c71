# XTN loaders and dumpers in Dafny

XTN is a line-oriented, indentation-friendly text format for configuration and
data. A document is an object. Its members are:

- `key: value` lines for text;
- `key{}:` lines that open a nested object;
- `key[]:` lines that open an array, whose elements are written `+: value`,
  `+{}:`, `+[]:` or `+'':`;
- `key'':` lines that open a multiline text block.

A container and a block are closed by a `----` line. Blank lines and `#` lines
are comments, which are attached to the next value, to the inside of the
enclosing container, or trail it.

This project models four implementations of the format:

- the TypeScript parser of the editor extension (`xtn-vscode/server/src/parser.ts`);
- the Go package (`xtngo/xtn.go`);
- the current Python package (`xtnpy/xtn/_xtn.py`);
- the older single-file Python dialect (`xtn.py`). That dialect has a different
  block syntax: a `key'':` line is followed by a line holding a marker of quotes,
  and the block ends at the next line starting with the same marker.

## How the model is organised

| Module | File | What it holds |
|---|---|---|
| `Xtn` | `xtn_common.dfy` | The shared model: the document tree, error codes and comment values, plus the string helpers every loader uses (trimming, `partition`, `indexOf`, space conversion, line splitting). |
| `XtnTs` | `xtn_ts.dfy` | The TypeScript `_load` as a per-line `Step` on a stack of frames, `load`, `dump`, the whitespace tests and the object and array `set` rules. |
| `XtnTsLines` | `xtn_ts_lines.dfy` | What one line does in each situation of the TypeScript loader, and an inline pair that `dump` writes reading back through `Step`. |
| `XtnGo` | `xtn_go.dfy` | The Go `processLine`, `complete`, comment buffering with `##` tags, the byte loop's line splitting, and `UnmarshalToMap`. |
| `XtnGoScanner` | `xtn_go_scanner.dfy` | The Go scanner as a class whose `ProcessLine` and `Complete` update it in place, and the byte loop of `UnmarshalToMap` as a method proved equal to `XtnGo.LoadSpec`. |
| `XtnPy` | `xtn_py.dfy` | The current Python `_load`, `load`, `dump` and its comment reading. |
| `XtnPyLines` | `xtn_py_lines.dfy` | Comment round trips, block body lines, and the fact that key lines behave as in TypeScript. |
| `XtnOld` | `xtn_old.dfy` | The older dialect's `_load`, `load`, `dump` and quote markers. |
| `XtnOldLines` | `xtn_old_lines.dfy` | The older dialect's markers, comments, `+` and `-` lines, and inline pairs. |

**Loading.** Each loader is a pure step function over the values `_load` keeps
between lines: the stack of frames and the comment buffer. A `Run` folds the
step over the lines. `Load` (in Go, `UnmarshalToMap`) is a method with the
source's loop, proved equal to the fold.

**The parse stack.** In the TypeScript, Go and current Python models, a
container frame holds the node it is filling. The frame below holds the same
node in its last slot, and that slot is rewritten when the frame is closed. This
replaces the shared references of the source. The older dialect's model instead
inserts a closed container into its parent when its frame is popped
(`XtnOld.PopInto`). This gives the same tree, because nothing reads a container
through its parent while the container is open.

**The `Valid` invariant.** Every step keeps the stack valid:
- the root object frame is at the bottom;
- a multiline frame can only be on top;
- no node under construction holds a key twice.

**Dumping.** `Dump` in each Python and TypeScript module is a method with the
source's loop over the root's members. It is proved equal to a recursive
writer.

**As written and corrected.** Where the source has a defect (see "## Findings"),
the model states the behaviour as written in a member of its own and proves
what tells it apart. The loaders and dumpers then use the corrected behaviour.
"## Left out" lists, member by member, where they therefore differ from the
source as written.

## Model

| member | source | states |
|---|---|---|
| Xtn.KeyIndex | xtnpy/xtn/_xtn.py:168 | Finds a key among an object's members: the index it returns holds that key, and it returns -1 exactly when the key is absent. |
| Xtn.PutEntry | xtn.py:162-168 | Assigning a member by key replaces the value of an existing key in place, or appends the key at the end. The order and every other member are kept, and the key is present afterwards. |
| Xtn.PutEntryKeepsUnique | xtn.py:162-168 | Assigning by key never creates a second member with the same key. |
| Xtn.AppendFreshKey | xtnpy/xtn/_xtn.py:168-177 | Appending a key that is not yet present keeps the keys unique. |
| Xtn.SetLastChild | xtngo/xtn.go:271-281 | Rewriting the last slot of a container changes only that slot: the kind, the size, the other children and all comments stay. |
| Xtn.AppendElement | xtnpy/xtn/_xtn.py:198-204 | Appending to an array adds exactly one element at the end, keeps the comments, and keeps every object in the tree free of repeated keys. |
| Xtn.AppendEntry | xtnpy/xtn/_xtn.py:171-177 | Appending a fresh key to an object adds exactly one member at the end, keeps the comments, and keeps keys unique throughout the tree. |
| Xtn.PutMember | xtn.py:162-168 | Setting a member on an object node assigns by key, keeps the node's comments, and keeps keys unique throughout the tree. |
| Xtn.KeyIndent | xtn-vscode/server/src/parser.ts:468 | The indentation of a key line is measured correctly: the first occurrence of the trimmed line's first character lies exactly where the leading whitespace ends. |
| Xtn.Erase | xtn-vscode/server/src/parser.ts:526-528 | The plain value of a node keeps its shape: text gives a string with the same value, an array a list of the same length, and an object a dictionary with the same keys in the same order. |
| Xtn.TrimStart | xtnpy/xtn/_xtn.py:314 | Removing leading whitespace leaves a suffix that starts with a non-space character, and everything removed was whitespace. |
| Xtn.TrimEnd | xtnpy/xtn/_xtn.py:313 | Removing trailing whitespace leaves a prefix that ends with a non-space character, and everything removed was whitespace. |
| Xtn.Trim | xtnpy/xtn/_xtn.py:305 | A trimmed line is empty or starts and ends with a non-space character. |
| Xtn.TrimIsSlice | xtnpy/xtn/_xtn.py:305 | A trimmed line is a slice of the original line with only whitespace cut away on either side. |
| Xtn.TrimEndEmptyIffAllSpace | xtn-vscode/server/src/parser.ts:404 | A line becomes empty when its end is trimmed if and only if it is all whitespace. |
| Xtn.ColonSplit | xtn-vscode/server/src/parser.ts:432-434 | Splitting a trimmed line at its first colon gives a key that begins with the line's first character. |
| Xtn.TrimLeftChar | xtn.py:220 | Stripping a leading run of a character removes exactly that run: what remains does not start with the character. |
| Xtn.Repeat | xtn.py:221 | Repeating a character n times gives a string of length n made only of that character. |
| Xtn.IndexOf | xtn-vscode/server/src/parser.ts:211 | The result is the first position where the separator occurs, or -1 exactly when it occurs nowhere. |
| Xtn.Partition | xtn-vscode/server/src/parser.ts:210-214 | Splitting at the first separator gives a left part, the separator and a right part that together make the input. Without a separator the whole input is the left part. |
| Xtn.SpacesToPlain | xtnpy/xtn/_xtn.py:151-152 | Every whitespace character becomes a plain space and every other character stays, so the length is unchanged. |
| Xtn.CollapseSpaces | xtnpy/xtn/_xtn.py:151-152 | Each whitespace run becomes one plain space: no two spaces end up adjacent, no other whitespace remains, and only an empty input gives an empty result. |
| Xtn.ConvertSpaces | xtn-vscode/server/src/parser.ts:199-202 | Converted text holds no whitespace other than plain spaces. Without collapsing, the length is kept. |
| Xtn.CollapseKeepsText | xtn-vscode/server/src/parser.ts:199-202 | Collapsing spaces keeps every non-space character, in order. |
| Xtn.CollapseNormal | xtn-vscode/server/src/parser.ts:199-202 | Text whose only whitespace is single plain spaces is left unchanged by collapsing. |
| Xtn.CollapseIdempotent | xtn-vscode/server/src/parser.ts:199-202 | Collapsing spaces twice gives the same result as collapsing once. |
| Xtn.CollapseAppendVisible | xtnpy/xtn/_xtn.py:151-152 | A part that ends in a visible character collapses on its own: no whitespace run crosses its end. |
| Xtn.CollapseLeadingRun | xtnpy/xtn/_xtn.py:151-152 | A whitespace run at the start collapses to one plain space in front of the rest. |
| Xtn.CollapseRun | xtnpy/xtn/_xtn.py:151-152 | A whitespace run between two visible parts becomes exactly one plain space at that place, and the parts on either side collapse on their own. |
| Xtn.DropLast | xtnpy/xtn/_xtn.py:291 | Dropping the final line feed of a block's text removes exactly the last character. |
| Xtn.SplitLines | xtnpy/xtn/_xtn.py:124 | Splitting text into lines gives no lines for empty text, a single line for text without a line boundary, and no line holds a line boundary. |
| Xtn.SplitLinesRebuild | xtnpy/xtn/_xtn.py:124 | Each line followed by the break it ended at (`\r\n` or one boundary character) gives the text back, in order; only the last line may have no break after it. |
| XtnTs.IsWhiteSpace | xtn-vscode/server/src/parser.ts:88-91 | As written, the whitespace test holds for the empty string only. |
| XtnTs.IsWhiteSpaceFixed | xtn-vscode/server/src/parser.ts:88-91 | The intended test, without the opening length check, holds exactly when every character is whitespace. The empty string passes, as it does as written. |
| XtnTs.HasNon32Whitespace | xtn-vscode/server/src/parser.ts:93-98 | The test holds exactly when some character is whitespace other than a plain space. |
| XtnTs.FirstLineLength | xtn-vscode/server/src/parser.ts:306-310 | The first line of a non-empty document is a non-empty prefix ending in its own line terminator, if it has one, and a `\r\n` pair is never split. |
| XtnTs.BreakIntoLines | xtn-vscode/server/src/parser.ts:306-310 | The lines joined back together are exactly the document, and each line has at most one terminator, at its end. |
| XtnTs.BreakIntoLinesChained | xtn-vscode/server/src/parser.ts:306-310 | Every line but the last ends in a terminator, and no line starts with a line feed that belongs to the previous `\r\n`. |
| XtnTs.TrimEndOfLine | xtn-vscode/server/src/parser.ts:312-319 | Removing a line's terminator removes exactly the terminator's length from the end. |
| XtnTs.TrimmedLineHasNoBreak | xtn-vscode/server/src/parser.ts:312-319 | A line with its terminator removed contains no line break. |
| XtnTs.MakeXtn | xtn-vscode/server/src/parser.ts:189-197 | A raw value becomes an empty node of the same kind, and text keeps its value. |
| XtnTs.ConvertValue | xtn-vscode/server/src/parser.ts:233-235 | Space conversion keeps the kind of a value and the length of text, and does nothing when switched off. |
| XtnTs.ObjectSet | xtn-vscode/server/src/parser.ts:230-248 | Setting a key on an object fails with "keys cannot be repeated" exactly when the collapsed key is already present. Otherwise exactly one member is appended and nothing else changes. Keys stay unique. |
| XtnTs.ObjectSetAsWritten | xtn-vscode/server/src/parser.ts:236-238 | As written, the key test also refuses the names every JavaScript object inherits. For every other key it behaves as XtnTs.ObjectSet. |
| XtnTs.InheritedKeyRefused | xtn-vscode/server/src/parser.ts:236-238 | The key `constructor` in an empty object is refused as written, but accepted by the corrected set. |
| XtnTs.ArraySet | xtn-vscode/server/src/parser.ts:263-282 | An array accepts exactly the key `+` and then appends one element. A key that starts with `+` and has more is "element must not have a key"; any other key is "element must start with plus". |
| XtnTs.Initial | xtn-vscode/server/src/parser.ts:322-327 | The loader starts with a valid stack. |
| XtnTs.StateSet | xtn-vscode/server/src/parser.ts:230-282 | A successful set leaves the frame valid and of the same kind, with the new node in its last slot. Objects use the own-key set (see "## Left out"). |
| XtnTs.RecordComment | xtn-vscode/server/src/parser.ts:329-347 | With the fixed whitespace test: an empty line is a blank comment. Otherwise the leading `#` run goes, all but one `#` become the prefix, one whitespace character after them is dropped, and empty or whitespace-only text is a blank comment. |
| XtnTs.RecordCommentAsWritten | xtn-vscode/server/src/parser.ts:329-347 | As written: an empty line and a line of `#` alone are blank comments. Otherwise the leading `#` run goes and all but one `#` become the prefix, and nothing else is dropped. |
| XtnTs.SpacedCommentKept | xtn-vscode/server/src/parser.ts:336-338 | The line `# hello` reads as ` hello` as written and as `hello` with the fixed test. |
| XtnTs.AddComment | xtn-vscode/server/src/parser.ts:424-431 | Buffering a comment leaves the stack untouched and valid. |
| XtnTs.AttachComments | xtn-vscode/server/src/parser.ts:349-354 | Buffered comments become the node's comments above and the buffer empties. An empty buffer leaves the node unchanged. |
| XtnTs.AttachTrailingComments | xtn-vscode/server/src/parser.ts:356-361 | Buffered comments become the container's trailing comments and the buffer empties. Keys stay unique. |
| XtnTs.Step | xtn-vscode/server/src/parser.ts:372-518 | With the corrected tests of "## Findings", every successful line keeps the parse stack valid. |
| XtnTs.WithExpectedIndent | xtn-vscode/server/src/parser.ts:377-390 | The first body line of a block fixes the expected indentation and its character. Nothing else in the frame changes. |
| XtnTs.ActualIndent | xtn-vscode/server/src/parser.ts:391-396 | Counts the leading run of the indentation character, up to the expected length. The character after a short run is a different one. |
| XtnTs.IndentStop | xtn-vscode/server/src/parser.ts:397 | The character that ended a short indentation run, or nothing when the run is complete or the line has ended. |
| XtnTs.MixedStop | xtn-vscode/server/src/parser.ts:398 | With the fixed test, the character after a short indentation is mixed indentation exactly when it is whitespace other than a line break, or when the line ends there. |
| XtnTs.MixedStopAsWritten | xtn-vscode/server/src/parser.ts:398 | As written, the mixed-indentation test holds only where an unterminated line ends inside the indentation. |
| XtnTs.TabStopAsWritten | xtn-vscode/server/src/parser.ts:398 | A tab where spaces are expected is not mixed indentation as written, and is with the fixed test. |
| XtnTs.MultilineLine | xtn-vscode/server/src/parser.ts:376-421 | With the corrected mixed-indentation test, a successful line inside a block keeps the stack valid. |
| XtnTs.CloseMultiline | xtn-vscode/server/src/parser.ts:404-413 | Closing a block pops exactly its frame, empties the buffer and keeps the stack valid. |
| XtnTs.StructuralLine | xtn-vscode/server/src/parser.ts:423-517 | A successful line outside a block keeps the stack valid. |
| XtnTs.KeyLine | xtn-vscode/server/src/parser.ts:435-494 | A successful line with a colon keeps the stack valid. |
| XtnTs.OtherLine | xtn-vscode/server/src/parser.ts:495-516 | A successful line without a colon keeps the stack valid. |
| XtnTs.OpenContainer | xtn-vscode/server/src/parser.ts:445-466 | Opening an object or array keeps the stack valid. |
| XtnTs.OpenMultiline | xtn-vscode/server/src/parser.ts:467-489 | A block key is accepted exactly when its indentation is all spaces or all tabs and nothing follows the colon, and then only a block frame is pushed. An indentation that starts with neither is refused as not space or tab, one that starts with a space or tab and mixes them as mixed, and a value after the colon as not on a new line. |
| XtnTs.SetText | xtn-vscode/server/src/parser.ts:490-493 | A successful `key: value` line keeps the stack valid. |
| XtnTs.CloseFrame | xtn-vscode/server/src/parser.ts:495-502 | `----` fails as "unmatched close marker" exactly when only the root is open. Otherwise it pops one frame, empties the buffer and keeps the stack valid. |
| XtnTs.Run | xtn-vscode/server/src/parser.ts:372-518 | Running the lines keeps the stack valid whenever no line fails. |
| XtnTs.Finish | xtn-vscode/server/src/parser.ts:519-523 | At the end of input an open frame above the root is "missing close marker". Otherwise the root object is the result. |
| XtnTs.LoadSpec | xtn-vscode/server/src/parser.ts:108-112 | With the corrected tests, a loaded document is an object tree in which no object repeats a key. |
| XtnTs.Load | xtn-vscode/server/src/parser.ts:321-524 | The line loop computes exactly the specified load, with the corrected tests. |
| XtnTs.SplitCrLf | xtn-vscode/server/src/parser.ts:122 | Splitting a comment on line breaks gives more than one piece exactly when the comment contains a line feed. |
| XtnTs.TextBlockIff | xtn-vscode/server/src/parser.ts:164 | With the whitespace test fixed, text is written as a block if and only if it is forced, empty, begins or ends with whitespace, or contains whitespace other than a plain space. |
| XtnTs.TextBlockIffAsWritten | xtn-vscode/server/src/parser.ts:164 | As written, text is written as a block if and only if it is forced, empty, or contains whitespace other than a plain space. |
| XtnTs.LeadingSpaceInline | xtn-vscode/server/src/parser.ts:164 | The text ` a` is written inline as written, but as a block with the fixed test. |
| XtnTs.TextLinesBreak | xtn-vscode/server/src/parser.ts:163-164 | Text that spans several lines always contains whitespace other than a plain space. |
| XtnTs.OneCharWhiteSpace | xtn-vscode/server/src/parser.ts:88-91 | On a single character, the fixed whitespace test is exactly the character test. |
| XtnTs.DumpEntriesAppend | xtn-vscode/server/src/parser.ts:154-157 | Writing members one after another gives the same text as writing them all at once. |
| XtnTs.DumpEntriesPrefix | xtn-vscode/server/src/parser.ts:180-182 | Writing one more member of the root adds that member's text at the end. |
| XtnTs.Dump | xtn-vscode/server/src/parser.ts:114-184 | With the corrected whitespace test, the member loop of `dump` writes exactly the recursive text of the tree. |
| XtnTsLines.CloseMarkerExact | xtn-vscode/server/src/parser.ts:495 | A trimmed line is a close marker if and only if it is exactly four dashes. |
| XtnTsLines.StepOtherLine | xtn-vscode/server/src/parser.ts:503-516 | A line without a colon that is not a comment goes to the no-colon branch. |
| XtnTsLines.DashesLine | xtn-vscode/server/src/parser.ts:495-502 | A `----` line outside a block closes the current container. |
| XtnTsLines.UnmatchedClose | xtn-vscode/server/src/parser.ts:498-501 | `----` with only the root open is "unmatched close marker" at that line. |
| XtnTsLines.FiveDashesNotClose | xtn-vscode/server/src/parser.ts:503-516 | Five dashes are no close marker: in an array the line is "element must start with plus", elsewhere "missing colon". |
| XtnTsLines.StepKeyLine | xtn-vscode/server/src/parser.ts:432-440 | A line with a colon is split at its first colon, and its key begins with the line's first visible character. |
| XtnTsLines.KeyLineScalar | xtn-vscode/server/src/parser.ts:490-493 | A key without a container or block suffix sets text. |
| XtnTsLines.SetTextInObject | xtn-vscode/server/src/parser.ts:230-248 | In an object, `key: value` fails exactly on a repeated key. Otherwise it appends one text member that takes the buffered comments. |
| XtnTsLines.SetTextInArray | xtn-vscode/server/src/parser.ts:263-282 | In an array, `+: value` appends one text element that takes the buffered comments. Any other key fails with its error code. |
| XtnTsLines.ObjectPairLine | xtn-vscode/server/src/parser.ts:432-493 | A whole `key: value` line read in an object adds exactly that member, or fails on a repeated key. |
| XtnTsLines.ArrayElementLine | xtn-vscode/server/src/parser.ts:263-282 | A whole scalar line read in an array adds an element exactly when its key is `+`. |
| XtnTsLines.OpenObjectLine | xtn-vscode/server/src/parser.ts:445-455 | A `key{}:` line in an object adds an empty object member and pushes its frame, or fails on a repeated key. |
| XtnTsLines.KeyLineOpensObject | xtn-vscode/server/src/parser.ts:445-455 | A key ending in `{}` with nothing after the colon opens an object named by the key without the suffix. |
| XtnTsLines.OpenObjectInObject | xtn-vscode/server/src/parser.ts:450-454 | Opening an object inside an object appends it once, gives it the buffered comments and pushes a frame for it. |
| XtnTsLines.ExpectedIndentRule | xtn-vscode/server/src/parser.ts:377-390 | A block's body indentation is the key's indentation plus one unit. The unit is four spaces or one tab, chosen by the key's or else the first body line's first character. |
| XtnTsLines.FullIndentIsText | xtn-vscode/server/src/parser.ts:391-420 | A body line with the full indentation adds the rest of the line, with a line feed, to the block text. |
| XtnTsLines.ShortBlankLine | xtn-vscode/server/src/parser.ts:416-420 | A body line that ends inside the indentation adds an empty line to the block text. |
| XtnTsLines.MixedBlockIndent | xtn-vscode/server/src/parser.ts:398-401 | With the corrected test, other whitespace inside the indentation is "indentation must not be mixed". |
| XtnTsLines.WrongCloseIndent | xtn-vscode/server/src/parser.ts:404-414 | A close marker at a depth other than the key's is "incorrect indentation". |
| XtnTsLines.ShortLine | xtn-vscode/server/src/parser.ts:416-418 | Visible text inside the indentation is "insufficient indentation". |
| XtnTsLines.EndInsideIndent | xtn-vscode/server/src/parser.ts:398-401 | A last line without a terminator that ends inside the indentation is "indentation must not be mixed". |
| XtnTsLines.BlockCloseStep | xtn-vscode/server/src/parser.ts:404-412 | `----` at the key's depth closes the block. |
| XtnTsLines.BlockCloseInObject | xtn-vscode/server/src/parser.ts:404-412 | Closing a block in an object stores the text, without its final line feed, under the key, or fails on a repeated key. |
| XtnTsLines.BlockCloseInArray | xtn-vscode/server/src/parser.ts:404-412 | Closing a block in an array appends the text as an element, or fails on a key other than `+`. |
| XtnTsLines.CloseInObject | xtn-vscode/server/src/parser.ts:406-411 | The block's text, forced multiline and with the buffered comments, becomes one new member of the object. |
| XtnTsLines.CloseInArray | xtn-vscode/server/src/parser.ts:406-411 | The block's text, forced multiline and with the buffered comments, becomes one new element of the array. |
| XtnTsLines.InlineLineParts | xtn-vscode/server/src/parser.ts:432-434 | A written inline pair trims to a line that starts with the key and contains a colon. |
| XtnTsLines.InlinePairRoundTrip | xtn-vscode/server/src/parser.ts:172-174 | An inline `key: value` line written by `dump` and read back into an object adds exactly that key with that value. |
| XtnTsLines.InlineDump | xtn-vscode/server/src/parser.ts:172-174 | Text that the corrected test does not write as a block is written as `key: value` on one line. |
| XtnTsLines.InlinePlainValue | xtn-vscode/server/src/parser.ts:233-235 | Text written inline contains only plain spaces, so reading it back converts nothing. |
| XtnGo.CleanRunes | xtngo/xtn.go:103-116 | The rune loop collapses whitespace runs exactly as the shared space conversion does. |
| XtnGo.CleanKeyName | xtngo/xtn.go:103-116 | Cleaning a key name collapses each whitespace run to one space. |
| XtnGo.ConvertToRegularSpace | xtngo/xtn.go:118-125 | Every whitespace character of a value becomes a plain space. |
| XtnGo.SetComments | xtngo/xtn.go:71-101 | Storing comments replaces exactly the slot named by the position and keeps the node's kind. |
| XtnGo.FirstSpace | xtngo/xtn.go:569 | Finds the first whitespace position, or -1 when there is none. |
| XtnGo.CommentOfAsWritten | xtngo/xtn.go:555-593 | An empty line is a blank comment that stays in the downward buffer. |
| XtnGo.BareTagAsWritten | xtngo/xtn.go:567-572 | As written, `##meta` gives a comment whose value and prefix are both `meta`. |
| XtnGo.CommentOf | xtngo/xtn.go:555-593 | With the bare tag fixed, every line other than a bare `##tag` is read as written. |
| XtnGo.UpwardComment | xtngo/xtn.go:564-566 | A `####` line is an upward comment with prefix `##`. |
| XtnGo.TaggedComment | xtngo/xtn.go:567-575 | `##tag value` gives the value with the tag as its prefix, in the downward buffer. |
| XtnGo.TagSplit | xtngo/xtn.go:568-575 | The tag ends at the first whitespace after it. |
| XtnGo.BareTag | xtngo/xtn.go:567-572 | With the fix, `##tag` alone is an empty comment with prefix `tag`. |
| XtnGo.HashComment | xtngo/xtn.go:577-582 | `#` followed by whitespace and text gives that text without a prefix. |
| XtnGo.Initial | xtngo/xtn.go:612-620 | The scanner starts in a valid state. |
| XtnGo.StoreAt | xtngo/xtn.go:493-499 | Comments are stored on the top node or on its last child, at the requested position. The keys are kept. |
| XtnGo.SetUpComments | xtngo/xtn.go:535-544 | The upward buffer is stored and emptied. The downward buffer, the other frames and the keys stay. |
| XtnGo.AttachComments | xtngo/xtn.go:490-515 | Both buffers empty: upward comments go to their recorded target and position, and downward comments go above the new node. |
| XtnGo.AttachTrailingComments | xtngo/xtn.go:517-553 | Both buffers empty into the current container: upward comments first, downward comments as its trailing comments. The stack stays valid. |
| XtnGo.RecordComment | xtngo/xtn.go:555-593 | A comment, read by the corrected reader, goes to the upward or the downward buffer according to its tag. The stack is untouched. |
| XtnGo.ValidateKey | xtngo/xtn.go:142-147 | An object refuses exactly a repeated key. An array refuses every key but `+`, with the error code its shape calls for. |
| XtnGo.Insert | xtngo/xtn.go:158 | Inserting a validated child adds exactly one child at the end of the frame's container. |
| XtnGo.ChildFrame | xtngo/xtn.go:149-200 | The frame pushed for a child fills that child. |
| XtnGo.PushChild | xtngo/xtn.go:424 | Pushing a child inserts it into the parent and pushes its frame. No other frame changes. |
| XtnGo.PushValid | xtngo/xtn.go:508-513 | Pushing a fresh child whose comments have been attached keeps the scanner valid. |
| XtnGo.AttachAndPush | xtngo/xtn.go:149-200 | Attaching comments to the new child does not change which keys the parent accepts, so the push stays valid. |
| XtnGo.Open | xtngo/xtn.go:420-452 | Opening a child fails exactly when the key is refused, with that code at the 1-based line. Otherwise it opens the child. |
| XtnGo.SetSimpleText | xtngo/xtn.go:202-211 | `key: value` fails exactly when the key is refused. Otherwise it inserts the converted text with the buffered comments and keeps the scanner valid. |
| XtnGo.PopFrame | xtngo/xtn.go:462 | Popping writes the finished node into the parent's last slot and keeps the scanner valid. |
| XtnGo.CloseMarker | xtngo/xtn.go:460-465 | `----` fails exactly when only the root is open. Otherwise it pops one frame. |
| XtnGo.WithExpectedIndent | xtngo/xtn.go:344-359 | The first body line fixes the expected indentation and its character. A block that already has one is unchanged. |
| XtnGo.IndentLength | xtngo/xtn.go:360-364 | Counts the leading run of the indentation character, up to the expected length. |
| XtnGo.TerminatedLineNeverPanics | xtngo/xtn.go:362-367 | A line that ends in a line break never reaches the out-of-range slice. |
| XtnGo.BlockRule | xtngo/xtn.go:365-392 | Every block line gets exactly one verdict, each stated as an if-and-only-if on the character after the indentation: mixed indentation, closing, wrong closing indentation, insufficient indentation, or body text. |
| XtnGo.BlockLine | xtngo/xtn.go:343-392 | A successful line inside a block keeps the scanner valid. Its rules are stated one by one on `XtnGo.Step` by the `XtnGo.Block` lemmas. |
| XtnGo.AddBodyLine | xtngo/xtn.go:387-392 | A body line appends its text to the block and changes nothing else. |
| XtnGo.CloseBlock | xtngo/xtn.go:373-379 | Closing a block pops its frame and stores its text in the parent's last slot. |
| XtnGo.StructuralLine | xtngo/xtn.go:393-477 | A successful line outside a block keeps the scanner valid. |
| XtnGo.OtherLine | xtngo/xtn.go:460-476 | A successful line without a colon keeps the scanner valid. |
| XtnGo.KeyLine | xtngo/xtn.go:404-459 | A successful key line keeps the scanner valid. |
| XtnGo.BlockKey | xtngo/xtn.go:434-452 | A block key line whose indentation starts with neither space nor tab, mixes spaces and tabs, or has a value after the colon is refused with that error code at the line's number. A key that opens a block has a spaces-only or tabs-only indentation and nothing after the colon, and keeps the scanner valid. |
| XtnGo.Step | xtngo/xtn.go:338-479 | A successful line keeps the scanner valid and advances the line counter by one. |
| XtnGo.BlockMixedIndent | xtngo/xtn.go:365-369 | In a block, whitespace other than a line break where the indentation character is expected gives "indentation must not be mixed" at this line's number. |
| XtnGo.BlockWrongCloseIndent | xtngo/xtn.go:372-382 | `----` inside the indentation but not at the key's indentation gives "incorrect indentation". |
| XtnGo.BlockShortLine | xtngo/xtn.go:383-385 | Any other visible character inside the indentation gives "insufficient indentation". |
| XtnGo.BlockCloseLine | xtngo/xtn.go:373-379 | `----` at the key's indentation closes the block: the text goes into the parent's last slot and the frame is popped. |
| XtnGo.BlockTextLine | xtngo/xtn.go:365-392 | A line with the full indentation, or one that breaks inside it, adds what follows the indentation to the text. |
| XtnGo.Run | xtngo/xtn.go:624-650 | Running the lines keeps the scanner valid and counts every line. |
| XtnGo.Complete | xtngo/xtn.go:481-488 | The end of input fails as "missing close marker" exactly when a frame is still open. Otherwise it returns the root object, with the remaining comments trailing it. |
| XtnGo.SplitLinesContent | xtngo/xtn.go:622-650 | The lines, written one after another, give the whole input in order, without each line feed that directly follows a carriage return; a line holds a line break only as its last character. |
| XtnGo.LoadSpec | xtngo/xtn.go:595-656 | Loading gives an object tree in which no object repeats a key. |
| XtnGo.TerminatedLinesNeverPanic | xtngo/xtn.go:362-367 | Lines that all end in a line break never reach the out-of-range slice. |
| XtnGo.TerminatedInputNeverPanics | xtngo/xtn.go:622-650 | Input that ends in a line break never reaches the out-of-range slice. |
| XtnGo.SplitLinesShape | xtngo/xtn.go:622-650 | Every line but the last ends in a line break. |
| XtnGo.TerminatedSplit | xtngo/xtn.go:624-644 | Input that ends in a line break splits into lines that all end in one. |
| XtnGoScanner.Scanner.constructor | xtngo/xtn.go:596-620 | A new scanner is in the initial valid state. |
| XtnGoScanner.Scanner.ProcessLine | xtngo/xtn.go:338-479 | The scanner's state after a line is exactly the state the step function gives, or the step's error is returned. |
| XtnGoScanner.Scanner.Complete | xtngo/xtn.go:481-488 | Completion returns exactly the specified result and leaves the trailing comments attached. |
| XtnGoScanner.NextLine | xtngo/xtn.go:625-641 | A break ends the next line of the pending input exactly at that break. |
| XtnGoScanner.LastLine | xtngo/xtn.go:645-650 | Input without a break after the last one is a single last line. |
| XtnGoScanner.PendingAfterByte | xtngo/xtn.go:632-643 | A byte that ends no line leaves the pending input unchanged. |
| XtnGoScanner.EndLine | xtngo/xtn.go:625-641 | Processing a completed line advances the scanner exactly as the run of the remaining lines requires. |
| XtnGoScanner.Advance | xtngo/xtn.go:624-644 | Each byte of the loop keeps the scanner in step with the specified run, or returns its error. |
| XtnGoScanner.EndInput | xtngo/xtn.go:645-650 | The last unterminated line completes the specified run. |
| XtnGoScanner.UnmarshalToMap | xtngo/xtn.go:595-656 | The byte loop computes exactly the specified load. |
| XtnPy.Word | xtnpy/xtn/_xtn.py:238 | The leading word of a string: no whitespace inside, and whitespace or the end after it. |
| XtnPy.Tagged | xtnpy/xtn/_xtn.py:236-242 | A `##` comment takes its first word as the prefix and the rest, left-trimmed, as the value. |
| XtnPy.TaggedValue | xtnpy/xtn/_xtn.py:242 | The value of a tagged comment is what follows the tag, left-trimmed. |
| XtnPy.CommentOfAsWritten | xtnpy/xtn/_xtn.py:230-248 | As written, reading a comment fails exactly for a lone `#`. |
| XtnPy.CommentOf | xtnpy/xtn/_xtn.py:230-248 | With the index fixed, a lone `#` is a blank comment and every other line is read as written. |
| XtnPy.Step | xtnpy/xtn/_xtn.py:261-381 | Every successful line keeps the parse stack valid. |
| XtnPy.StructuralLine | xtnpy/xtn/_xtn.py:304-381 | A successful line outside a block keeps the stack valid. |
| XtnPy.RecordComment | xtnpy/xtn/_xtn.py:306-311 | A comment line appends exactly its comment, read by the corrected reader, to the buffer. |
| XtnPy.CloseMarkerSame | xtnpy/xtn/_xtn.py:365 | The close marker test is the same as in TypeScript. |
| XtnPy.IndentRun | xtnpy/xtn/_xtn.py:278-281 | Counts the leading run of the indentation character, up to the expected length. |
| XtnPy.AfterIndent | xtnpy/xtn/_xtn.py:282 | The character that ended a short indentation run, or nothing. |
| XtnPy.BodyLine | xtnpy/xtn/_xtn.py:264-303 | A successful line inside a block keeps the stack valid. |
| XtnPy.CloseBlock | xtnpy/xtn/_xtn.py:288-296 | Closing a block pops exactly its frame and empties the buffer. |
| XtnPy.Run | xtnpy/xtn/_xtn.py:261-381 | Running the lines keeps the stack valid whenever no line fails. |
| XtnPy.Finish | xtnpy/xtn/_xtn.py:383-388 | An open frame at the end is "missing close marker" one past the last line. Otherwise the root object is returned with the remaining comments trailing it. |
| XtnPy.LoadSpec | xtnpy/xtn/_xtn.py:75-79 | Loading gives an object tree in which no object repeats a key. |
| XtnPy.Load | xtnpy/xtn/_xtn.py:220-388 | The line loop computes exactly the specified load. |
| XtnPy.DumpEntriesAppend | xtnpy/xtn/_xtn.py:118-119 | Writing members one after another gives the same text as writing them all at once. |
| XtnPy.DumpEntriesPrefix | xtnpy/xtn/_xtn.py:137-138 | Writing one more member of the root adds that member's text at the end. |
| XtnPy.Dump | xtnpy/xtn/_xtn.py:81-139 | The member loop of `dump` writes exactly the recursive text of the tree. |
| XtnPyLines.TaggedLine | xtnpy/xtn/_xtn.py:236-242 | `##`, optional whitespace, a word, whitespace and a rest read as the rest with the word as prefix. |
| XtnPyLines.TaggedComment | xtnpy/xtn/_xtn.py:236 | Every `##` line takes the tag branch. |
| XtnPyLines.WordOf | xtnpy/xtn/_xtn.py:238 | The leading word ends exactly at the first whitespace. |
| XtnPyLines.HashSpaceLine | xtnpy/xtn/_xtn.py:243-248 | `#`, one whitespace character and a rest read as the rest, or as a blank comment when the rest is whitespace. |
| XtnPyLines.HashLine | xtnpy/xtn/_xtn.py:243-248 | `#` directly followed by visible text reads as that text. |
| XtnPyLines.LoneHashRaises | xtnpy/xtn/_xtn.py:244 | A lone `#` line fails as written. The corrected loader buffers a blank comment for it. |
| XtnPyLines.CommentRoundTrip | xtnpy/xtn/_xtn.py:85-99 | A single-line comment written by `dump` and read back by the loader is buffered as the same comment. |
| XtnPyLines.DumpSingleLine | xtnpy/xtn/_xtn.py:85-99 | A comment without line breaks is written as one line. |
| XtnPyLines.ReadBack | xtnpy/xtn/_xtn.py:230-248 | The written comment line, trimmed, reads as the same comment. |
| XtnPyLines.CommentStep | xtnpy/xtn/_xtn.py:305-311 | A blank or `#` line outside a block buffers exactly its comment and leaves the stack unchanged. |
| XtnPyLines.StructuralComment | xtnpy/xtn/_xtn.py:305-311 | The same fact for the structural branch itself. |
| XtnPyLines.TaggedWord | xtnpy/xtn/_xtn.py:238-242 | `##word` alone is an empty comment with prefix `word`. |
| XtnPyLines.TaggedNoGap | xtnpy/xtn/_xtn.py:238-242 | `##word rest` reads as the rest with the word as prefix. |
| XtnPyLines.KeyLinesAsTypeScript | xtnpy/xtn/_xtn.py:312-381 | Outside a block, a line that is not a comment gives exactly the TypeScript result. Only the error line is counted from 1. |
| XtnPyLines.CloseLine | xtnpy/xtn/_xtn.py:365-370 | `----` with only the root open is "unmatched close marker". Otherwise the container takes the buffered comments as trailing comments and is written back into its parent. |
| XtnPyLines.MixedBodyIndent | xtnpy/xtn/_xtn.py:283-285 | Other whitespace inside a body line's indentation is "indentation must not be mixed". A carriage return counts as whitespace here. |
| XtnPyLines.FullIndentIsText | xtnpy/xtn/_xtn.py:276-303 | A body line with the full indentation adds the rest of the line to the block text. |
| XtnPyLines.ShortBlankLine | xtnpy/xtn/_xtn.py:299-303 | A body line that ends inside the indentation adds an empty line. |
| XtnPyLines.WrongCloseIndent | xtnpy/xtn/_xtn.py:288-298 | A close marker at a depth other than the key's is "incorrect indentation". |
| XtnPyLines.ShortLine | xtnpy/xtn/_xtn.py:299-301 | Visible text inside the indentation is "insufficient indentation". |
| XtnPyLines.BlockCloseInObject | xtnpy/xtn/_xtn.py:288-296 | Closing a block in an object stores its text under the key, or fails on a repeated key. |
| XtnPyLines.CloseInObject | xtnpy/xtn/_xtn.py:290-295 | The block's text becomes one new member of the object, with the buffered comments. |
| XtnPyLines.BlockWhen | xtnpy/xtn/_xtn.py:127 | Forced text, text with whitespace at either end, and text with whitespace other than a plain space are written as blocks. |
| XtnPyLines.InlineWhen | xtnpy/xtn/_xtn.py:127-134 | Text with visible ends and no other whitespace than plain spaces is written inline. |
| XtnOld.Initial | xtn.py:206-208 | The loader starts with the root object alone on the stack and an empty buffer. |
| XtnOld.Insert | xtn.py:162-168 | An object frame assigns the key, overwriting a present one, and an array frame appends. The frame stays valid. |
| XtnOld.PopInto | xtn.py:321-324 | Popping writes the finished container into its parent by key. An element ends back in its array. |
| XtnOld.WithTrail | xtn.py:234-237 | Buffered comments become a container's trailing comments and nothing else changes. |
| XtnOld.CommentOf | xtn.py:215-227 | An empty line is a blank comment. A prefix is made only of `#` and is shorter than the line. |
| XtnOld.Step | xtn.py:239-324 | Every successful line keeps the stack valid. After the root has been closed, every further line fails. |
| XtnOld.MarkerLine | xtn.py:242-249 | The line after a block key must start with four quotes. Its trimmed text becomes the block's marker and its indentation the body's. |
| XtnOld.QuotesSurviveTrim | xtn.py:246-249 | Trimming a line that starts with four quotes keeps them. |
| XtnOld.BodyText | xtn.py:251-259 | A body line is never empty: an empty cut stands for a line feed. |
| XtnOld.CutIsLead | xtn.py:251-257 | The cut removes the leading whitespace up to the body indentation. |
| XtnOld.BodyLine | xtn.py:250-268 | A line that starts with the marker closes the block. Any other line is appended to the text. A failure is only ever a refused key at the close. |
| XtnOld.CloseBlock | xtn.py:260-266 | Closing a block stores its text in the parent. In an array, a key other than `+` is refused. |
| XtnOld.StructuralLine | xtn.py:270-276 | A blank or `#` line buffers exactly its comment. |
| XtnOld.KeyValueLine | xtn.py:277-290 | A line starting with a colon is refused. A `+` key outside an array is refused. |
| XtnOld.KeyLine | xtn.py:292-324 | A container key with text after the colon is refused with the matching "must be on a new line" code. |
| XtnOld.OpenContainer | xtn.py:292-310 | Opening a container pushes exactly one frame, unless an array refuses the key. |
| XtnOld.SetText | xtn.py:317-319 | `key: value` assigns the text with the buffered comments, unless an array refuses the key. |
| XtnOld.EndElement | xtn.py:321-322 | An array element's object frame is popped back into its array. Any other frame stays. |
| XtnOld.CloseFrame | xtn.py:320-324 | `-` closes the current container. Buffered comments trail it, and closing the root ends the document. |
| XtnOld.Run | xtn.py:239-324 | Running the lines keeps the stack valid whenever no line fails. |
| XtnOld.Fold | xtn.py:326 | Unclosed frames are folded back into the root, which is an object tree without repeated keys. |
| XtnOld.Finish | xtn.py:326 | The result is the closed root, or the root with the open frames folded in. |
| XtnOld.LoadSpec | xtn.py:67-71 | Loading gives an object tree in which no object repeats a key. |
| XtnOld.Load | xtn.py:205-326 | The line loop computes exactly the specified load. |
| XtnOld.LongestRun | xtn.py:118 | Some run of the character in the text has exactly the returned length, which is at most the text's length. |
| XtnOld.RunAtCovers | xtn.py:118 | No run of the character in the text is longer than the returned length. |
| XtnOld.MarkerLength | xtn.py:120 | A marker has at least four quotes and more than the longest run. |
| XtnOld.MarkerAsWritten | xtn.py:117-120 | As written, a marker has four, six or eight quotes, whatever the text holds. |
| XtnOld.Marker | xtn.py:117-120 | The corrected marker is longer than any run of quotes in the text. |
| XtnOld.DumpEntriesAppend | xtn.py:107-108 | Writing members one after another gives the same text as writing them all at once. |
| XtnOld.DumpEntriesPrefix | xtn.py:131-132 | Writing one more member of the root adds that member's text at the end. |
| XtnOld.Dump | xtn.py:73-133 | With the corrected marker, the member loop of `dump` writes exactly the recursive text of the tree. |
| XtnOldLines.MarkerAbsent | xtn.py:117-126 | The corrected marker occurs nowhere in the text. |
| XtnOldLines.NoLineStartsWith | xtn.py:114-126 | A marker absent from the text starts none of its lines. |
| XtnOldLines.BlockLineStays | xtn.py:123-126 | A written body line reads back as the same line of text. |
| XtnOldLines.MarkerLineReadBack | xtn.py:242-249 | The written marker line reads back as that marker, at the written indentation. |
| XtnOldLines.CloseLineReadBack | xtn.py:260 | The written closing marker line closes the block. |
| XtnOldLines.QuoteLineClosesEarly | xtn.py:117-126 | The text `''''` gets the marker `''''` as written, so its own line closes the block. The corrected marker has eight quotes. |
| XtnOldLines.CommentWritten | xtn.py:77-87 | A single-line comment is written as `#`, its prefix, a space and the value. |
| XtnOldLines.CommentRead | xtn.py:215-227 | That line, trimmed, reads back as the same comment. |
| XtnOldLines.KeyValueOf | xtn.py:277-279 | A line that is not a comment splits into the key and the value around its first colon. |
| XtnOldLines.ColonFirst | xtn.py:280-282 | A line that starts with a colon is refused. |
| XtnOldLines.NoColonParts | xtn.py:277-279 | A line without a colon is all key, with an empty value. |
| XtnOldLines.NoColonKey | xtn.py:317-319 | A plain word without a colon sets that key to empty text with the buffered comments. |
| XtnOldLines.ScalarKeyLine | xtn.py:317-319 | A key without a container or block suffix sets text. |
| XtnOldLines.PlusEndsElement | xtn.py:283-290 | In an array element, `+` ends the element and starts the next. The "plus outside array" failure cannot happen there. |
| XtnOldLines.DashLine | xtn.py:320-324 | A `-` key closes the current frame. |
| XtnOldLines.DashEndsElementAndArray | xtn.py:320-324 | `-` inside an element ends the element and its array together. |
| XtnOldLines.CloseElementAndArray | xtn.py:321-324 | Closing an element writes it into its array and then the array into its parent. |
| XtnOldLines.DashClosesRoot | xtn.py:320-324 | `-` on the root ends the document. Any later line fails with the empty-stack error. |
| XtnOldLines.DashClosesContainer | xtn.py:320-324 | `-` on a nested container pops exactly one frame and empties the buffer. |
| XtnOldLines.RepeatedKeyOverwrites | xtn.py:157-168 | A repeated key overwrites the earlier value in place, and the other members stay. |
| XtnOldLines.ArrayElementSet | xtn.py:178-190 | An array accepts only the key `+`, and refuses any other. |
| XtnOldLines.FinalMarkerStaysOpen | xtn.py:258-268 | A marker on the last line without a line break does not close the block. |
| XtnOldLines.MarkerLineCloses | xtn.py:257-266 | The marker line at the body indentation closes the block. |
| XtnOldLines.InlineWritten | xtn.py:117-128 | Text without line breaks and with visible ends is written as `key: value` on one line. |
| XtnOldLines.InlineParts | xtn.py:277-279 | That line splits back into the same key and value. |
| XtnOldLines.InlineRead | xtn.py:317-319 | Reading that line into an object sets exactly that key to that text, with the buffered comments. |

## Left out

- Files, streams and file names in error messages are not modelled. Loaders take the document as a string (TypeScript, Go) or as its list of lines (Python), and dumpers return the text they write (see `XtnTs.Dump` below for the TypeScript `dump`).
- Python's universal-newline line splitting is taken as given: the Python loaders receive the lines.
- Error messages and column numbers are not modelled. An error carries its code and line only.
- The plain-value mode of each `load`, which returns dictionaries, lists and strings instead of nodes, is modelled as `Xtn.Erase` applied to the tree.
- TypeScript `for ... in` over an object's members is taken to run in insertion order. Integer-like keys, which JavaScript would put first, are not modelled.
- Go works on bytes while the model works on characters. Multi-byte UTF-8 sequences are not modelled.
- The Go slice at xtn.go:366 panics when the last line of the input is shorter than the expected indentation and made only of indentation characters. The model makes the absence of that panic a precondition of `XtnGo.LoadSpec` and proves it holds for every input that ends in a line break.
- Go leaves the partly filled target behind when it returns an error. The model returns only the error.
- Python's `str.isspace` and the model's whitespace test differ on the separator characters `\x1c`-`\x1f`.
- JavaScript's `\s` and `trim` differ from the model's whitespace test on two characters: they leave out U+0085 and add U+FEFF.
- There is no general load-after-dump round trip. Round trips are proved for single comments, inline pairs and the old dialect's block lines.
- XtnPyLines: the Python key-line lemmas are not restated one by one. `KeyLinesAsTypeScript` shows that the Python loader gives the TypeScript result on every such line, so the `XtnTsLines` lemmas apply.
- XtnOld.Finish: in the old dialect, comments still buffered at the end of input are dropped, and an unclosed block is dropped too. This is what the source does.
- XtnOld.Dump: nested arrays written by the old dialect lose their structure when read back. No round trip is claimed for them.
- XtnOld.Dump: blocks are written with the corrected marker `XtnOld.Marker`, which follows the same length rule but is measured on runs of single quotes, with no cap, so it is longer than any run of quotes in the text. xtn.py:117-120 measures runs of backticks, capped at four (`XtnOld.MarkerAsWritten`). The two markers differ in length on text holding backticks or quotes.
- XtnTs.Step: the loader uses the corrected whitespace test and the own-key object set of "## Findings". Three kinds of line therefore read differently from `parser.ts` as written. A comment `# hello` reads as `hello` where the source keeps ` hello`. A tab inside a space-indented block body is "indentation must not be mixed" where the source reports "insufficient indentation". The key `constructor`, or any other name a JavaScript object inherits, is accepted as a new key where the source refuses it as repeated.
- XtnTs.StateSet: objects go through the own-key `XtnTs.ObjectSet`, so an inherited name such as `constructor` is accepted where parser.ts:236 refuses it (`XtnTs.ObjectSetAsWritten`).
- XtnTs.RecordComment: one whitespace character after the `#` run is dropped, where parser.ts:336-338 keeps it (`XtnTs.RecordCommentAsWritten`).
- XtnTs.MultilineLine: whitespace other than the indentation character inside the indentation is mixed indentation, where parser.ts:398 as written lets it through to "insufficient indentation" (`XtnTs.MixedStopAsWritten`).
- XtnTs.Run: folds the corrected `XtnTs.Step` and inherits its differences.
- XtnTs.LoadSpec: inherits the differences of `XtnTs.Step`.
- XtnTs.Load: proved equal to `XtnTs.LoadSpec`, so it inherits the same differences.
- XtnTsLines.MixedBlockIndent: states the corrected rule. As written, the same line gives "insufficient indentation" (`XtnTs.TabStopAsWritten`).
- XtnTsLines.InlineDump: stated for the corrected block test. Every text it covers is also written inline as written, but text that begins or ends with whitespace is inline as written and outside the lemma.
- XtnTs.Dump: writes with the corrected whitespace test. Text that begins or ends with whitespace is a block, where the source writes it inline. A comment line that begins with whitespace gets no space after `#`, where parser.ts:128 adds one. The source's `dump` also builds the text without returning it, so callers get `undefined`. The model returns the text.
- XtnGo.RecordComment: buffers the corrected `XtnGo.CommentOf`, so `##meta` has the value "" where xtn.go:567-572 keeps `meta` as the value too. `XtnGo.Step`, `XtnGo.LoadSpec` and `UnmarshalToMap` inherit this.
- XtnPy.RecordComment: buffers the corrected `XtnPy.CommentOf`, so a line of `#` alone is a blank comment where _xtn.py:244 raises `IndexError`. `XtnPy.LoadSpec` and `XtnPy.Load` inherit this.
- XtnOld.Step: the old dialect's `IndexError` after the root has been closed is given the code `EmptyStackIndexError`.
- The editor integration (`server.ts`, `extension.ts`) and the Go tests are not part of this model.

## Findings

| source | as written | input that shows it | evidently intended | confidence | as-written member | corrected member |
|---|---|---|---|---|---|---|
| xtn-vscode/server/src/parser.ts:236 | `name in this.current` also sees the names every JavaScript object inherits | the key `constructor` in a fresh object is reported as a repeated key | only keys actually set are repeated | not executed | XtnTs.InheritedKeyRefused | XtnTs.ObjectSet |
| xtn-vscode/server/src/parser.ts:88-91 | `isWhiteSpace` is false for every non-empty string | text ` a` is written inline and read back as `a` | test whether every character is whitespace, so that text with whitespace at either end is written as a block | not executed | XtnTs.LeadingSpaceInline | XtnTs.TextBlockIff |
| xtn-vscode/server/src/parser.ts:336-338 | `isWhiteSpace(value.substring(0, 1))` is false for a space | the line `# hello` reads as ` hello`, and dumping it writes `#  hello` | drop one space after the `#` run, as the dumper's `# ` separator expects | not executed | XtnTs.SpacedCommentKept | XtnTs.RecordComment |
| xtn-vscode/server/src/parser.ts:398 | `isWhiteSpace(prefix)` is false for the one-character prefix | a tab inside a space-indented block body is reported as insufficient indentation | mixed indentation, as the Go and Python loaders report it | not executed | XtnTs.TabStopAsWritten | XtnTsLines.MixedBlockIndent |
| xtnpy/xtn/_xtn.py:244 | `line[1]` on the comment line | a line holding only `#` raises IndexError | a blank comment | not executed | XtnPyLines.LoneHashRaises | XtnPy.CommentOf |
| xtngo/xtn.go:567-572 | a bare `##tag` keeps the tag as the value too | `##meta` gives value `meta` and prefix `meta` | an empty value with prefix `meta`, as the Python package reads it | not executed | XtnGo.BareTagAsWritten | XtnGo.BareTag |
| xtn.py:117-120 | the marker is sized from runs of backticks, capped at eight quotes | the text `''''` gets the marker `''''`, and its own line closes the block | a marker longer than any run of quotes in the text | not executed | XtnOldLines.QuoteLineClosesEarly | XtnOldLines.MarkerAbsent |
