/** The TypeScript implementation (xtn-vscode/server/src/parser.ts): line splitting,
    the `_load` state machine with its frames, the two `set` operations and `dump`.
    Lines are counted from 0 in errors. */
module XtnTs {
  import opened Xtn

  // ---------------------------------------------------------------------------
  // Whitespace tests as written

  /** `isWhiteSpace` returns false for every non-empty string before it looks at
      the characters, so it holds exactly for the empty string. */
  function IsWhiteSpace(str: string): (r: bool)
    ensures r <==> str == []
  {
    if |str| > 0 then false else TrimEnd(str) == []
  }

  /** What `isWhiteSpace` is evidently meant to test once its opening length check
      is removed: every character is whitespace, so the empty string passes as it
      does as written. The rest of this model uses this test. */
  function IsWhiteSpaceFixed(str: string): (r: bool)
    ensures r <==> AllSpace(str)
  {
    TrimEndEmptyIffAllSpace(str);
    TrimEnd(str) == []
  }

  predicate Non32Space(c: char) {
    IsSpace(c) && c != ' '
  }

  /** `hasNon32Whitespace`: some whitespace character other than U+0020 occurs. */
  function HasNon32Whitespace(str: string): (r: bool)
    ensures r <==> exists k :: 0 <= k < |str| && Non32Space(str[k])
  {
    if str == [] then false
    else if Non32Space(str[0]) then true
    else
      var r := HasNon32Whitespace(str[1..]);
      assert (exists k :: 0 <= k < |str| && Non32Space(str[k])) ==> r by {
        if exists k :: 0 <= k < |str| && Non32Space(str[k]) {
          var k :| 0 <= k < |str| && Non32Space(str[k]);
          assert str[1..][k - 1] == str[k];
        }
      }
      r
  }

  /** `trimLeadingSpaceOrTab`: strips leading spaces when `c` is a space and
      leading tabs otherwise. */
  function TrimLeadingSpaceOrTab(str: string, c: char): string {
    TrimLeftChar(str, IndentUnit(c))
  }

  /** The character `trimLeadingSpaceOrTab` strips: a space for a space, a tab for
      anything else. */
  function IndentUnit(c: char): char {
    if c == ' ' then ' ' else '\t'
  }

  // ---------------------------------------------------------------------------
  // Lines

  predicate IsBreak(c: char) {
    c == '\r' || c == '\n'
  }

  /** The length of the terminator a line ends with: `\r\n`, `\r`, `\n` or none. */
  function TerminatorLength(line: string): nat {
    if |line| >= 2 && line[|line| - 2] == '\r' && line[|line| - 1] == '\n' then 2
    else if line != [] && IsBreak(line[|line| - 1]) then 1
    else 0
  }

  /** A non-empty line whose only line-break characters form its terminator. */
  predicate WellFormedLine(line: string) {
    line != [] && TerminatorLength(line) <= |line|
    && forall k :: 0 <= k < |line| - TerminatorLength(line) ==> !IsBreak(line[k])
  }

  function FirstBreak(s: string): (k: nat)
    ensures k <= |s| && (k < |s| ==> IsBreak(s[k]))
    ensures forall j :: 0 <= j < k ==> !IsBreak(s[j])
  {
    if s == [] || IsBreak(s[0]) then 0
    else
      var k := FirstBreak(s[1..]);
      assert forall j :: 1 <= j < k + 1 ==> s[j] == s[1..][j - 1];
      k + 1
  }

  /** The length of the first line of a non-empty document: up to and including
      the first terminator, taking `\r\n` as one. */
  function FirstLineLength(d: string): (n: nat)
    requires d != []
    ensures 0 < n <= |d|
    ensures WellFormedLine(d[..n])
    ensures n < |d| ==> TerminatorLength(d[..n]) > 0
    ensures n < |d| && d[n - 1] == '\r' ==> d[n] != '\n'
  {
    var k := FirstBreak(d);
    if k == |d| then
      assert d[..k] == d;
      k
    else if d[k] == '\r' && k + 1 < |d| && d[k + 1] == '\n' then
      k + 2
    else
      k + 1
  }

  /** `breakIntoLines`: every match of `[^\r\n]*(?:\r\n|\r|\n|$)` except the final
      empty one. The lines concatenate back to the document and each is non-empty,
      with line breaks only in its terminator. */
  function BreakIntoLines(document: string): (lines: seq<string>)
    ensures Concat(lines) == document
    ensures forall j :: 0 <= j < |lines| ==> WellFormedLine(lines[j])
    decreases |document|
  {
    if document == [] then []
    else
      var n := FirstLineLength(document);
      var rest := BreakIntoLines(document[n..]);
      assert document == document[..n] + document[n..];
      var lines := [document[..n]] + rest;
      assert lines[1..] == rest;
      lines
  }

  /** Every line but the last ends with a terminator, and a `\r` terminator is
      never followed by a `\n` (the pair would have been one terminator). */
  predicate Chained(lines: seq<string>) {
    forall j :: 0 <= j < |lines| - 1 ==>
      TerminatorLength(lines[j]) > 0
      && (lines[j][|lines[j]| - 1] == '\r' ==> lines[j + 1] == [] || lines[j + 1][0] != '\n')
  }

  lemma ConcatHead(lines: seq<string>)
    requires lines != [] && lines[0] != []
    ensures Concat(lines) != [] && Concat(lines)[0] == lines[0][0]
  {
    assert Concat(lines) == lines[0] + Concat(lines[1..]);
  }

  /** The lines of a document are chained: no empty phantom line follows a final
      terminator and the split is the only one with these properties. */
  lemma {:induction false} BreakIntoLinesChained(document: string)
    ensures Chained(BreakIntoLines(document))
    decreases |document|
  {
    if document != [] {
      var n := FirstLineLength(document);
      var first := document[..n];
      var rest := BreakIntoLines(document[n..]);
      BreakIntoLinesChained(document[n..]);
      if rest != [] {
        ConcatHead(rest);
        assert rest[0][0] == document[n];
        assert first[n - 1] == document[n - 1];
      }
      ChainedCons(first, rest);
      assert BreakIntoLines(document) == [first] + rest;
    }
  }

  /** A terminated line in front of chained lines keeps them chained, unless its
      `\r` would pair with a leading `\n`. */
  lemma ChainedCons(first: string, rest: seq<string>)
    requires Chained(rest) && first != []
    requires rest != [] ==> TerminatorLength(first) > 0
    requires rest != [] && first[|first| - 1] == '\r' ==> rest[0] == [] || rest[0][0] != '\n'
    ensures Chained([first] + rest)
  {
    var lines := [first] + rest;
    forall j | 0 <= j < |lines| - 1
      ensures TerminatorLength(lines[j]) > 0
      ensures lines[j][|lines[j]| - 1] == '\r' ==> lines[j + 1] == [] || lines[j + 1][0] != '\n'
    {
      if j > 0 {
        assert lines[j] == rest[j - 1] && lines[j + 1] == rest[j];
      }
    }
  }

  /** `trimEndOfLine`: removes exactly the line's terminator, and nothing when it
      has none. */
  function TrimEndOfLine(line: string): (r: string)
    ensures |r| == |line| - TerminatorLength(line) && r == line[..|r|]
  {
    if EndsWith(line, "\r\n") then line[..|line| - 2]
    else
      var last := if line == [] then [] else line[|line| - 1..];
      if last == "\r" || last == "\n" then line[..|line| - 1] else line
  }

  /** A line from `BreakIntoLines` holds no line break once its terminator is gone. */
  lemma TrimmedLineHasNoBreak(line: string)
    requires WellFormedLine(line)
    ensures forall k :: 0 <= k < |TrimEndOfLine(line)| ==> !IsBreak(TrimEndOfLine(line)[k])
  {
  }

  // ---------------------------------------------------------------------------
  // Frames and `set`

  /** The value handed to `set`: a fresh object, a fresh array or a string. */
  datatype Raw = RawObject | RawArray | RawText(s: string)

  /** `_make_Xtn`: the node that wraps a value, without comments. */
  function MakeXtn(v: Raw): (n: Node)
    ensures ChildCount(n) == 0 && UniqueDeep(n)
    ensures n.Object? <==> v.RawObject?
    ensures n.Array? <==> v.RawArray?
    ensures v.RawText? ==> n == NewText(v.s, false, [])
    ensures n.above == [] && n.below == []
  {
    match v
    case RawObject => NewObject([])
    case RawArray => NewArray([])
    case RawText(s) => NewText(s, false, [])
  }

  /** The value conversion at the top of `set`: strings lose non-U+0020 whitespace
      unless the caller turns conversion off. */
  function ConvertValue(v: Raw, convertSpaces: bool): (r: Raw)
    ensures r.RawText? == v.RawText? && r.RawObject? == v.RawObject?
    ensures r.RawText? ==> |r.s| == |v.s|
    ensures !convertSpaces ==> r == v
  {
    if convertSpaces && v.RawText? then RawText(ConvertSpaces(v.s, false)) else v
  }

  /** `_ObjectState.set` with an own-key test: a key whose normalised form is
      present is refused, any other is added as exactly one new member at the end.
      The members and comments already there are untouched. */
  function ObjectSet(target: Node, name: string, value: Raw, convertSpaces: bool, i: int): (r: Result<Node>)
    requires target.Object?
    ensures r.Err? <==> HasKey(target.entries, CollapseSpaces(name))
    ensures r.Err? ==> r.error == ParseError(ObjectKeysCannotBeRepeated, i)
    ensures r.Ok? ==> (r.value.Object?
      && r.value.entries == target.entries + [Entry(CollapseSpaces(name), MakeXtn(ConvertValue(value, convertSpaces)))]
      && r.value.above == target.above && r.value.innerBottom == target.innerBottom)
    ensures r.Ok? && UniqueDeep(target) ==> UniqueDeep(r.value) && UniqueKeys(r.value.entries)
  {
    var key := ConvertSpaces(name, true);
    var v := ConvertValue(value, convertSpaces);
    if HasKey(target.entries, key) then Err(ParseError(ObjectKeysCannotBeRepeated, i))
    else Ok(AppendEntry(target, key, MakeXtn(v)))
  }

  /** The names JavaScript objects inherit from `Object.prototype`. */
  predicate InheritedName(name: string) {
    name in {"constructor", "hasOwnProperty", "isPrototypeOf", "propertyIsEnumerable",
             "toLocaleString", "toString", "valueOf", "__proto__", "__defineGetter__",
             "__defineSetter__", "__lookupGetter__", "__lookupSetter__"}
  }

  /** `_ObjectState.set` exactly as written: `name in this.current` also finds the
      names every plain object inherits, so such a key is reported as repeated
      even in an empty object. */
  function ObjectSetAsWritten(target: Node, name: string, value: Raw, convertSpaces: bool, i: int): (r: Result<Node>)
    requires target.Object?
    ensures r.Err? <==> HasKey(target.entries, CollapseSpaces(name)) || InheritedName(CollapseSpaces(name))
    ensures !InheritedName(CollapseSpaces(name)) ==> r == ObjectSet(target, name, value, convertSpaces, i)
  {
    var key := ConvertSpaces(name, true);
    var v := ConvertValue(value, convertSpaces);
    if HasKey(target.entries, key) || InheritedName(key) then Err(ParseError(ObjectKeysCannotBeRepeated, i))
    else Ok(AppendEntry(target, key, MakeXtn(v)))
  }

  /** A key `constructor` in an empty object is refused as written and accepted
      once only own keys are tested. */
  lemma InheritedKeyRefused()
    ensures ObjectSetAsWritten(NewObject([]), "constructor", RawText("x"), true, 0)
      == Err(ParseError(ObjectKeysCannotBeRepeated, 0))
    ensures ObjectSet(NewObject([]), "constructor", RawText("x"), true, 0).Ok?
  {
    assert CollapseSpaces("constructor") == "constructor" by {
      assert forall k :: 0 <= k < |"constructor"| ==> !IsSpace("constructor"[k]);
      CollapseNormal("constructor");
    }
  }

  /** `_ArrayState.set`: only the normalised name `+` is accepted; a name that
      starts with `+` is a named element, any other lacks the plus. On success
      exactly one element is appended at the end. */
  function ArraySet(target: Node, name: string, value: Raw, convertSpaces: bool, i: int): (r: Result<Node>)
    requires target.Array?
    ensures r.Ok? <==> CollapseSpaces(name) == "+"
    ensures r.Err? && StartsWith(CollapseSpaces(name), "+") ==> r.error == ParseError(ArrayElementMustNotHaveAKey, i)
    ensures r.Err? && !StartsWith(CollapseSpaces(name), "+") ==> r.error == ParseError(ArrayElementMustStartWithPlus, i)
    ensures r.Ok? ==> (r.value.Array?
      && r.value.elements == target.elements + [MakeXtn(ConvertValue(value, convertSpaces))]
      && r.value.above == target.above && r.value.innerBottom == target.innerBottom)
    ensures r.Ok? && UniqueDeep(target) ==> UniqueDeep(r.value)
  {
    var key := ConvertSpaces(name, true);
    var v := ConvertValue(value, convertSpaces);
    if key != "+" then
      if StartsWith(key, "+") then Err(ParseError(ArrayElementMustNotHaveAKey, i))
      else Err(ParseError(ArrayElementMustStartWithPlus, i))
    else Ok(AppendElement(target, MakeXtn(v)))
  }

  /** The frames of the parse stack. A container frame holds the node it fills;
      the parent holds the same node in its last slot, and that slot is rewritten
      with the finished node when the frame is popped. A multiline frame collects
      the text of a block. Column positions are not modelled. */
  datatype Frame =
    | ObjectState(startLine: int, target: Node, inArray: bool)
    | ArrayState(startLine: int, target: Node)
    | MultilineState(startLine: int, name: string, indent: string, indentChar: char,
                     expIndent: Option<string>, text: string)

  /** The `_load` locals that survive a line: the stack and the comment buffer. */
  datatype LoadState = LoadState(stack: seq<Frame>, comments: seq<Comment>)

  predicate FrameOk(f: Frame) {
    (f.ObjectState? ==> f.target.Object? && UniqueDeep(f.target))
    && (f.ArrayState? ==> f.target.Array? && UniqueDeep(f.target))
  }

  /** The shape `_load` keeps: the root object frame at the bottom, a multiline
      frame only on top, every open container sitting in the last slot of the frame
      below it, and no repeated key in any node under construction. */
  predicate Valid(st: LoadState) {
    var s := st.stack;
    |s| >= 1 && s[0].ObjectState?
    && (forall k :: 0 <= k < |s| ==> FrameOk(s[k]))
    && (forall k :: 0 <= k < |s| - 1 ==>
          !s[k].MultilineState? && (!s[k + 1].MultilineState? ==> ChildCount(s[k].target) > 0))
  }

  function Initial(): (st: LoadState)
    ensures Valid(st)
  {
    LoadState([ObjectState(-1, NewObject([]), false)], [])
  }

  function Top(st: LoadState): Frame
    requires |st.stack| > 0
  {
    st.stack[|st.stack| - 1]
  }

  function Pop(s: seq<Frame>): seq<Frame>
    requires |s| > 0
  {
    s[..|s| - 1]
  }

  /** A container frame with its node replaced. */
  function WithTarget(f: Frame, t: Node): (g: Frame)
    requires !f.MultilineState?
    ensures !g.MultilineState? && g.target == t && g.startLine == f.startLine
    ensures g.ObjectState? == f.ObjectState?
  {
    if f.ObjectState? then ObjectState(f.startLine, t, f.inArray) else ArrayState(f.startLine, t)
  }

  /** `state.set(...)` on a container frame. */
  function StateSet(f: Frame, name: string, value: Raw, convertSpaces: bool, i: int): (r: Result<Frame>)
    requires FrameOk(f) && !f.MultilineState?
    ensures r.Ok? ==> (FrameOk(r.value) && !r.value.MultilineState?
      && r.value == WithTarget(f, r.value.target)
      && ChildCount(r.value.target) > 0
      && LastChild(r.value.target) == MakeXtn(ConvertValue(value, convertSpaces)))
  {
    if f.ObjectState? then
      match ObjectSet(f.target, name, value, convertSpaces, i)
      case Err(e) => Err(e)
      case Ok(t) => Ok(WithTarget(f, t))
    else
      match ArraySet(f.target, name, value, convertSpaces, i)
      case Err(e) => Err(e)
      case Ok(t) => Ok(WithTarget(f, t))
  }

  /** `substring(1)`: all but the first character; the empty string stays empty. */
  function Substring1(s: string): string {
    if s == [] then s else s[1..]
  }

  /** `record_comment`, with the whitespace test fixed: an empty line is a blank
      comment; otherwise the leading `#` run goes, all but one of those `#` become
      the prefix, one whitespace character after them is dropped, and text made of
      whitespace only is a blank comment. */
  function RecordComment(line: string): (c: Comment)
    requires line == [] || line[0] == '#'
    ensures line == [] ==> c == BlankComment
    ensures line != [] ==>
      var v := TrimLeftChar(line, '#');
      var text := if v != [] && IsSpace(v[0]) then v[1..] else v;
      c == if AllSpace(text) then BlankComment else Comment(text, Repeat('#', |line| - |v| - 1))
  {
    if line == [] then BlankComment
    else
      var value := TrimLeftChar(line, '#');
      assert |value| < |line|;
      FixedCommentText(value, Repeat('#', |line| - |value| - 1))
  }

  /** The comment `record_comment` makes of the text after the `#` run, with the
      fixed test: one leading whitespace character is dropped, and whitespace
      alone is a blank comment. */
  function FixedCommentText(value: string, prefix: string): (c: Comment)
    ensures var text := if value != [] && IsSpace(value[0]) then value[1..] else value;
      c == if AllSpace(text) then BlankComment else Comment(text, prefix)
  {
    var head := if value == [] then [] else value[..1];
    assert value != [] ==> (IsWhiteSpaceFixed(head) <==> IsSpace(value[0])) by {
      if value != [] { OneCharWhiteSpace(head); }
    }
    var value' := if IsWhiteSpaceFixed(head) then Substring1(value) else value;
    if IsWhiteSpaceFixed(value') then BlankComment else Comment(value', prefix)
  }

  /** `record_comment` exactly as written: since `isWhiteSpace` holds only for the
      empty string, no whitespace is dropped after the `#` run, and only a line of
      `#` alone is a blank comment. */
  function RecordCommentAsWritten(line: string): (c: Comment)
    requires line == [] || line[0] == '#'
    ensures line == [] ==> c == BlankComment
    ensures line != [] ==>
      var v := TrimLeftChar(line, '#');
      c == if v == [] then BlankComment else Comment(v, Repeat('#', |line| - |v| - 1))
  {
    if line == [] then BlankComment
    else
      var value := TrimLeftChar(line, '#');
      assert |value| < |line|;
      var prefix := Repeat('#', |line| - |value| - 1);
      var head := if value == [] then [] else value[..1];
      var value' := if IsWhiteSpace(head) then Substring1(value) else value;
      if IsWhiteSpace(value') then BlankComment else Comment(value', prefix)
  }

  /** The line `# hello` keeps its space as written, and loses it with the fixed
      test, as the dumper's `# ` separator intends. */
  lemma SpacedCommentKept()
    ensures RecordCommentAsWritten("# hello") == Comment(" hello", "")
    ensures RecordComment("# hello") == Comment("hello", "")
  {
    var v := TrimLeftChar("# hello", '#');
    assert "# hello" == "#" + " hello";
    assert v == " hello";
    assert v[1..] == "hello";
    assert !IsSpace(v[1..][0]);
  }

  /** A comment or blank line goes to the buffer. */
  function AddComment(st: LoadState, line: string): (r: LoadState)
    requires Valid(st) && (line == [] || line[0] == '#')
    ensures Valid(r) && r.stack == st.stack
  {
    st.(comments := st.comments + [RecordComment(line)])
  }

  /** `attach_comments`: a non-empty buffer becomes the node's `comments` and is
      emptied. */
  function AttachComments(n: Node, comments: seq<Comment>): (r: (Node, seq<Comment>))
    ensures r.1 == [] && (comments != [] ==> r.0 == n.(above := comments))
    ensures comments == [] ==> r.0 == n
  {
    if |comments| > 0 then (n.(above := comments), []) else (n, comments)
  }

  /** `attach_trailing_comments`: a non-empty buffer becomes the node's
      `trail_comments` and is emptied. */
  function AttachTrailingComments(n: Node, comments: seq<Comment>): (r: (Node, seq<Comment>))
    requires IsContainer(n)
    ensures r.1 == [] && (comments != [] ==> r.0 == n.(innerBottom := comments))
    ensures comments == [] ==> r.0 == n
    ensures UniqueDeep(n) ==> UniqueDeep(r.0)
  {
    if |comments| > 0 then (n.(innerBottom := comments), []) else (n, comments)
  }

  // ---------------------------------------------------------------------------
  // One line of `_load`

  function Step(st: LoadState, i: int, origLine: string): (r: Result<LoadState>)
    requires Valid(st)
    ensures r.Ok? ==> Valid(r.value)
  {
    if Top(st).MultilineState? then MultilineLine(st, i, origLine)
    else StructuralLine(st, i, origLine)
  }

  /** The expected indentation of a block, fixed by its first body line: the key
      indentation plus one tab or four spaces; with no key indentation a tab when
      the first body line starts with one, four spaces otherwise. */
  function WithExpectedIndent(f: Frame, line: string): (g: Frame)
    requires f.MultilineState?
    ensures g.MultilineState? && g.expIndent.Some?
    ensures g == f.(indentChar := g.indentChar, expIndent := g.expIndent)
  {
    if f.expIndent.Some? then f
    else if |f.indent| > 0 then
      var c := f.indent[0];
      f.(indentChar := c, expIndent := Some(f.indent + Repeat(c, if c == '\t' then 1 else 4)))
    else if |line| > 0 && line[0] == '\t' then
      f.(expIndent := Some("\t"), indentChar := '\t')
    else
      f.(expIndent := Some("    "), indentChar := ' ')
  }

  /** The indentation a block line actually has: the run of the block's indent
      character at its start, looking no further than the expected width. */
  function ActualIndent(line: string, expLen: nat, c: char): (n: nat)
    ensures n <= expLen && n <= |line|
    ensures forall k :: 0 <= k < n ==> line[k] == IndentUnit(c)
    ensures n < expLen && n < |line| ==> line[n] != IndentUnit(c)
  {
    var head := line[..if expLen < |line| then expLen else |line|];
    |head| - |TrimLeadingSpaceOrTab(head, c)|
  }

  /** The character just after the actual indentation, if within the expected width. */
  function IndentStop(line: string, expLen: nat, c: char): (p: string)
    ensures var n := ActualIndent(line, expLen, c);
      p == if n < expLen && n < |line| then [line[n]] else []
  {
    var head := line[..if expLen < |line| then expLen else |line|];
    var a := ActualIndent(line, expLen, c);
    head[a..if a + 1 < |head| then a + 1 else |head|]
  }

  predicate IsCloseMarker(s: string) {
    StartsWith(s, "----") && TrimEnd(s[4..]) == []
  }

  /** The mixed-indentation test on the character after a short indentation, with
      the whitespace test fixed: whitespace other than a line break, or the end of
      an unterminated line. */
  function MixedStop(prefix: string): (r: bool)
    ensures r <==> AllSpace(prefix) && prefix != "\n" && prefix != "\r"
  {
    IsWhiteSpaceFixed(prefix) && prefix != "\n" && prefix != "\r"
  }

  /** The same test as written: it holds only at the end of an unterminated line. */
  function MixedStopAsWritten(prefix: string): (r: bool)
    ensures r <==> prefix == []
  {
    IsWhiteSpace(prefix) && prefix != "\n" && prefix != "\r"
  }

  /** A tab where spaces are expected is not mixed indentation as written (the line
      is then refused as insufficiently indented); with the fixed test it is. */
  lemma TabStopAsWritten()
    ensures !MixedStopAsWritten("\t") && MixedStop("\t")
  {
    assert IsSpace("\t"[0]);
  }

  function MultilineLine(st: LoadState, i: int, line: string): (r: Result<LoadState>)
    requires Valid(st) && Top(st).MultilineState?
    ensures r.Ok? ==> Valid(r.value)
  {
    var f := WithExpectedIndent(Top(st), line);
    var expLen := |f.expIndent.value|;
    var actLen := ActualIndent(line, expLen, f.indentChar);
    var prefix := IndentStop(line, expLen, f.indentChar);
    if actLen < expLen && MixedStop(prefix) then
      Err(ParseError(IndentationMustNotBeMixed, i))
    else
      var rest := line[actLen..];
      if actLen < expLen && IsCloseMarker(rest) then
        if actLen == |f.indent| then CloseMultiline(st, f, i)
        else Err(ParseError(IncorrectIndentation, i))
      else if actLen < expLen && prefix != "\n" && prefix != "\r" then
        Err(ParseError(InsufficientIndentation, i))
      else
        Ok(st.(stack := Pop(st.stack) + [f.(text := f.text + rest)]))
  }

  /** Closing a block: the parent stores the text without its final terminator and
      without whitespace conversion, the node is marked `force_multiline`, takes the
      buffered comments, and the block frame goes. */
  function CloseMultiline(st: LoadState, f: Frame, i: int): (r: Result<LoadState>)
    requires Valid(st) && Top(st).MultilineState? && f.MultilineState?
    ensures r.Ok? ==> (Valid(r.value) && r.value.comments == []
      && |r.value.stack| == |st.stack| - 1
      && r.value.stack[..|st.stack| - 2] == st.stack[..|st.stack| - 2])
  {
    var below := Pop(st.stack);
    var parent := below[|below| - 1];
    assert parent == st.stack[|st.stack| - 2] && FrameOk(parent);
    match StateSet(parent, f.name, RawText(TrimEndOfLine(f.text)), false, i)
    case Err(e) => Err(e)
    case Ok(p1) =>
      var child := LastChild(p1.target).(forceMultiline := true);
      var a := AttachComments(child, st.comments);
      var g := WithTarget(p1, SetLastChild(p1.target, a.0));
      assert FrameOk(g);
      assert Pop(below) == st.stack[..|st.stack| - 2];
      PopValid(st, g, a.1);
      Ok(LoadState(Pop(below) + [g], a.1))
  }

  function StructuralLine(st: LoadState, i: int, origLine: string): (r: Result<LoadState>)
    requires Valid(st) && !Top(st).MultilineState?
    ensures r.Ok? ==> Valid(r.value)
  {
    var line := Trim(origLine);
    if StartsWith(line, "#") || line == [] then
      assert line != [] ==> line[0] == line[..1][0];
      Ok(AddComment(st, line))
    else
      var p := Partition(line, ":");
      var left := TrimEnd(p.left);
      var right := TrimStart(p.right);
      ColonSplit(line);
      if p.sep == ":" then
        KeyLine(st, i, origLine, left, right)
      else
        OtherLine(st, i, left)
  }

  /** A line with a colon: `key{}:`, `key[]:`, `key'':` or `key: value`. */
  function KeyLine(st: LoadState, i: int, origLine: string, left: string, right: string): (r: Result<LoadState>)
    requires Valid(st) && !Top(st).MultilineState?
    requires Trim(origLine) != [] && (left != [] ==> left[0] == Trim(origLine)[0])
    ensures r.Ok? ==> Valid(r.value)
  {
    var state := Top(st);
    if left == [] then Err(ParseError(LineMustNotStartWithColon, i))
    else if StartsWith(left, "+") && state.ObjectState? then
      Err(ParseError(PlusEncounteredOutsideArray, i))
    else if EndsWith(left, "{}") then
      if right != [] then Err(ParseError(ObjectMustBeOnNewLine, i))
      else OpenContainer(st, i, TrimEnd(left[..|left| - 2]), RawObject)
    else if EndsWith(left, "[]") then
      if right != [] then Err(ParseError(ArrayMustBeOnNewLine, i))
      else OpenContainer(st, i, TrimEnd(left[..|left| - 2]), RawArray)
    else if EndsWith(left, "''") then
      KeyIndent(origLine);
      var indent := origLine[..IndexOf(origLine, [left[0]])];
      OpenMultiline(st, i, indent, TrimEnd(left[..|left| - 2]), right)
    else
      SetText(st, i, left, right)
  }

  /** A line without a colon: a close marker, or an error. */
  function OtherLine(st: LoadState, i: int, left: string): (r: Result<LoadState>)
    requires Valid(st) && !Top(st).MultilineState? && left != []
    ensures r.Ok? ==> Valid(r.value)
  {
    if IsCloseMarker(left) then
      CloseFrame(st, i)
    else if Top(st).ArrayState? then
      if left[0] == '+' then Err(ParseError(MissingColon, i))
      else Err(ParseError(ArrayElementMustStartWithPlus, i))
    else
      Err(ParseError(MissingColon, i))
  }

  /** `key{}:` / `key[]:`: the new container goes into the current frame under the
      key, takes the buffered comments and becomes the top frame. */
  function OpenContainer(st: LoadState, i: int, name: string, value: Raw): (r: Result<LoadState>)
    requires Valid(st) && !Top(st).MultilineState? && !value.RawText?
    ensures r.Ok? ==> Valid(r.value)
  {
    var state := Top(st);
    match StateSet(state, name, value, true, i)
    case Err(e) => Err(e)
    case Ok(s1) =>
      var a := AttachComments(LastChild(s1.target), st.comments);
      var parent := WithTarget(s1, SetLastChild(s1.target, a.0));
      var child := if value.RawObject? then ObjectState(i, a.0, state.ArrayState?) else ArrayState(i, a.0);
      assert UniqueDeep(a.0) && FrameOk(child) && FrameOk(parent);
      PushContainerOk(st, parent, child, a.1);
      Ok(LoadState(Pop(st.stack) + [parent, child], a.1))
  }

  /** A container frame pushed over a parent of the top frame's kind that holds
      a member keeps the stack valid. */
  lemma PushContainerOk(st: LoadState, parent: Frame, child: Frame, comments: seq<Comment>)
    requires Valid(st) && !Top(st).MultilineState?
    requires FrameOk(parent) && FrameOk(child) && !parent.MultilineState? && !child.MultilineState?
    requires parent.ObjectState? == Top(st).ObjectState? && ChildCount(parent.target) > 0
    ensures Valid(LoadState(Pop(st.stack) + [parent, child], comments))
  {
    var r := Pop(st.stack) + [parent, child];
    forall k | 0 <= k < |r| - 2 ensures r[k] == st.stack[k] {
      assert r[k] == Pop(st.stack)[k];
    }
  }

  /** `key'':`: the key line's indentation must be all spaces or all tabs, nothing
      may follow the colon, and a block frame is pushed. The key is only checked
      when the block closes. */
  function OpenMultiline(st: LoadState, i: int, indent: string, name: string, right: string): (r: Result<LoadState>)
    requires Valid(st) && !Top(st).MultilineState?
    ensures r.Ok? <==> BlockIndent(indent) && right == []
    ensures r.Err? && indent != [] && indent[0] != ' ' && indent[0] != '\t' ==>
      r.error == ParseError(IndentationMustBeSpaceOrTab, i)
    ensures r.Err? && indent != [] && (indent[0] == ' ' || indent[0] == '\t') && !BlockIndent(indent) ==>
      r.error == ParseError(IndentationMustNotBeMixed, i)
    ensures r.Err? && BlockIndent(indent) ==> r.error == ParseError(MultilineMustBeOnNewLine, i)
    ensures r.Ok? ==> (r.value.stack == st.stack + [MultilineState(i, name, indent, ' ', None, [])]
      && r.value.comments == st.comments && Valid(r.value))
  {
    if |indent| > 0 && indent[0] != ' ' && indent[0] != '\t' then
      Err(ParseError(IndentationMustBeSpaceOrTab, i))
    else if |indent| > 0 && TrimLeadingSpaceOrTab(indent, indent[0]) != [] then
      Err(ParseError(IndentationMustNotBeMixed, i))
    else if right != [] then
      Err(ParseError(MultilineMustBeOnNewLine, i))
    else
      Ok(st.(stack := st.stack + [MultilineState(i, name, indent, ' ', None, [])]))
  }

  /** `key: value`: the text goes into the current frame and takes the buffered
      comments. */
  function SetText(st: LoadState, i: int, left: string, right: string): (r: Result<LoadState>)
    requires Valid(st) && !Top(st).MultilineState?
    ensures r.Ok? ==> Valid(r.value)
  {
    match StateSet(Top(st), left, RawText(right), true, i)
    case Err(e) => Err(e)
    case Ok(s1) =>
      var a := AttachComments(LastChild(s1.target), st.comments);
      Ok(LoadState(Pop(st.stack) + [WithTarget(s1, SetLastChild(s1.target, a.0))], a.1))
  }

  /** `----`: the buffered comments trail the current container, its frame goes,
      and the finished node is written into the parent's slot. */
  function CloseFrame(st: LoadState, i: int): (r: Result<LoadState>)
    requires Valid(st) && !Top(st).MultilineState?
    ensures r.Err? <==> |st.stack| == 1
    ensures r.Err? ==> r.error == ParseError(UnmatchedCloseMarker, i)
    ensures r.Ok? ==> (Valid(r.value) && r.value.comments == []
      && |r.value.stack| == |st.stack| - 1
      && r.value.stack[..|st.stack| - 2] == st.stack[..|st.stack| - 2]
      && Top(r.value) == WithTarget(st.stack[|st.stack| - 2],
           SetLastChild(st.stack[|st.stack| - 2].target,
             if st.comments == [] then Top(st).target else Top(st).target.(innerBottom := st.comments))))
  {
    var top := Top(st);
    assert FrameOk(top);
    var a := AttachTrailingComments(top.target, st.comments);
    var below := Pop(st.stack);
    if below == [] then Err(ParseError(UnmatchedCloseMarker, i))
    else
      var parent := below[|below| - 1];
      assert parent == st.stack[|st.stack| - 2] && FrameOk(parent);
      assert Pop(below) == st.stack[..|st.stack| - 2];
      var g := WithTarget(parent, SetLastChild(parent.target, a.0));
      assert FrameOk(g);
      PopValid(st, g, a.1);
      Ok(LoadState(Pop(below) + [g], a.1))
  }

  /** Replacing the top two frames by a container frame of the lower one's kind
      keeps the stack valid. */
  lemma PopValid(st: LoadState, g: Frame, comments: seq<Comment>)
    requires Valid(st) && |st.stack| >= 2
    requires FrameOk(g) && !g.MultilineState?
    requires g.ObjectState? == st.stack[|st.stack| - 2].ObjectState?
    ensures Valid(LoadState(st.stack[..|st.stack| - 2] + [g], comments))
  {
    var s := st.stack[..|st.stack| - 2] + [g];
    assert forall k :: 0 <= k < |s| - 1 ==> s[k] == st.stack[k];
  }

  // ---------------------------------------------------------------------------
  // The whole document

  /** The lines from index `i` on, one `Step` each, stopping at the first error. */
  function Run(st: LoadState, lines: seq<string>, i: int): (r: Result<LoadState>)
    requires Valid(st)
    ensures r.Ok? ==> Valid(r.value)
    decreases |lines|
  {
    if lines == [] then Ok(st)
    else
      match Step(st, i, lines[0])
      case Err(e) => Err(e)
      case Ok(s1) => Run(s1, lines[1..], i + 1)
  }

  /** After the last line: any frame left above the root is a missing close
      marker, reported at the index one past the last line. */
  function Finish(st: LoadState, n: int): (r: Result<Node>)
    requires Valid(st)
    ensures r.Err? <==> |st.stack| > 1
    ensures r.Err? ==> r.error == ParseError(MissingCloseMarker, n)
    ensures r.Ok? ==> r.value == st.stack[0].target
  {
    if |st.stack| > 1 then Err(ParseError(MissingCloseMarker, n)) else Ok(st.stack[0].target)
  }

  /** `XtnObject.load`: the tree of a document, or the first error. No object in
      the tree holds a key twice. */
  function LoadSpec(document: string): (r: Result<Node>)
    ensures r.Ok? ==> r.value.Object? && UniqueDeep(r.value)
  {
    var lines := BreakIntoLines(document);
    match Run(Initial(), lines, 0)
    case Err(e) => Err(e)
    case Ok(st) => Finish(st, |lines|)
  }

  /** `_load`: the loop over the lines with the stack and the comment buffer. */
  method Load(document: string) returns (r: Result<Node>)
    ensures r == LoadSpec(document)
    ensures r.Ok? ==> r.value.Object? && UniqueDeep(r.value)
  {
    var lines := BreakIntoLines(document);
    var st := Initial();
    var i := 0;
    while i < |lines|
      invariant 0 <= i <= |lines|
      invariant Valid(st)
      invariant Run(Initial(), lines, 0) == Run(st, lines[i..], i)
    {
      assert lines[i..][0] == lines[i] && lines[i..][1..] == lines[i + 1..];
      var next := Step(st, i, lines[i]);
      if next.Err? {
        return Err(next.error);
      }
      st := next.value;
      i := i + 1;
    }
    assert lines[i..] == [];
    r := Finish(st, i);
  }

  // ---------------------------------------------------------------------------
  // `XtnObject.dump`

  /** `value.split(/\r?\n/)`: the pieces between line feeds, a `\r` just before a
      line feed dropped with it; never empty. */
  function SplitCrLf(s: string): (r: seq<string>)
    ensures |r| >= 1
    ensures |r| > 1 <==> exists k :: 0 <= k < |s| && s[k] == '\n'
    decreases |s|
  {
    var k := IndexOf(s, "\n");
    if k < 0 then
      assert forall j :: 0 <= j < |s| ==> s[j] != '\n' by {
        forall j | 0 <= j < |s| ensures s[j] != '\n' {
          assert !OccursAt(s, "\n", j);
          assert s[j..j + 1] == [s[j]];
        }
      }
      [s]
    else
      assert s[k..k + 1] == "\n" && s[k] == '\n';
      var piece := if k > 0 && s[k - 1] == '\r' then s[..k - 1] else s[..k];
      [piece] + SplitCrLf(s[k + 1..])
  }

  /** `write(...)`: the parts followed by a line feed. */
  function WriteLine(s: string): string {
    s + "\n"
  }

  function CommentLines(lines: seq<string>, prefix: string, indent: string): string {
    if lines == [] then []
    else
      var line := TrimEnd(lines[0]);
      (if |line| == 0 then WriteLine("")
       else WriteLine(indent + "#" + prefix + (if IsWhiteSpaceFixed(line[..1]) then "" else " ") + line))
      + CommentLines(lines[1..], prefix, indent)
  }

  /** `write_comment`: one output line per line of the comment, blank lines for
      empty ones. */
  function DumpComment(c: Comment, indent: string): string {
    CommentLines(SplitCrLf(c.value), c.prefix, indent)
  }

  function DumpComments(cs: seq<Comment>, indent: string): string {
    if cs == [] then [] else DumpComment(cs[0], indent) + DumpComments(cs[1..], indent)
  }

  /** The lines of a text value in block form. */
  function TextLines(value: string): seq<string> {
    if |value| == 0 then [] else SplitCrLf(value)
  }

  /** The block-form test of `write_pair` with the whitespace test fixed. */
  function TextUsesBlock(value: string, force: bool): bool {
    force || |TextLines(value)| > 1
    || IsWhiteSpaceFixed(if value == [] then [] else value[..1])
    || IsWhiteSpaceFixed(if value == [] then [] else value[|value| - 1..])
    || HasNon32Whitespace(value)
  }

  /** The block-form test exactly as written. */
  function TextUsesBlockAsWritten(value: string, force: bool): bool {
    force || |TextLines(value)| > 1
    || IsWhiteSpace(if value == [] then [] else value[..1])
    || IsWhiteSpace(if value == [] then [] else value[|value| - 1..])
    || HasNon32Whitespace(value)
  }

  /** A text is written as a block exactly when it is forced, empty, starts or ends with
      whitespace, or holds whitespace other than U+0020 (a line break is such
      whitespace, so several lines need no separate case). */
  lemma TextBlockIff(value: string, force: bool)
    ensures TextUsesBlock(value, force) <==>
      force || value == [] || IsSpace(value[0]) || IsSpace(value[|value| - 1]) || HasNon32Whitespace(value)
  {
    TextLinesBreak(value);
    if value != [] {
      OneCharWhiteSpace(value[..1]);
      OneCharWhiteSpace(value[|value| - 1..]);
    }
  }

  lemma OneCharWhiteSpace(s: string)
    requires |s| == 1
    ensures IsWhiteSpaceFixed(s) <==> IsSpace(s[0])
  {
  }

  /** Text with several lines holds a line feed, which is whitespace other than
      U+0020. */
  lemma TextLinesBreak(value: string)
    ensures |TextLines(value)| > 1 ==> HasNon32Whitespace(value)
  {
    if |TextLines(value)| > 1 {
      var k :| 0 <= k < |value| && value[k] == '\n';
      assert Non32Space(value[k]);
    }
  }

  /** As written, the test holds exactly when the text is forced, empty or holds
      whitespace other than U+0020: a leading or trailing plain space stays inline. */
  lemma TextBlockIffAsWritten(value: string, force: bool)
    ensures TextUsesBlockAsWritten(value, force) <==> force || value == [] || HasNon32Whitespace(value)
  {
    TextLinesBreak(value);
  }

  /** The text ` a` is written inline as written, so the space is lost when the
      line is trimmed on reading; with the fixed test it is written as a block. */
  lemma LeadingSpaceInline()
    ensures !TextUsesBlockAsWritten(" a", false)
    ensures TextUsesBlock(" a", false)
  {
    TextBlockIffAsWritten(" a", false);
    TextBlockIff(" a", false);
    assert !Non32Space(" a"[0]) && !Non32Space(" a"[1]);
  }

  /** `write_pair`: the node's comments, then the node; containers open with
      `name{}:` / `name[]:`, list their children four spaces deeper followed by
      their trailing comments, and close with `----` at their own indentation. */
  function DumpPair(name: string, n: Node, indent: string): string
    decreases n
  {
    var inner := indent + "    ";
    DumpComments(n.above, indent) +
    match n
    case Array(els, _, _, trail, _) =>
      WriteLine(indent + name + "[]:") + DumpElements(els, inner) + DumpComments(trail, inner)
      + WriteLine(indent + "----")
    case Object(es, _, _, trail, _) =>
      WriteLine(indent + name + "{}:") + DumpEntries(es, inner) + DumpComments(trail, inner)
      + WriteLine(indent + "----")
    case Text(value, force, _, _) =>
      if TextUsesBlock(value, force) then
        WriteLine(indent + name + "'':") + BlockLines(TextLines(value), inner) + WriteLine(indent + "----")
      else
        WriteLine(indent + name + ": " + value)
  }

  function BlockLines(lines: seq<string>, indent: string): string {
    if lines == [] then [] else WriteLine(indent + lines[0]) + BlockLines(lines[1..], indent)
  }

  function DumpElements(els: seq<Node>, indent: string): string
    decreases els
  {
    if els == [] then [] else DumpPair("+", els[0], indent) + DumpElements(els[1..], indent)
  }

  function DumpEntries(es: seq<Entry>, indent: string): string
    decreases es
  {
    if es == [] then [] else DumpPair(es[0].key, es[0].value, indent) + DumpEntries(es[1..], indent)
  }

  lemma {:induction false} DumpEntriesAppend(es: seq<Entry>, e: Entry, indent: string)
    ensures DumpEntries(es + [e], indent) == DumpEntries(es, indent) + DumpPair(e.key, e.value, indent)
  {
    if es == [] {
      assert [e][1..] == [];
    } else {
      assert (es + [e])[1..] == es[1..] + [e];
      DumpEntriesAppend(es[1..], e, indent);
    }
  }

  /** The text `dump` accumulates: the root's comments, its members in order at
      indentation zero, then its trailing comments. */
  function DumpText(root: Node): string
    requires root.Object?
  {
    DumpComments(root.above, "") + DumpEntries(root.entries, "") + DumpComments(root.innerBottom, "")
  }

  /** Writing the first `j + 1` members gives the text of the first `j` followed
      by the text of member `j`: the step the member loop of `dump` takes. */
  lemma DumpEntriesPrefix(es: seq<Entry>, j: nat, indent: string)
    requires j < |es|
    ensures DumpEntries(es[..j + 1], indent) == DumpEntries(es[..j], indent) + DumpPair(es[j].key, es[j].value, indent)
  {
    assert es[..j + 1] == es[..j] + [es[j]];
    DumpEntriesAppend(es[..j], es[j], indent);
  }

  /** `XtnObject.dump`: the root's comments, the loop over its members, then its
      trailing comments. */
  method Dump(root: Node) returns (output: string)
    requires root.Object?
    ensures output == DumpText(root)
  {
    var es := root.entries;
    var members := "";
    var j := 0;
    while j < |es|
      invariant 0 <= j <= |es|
      invariant members == DumpEntries(es[..j], "")
    {
      DumpEntriesPrefix(es, j, "");
      members := members + DumpPair(es[j].key, es[j].value, "");
      j := j + 1;
    }
    assert es[..j] == es;
    output := DumpComments(root.above, "") + members + DumpComments(root.innerBottom, "");
  }
}
