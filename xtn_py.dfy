/** The newer Python implementation (xtnpy/xtn/_xtn.py). Its frames, its key lines
    and its close marker outside a block follow the same rules, in the same order,
    as the TypeScript implementation, so this module takes them from XtnTs; the
    block body, comments, the end of input and `dump` are its own. Lines come from
    the stream one by one and errors report them counted from 1. */
module XtnPy {
  import opened Xtn
  import opened XtnTs

  // ---------------------------------------------------------------------------
  // `record_comment`

  /** The leading run of non-whitespace characters: the group `([^\s]*)` of
      `^\s*([^\s]*)` on a string that starts with no whitespace. */
  function Word(s: string): (w: string)
    ensures |w| <= |s| && w == s[..|w|]
    ensures forall k :: 0 <= k < |w| ==> !IsSpace(w[k])
    ensures |w| < |s| ==> IsSpace(s[|w|])
  {
    if s != [] && !IsSpace(s[0]) then [s[0]] + Word(s[1..]) else []
  }

  /** A left-trimmed string is never whitespace only, and trimming it again
      changes nothing. */
  lemma Trimmed(s: string)
    ensures TrimStart(TrimStart(s)) == TrimStart(s) && !PyIsSpace(TrimStart(s))
  {
  }

  /** The `##` branch of `record_comment`: the whitespace after `##` goes, the
      first word becomes the prefix, and what follows the word, left-trimmed, the
      value. */
  function Tagged(line: string): (c: Comment)
    requires StartsWith(line, "##")
    ensures var l := TrimStart(line[2..]);
      var p := Word(l);
      c == Comment(TrimStart(l[|p|..]), p)
  {
    var l := TrimStart(line[2..]);
    Trimmed(line[2..]);
    var prefix := Word(TrimStart(l));
    var value := if |prefix| > 0 then TaggedValue(l, prefix) else l;
    Trimmed(l[|prefix|..]);
    if PyIsSpace(value) then BlankComment else Comment(value, prefix)
  }

  /** `line[(line.find(prefix[0]) + len(prefix)):].lstrip()`: the prefix starts the
      left-trimmed line, so `find` lands on its first character. */
  function TaggedValue(l: string, prefix: string): (v: string)
    requires prefix != [] && |prefix| <= |l| && l[..|prefix|] == prefix
    ensures v == TrimStart(l[|prefix|..])
  {
    assert OccursAt(l, [prefix[0]], 0) by { assert l[..1] == [prefix[0]]; }
    FirstOccurrence(l, [prefix[0]], 0);
    var at := IndexOf(l, [prefix[0]]);
    TrimStart(l[at + |prefix|..])
  }

  /** The rest of a `#` comment once the `#` and the whitespace character after it
      are gone: whitespace only is a blank comment. */
  function Untagged(value: string): Comment {
    if PyIsSpace(value) then BlankComment else Comment(value, "")
  }

  /** `record_comment` as written: for a single `#` the test `line[1].isspace()`
      indexes past the end and raises `IndexError`, shown here as `None`. */
  function CommentOfAsWritten(line: string): (c: Option<Comment>)
    requires line == [] || line[0] == '#'
    ensures c.None? <==> line == "#"
  {
    if line == [] then Some(BlankComment)
    else if StartsWith(line, "##") then Some(Tagged(line))
    else if |line| < 2 then None
    else Some(Untagged(line[if IsSpace(line[1]) then 2 else 1..]))
  }

  /** `record_comment` with the test made safe (`line[1:2].isspace()`): a single
      `#` is a blank comment. The rest of this model uses this one. */
  function CommentOf(line: string): (c: Comment)
    requires line == [] || line[0] == '#'
    ensures line == [] || line == "#" ==> c == BlankComment
    ensures line != "#" ==> CommentOfAsWritten(line) == Some(c)
  {
    if line == [] then BlankComment
    else if StartsWith(line, "##") then Tagged(line)
    else Untagged(line[if |line| >= 2 && IsSpace(line[1]) then 2 else 1..])
  }

  // ---------------------------------------------------------------------------
  // One line of `_load`

  function Step(st: LoadState, i: int, origLine: string): (r: Result<LoadState>)
    requires Valid(st)
    ensures r.Ok? ==> Valid(r.value)
  {
    if Top(st).MultilineState? then BodyLine(st, i, origLine)
    else StructuralLine(st, i, origLine)
  }

  /** A line outside a block: comments and blank lines go to the buffer, anything
      else is a key line or a close marker as in the TypeScript implementation,
      whose errors carry the line counted from 0; here they report `i + 1`. */
  function StructuralLine(st: LoadState, i: int, origLine: string): (r: Result<LoadState>)
    requires Valid(st) && !Top(st).MultilineState?
    ensures r.Ok? ==> Valid(r.value)
  {
    var line := Trim(origLine);
    if StartsWith(line, "#") || line == [] then
      assert line != [] ==> line[0] == line[..1][0];
      Ok(RecordComment(st, line))
    else
      match XtnTs.StructuralLine(st, i, origLine)
      case Ok(s1) => Ok(s1)
      case Err(e) => Err(ParseError(e.code, e.line + 1))
  }

  /** `record_comment`: the comment goes to the buffer. */
  function RecordComment(st: LoadState, line: string): (r: LoadState)
    requires Valid(st) && (line == [] || line[0] == '#')
    ensures Valid(r) && r.stack == st.stack && r.comments == st.comments + [CommentOf(line)]
  {
    st.(comments := st.comments + [CommentOf(line)])
  }

  /** The close marker test of `_load`: `----` followed by nothing or by
      whitespace only. */
  predicate CloseMarker(s: string) {
    StartsWith(s, "----") && (|s| == 4 || PyIsSpace(s[4..]))
  }

  /** It is the test of the TypeScript implementation. */
  lemma CloseMarkerSame(s: string)
    ensures CloseMarker(s) <==> IsCloseMarker(s)
  {
    if StartsWith(s, "----") {
      TrimEndEmptyIffAllSpace(s[4..]);
    }
  }

  /** The width of the block's indentation character run at the start of a line,
      looking no further than the expected width (`prefix.lstrip(indent_char)`). */
  function IndentRun(line: string, expLen: nat, c: char): (n: nat)
    ensures n <= expLen && n <= |line|
    ensures forall k :: 0 <= k < n ==> line[k] == c
    ensures n < expLen && n < |line| ==> line[n] != c
  {
    var head := line[..if expLen < |line| then expLen else |line|];
    |head| - |TrimLeftChar(head, c)|
  }

  /** The character just after that run, if within the expected width. */
  function AfterIndent(line: string, expLen: nat, c: char): (p: string)
    ensures var n := IndentRun(line, expLen, c);
      p == if n < expLen && n < |line| then [line[n]] else []
  {
    var head := line[..if expLen < |line| then expLen else |line|];
    var a := IndentRun(line, expLen, c);
    head[a..if a + 1 < |head| then a + 1 else |head|]
  }

  /** A line inside a block. The expected indentation is fixed as in the
      TypeScript implementation. Short of it, whitespace other than a line feed is
      mixed indentation, a close marker closes the block at the key's indentation
      and is refused at any other, and anything but a bare line feed is
      insufficient indentation; otherwise the line after its indentation is added
      to the text. */
  function BodyLine(st: LoadState, i: int, line: string): (r: Result<LoadState>)
    requires Valid(st) && Top(st).MultilineState?
    ensures r.Ok? ==> Valid(r.value)
  {
    var f := WithExpectedIndent(Top(st), line);
    var expLen := |f.expIndent.value|;
    var actLen := IndentRun(line, expLen, f.indentChar);
    var prefix := AfterIndent(line, expLen, f.indentChar);
    if actLen < expLen && PyIsSpace(prefix) && prefix != "\n" then
      Err(ParseError(IndentationMustNotBeMixed, i + 1))
    else
      var rest := line[actLen..];
      if actLen < expLen && CloseMarker(rest) then
        if actLen == |f.indent| then CloseBlock(st, f, i)
        else Err(ParseError(IncorrectIndentation, i + 1))
      else if actLen < expLen && prefix != "\n" then
        Err(ParseError(InsufficientIndentation, i + 1))
      else
        Ok(st.(stack := Pop(st.stack) + [f.(text := f.text + rest)]))
  }

  /** Closing a block: the parent frame stores the text without its last character
      and without whitespace conversion, the node is marked `force_multiline` and
      takes the buffered comments, and the block frame goes. */
  function CloseBlock(st: LoadState, f: Frame, i: int): (r: Result<LoadState>)
    requires Valid(st) && Top(st).MultilineState? && f.MultilineState?
    ensures r.Ok? ==> (Valid(r.value) && r.value.comments == []
      && |r.value.stack| == |st.stack| - 1
      && r.value.stack[..|st.stack| - 2] == st.stack[..|st.stack| - 2])
  {
    var below := Pop(st.stack);
    var parent := below[|below| - 1];
    assert parent == st.stack[|st.stack| - 2] && FrameOk(parent);
    match StateSet(parent, f.name, RawText(DropLast(f.text)), false, i)
    case Err(e) => Err(ParseError(e.code, i + 1))
    case Ok(p1) =>
      var child := LastChild(p1.target).(forceMultiline := true);
      var a := AttachComments(child, st.comments);
      var g := WithTarget(p1, SetLastChild(p1.target, a.0));
      assert FrameOk(g);
      assert Pop(below) == st.stack[..|st.stack| - 2];
      PopValid(st, g, a.1);
      Ok(LoadState(Pop(below) + [g], a.1))
  }

  // ---------------------------------------------------------------------------
  // The whole stream

  /** The lines from index `i` on, one `Step` each, stopping at the first error. */
  function Run(st: LoadState, lines: seq<string>, i: int): (r: Result<LoadState>)
    requires Valid(st)
    ensures r.Ok? ==> Valid(r.value)
    decreases |lines|
  {
    if lines == [] then Ok(st)
    else
      match Step(st, i, lines[0])
      case Err(e) => Err(e)
      case Ok(s1) => Run(s1, lines[1..], i + 1)
  }

  /** After the last of `n` lines the buffered comments trail the root (when it
      is the only frame left); any frame above the root is a missing close marker,
      reported at line `n + 1`. */
  function Finish(st: LoadState, n: nat): (r: Result<Node>)
    requires Valid(st)
    ensures r.Err? <==> |st.stack| > 1
    ensures r.Err? ==> r.error == ParseError(MissingCloseMarker, n + 1)
    ensures r.Ok? ==> var t := st.stack[0].target;
      t.Object? && r.value == Object(t.entries, t.above, t.innerTop,
                                     if st.comments == [] then t.innerBottom else st.comments, t.below)
    ensures r.Ok? ==> r.value.Object? && UniqueDeep(r.value)
  {
    if |st.stack| > 1 then Err(ParseError(MissingCloseMarker, n + 1))
    else
      assert FrameOk(st.stack[0]);
      Ok(AttachTrailingComments(st.stack[0].target, st.comments).0)
  }

  /** `XtnObject.load` on the lines of a stream: the tree, or the first error. */
  function LoadSpec(lines: seq<string>): (r: Result<Node>)
    ensures r.Ok? ==> r.value.Object? && UniqueDeep(r.value)
  {
    match Run(Initial(), lines, 0)
    case Err(e) => Err(e)
    case Ok(st) => Finish(st, |lines|)
  }

  /** `_load`: the loop over the lines with the stack and the comment buffer. */
  method Load(lines: seq<string>) returns (r: Result<Node>)
    ensures r == LoadSpec(lines)
    ensures r.Ok? ==> r.value.Object? && UniqueDeep(r.value)
  {
    var st := Initial();
    var i := 0;
    while i < |lines|
      invariant 0 <= i <= |lines|
      invariant Valid(st)
      invariant Run(Initial(), lines, 0) == Run(st, lines[i..], i)
    {
      assert lines[i..][0] == lines[i] && lines[i..][1..] == lines[i + 1..];
      var next := Step(st, i, lines[i]);
      if next.Err? {
        return Err(next.error);
      }
      st := next.value;
      i := i + 1;
    }
    assert lines[i..] == [];
    r := Finish(st, i);
  }

  // ---------------------------------------------------------------------------
  // `XtnObject.dump`

  /** A comment's lines: `splitlines`, plus an empty one when the value is empty
      or ends with a line feed. */
  function CommentText(value: string): seq<string> {
    var lines := SplitLines(value);
    if |value| == 0 || EndsWith(value, "\n") then lines + [""] else lines
  }

  /** `write_comment`: each line right-trimmed; the first one carries `##prefix `
      when there is a prefix, an empty one is an empty output line, any other is
      written after `# `. */
  function CommentLines(lines: seq<string>, prefix: string, indent: string, first: bool): string {
    if lines == [] then []
    else
      var line := TrimEnd(lines[0]);
      (if first && |prefix| > 0 then WriteLine(indent + "##" + prefix + " " + line)
       else if |line| == 0 then WriteLine("")
       else WriteLine(indent + "# " + line))
      + CommentLines(lines[1..], prefix, indent, false)
  }

  function DumpComment(c: Comment, indent: string): string {
    CommentLines(CommentText(c.value), c.prefix, indent, true)
  }

  function DumpComments(cs: seq<Comment>, indent: string): string {
    if cs == [] then [] else DumpComment(cs[0], indent) + DumpComments(cs[1..], indent)
  }

  /** A text's lines in block form: `splitlines`, plus an empty one after a final
      line feed. */
  function TextLines(value: string): seq<string> {
    var lines := SplitLines(value);
    if EndsWith(value, "\n") then lines + [""] else lines
  }

  /** The block-form test of `write_pair`: forced, several lines, whitespace at
      either end, or whitespace other than U+0020 anywhere. */
  predicate TextUsesBlock(value: string, force: bool) {
    force || |TextLines(value)| > 1
    || PyIsSpace(if value == [] then [] else value[..1])
    || PyIsSpace(if value == [] then [] else value[|value| - 1..])
    || HasNon32Whitespace(value)
  }

  /** `write_pair`: the node's comments, then the node; containers open with
      `name[]:` / `name{}:`, list their children four spaces deeper followed by their
      trailing comments, and close with `----` at their own indentation; a block
      text writes each line four spaces deeper between `name'':` and `----`. */
  function DumpPair(name: string, n: Node, indent: string): string
    decreases n
  {
    var inner := indent + "    ";
    DumpComments(n.above, indent) +
    match n
    case Array(els, _, _, trail, _) =>
      WriteLine(indent + name + "[]:") + DumpElements(els, inner) + DumpComments(trail, inner)
      + WriteLine(indent + "----")
    case Object(es, _, _, trail, _) =>
      WriteLine(indent + name + "{}:") + DumpEntries(es, inner) + DumpComments(trail, inner)
      + WriteLine(indent + "----")
    case Text(value, force, _, _) =>
      if TextUsesBlock(value, force) then
        WriteLine(indent + name + "'':") + BlockLines(TextLines(value), inner) + WriteLine(indent + "----")
      else
        WriteLine(indent + name + ": " + value)
  }

  function BlockLines(lines: seq<string>, indent: string): string {
    if lines == [] then [] else WriteLine(indent + lines[0]) + BlockLines(lines[1..], indent)
  }

  function DumpElements(els: seq<Node>, indent: string): string
    decreases els
  {
    if els == [] then [] else DumpPair("+", els[0], indent) + DumpElements(els[1..], indent)
  }

  function DumpEntries(es: seq<Entry>, indent: string): string
    decreases es
  {
    if es == [] then [] else DumpPair(es[0].key, es[0].value, indent) + DumpEntries(es[1..], indent)
  }

  lemma {:induction false} DumpEntriesAppend(es: seq<Entry>, e: Entry, indent: string)
    ensures DumpEntries(es + [e], indent) == DumpEntries(es, indent) + DumpPair(e.key, e.value, indent)
  {
    if es == [] {
      assert [e][1..] == [];
    } else {
      assert (es + [e])[1..] == es[1..] + [e];
      DumpEntriesAppend(es[1..], e, indent);
    }
  }

  /** Writing the first `j + 1` members gives the text of the first `j` followed
      by the text of member `j`: the step the member loop of `dump` takes. */
  lemma DumpEntriesPrefix(es: seq<Entry>, j: nat, indent: string)
    requires j < |es|
    ensures DumpEntries(es[..j + 1], indent) == DumpEntries(es[..j], indent) + DumpPair(es[j].key, es[j].value, indent)
  {
    assert es[..j + 1] == es[..j] + [es[j]];
    DumpEntriesAppend(es[..j], es[j], indent);
  }

  /** What `dump` writes: the root's comments, its members in order at indentation
      zero, then its trailing comments. */
  function DumpText(root: Node): string
    requires root.Object?
  {
    DumpComments(root.above, "") + DumpEntries(root.entries, "") + DumpComments(root.innerBottom, "")
  }

  /** `XtnObject.dump`: the root's comments, the loop over its members, then its
      trailing comments, each line written to the stream in turn. */
  method Dump(root: Node) returns (output: string)
    requires root.Object?
    ensures output == DumpText(root)
  {
    var es := root.entries;
    output := DumpComments(root.above, "");
    var members := "";
    var j := 0;
    while j < |es|
      invariant 0 <= j <= |es|
      invariant members == DumpEntries(es[..j], "")
    {
      DumpEntriesPrefix(es, j, "");
      members := members + DumpPair(es[j].key, es[j].value, "");
      j := j + 1;
    }
    assert es[..j] == es;
    output := output + members + DumpComments(root.innerBottom, "");
  }
}
