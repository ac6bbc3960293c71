/** What single lines do to the state of the newer Python `_load`
    (xtnpy/xtn/_xtn.py), how its comments read back from what `dump` writes, and
    when `dump` writes a text as a block. */
module XtnPyLines {
  import opened Xtn
  import opened XtnTs
  import opened XtnPy
  import XtnTsLines

  // ---------------------------------------------------------------------------
  // Comments

  /** `##word rest`: the word after `##` (and any whitespace) is the prefix, the
      text after the whitespace that ends the word is the value. */
  lemma TaggedLine(ws: string, word: string, gap: string, rest: string)
    requires AllSpace(ws) && AllSpace(gap) && word != []
    requires forall k :: 0 <= k < |word| ==> !IsSpace(word[k])
    requires rest != [] ==> gap != [] && !IsSpace(rest[0])
    ensures CommentOf("##" + ws + word + gap + rest) == Comment(rest, word)
  {
    var line := "##" + ws + word + gap + rest;
    TaggedParts(ws, word, gap, rest);
    Extend("##", ws);
    Extend("##" + ws, word);
    Extend("##" + ws + word, gap);
    Extend("##" + ws + word + gap, rest);
    TaggedOf(line, word, rest);
  }

  /** Appending keeps a `##` start. */
  lemma Extend(a: string, b: string)
    requires |a| >= 2 && a[0] == '#' && a[1] == '#'
    ensures |a + b| >= 2 && (a + b)[0] == '#' && (a + b)[1] == '#'
  {
  }

  /** `Tagged` in terms of the word it finds and the text after it. */
  lemma TaggedOf(line: string, word: string, rest: string)
    requires |line| >= 2 && line[0] == '#' && line[1] == '#'
    requires var l := TrimStart(line[2..]); Word(l) == word && TrimStart(l[|word|..]) == rest
    ensures CommentOf(line) == Comment(rest, word)
  {
    HashHash(line);
    TaggedComment(line);
  }

  lemma HashHash(line: string)
    requires |line| >= 2 && line[0] == '#' && line[1] == '#'
    ensures StartsWith(line, "##")
  {
    var h := line[..2];
    assert |h| == 2 && h[0] == '#' && h[1] == '#';
    assert h == "##";
  }

  /** The pieces `Tagged` takes apart: the text after `##` without its leading
      whitespace, its first word and what follows the word's trailing whitespace. */
  lemma TaggedParts(ws: string, word: string, gap: string, rest: string)
    requires AllSpace(ws) && AllSpace(gap) && word != []
    requires forall k :: 0 <= k < |word| ==> !IsSpace(word[k])
    requires rest != [] ==> gap != [] && !IsSpace(rest[0])
    ensures var l := TrimStart(("##" + ws + word + gap + rest)[2..]);
      Word(l) == word && TrimStart(l[|word|..]) == rest
  {
    var line := "##" + ws + word + gap + rest;
    var tail := gap + rest;
    var l := word + tail;
    assert line[2..] == ws + l by {
      assert line == "##" + (ws + l);
    }
    SkipSpaces(ws, l);
    WordOf(word, tail);
    assert l[|word|..] == tail;
    SkipSpaces(gap, rest);
  }

  /** A line starting with `##` is read by `Tagged`. */
  lemma TaggedComment(line: string)
    requires StartsWith(line, "##")
    ensures line[0] == '#' && CommentOf(line) == Tagged(line)
  {
    assert line[0] == "##"[0];
  }

  /** `Word` stops at the first whitespace. */
  lemma {:induction false} WordOf(word: string, s: string)
    requires forall k :: 0 <= k < |word| ==> !IsSpace(word[k])
    requires s == [] || IsSpace(s[0])
    ensures Word(word + s) == word
    decreases |word|
  {
    if word != [] {
      assert (word + s)[1..] == word[1..] + s;
      WordOf(word[1..], s);
    }
  }

  /** `# text`: the `#` and one whitespace character go; whitespace only is a blank
      comment. */
  lemma HashSpaceLine(c: char, rest: string)
    requires IsSpace(c)
    ensures CommentOf("#" + [c] + rest) == if PyIsSpace(rest) then BlankComment else Comment(rest, "")
  {
    var line := "#" + [c] + rest;
    assert !StartsWith(line, "##") by { assert line[..2][1] == c; }
    assert line[2..] == rest;
  }

  /** `#text` with no whitespace after the `#` keeps all of the text. */
  lemma HashLine(rest: string)
    requires rest != [] && rest[0] != '#' && !IsSpace(rest[0])
    ensures CommentOf("#" + rest) == Comment(rest, "")
  {
    var line := "#" + rest;
    assert !StartsWith(line, "##") by { assert line[..2][1] == rest[0]; }
    assert line[1..] == rest;
  }

  /** A comment line that is `#` alone once trimmed makes `record_comment` as
      written index past its end; with the test made safe it is a blank comment. */
  lemma LoneHashRaises(st: LoadState, i: int, origLine: string)
    requires Valid(st) && !Top(st).MultilineState? && Trim(origLine) == "#"
    ensures CommentOfAsWritten(Trim(origLine)).None?
    ensures XtnPy.Step(st, i, origLine) == Ok(st.(comments := st.comments + [BlankComment]))
  {
    CommentStep(st, i, origLine);
  }

  /** A single-line comment that `dump` writes reads back as the same comment. The
      value must have no line break and no trailing whitespace (`write_comment`
      right-trims it); a prefix must be one word, and then the value may not start
      with whitespace either. */
  lemma CommentRoundTrip(st: LoadState, i: int, c: Comment, indent: string)
    requires Valid(st) && !Top(st).MultilineState? && AllSpace(indent)
    requires forall k :: 0 <= k < |c.value| ==> !IsLineBoundary(c.value[k])
    requires c.value == [] || !IsSpace(c.value[|c.value| - 1])
    requires forall k :: 0 <= k < |c.prefix| ==> !IsSpace(c.prefix[k])
    requires c.prefix != [] ==> c.value == [] || !IsSpace(c.value[0])
    ensures XtnPy.Step(st, i, XtnPy.DumpComment(c, indent)) == Ok(st.(comments := st.comments + [c]))
  {
    DumpSingleLine(c, indent);
    ReadBack(c, indent);
    CommentStep(st, i, WrittenLine(c, indent) + "\n");
  }

  /** The one line `write_comment` writes for a comment without line breaks. */
  function WrittenLine(c: Comment, indent: string): string {
    if c.prefix != [] then indent + "##" + c.prefix + " " + c.value
    else if c.value == [] then ""
    else indent + "# " + c.value
  }

  lemma DumpSingleLine(c: Comment, indent: string)
    requires forall k :: 0 <= k < |c.value| ==> !IsLineBoundary(c.value[k])
    requires c.value == [] || !IsSpace(c.value[|c.value| - 1])
    ensures XtnPy.DumpComment(c, indent) == WrittenLine(c, indent) + "\n"
  {
    var v := c.value;
    var ls := CommentText(v);
    assert ls == if v == [] then [""] else [v] by {
      if v != [] {
        assert SplitLines(v) == [v];
        assert !EndsWith(v, "\n") by { assert !IsLineBoundary(v[|v| - 1]); }
      } else {
        assert SplitLines(v) == [];
      }
    }
    TrimEndOfVisible(v);
    assert ls[1..] == [] && TrimEnd(ls[0]) == v;
    assert XtnPy.CommentLines(ls[1..], c.prefix, indent, false) == [];
    assert XtnPy.DumpComment(c, indent) == XtnPy.CommentLines(ls, c.prefix, indent, true);
  }

  /** Outside a block a comment or blank line adds its comment to the buffer. */
  lemma CommentStep(st: LoadState, i: int, origLine: string)
    requires Valid(st) && !Top(st).MultilineState?
    requires Trim(origLine) == [] || Trim(origLine)[0] == '#'
    ensures XtnPy.Step(st, i, origLine) == Ok(st.(comments := st.comments + [CommentOf(Trim(origLine))]))
  {
    StructuralComment(st, i, origLine);
    assert XtnPy.Step(st, i, origLine) == XtnPy.StructuralLine(st, i, origLine);
  }

  lemma StructuralComment(st: LoadState, i: int, origLine: string)
    requires Valid(st) && !Top(st).MultilineState?
    requires Trim(origLine) == [] || Trim(origLine)[0] == '#'
    ensures XtnPy.StructuralLine(st, i, origLine) == Ok(st.(comments := st.comments + [CommentOf(Trim(origLine))]))
  {
    var line := Trim(origLine);
    assert StartsWith(line, "#") || line == [] by {
      if line != [] { assert line[..1] == [line[0]]; }
    }
    assert XtnPy.StructuralLine(st, i, origLine) == Ok(XtnPy.RecordComment(st, line));
  }

  /** The written line, trimmed as `_load` trims it, is the comment again. */
  lemma ReadBack(c: Comment, indent: string)
    requires AllSpace(indent)
    requires c.value == [] || !IsSpace(c.value[|c.value| - 1])
    requires forall k :: 0 <= k < |c.prefix| ==> !IsSpace(c.prefix[k])
    requires c.prefix != [] ==> c.value == [] || !IsSpace(c.value[0])
    ensures var t := Trim(WrittenLine(c, indent) + "\n");
      (t == [] || t[0] == '#') && CommentOf(t) == c
  {
    var v := c.value;
    if c.prefix != [] && v == [] {
      assert WrittenLine(c, indent) + "\n" == indent + ("##" + c.prefix) + " \n";
      assert AllSpace(" \n") by { assert " \n"[0] == ' ' && " \n"[1] == '\n'; }
      ReadBareTag(c.prefix, indent, " \n");
    } else if c.prefix != [] {
      var body := "##" + c.prefix + " " + v;
      assert WrittenLine(c, indent) + "\n" == indent + body + "\n";
      ReadTaggedValue(c.prefix, v, indent);
    } else if v == [] {
      assert WrittenLine(c, indent) + "\n" == "\n";
      assert Trim("\n") == [];
    } else {
      var body := "# " + v;
      assert WrittenLine(c, indent) + "\n" == indent + body + "\n";
      ReadHash(v, indent);
    }
  }

  lemma ReadBareTag(p: string, indent: string, tail: string)
    requires AllSpace(indent) && AllSpace(tail) && p != [] && forall k :: 0 <= k < |p| ==> !IsSpace(p[k])
    ensures var t := Trim(indent + ("##" + p) + tail);
      t != [] && t[0] == '#' && CommentOf(t) == Comment([], p)
  {
    var head := "##" + p;
    assert head[0] == '#' && !IsSpace(head[|head| - 1]) by {
      assert head[|head| - 1] == p[|p| - 1];
    }
    TaggedWord(p);
    IndentedComment(indent, head, tail, Comment([], p));
  }

  lemma ReadTaggedValue(p: string, v: string, indent: string)
    requires AllSpace(indent) && p != [] && forall k :: 0 <= k < |p| ==> !IsSpace(p[k])
    requires v != [] && !IsSpace(v[0]) && !IsSpace(v[|v| - 1])
    ensures var t := Trim(indent + ("##" + p + " " + v) + "\n");
      t != [] && t[0] == '#' && CommentOf(t) == Comment(v, p)
  {
    var body := "##" + p + " " + v;
    assert body[0] == '#' && body[|body| - 1] == v[|v| - 1];
    TaggedNoGap(p, " ", v);
    IndentedComment(indent, body, "\n", Comment(v, p));
  }

  /** An indented comment line whose last character is visible reads as its body. */
  lemma IndentedComment(indent: string, body: string, tail: string, c: Comment)
    requires AllSpace(indent) && AllSpace(tail) && body != [] && body[0] == '#'
    requires !IsSpace(body[|body| - 1]) && CommentOf(body) == c
    ensures var t := Trim(indent + body + tail);
      t != [] && t[0] == '#' && CommentOf(t) == c
  {
    TrimmedLine(indent, body, tail);
    TrimEndSpaceSuffix(body, tail);
  }

  /** `##word` alone: a tag with an empty value. */
  lemma TaggedWord(word: string)
    requires word != [] && forall k :: 0 <= k < |word| ==> !IsSpace(word[k])
    ensures CommentOf("##" + word) == Comment([], word)
  {
    var line := "##" + word;
    var e: string := [];
    assert line[2..] == word;
    assert TrimStart(word) == word;
    assert word + e == word;
    WordOf(word, e);
    assert word[|word|..] == e;
    TaggedComment(line);
  }

  lemma TaggedNoGap(word: string, gap: string, rest: string)
    requires AllSpace(gap) && word != []
    requires forall k :: 0 <= k < |word| ==> !IsSpace(word[k])
    requires rest != [] ==> gap != [] && !IsSpace(rest[0])
    ensures CommentOf("##" + word + gap + rest) == Comment(rest, word)
  {
    var e: string := [];
    assert "##" + e + word + gap + rest == "##" + word + gap + rest by {
      assert "##" + e == "##";
    }
    TaggedLine(e, word, gap, rest);
  }

  lemma ReadHash(v: string, indent: string)
    requires AllSpace(indent) && v != [] && !IsSpace(v[|v| - 1])
    ensures var t := Trim(indent + ("# " + v) + "\n");
      t != [] && t[0] == '#' && CommentOf(t) == Comment(v, "")
  {
    var body := "# " + v;
    assert body == "#" + [' '] + v;
    assert body[|body| - 1] == v[|v| - 1];
    TrimmedLine(indent, body, "\n");
    TrimEndSpaceSuffix(body, "\n");
    HashSpaceLine(' ', v);
  }

  /** A string whose last character is visible is its own right trim. */
  lemma TrimEndOfVisible(v: string)
    requires v == [] || !IsSpace(v[|v| - 1])
    ensures TrimEnd(v) == v
  {
  }

  /** An indented line with visible ends and trailing whitespace trims to its body. */
  lemma TrimmedLine(indent: string, body: string, tail: string)
    requires AllSpace(indent) && AllSpace(tail) && body != [] && !IsSpace(body[0])
    ensures Trim(indent + body + tail) == TrimEnd(body + tail)
  {
    assert indent + body + tail == indent + (body + tail);
    SkipSpaces(indent, body + tail);
  }

  // ---------------------------------------------------------------------------
  // Lines outside a block

  /** Outside a block, a line that is not a comment or blank does what it does in
      the TypeScript implementation; only the line of an error is counted from 1. */
  lemma KeyLinesAsTypeScript(st: LoadState, i: int, origLine: string)
    requires Valid(st) && !Top(st).MultilineState?
    requires Trim(origLine) != [] && Trim(origLine)[0] != '#'
    ensures var t := XtnTs.Step(st, i, origLine);
      var r := XtnPy.Step(st, i, origLine);
      (t.Ok? ==> r == t) && (t.Err? ==> r == Err(ParseError(t.error.code, t.error.line + 1)))
  {
    var line := Trim(origLine);
    assert !StartsWith(line, "#") by { assert line[..1] == [line[0]]; }
    assert XtnTs.Step(st, i, origLine) == XtnTs.StructuralLine(st, i, origLine);
    assert XtnPy.Step(st, i, origLine) == XtnPy.StructuralLine(st, i, origLine);
  }

  /** `----` outside a block: the buffered comments trail the top container, which
      is written back into its parent; with only the root open it is unmatched, at
      line `i + 1`. */
  lemma CloseLine(st: LoadState, i: int, origLine: string)
    requires Valid(st) && !Top(st).MultilineState? && Trim(origLine) == "----"
    ensures var r := XtnPy.Step(st, i, origLine);
      (|st.stack| == 1 ==> r == Err(ParseError(UnmatchedCloseMarker, i + 1)))
      && (|st.stack| > 1 ==> (r.Ok? && r.value.comments == []
          && |r.value.stack| == |st.stack| - 1
          && r.value.stack[..|st.stack| - 2] == st.stack[..|st.stack| - 2]
          && Top(r.value) == WithTarget(st.stack[|st.stack| - 2],
               SetLastChild(st.stack[|st.stack| - 2].target,
                 if st.comments == [] then Top(st).target else Top(st).target.(innerBottom := st.comments)))))
  {
    KeyLinesAsTypeScript(st, i, origLine);
    XtnTsLines.DashesLine(st, i, origLine);
  }

  // ---------------------------------------------------------------------------
  // Lines inside a block

  /** Whitespace other than a line feed short of the body indentation is mixed
      indentation; unlike the TypeScript implementation, a carriage return counts. */
  lemma MixedBodyIndent(st: LoadState, i: int, line: string)
    requires Valid(st) && Top(st).MultilineState?
    requires var f := WithExpectedIndent(Top(st), line);
      var a := IndentRun(line, |f.expIndent.value|, f.indentChar);
      a < |f.expIndent.value| && a < |line| && IsSpace(line[a]) && line[a] != '\n'
    ensures XtnPy.Step(st, i, line) == Err(ParseError(IndentationMustNotBeMixed, i + 1))
  {
    var f := WithExpectedIndent(Top(st), line);
    var a := IndentRun(line, |f.expIndent.value|, f.indentChar);
    assert PyIsSpace([line[a]]) && [line[a]] != "\n";
  }

  /** A body line at full indentation adds everything after the expected
      indentation to the text, so `----` indented like the body is text. */
  lemma FullIndentIsText(st: LoadState, i: int, line: string)
    requires Valid(st) && Top(st).MultilineState?
    requires var f := WithExpectedIndent(Top(st), line);
      IndentRun(line, |f.expIndent.value|, f.indentChar) == |f.expIndent.value|
    ensures var f := WithExpectedIndent(Top(st), line);
      var r := XtnPy.Step(st, i, line);
      r.Ok? && r.value.comments == st.comments
      && |r.value.stack| == |st.stack| && Pop(r.value.stack) == Pop(st.stack)
      && Top(r.value) == f.(text := Top(st).text + line[|f.expIndent.value|..])
  {
  }

  /** A line feed short of the body indentation is an empty body line. */
  lemma ShortBlankLine(st: LoadState, i: int, line: string)
    requires Valid(st) && Top(st).MultilineState?
    requires var f := WithExpectedIndent(Top(st), line);
      var a := IndentRun(line, |f.expIndent.value|, f.indentChar);
      a < |f.expIndent.value| && a < |line| && line[a] == '\n'
    ensures var f := WithExpectedIndent(Top(st), line);
      var a := IndentRun(line, |f.expIndent.value|, f.indentChar);
      var r := XtnPy.Step(st, i, line);
      r.Ok? && r.value.comments == st.comments
      && |r.value.stack| == |st.stack| && Pop(r.value.stack) == Pop(st.stack)
      && Top(r.value) == f.(text := Top(st).text + line[a..])
  {
    var f := WithExpectedIndent(Top(st), line);
    var a := IndentRun(line, |f.expIndent.value|, f.indentChar);
    assert line[a..][0] == '\n';
    assert !StartsWith(line[a..], "----") by {
      assert |line[a..]| < 4 || line[a..][..4][0] == '\n';
    }
  }

  /** A close marker short of the body indentation but not at the key's
      indentation is refused. */
  lemma WrongCloseIndent(st: LoadState, i: int, line: string)
    requires Valid(st) && Top(st).MultilineState?
    requires var f := WithExpectedIndent(Top(st), line);
      var a := IndentRun(line, |f.expIndent.value|, f.indentChar);
      a < |f.expIndent.value| && CloseMarker(line[a..]) && a != |Top(st).indent|
    ensures XtnPy.Step(st, i, line) == Err(ParseError(IncorrectIndentation, i + 1))
  {
    var f := WithExpectedIndent(Top(st), line);
    var a := IndentRun(line, |f.expIndent.value|, f.indentChar);
    assert line[a..][..4] == "----";
    assert !PyIsSpace([line[a]]) by { assert line[a] == line[a..][..4][0]; }
  }

  /** Any other line short of the body indentation is refused. */
  lemma ShortLine(st: LoadState, i: int, line: string)
    requires Valid(st) && Top(st).MultilineState?
    requires var f := WithExpectedIndent(Top(st), line);
      var a := IndentRun(line, |f.expIndent.value|, f.indentChar);
      a < |f.expIndent.value| && (a == |line| || !IsSpace(line[a])) && !CloseMarker(line[a..])
    ensures XtnPy.Step(st, i, line) == Err(ParseError(InsufficientIndentation, i + 1))
  {
    var f := WithExpectedIndent(Top(st), line);
    var a := IndentRun(line, |f.expIndent.value|, f.indentChar);
    if a < |line| {
      assert [line[a]][0] == line[a];
      assert !PyIsSpace([line[a]]);
    }
  }

  /** A close marker at the key's indentation ends a block inside an object: the
      object gets one new member holding the text without its last character,
      unconverted, marked `force_multiline` and carrying the buffered comments; a
      key already present is refused at line `i + 1`. */
  lemma BlockCloseInObject(st: LoadState, i: int, line: string)
    requires Valid(st) && Top(st).MultilineState? && |st.stack| >= 2
    requires st.stack[|st.stack| - 2].ObjectState? && st.stack[|st.stack| - 2].target.Object?
    requires var f := WithExpectedIndent(Top(st), line);
      var a := IndentRun(line, |f.expIndent.value|, f.indentChar);
      a < |f.expIndent.value| && a == |Top(st).indent| && CloseMarker(line[a..])
    ensures var r := XtnPy.Step(st, i, line);
      var key := CollapseSpaces(Top(st).name);
      var es := st.stack[|st.stack| - 2].target.entries;
      (HasKey(es, key) ==> r == Err(ParseError(ObjectKeysCannotBeRepeated, i + 1)))
      && (!HasKey(es, key) ==> (r.Ok? && r.value.comments == []
          && |r.value.stack| == |st.stack| - 1
          && r.value.stack[..|st.stack| - 2] == st.stack[..|st.stack| - 2]
          && Top(r.value).ObjectState? && Top(r.value).target.Object?
          && Top(r.value).target.entries
             == es + [Entry(key, Text(DropLast(Top(st).text), true, st.comments, []))]))
  {
    var f := WithExpectedIndent(Top(st), line);
    var a := IndentRun(line, |f.expIndent.value|, f.indentChar);
    assert line[a..][..4] == "----";
    assert !PyIsSpace([line[a]]) by { assert line[a] == line[a..][..4][0]; }
    assert XtnPy.Step(st, i, line) == CloseBlock(st, f, i);
    CloseInObject(st, f, i);
  }

  /** `CloseBlock` under an object frame. */
  lemma CloseInObject(st: LoadState, f: Frame, i: int)
    requires Valid(st) && Top(st).MultilineState? && |st.stack| >= 2
    requires st.stack[|st.stack| - 2].ObjectState? && st.stack[|st.stack| - 2].target.Object?
    requires f.MultilineState? && f.name == Top(st).name && f.text == Top(st).text
    ensures var r := CloseBlock(st, f, i);
      var key := CollapseSpaces(Top(st).name);
      var es := st.stack[|st.stack| - 2].target.entries;
      (HasKey(es, key) ==> r == Err(ParseError(ObjectKeysCannotBeRepeated, i + 1)))
      && (!HasKey(es, key) ==> (r.Ok? && r.value.comments == []
          && |r.value.stack| == |st.stack| - 1
          && r.value.stack[..|st.stack| - 2] == st.stack[..|st.stack| - 2]
          && Top(r.value).ObjectState? && Top(r.value).target.Object?
          && Top(r.value).target.entries
             == es + [Entry(key, Text(DropLast(Top(st).text), true, st.comments, []))]))
  {
    var key := CollapseSpaces(Top(st).name);
    var parent := st.stack[|st.stack| - 2];
    var es := parent.target.entries;
    var v := DropLast(f.text);
    var s1 := StateSet(parent, f.name, RawText(v), false, i);
    if !HasKey(es, key) {
      assert s1.Ok?;
      var t := s1.value.target;
      assert t.entries == es + [Entry(key, NewText(v, false, []))];
      var a := AttachComments(LastChild(t).(forceMultiline := true), st.comments);
      assert a.0 == Text(v, true, st.comments, []);
      SetLastAfterAppendEntry(t, es, key, LastChild(t), a.0);
      var r := CloseBlock(st, f, i);
      assert r.Ok? && Top(r.value) == WithTarget(s1.value, SetLastChild(t, a.0));
    } else {
      assert s1 == Err(ParseError(ObjectKeysCannotBeRepeated, i));
    }
  }

  // ---------------------------------------------------------------------------
  // Block or inline text in `dump`

  /** A forced text, one with whitespace at either end, or one holding whitespace
      other than U+0020 (line feeds included) is written as a block. */
  lemma BlockWhen(value: string, force: bool)
    requires force || (value != [] && (IsSpace(value[0]) || IsSpace(value[|value| - 1])))
      || HasNon32Whitespace(value)
    ensures XtnPy.TextUsesBlock(value, force)
  {
    if value != [] {
      assert value[..1] == [value[0]];
      assert value[|value| - 1..] == [value[|value| - 1]];
    }
  }

  /** Any other text with no line boundary is written inline. */
  lemma InlineWhen(value: string, force: bool)
    requires !force && !HasNon32Whitespace(value)
    requires value != [] ==> !IsSpace(value[0]) && !IsSpace(value[|value| - 1])
    requires forall k :: 0 <= k < |value| ==> !IsLineBoundary(value[k])
    ensures !XtnPy.TextUsesBlock(value, force)
  {
    OneTextLine(value);
    VisibleTextEnds(value);
  }

  /** Without a line boundary a text is one line (or none). */
  lemma OneTextLine(value: string)
    requires forall k :: 0 <= k < |value| ==> !IsLineBoundary(value[k])
    ensures |XtnPy.TextLines(value)| <= 1
  {
    assert !EndsWith(value, "\n") by {
      if value != [] { assert !IsLineBoundary(value[|value| - 1]); }
    }
  }

  /** Visible first and last characters are not whitespace strings. */
  lemma VisibleTextEnds(value: string)
    requires value != [] ==> !IsSpace(value[0]) && !IsSpace(value[|value| - 1])
    ensures !PyIsSpace(if value == [] then [] else value[..1])
    ensures !PyIsSpace(if value == [] then [] else value[|value| - 1..])
  {
    if value != [] {
      assert value[..1] == [value[0]];
      assert value[|value| - 1..] == [value[|value| - 1]];
    }
  }
}
