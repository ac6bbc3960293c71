/** What single lines do to the state of the TypeScript `_load`
    (xtn-vscode/server/src/parser.ts): close markers, key lines, block lines, and
    a member that `dump` writes inline read back as itself. */
module XtnTsLines {
  import opened Xtn
  import opened XtnTs

  /** The key half of a line with a colon, as `_load` cuts it. */
  function KeyOf(origLine: string): string {
    TrimEnd(Partition(Trim(origLine), ":").left)
  }

  /** The value half of a line with a colon. */
  function ValueOf(origLine: string): string {
    TrimStart(Partition(Trim(origLine), ":").right)
  }

  /** A key that opens nothing: present, no container or block suffix. */
  predicate ScalarKey(left: string) {
    left != [] && !EndsWith(left, "{}") && !EndsWith(left, "[]") && !EndsWith(left, "''")
  }

  // ---------------------------------------------------------------------------
  // Close markers

  /** Outside a block a close marker is exactly `----` once the line is trimmed:
      a fifth dash, or anything else after the four, makes it another line. */
  lemma CloseMarkerExact(origLine: string)
    ensures IsCloseMarker(Trim(origLine)) <==> Trim(origLine) == "----"
  {
    CloseMarkerVisible(Trim(origLine));
  }

  /** The same for any text with visible ends. */
  lemma CloseMarkerVisible(t: string)
    requires t == [] || (!IsSpace(t[0]) && !IsSpace(t[|t| - 1]))
    ensures IsCloseMarker(t) <==> t == "----"
  {
    if IsCloseMarker(t) {
      var tail := t[4..];
      TrimEndEmptyIffAllSpace(tail);
      assert t == "----" + tail;
      TrimEndSpaceSuffix("----", tail);
      VisibleEnds(t);
    } else {
      assert t != "----" by {
        assert "----"[4..] == [];
      }
    }
  }

  /** A trimmed line that is neither empty nor a comment and has no colon is a
      close marker or an error. */
  lemma StepOtherLine(st: LoadState, i: int, origLine: string)
    requires Valid(st) && !Top(st).MultilineState?
    requires Trim(origLine) != [] && Trim(origLine)[0] != '#'
    requires forall k :: 0 <= k < |Trim(origLine)| ==> Trim(origLine)[k] != ':'
    ensures Step(st, i, origLine) == OtherLine(st, i, Trim(origLine))
  {
    NoColonLine(st, i, origLine);
    assert Step(st, i, origLine) == StructuralLine(st, i, origLine);
  }

  /** The same on the structural branch, which `Step` takes outside a block. */
  lemma NoColonLine(st: LoadState, i: int, origLine: string)
    requires Valid(st) && !Top(st).MultilineState?
    requires Trim(origLine) != [] && Trim(origLine)[0] != '#'
    requires forall k :: 0 <= k < |Trim(origLine)| ==> Trim(origLine)[k] != ':'
    ensures StructuralLine(st, i, origLine) == OtherLine(st, i, Trim(origLine))
  {
    NoColonParts(Trim(origLine));
  }

  /** A trimmed line with no colon that is no comment is not cut: it is all key. */
  lemma NoColonParts(line: string)
    requires line != [] && line[0] != '#' && !IsSpace(line[0]) && !IsSpace(line[|line| - 1])
    requires forall k :: 0 <= k < |line| ==> line[k] != ':'
    ensures !(StartsWith(line, "#") || line == [])
    ensures Partition(line, ":") == Parts(line, "", "") && TrimEnd(line) == line
  {
    assert !StartsWith(line, "#") by { assert line[..1] == [line[0]]; }
    AbsentChar(line, ':');
    VisibleEnds(line);
  }

  /** Reading the trimmed line `----` outside a block is closing the top frame. */
  lemma DashesLine(st: LoadState, i: int, origLine: string)
    requires Valid(st) && !Top(st).MultilineState? && Trim(origLine) == "----"
    ensures Step(st, i, origLine) == CloseFrame(st, i)
  {
    var line := Trim(origLine);
    assert line[0] == '-' && forall k :: 0 <= k < |line| ==> line[k] == '-';
    StepOtherLine(st, i, origLine);
    CloseMarkerExact(origLine);
    assert OtherLine(st, i, line) == CloseFrame(st, i);
  }

  /** A close marker with only the root open is unmatched. */
  lemma UnmatchedClose(st: LoadState, i: int, origLine: string)
    requires Valid(st) && |st.stack| == 1 && Trim(origLine) == "----"
    ensures Step(st, i, origLine) == Err(ParseError(UnmatchedCloseMarker, i))
  {
    DashesLine(st, i, origLine);
  }

  /** `-----` is not a close marker: in an object it lacks a colon, in an array
      it lacks the plus. */
  lemma FiveDashesNotClose(st: LoadState, i: int)
    requires Valid(st) && !Top(st).MultilineState?
    ensures Step(st, i, "-----") == Err(ParseError(
      if Top(st).ArrayState? then ArrayElementMustStartWithPlus else MissingColon, i))
  {
    var line: string := "-----";
    VisibleEnds(line);
    StepOtherLine(st, i, line);
    assert !IsCloseMarker(line) by {
      assert line[4..] == "-";
    }
  }

  // ---------------------------------------------------------------------------
  // Key lines

  /** A trimmed line that is neither empty, nor a comment, and holds a colon is a
      key line cut at its first colon. */
  lemma StepKeyLine(st: LoadState, i: int, origLine: string)
    requires Valid(st) && !Top(st).MultilineState?
    requires Trim(origLine) != [] && Trim(origLine)[0] != '#' && IndexOf(Trim(origLine), ":") >= 0
    ensures KeyOf(origLine) != [] ==> KeyOf(origLine)[0] == Trim(origLine)[0]
    ensures Step(st, i, origLine) == KeyLine(st, i, origLine, KeyOf(origLine), ValueOf(origLine))
  {
    var line := Trim(origLine);
    assert !StartsWith(line, "#") by { assert line[..1] == [line[0]]; }
    assert Step(st, i, origLine) == StructuralLine(st, i, origLine);
  }

  /** A scalar key in an object, or any scalar key in an array, sets text. */
  lemma KeyLineScalar(st: LoadState, i: int, origLine: string, left: string, right: string)
    requires Valid(st) && !Top(st).MultilineState?
    requires Trim(origLine) != [] && (left != [] ==> left[0] == Trim(origLine)[0])
    requires ScalarKey(left) && (Top(st).ObjectState? ==> left[0] != '+')
    ensures KeyLine(st, i, origLine, left, right) == SetText(st, i, left, right)
  {
    assert Top(st).ObjectState? ==> !StartsWith(left, "+") by { assert left[..1] == [left[0]]; }
  }

  /** `SetText` in an object: a fresh normalised key is appended with the converted
      value and the buffered comments. */
  lemma SetTextInObject(st: LoadState, i: int, left: string, right: string)
    requires Valid(st) && Top(st).ObjectState? && Top(st).target.Object?
    ensures var r := SetText(st, i, left, right);
      var key := CollapseSpaces(left);
      var es := Top(st).target.entries;
      (HasKey(es, key) ==> r == Err(ParseError(ObjectKeysCannotBeRepeated, i)))
      && (!HasKey(es, key) ==> (r.Ok? && r.value.comments == []
          && |r.value.stack| == |st.stack| && Pop(r.value.stack) == Pop(st.stack)
          && Top(r.value).ObjectState? && Top(r.value).target.Object?
          && Top(r.value).target.entries
             == es + [Entry(key, Text(SpacesToPlain(right), false, st.comments, []))]))
  {
    var key := CollapseSpaces(left);
    var es := Top(st).target.entries;
    if !HasKey(es, key) {
      var s1 := StateSet(Top(st), left, RawText(right), true, i);
      assert s1.Ok?;
      var t := s1.value.target;
      assert t.entries == es + [Entry(key, NewText(SpacesToPlain(right), false, []))];
      var a := AttachComments(LastChild(t), st.comments);
      assert a.0 == Text(SpacesToPlain(right), false, st.comments, []);
      SetLastAfterAppendEntry(t, es, key, LastChild(t), a.0);
    }
  }

  /** `SetText` in an array: only the key `+` appends an element. */
  lemma SetTextInArray(st: LoadState, i: int, left: string, right: string)
    requires Valid(st) && Top(st).ArrayState? && Top(st).target.Array?
    ensures var r := SetText(st, i, left, right);
      var key := CollapseSpaces(left);
      var els := Top(st).target.elements;
      (key != "+" && StartsWith(key, "+") ==> r == Err(ParseError(ArrayElementMustNotHaveAKey, i)))
      && (!StartsWith(key, "+") ==> r == Err(ParseError(ArrayElementMustStartWithPlus, i)))
      && (key == "+" ==> (r.Ok? && r.value.comments == []
          && |r.value.stack| == |st.stack| && Pop(r.value.stack) == Pop(st.stack)
          && Top(r.value).ArrayState? && Top(r.value).target.Array?
          && Top(r.value).target.elements
             == els + [Text(SpacesToPlain(right), false, st.comments, [])]))
  {
    var key := CollapseSpaces(left);
    var els := Top(st).target.elements;
    if key == "+" {
      var s1 := StateSet(Top(st), left, RawText(right), true, i);
      assert s1.Ok?;
      var t := s1.value.target;
      assert t.elements == els + [NewText(SpacesToPlain(right), false, [])];
      var a := AttachComments(LastChild(t), st.comments);
      assert a.0 == Text(SpacesToPlain(right), false, st.comments, []);
      SetLastAfterAppendElement(t, els, LastChild(t), a.0);
    }
  }

  /** `key: value` in an object: the key is normalised by collapsing whitespace runs
      and the value by turning each whitespace character into a space; a key already
      present is refused; otherwise exactly one member is appended at the end and
      takes the buffered comments. */
  lemma ObjectPairLine(st: LoadState, i: int, origLine: string)
    requires Valid(st) && Top(st).ObjectState? && Top(st).target.Object?
    requires Trim(origLine) != [] && Trim(origLine)[0] != '#' && IndexOf(Trim(origLine), ":") >= 0
    requires ScalarKey(KeyOf(origLine)) && KeyOf(origLine)[0] != '+'
    ensures var r := Step(st, i, origLine);
      var key := CollapseSpaces(KeyOf(origLine));
      var es := Top(st).target.entries;
      (HasKey(es, key) ==> r == Err(ParseError(ObjectKeysCannotBeRepeated, i)))
      && (!HasKey(es, key) ==> (r.Ok? && r.value.comments == []
          && |r.value.stack| == |st.stack| && Pop(r.value.stack) == Pop(st.stack)
          && Top(r.value).ObjectState? && Top(r.value).target.Object?
          && Top(r.value).target.entries
             == es + [Entry(key, Text(SpacesToPlain(ValueOf(origLine)), false, st.comments, []))]))
  {
    StepKeyLine(st, i, origLine);
    KeyLineScalar(st, i, origLine, KeyOf(origLine), ValueOf(origLine));
    SetTextInObject(st, i, KeyOf(origLine), ValueOf(origLine));
  }

  /** `+: value` in an array appends exactly one element holding the value and the
      buffered comments; a key other than `+` is refused, as a named element when
      it starts with `+` and as a missing plus otherwise. */
  lemma ArrayElementLine(st: LoadState, i: int, origLine: string)
    requires Valid(st) && Top(st).ArrayState? && Top(st).target.Array?
    requires Trim(origLine) != [] && Trim(origLine)[0] != '#' && IndexOf(Trim(origLine), ":") >= 0
    requires ScalarKey(KeyOf(origLine))
    ensures var r := Step(st, i, origLine);
      var key := CollapseSpaces(KeyOf(origLine));
      var els := Top(st).target.elements;
      (key != "+" && StartsWith(key, "+") ==> r == Err(ParseError(ArrayElementMustNotHaveAKey, i)))
      && (!StartsWith(key, "+") ==> r == Err(ParseError(ArrayElementMustStartWithPlus, i)))
      && (key == "+" ==> (r.Ok? && r.value.comments == []
          && |r.value.stack| == |st.stack| && Pop(r.value.stack) == Pop(st.stack)
          && Top(r.value).ArrayState? && Top(r.value).target.Array?
          && Top(r.value).target.elements
             == els + [Text(SpacesToPlain(ValueOf(origLine)), false, st.comments, [])]))
  {
    StepKeyLine(st, i, origLine);
    KeyLineScalar(st, i, origLine, KeyOf(origLine), ValueOf(origLine));
    SetTextInArray(st, i, KeyOf(origLine), ValueOf(origLine));
  }

  /** The outcome of opening an object member `key` on the object frame on top of
      `st`: a repeated key is refused; otherwise the object gets one new member, an
      empty object holding the buffered comments, and that object's frame goes on top. */
  predicate ObjectOpened(st: LoadState, i: int, key: string, r: Result<LoadState>)
    requires Valid(st) && Top(st).ObjectState? && Top(st).target.Object?
  {
    var es := Top(st).target.entries;
    (HasKey(es, key) ==> r == Err(ParseError(ObjectKeysCannotBeRepeated, i)))
    && (!HasKey(es, key) ==> (r.Ok? && r.value.comments == []
        && |r.value.stack| == |st.stack| + 1 && r.value.stack[..|st.stack| - 1] == Pop(st.stack)
        && Top(r.value) == ObjectState(i, NewObject(st.comments), false)
        && r.value.stack[|st.stack| - 1].ObjectState?
        && r.value.stack[|st.stack| - 1].target.Object?
        && r.value.stack[|st.stack| - 1].target.entries == es + [Entry(key, NewObject(st.comments))]))
  }

  /** `key{}:` in an object: a fresh key gets an empty object holding the buffered
      comments, and that object's frame goes on top. */
  lemma OpenObjectLine(st: LoadState, i: int, origLine: string)
    requires Valid(st) && Top(st).ObjectState? && Top(st).target.Object?
    requires Trim(origLine) != [] && Trim(origLine)[0] != '#' && IndexOf(Trim(origLine), ":") >= 0
    requires var left := KeyOf(origLine);
      left != [] && left[0] != '+' && EndsWith(left, "{}") && ValueOf(origLine) == []
    ensures var left := KeyOf(origLine);
      ObjectOpened(st, i, CollapseSpaces(TrimEnd(left[..|left| - 2])), Step(st, i, origLine))
  {
    var left := KeyOf(origLine);
    StepKeyLine(st, i, origLine);
    KeyLineOpensObject(st, i, origLine, left, ValueOf(origLine));
    OpenObjectInObject(st, i, TrimEnd(left[..|left| - 2]));
  }

  /** `key{}:` with nothing after the colon, outside an array, opens an object. */
  lemma KeyLineOpensObject(st: LoadState, i: int, origLine: string, left: string, right: string)
    requires Valid(st) && Top(st).ObjectState?
    requires Trim(origLine) != [] && (left != [] ==> left[0] == Trim(origLine)[0])
    requires left != [] && left[0] != '+' && EndsWith(left, "{}") && right == []
    ensures KeyLine(st, i, origLine, left, right)
      == OpenContainer(st, i, TrimEnd(left[..|left| - 2]), RawObject)
  {
    assert !StartsWith(left, "+") by { assert left[..1] == [left[0]]; }
  }

  /** `OpenContainer` for an object in an object. */
  lemma OpenObjectInObject(st: LoadState, i: int, name: string)
    requires Valid(st) && Top(st).ObjectState? && Top(st).target.Object?
    ensures ObjectOpened(st, i, CollapseSpaces(name), OpenContainer(st, i, name, RawObject))
  {
    var key := CollapseSpaces(name);
    var es := Top(st).target.entries;
    if !HasKey(es, key) {
      var s1 := StateSet(Top(st), name, RawObject, true, i);
      assert s1.Ok?;
      var t := s1.value.target;
      assert t.entries == es + [Entry(key, NewObject([]))];
      var a := AttachComments(LastChild(t), st.comments);
      assert a.0 == NewObject(st.comments);
      SetLastAfterAppendEntry(t, es, key, LastChild(t), a.0);
    }
  }

  // ---------------------------------------------------------------------------
  // Block lines

  /** The first body line of a block fixes its expected indentation: the key's
      indentation plus one more unit of it (a tab, or four spaces); under an
      unindented key a tab when that line starts with a tab, four spaces otherwise.
      The result is again spaces only or tabs only. */
  lemma ExpectedIndentRule(f: Frame, line: string)
    requires f.MultilineState? && f.expIndent.None? && BlockIndent(f.indent)
    ensures var tabs := if f.indent != [] then f.indent[0] == '\t' else line != [] && line[0] == '\t';
      var g := WithExpectedIndent(f, line);
      g.expIndent == Some(f.indent + (if tabs then "\t" else "    "))
      && g.indentChar == (if tabs then '\t' else ' ')
      && BlockIndent(g.expIndent.value)
  {
    var g := WithExpectedIndent(f, line);
    if f.indent != [] {
      var c := f.indent[0];
      if c == '\t' {
        assert Repeat(c, 1) == "\t";
        assert forall k :: 0 <= k < |f.indent| ==> f.indent[k] == '\t';
      } else {
        assert Repeat(c, 4) == "    ";
        assert forall k :: 0 <= k < |f.indent| ==> f.indent[k] == ' ';
      }
    } else {
      assert f.indent + "\t" == "\t" && f.indent + "    " == "    ";
    }
    var e := g.expIndent.value;
    assert forall k :: 0 <= k < |e| ==> e[k] == g.indentChar;
  }

  /** A block line indented as deep as the body adds everything after the expected
      indentation to the text, terminator included; so a `----` indented like the
      body is text, not a close marker. */
  lemma FullIndentIsText(st: LoadState, i: int, line: string)
    requires Valid(st) && Top(st).MultilineState?
    requires var f := WithExpectedIndent(Top(st), line);
      ActualIndent(line, |f.expIndent.value|, f.indentChar) == |f.expIndent.value|
    ensures var f := WithExpectedIndent(Top(st), line);
      var r := Step(st, i, line);
      r.Ok? && r.value.comments == st.comments
      && |r.value.stack| == |st.stack| && Pop(r.value.stack) == Pop(st.stack)
      && Top(r.value) == f.(text := Top(st).text + line[|f.expIndent.value|..])
  {
  }

  /** A block line that ends before reaching the body indentation (a blank line)
      adds its terminator to the text. */
  lemma ShortBlankLine(st: LoadState, i: int, line: string)
    requires Valid(st) && Top(st).MultilineState?
    requires var f := WithExpectedIndent(Top(st), line);
      var a := ActualIndent(line, |f.expIndent.value|, f.indentChar);
      a < |f.expIndent.value| && a < |line| && IsBreak(line[a])
    ensures var f := WithExpectedIndent(Top(st), line);
      var a := ActualIndent(line, |f.expIndent.value|, f.indentChar);
      var r := Step(st, i, line);
      r.Ok? && r.value.comments == st.comments
      && |r.value.stack| == |st.stack| && Pop(r.value.stack) == Pop(st.stack)
      && Top(r.value) == f.(text := Top(st).text + line[a..])
  {
    var f := WithExpectedIndent(Top(st), line);
    var a := ActualIndent(line, |f.expIndent.value|, f.indentChar);
    var prefix := IndentStop(line, |f.expIndent.value|, f.indentChar);
    assert prefix == [line[a]] && (prefix == "\n" || prefix == "\r");
    assert line[a..][0] == line[a];
    assert |line[a..]| < 4 || line[a..][..4][0] == line[a];
    assert !StartsWith(line[a..], "----") by { assert "----"[0] == '-'; }
    assert Step(st, i, line) == MultilineLine(st, i, line);
  }

  /** Whitespace other than the block's indentation character inside the expected
      indentation is mixed indentation. */
  lemma MixedBlockIndent(st: LoadState, i: int, line: string)
    requires Valid(st) && Top(st).MultilineState?
    requires var f := WithExpectedIndent(Top(st), line);
      var a := ActualIndent(line, |f.expIndent.value|, f.indentChar);
      a < |f.expIndent.value| && a < |line| && IsSpace(line[a]) && !IsBreak(line[a])
    ensures Step(st, i, line) == Err(ParseError(IndentationMustNotBeMixed, i))
  {
    var f := WithExpectedIndent(Top(st), line);
    var a := ActualIndent(line, |f.expIndent.value|, f.indentChar);
    OneCharWhiteSpace([line[a]]);
  }

  /** A close marker short of the body indentation but not at the key's
      indentation is refused. */
  lemma WrongCloseIndent(st: LoadState, i: int, line: string)
    requires Valid(st) && Top(st).MultilineState?
    requires var f := WithExpectedIndent(Top(st), line);
      var a := ActualIndent(line, |f.expIndent.value|, f.indentChar);
      a < |f.expIndent.value| && IsCloseMarker(line[a..]) && a != |Top(st).indent|
    ensures Step(st, i, line) == Err(ParseError(IncorrectIndentation, i))
  {
    var f := WithExpectedIndent(Top(st), line);
    var a := ActualIndent(line, |f.expIndent.value|, f.indentChar);
    assert line[a..][..4] == "----";
    OneCharWhiteSpace([line[a]]);
  }

  /** Any other visible line short of the body indentation is refused. */
  lemma ShortLine(st: LoadState, i: int, line: string)
    requires Valid(st) && Top(st).MultilineState?
    requires var f := WithExpectedIndent(Top(st), line);
      var a := ActualIndent(line, |f.expIndent.value|, f.indentChar);
      a < |f.expIndent.value| && a < |line| && !IsSpace(line[a]) && !IsCloseMarker(line[a..])
    ensures Step(st, i, line) == Err(ParseError(InsufficientIndentation, i))
  {
    var f := WithExpectedIndent(Top(st), line);
    var a := ActualIndent(line, |f.expIndent.value|, f.indentChar);
    OneCharWhiteSpace([line[a]]);
  }

  /** A last line that ends inside the body indentation, with no terminator, stops
      at the empty string, which the whitespace test accepts: it is reported as
      mixed indentation. */
  lemma EndInsideIndent(st: LoadState, i: int, line: string)
    requires Valid(st) && Top(st).MultilineState?
    requires var f := WithExpectedIndent(Top(st), line);
      ActualIndent(line, |f.expIndent.value|, f.indentChar) == |line| < |f.expIndent.value|
    ensures Step(st, i, line) == Err(ParseError(IndentationMustNotBeMixed, i))
  {
    var f := WithExpectedIndent(Top(st), line);
    assert IndentStop(line, |f.expIndent.value|, f.indentChar) == [];
  }

  /** A close marker at the key's indentation closes the block. */
  lemma BlockCloseStep(st: LoadState, i: int, line: string)
    requires Valid(st) && Top(st).MultilineState?
    requires var f := WithExpectedIndent(Top(st), line);
      var a := ActualIndent(line, |f.expIndent.value|, f.indentChar);
      a < |f.expIndent.value| && a == |Top(st).indent| && IsCloseMarker(line[a..])
    ensures Step(st, i, line) == CloseMultiline(st, WithExpectedIndent(Top(st), line), i)
  {
    var f := WithExpectedIndent(Top(st), line);
    var a := ActualIndent(line, |f.expIndent.value|, f.indentChar);
    assert line[a..][..4] == "----";
    assert !MixedStop(IndentStop(line, |f.expIndent.value|, f.indentChar)) by {
      assert line[a] == line[a..][..4][0];
    }
    assert Step(st, i, line) == MultilineLine(st, i, line);
  }

  /** `CloseMultiline` under an object frame. */
  lemma CloseInObject(st: LoadState, f: Frame, i: int)
    requires Valid(st) && Top(st).MultilineState? && |st.stack| >= 2
    requires st.stack[|st.stack| - 2].ObjectState? && st.stack[|st.stack| - 2].target.Object?
    requires f.MultilineState? && f.name == Top(st).name && f.text == Top(st).text
    ensures var r := CloseMultiline(st, f, i);
      var key := CollapseSpaces(Top(st).name);
      var es := st.stack[|st.stack| - 2].target.entries;
      (HasKey(es, key) ==> r == Err(ParseError(ObjectKeysCannotBeRepeated, i)))
      && (!HasKey(es, key) ==> (r.Ok? && r.value.comments == []
          && |r.value.stack| == |st.stack| - 1
          && r.value.stack[..|st.stack| - 2] == st.stack[..|st.stack| - 2]
          && Top(r.value).ObjectState? && Top(r.value).target.Object?
          && Top(r.value).target.entries
             == es + [Entry(key, Text(TrimEndOfLine(Top(st).text), true, st.comments, []))]))
  {
    var key := CollapseSpaces(Top(st).name);
    var parent := st.stack[|st.stack| - 2];
    var es := parent.target.entries;
    var v := TrimEndOfLine(f.text);
    var s1 := StateSet(parent, f.name, RawText(v), false, i);
    if !HasKey(es, key) {
      assert s1.Ok?;
      var t := s1.value.target;
      assert t.entries == es + [Entry(key, NewText(v, false, []))];
      var a := AttachComments(LastChild(t).(forceMultiline := true), st.comments);
      assert a.0 == Text(v, true, st.comments, []);
      SetLastAfterAppendEntry(t, es, key, LastChild(t), a.0);
      var r := CloseMultiline(st, f, i);
      assert r.Ok? && Top(r.value) == WithTarget(s1.value, SetLastChild(t, a.0));
    } else {
      assert s1 == Err(ParseError(ObjectKeysCannotBeRepeated, i));
    }
  }

  /** `CloseMultiline` under an array frame. */
  lemma CloseInArray(st: LoadState, f: Frame, i: int)
    requires Valid(st) && Top(st).MultilineState? && |st.stack| >= 2
    requires st.stack[|st.stack| - 2].ArrayState? && st.stack[|st.stack| - 2].target.Array?
    requires f.MultilineState? && f.name == Top(st).name && f.text == Top(st).text
    ensures var r := CloseMultiline(st, f, i);
      var key := CollapseSpaces(Top(st).name);
      var els := st.stack[|st.stack| - 2].target.elements;
      (key != "+" ==> r.Err?)
      && (key == "+" ==> (r.Ok? && r.value.comments == []
          && |r.value.stack| == |st.stack| - 1
          && r.value.stack[..|st.stack| - 2] == st.stack[..|st.stack| - 2]
          && Top(r.value).ArrayState? && Top(r.value).target.Array?
          && Top(r.value).target.elements
             == els + [Text(TrimEndOfLine(Top(st).text), true, st.comments, [])]))
  {
    var key := CollapseSpaces(Top(st).name);
    var parent := st.stack[|st.stack| - 2];
    var els := parent.target.elements;
    var v := TrimEndOfLine(f.text);
    var s1 := StateSet(parent, f.name, RawText(v), false, i);
    if key == "+" {
      assert s1.Ok?;
      var t := s1.value.target;
      assert t.elements == els + [NewText(v, false, [])];
      var a := AttachComments(LastChild(t).(forceMultiline := true), st.comments);
      assert a.0 == Text(v, true, st.comments, []);
      SetLastAfterAppendElement(t, els, LastChild(t), a.0);
      var r := CloseMultiline(st, f, i);
      assert r.Ok? && Top(r.value) == WithTarget(s1.value, SetLastChild(t, a.0));
    } else {
      assert s1.Err?;
    }
  }

  /** A close marker at the key's indentation ends a block inside an object: the
      object gets one new member holding the text without its final terminator,
      without whitespace conversion, marked `force_multiline` and carrying the
      buffered comments; a key already present is refused. */
  lemma BlockCloseInObject(st: LoadState, i: int, line: string)
    requires Valid(st) && Top(st).MultilineState? && |st.stack| >= 2
    requires st.stack[|st.stack| - 2].ObjectState? && st.stack[|st.stack| - 2].target.Object?
    requires var f := WithExpectedIndent(Top(st), line);
      var a := ActualIndent(line, |f.expIndent.value|, f.indentChar);
      a < |f.expIndent.value| && a == |Top(st).indent| && IsCloseMarker(line[a..])
    ensures var r := Step(st, i, line);
      var key := CollapseSpaces(Top(st).name);
      var es := st.stack[|st.stack| - 2].target.entries;
      (HasKey(es, key) ==> r == Err(ParseError(ObjectKeysCannotBeRepeated, i)))
      && (!HasKey(es, key) ==> (r.Ok? && r.value.comments == []
          && |r.value.stack| == |st.stack| - 1
          && r.value.stack[..|st.stack| - 2] == st.stack[..|st.stack| - 2]
          && Top(r.value).ObjectState? && Top(r.value).target.Object?
          && Top(r.value).target.entries
             == es + [Entry(key, Text(TrimEndOfLine(Top(st).text), true, st.comments, []))]))
  {
    BlockCloseStep(st, i, line);
    CloseInObject(st, WithExpectedIndent(Top(st), line), i);
  }

  /** A close marker at the key's indentation ends a block inside an array: the
      array gets one new element holding the text, marked `force_multiline` and
      carrying the buffered comments; a key other than `+` is refused. */
  lemma BlockCloseInArray(st: LoadState, i: int, line: string)
    requires Valid(st) && Top(st).MultilineState? && |st.stack| >= 2
    requires st.stack[|st.stack| - 2].ArrayState? && st.stack[|st.stack| - 2].target.Array?
    requires var f := WithExpectedIndent(Top(st), line);
      var a := ActualIndent(line, |f.expIndent.value|, f.indentChar);
      a < |f.expIndent.value| && a == |Top(st).indent| && IsCloseMarker(line[a..])
    ensures var r := Step(st, i, line);
      var key := CollapseSpaces(Top(st).name);
      var els := st.stack[|st.stack| - 2].target.elements;
      (key != "+" ==> r.Err?)
      && (key == "+" ==> (r.Ok? && r.value.comments == []
          && |r.value.stack| == |st.stack| - 1
          && r.value.stack[..|st.stack| - 2] == st.stack[..|st.stack| - 2]
          && Top(r.value).ArrayState? && Top(r.value).target.Array?
          && Top(r.value).target.elements
             == els + [Text(TrimEndOfLine(Top(st).text), true, st.comments, [])]))
  {
    BlockCloseStep(st, i, line);
    CloseInArray(st, WithExpectedIndent(Top(st), line), i);
  }

  // ---------------------------------------------------------------------------
  // Dump, then load

  /** A key `dump` can write inline and `_load` reads back unchanged: visible first
      and last characters, no colon, no `#` or `+` in front, whitespace only as
      single spaces, and no container or block suffix. */
  predicate PlainKey(name: string) {
    name != [] && !IsSpace(name[0]) && !IsSpace(name[|name| - 1])
    && name[0] != '#' && name[0] != '+'
    && (forall k :: 0 <= k < |name| ==> name[k] != ':')
    && (forall k :: 0 <= k < |name| && IsSpace(name[k]) ==> name[k] == ' ')
    && (forall k :: 0 <= k < |name| - 1 ==> !(name[k] == ' ' && name[k + 1] == ' '))
    && ScalarKey(name)
  }

  /** The line `name: value` that `dump` writes for an inline member is cut back
      into the same key and value. */
  lemma InlineLineParts(name: string, value: string)
    requires PlainKey(name) && !TextUsesBlock(value, false)
    ensures var line := name + ": " + value + "\n";
      Trim(line) != [] && Trim(line)[0] == name[0] && IndexOf(Trim(line), ":") >= 0
      && KeyOf(line) == name && ValueOf(line) == value
  {
    InlineTrim(name, value);
    InlineCut(name, value);
  }

  /** The trimmed inline line starts with the key and is cut at the colon after
      it, back into the key and the value. */
  lemma InlineCut(name: string, value: string)
    requires PlainKey(name) && !TextUsesBlock(value, false)
    ensures var u := InlineTrimmed(name, value);
      u != [] && u[0] == name[0] && IndexOf(u, ":") >= 0
      && TrimEnd(Partition(u, ":").left) == name && TrimStart(Partition(u, ":").right) == value
  {
    InlineShape(name, value);
    InlinePartition(name, value);
    VisibleEnds(name);
    InlineValue(value);
  }

  /** The trimmed inline line splits at the colon after the key. */
  lemma InlinePartition(name: string, value: string)
    requires PlainKey(name)
    ensures var u := InlineTrimmed(name, value);
      IndexOf(u, ":") == |name|
      && Partition(u, ":") == Parts(name, ":", if value == [] then [] else [' '] + value)
  {
    var u := InlineTrimmed(name, value);
    InlineShape(name, value);
    FirstChar(u, ':', |name|);
  }

  /** The value half after the colon loses exactly the separating space. */
  lemma InlineValue(value: string)
    requires !TextUsesBlock(value, false)
    ensures TrimStart(if value == [] then [] else [' '] + value) == value
  {
    if value != [] {
      TextBlockIff(value, false);
      var rest := [' '] + value;
      ConsTail([' '], value);
      assert rest[1..] == value by { assert [' '][1..] == []; }
      assert TrimStart(rest) == TrimStart(value);
      VisibleEnds(value);
    }
  }

  /** The inline line of `name: value` once trimmed. */
  function InlineTrimmed(name: string, value: string): string {
    if value == [] then name + ":" else name + ": " + value
  }

  lemma InlineTrim(name: string, value: string)
    requires PlainKey(name) && !TextUsesBlock(value, false)
    ensures Trim(name + ": " + value + "\n") == InlineTrimmed(name, value)
  {
    TextBlockIff(value, false);
    var line := name + ": " + value + "\n";
    var u := InlineTrimmed(name, value);
    var w := if value == [] then " \n" else "\n";
    assert line == u + w;
    assert TrimStart(line) == line by {
      assert line[0] == name[0];
    }
    assert u == [] || !IsSpace(u[|u| - 1]);
    TrimEndSpaceSuffix(u, w);
  }

  lemma InlineShape(name: string, value: string)
    requires PlainKey(name)
    ensures var u := InlineTrimmed(name, value);
      |u| > |name| && u[..|name|] == name && u[|name|] == ':'
      && (forall k :: 0 <= k < |name| ==> u[k] != ':')
      && u[|name| + 1..] == if value == [] then [] else [' '] + value
  {
  }

  /** A member that `dump` writes inline reads back as the same member: in an
      object without that key, the line adds exactly `name` with `value`, and the
      buffered comments go to it. */
  lemma InlinePairRoundTrip(st: LoadState, i: int, name: string, value: string)
    requires Valid(st) && Top(st).ObjectState? && Top(st).target.Object?
    requires PlainKey(name) && !TextUsesBlock(value, false)
    requires !HasKey(Top(st).target.entries, name)
    ensures var r := Step(st, i, DumpPair(name, Text(value, false, [], []), ""));
      r.Ok? && r.value.comments == []
      && |r.value.stack| == |st.stack| && Pop(r.value.stack) == Pop(st.stack)
      && Top(r.value).ObjectState? && Top(r.value).target.Object?
      && Top(r.value).target.entries
         == Top(st).target.entries + [Entry(name, Text(value, false, st.comments, []))]
  {
    var line := name + ": " + value + "\n";
    InlineDump(name, value);
    InlineLineParts(name, value);
    CollapseNormal(name);
    InlinePlainValue(value);
    ObjectPairLine(st, i, line);
  }

  /** `write_pair` on an inline text without comments writes one line. */
  lemma InlineDump(name: string, value: string)
    requires !TextUsesBlock(value, false)
    ensures DumpPair(name, Text(value, false, [], []), "") == name + ": " + value + "\n"
  {
    assert DumpComments([], "") == [];
    assert "" + name == name;
  }

  /** An inline value has no whitespace that conversion would change. */
  lemma InlinePlainValue(value: string)
    requires !TextUsesBlock(value, false)
    ensures SpacesToPlain(value) == value
  {
    TextBlockIff(value, false);
    var r := SpacesToPlain(value);
    forall k | 0 <= k < |value| ensures r[k] == value[k] {
      assert !Non32Space(value[k]);
    }
  }
}
