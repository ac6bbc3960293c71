/** What single lines do to the state of the older Python `_load` (xtn.py), and
    what its `dump` writes read back: comments, block markers, `+` and `-`
    lines, repeated keys. */
module XtnOldLines {
  import opened Xtn
  import opened XtnOld
  import XtnPy

  // ---------------------------------------------------------------------------
  // Block markers

  /** The marker of a text occurs nowhere in the text. */
  lemma MarkerAbsent(value: string)
    ensures forall j :: 0 <= j <= |value| ==> !OccursAt(value, Marker(value), j)
  {
    var m := Marker(value);
    forall j | 0 <= j <= |value| ensures !OccursAt(value, m, j) {
      if OccursAt(value, m, j) {
        forall k | j <= k < j + |m| ensures value[k] == '\'' {
          assert value[k] == value[j..j + |m|][k - j];
        }
        assert RunAt(value, '\'', j, |m|);
        RunAtCovers(value, '\'', j, |m|);
      }
    }
  }

  /** The position after the line break that ends the first line (`\r\n`
      counting as one). */
  function NextLine(s: string): (n: nat)
    requires FirstBoundary(s) < |s|
    ensures FirstBoundary(s) < n <= |s|
  {
    var b := FirstBoundary(s);
    if s[b] == '\r' && b + 1 < |s| && s[b + 1] == '\n' then b + 2 else b + 1
  }

  /** `splitlines` of a string with a line break: its first line, then the
      lines of what follows the break. */
  lemma SplitLinesStep(s: string)
    requires FirstBoundary(s) < |s|
    ensures var lines := SplitLines(s);
      |lines| == 1 + |SplitLines(s[NextLine(s)..])| && lines[0] == s[..FirstBoundary(s)]
      && forall k :: 0 < k < |lines| ==> lines[k] == SplitLines(s[NextLine(s)..])[k - 1]
  {
  }

  /** A string in which `m` does not occur has no line starting with `m`. */
  lemma {:induction false} NoLineStartsWith(s: string, m: string)
    requires m != [] && forall j :: 0 <= j <= |s| ==> !OccursAt(s, m, j)
    ensures forall k :: 0 <= k < |SplitLines(s)| ==> !StartsWith(SplitLines(s)[k], m)
    decreases |s|
  {
    if s != [] {
      var b := FirstBoundary(s);
      assert !OccursAt(s, m, 0);
      assert |m| <= b ==> s[..b][..|m|] == s[..|m|];
      if b < |s| {
        var t := s[NextLine(s)..];
        NoMatchInSuffix(s, m, NextLine(s));
        NoLineStartsWith(t, m);
        SplitLinesStep(s);
      } else {
        assert s[..b] == s;
      }
    }
  }

  /** What does not occur in a string does not occur in a suffix of it. */
  lemma NoMatchInSuffix(s: string, m: string, n: nat)
    requires n <= |s| && forall j :: 0 <= j <= |s| ==> !OccursAt(s, m, j)
    ensures forall j :: 0 <= j <= |s[n..]| ==> !OccursAt(s[n..], m, j)
  {
    var t := s[n..];
    forall j | 0 <= j <= |t| ensures !OccursAt(t, m, j) {
      assert !OccursAt(s, m, n + j);
      assert j + |m| <= |t| ==> t[j..j + |m|] == s[n + j..n + j + |m|];
    }
  }

  /** A line of `dump`'s block form, read back inside that block, stays in the
      text: the indentation comes off whole and what is left, the line with its
      line break, never starts with the marker. */
  lemma BlockLineStays(value: string, inner: string, k: nat)
    requires inner != [] && AllSpace(inner) && k < |XtnPy.TextLines(value)|
    ensures var line := XtnPy.TextLines(value)[k];
      BodyText(inner + line + "\n", |inner|) == line + "\n"
      && !Closes(BodyText(inner + line + "\n", |inner|), Marker(value))
  {
    var l := XtnPy.TextLines(value)[k];
    IndentedBody(inner, l);
    TextLineNoMarker(value, k);
    NotClosing(l, Marker(value));
  }

  /** Taking the whitespace indentation off a written body line leaves the line
      and its line feed. */
  lemma IndentedBody(inner: string, l: string)
    requires inner != [] && AllSpace(inner)
    ensures BodyText(inner + l + "\n", |inner|) == l + "\n"
  {
    var full := inner + l + "\n";
    assert full[..|inner|] == inner;
    assert Cut(full, |inner|) == |inner|;
    assert full[|inner|..] == l + "\n";
  }

  /** No line of the block form starts with the text's marker. */
  lemma TextLineNoMarker(value: string, k: nat)
    requires k < |XtnPy.TextLines(value)|
    ensures !StartsWith(XtnPy.TextLines(value)[k], Marker(value))
  {
    var l := XtnPy.TextLines(value)[k];
    MarkerAbsent(value);
    NoLineStartsWith(value, Marker(value));
    assert k < |SplitLines(value)| ==> l == SplitLines(value)[k];
    assert k >= |SplitLines(value)| ==> l == [];
  }

  /** A line that does not start with a quote marker does not close the block
      once its line feed is added. */
  lemma NotClosing(l: string, m: string)
    requires forall k :: 0 <= k < |m| ==> m[k] == '\''
    requires !StartsWith(l, m)
    ensures !Closes(l + "\n", m)
  {
    assert |m| <= |l| ==> (l + "\n")[..|m|] == l[..|m|];
    assert |m| == |l| + 1 ==> (l + "\n")[|m| - 1] == '\n';
  }

  /** The marker line `dump` writes before a block's lines reads back as that
      marker at that indentation. */
  lemma MarkerLineReadBack(inner: string, m: string)
    requires AllSpace(inner) && |m| >= 4 && forall k :: 0 <= k < |m| ==> m[k] == '\''
    ensures var rest := TrimStart(inner + m + "\n");
      StartsWith(rest, "''''") && TrimEnd(rest) == m && |inner + m + "\n"| - |rest| == |inner|
  {
    assert inner + m + "\n" == inner + (m + "\n");
    SkipSpaces(inner, m + "\n");
    FourQuotes(m + "\n");
    BreakTrimmed(m);
  }

  /** The same line inside the block closes it. */
  lemma CloseLineReadBack(inner: string, m: string)
    requires AllSpace(inner)
    ensures Closes(BodyText(inner + m + "\n", |inner|), m)
  {
    var line := inner + m + "\n";
    if inner == [] {
      assert Cut(line, 0) == 0;
    } else {
      assert line[..|inner|] == inner;
      assert Cut(line, |inner|) == |inner|;
    }
    assert line[|inner|..] == m + "\n";
    assert (m + "\n")[..|m|] == m;
    assert (m + "\n")[|m|..] == "\n";
  }

  lemma FourQuotes(s: string)
    requires |s| >= 4 && s[0] == s[1] == s[2] == s[3] == '\''
    ensures StartsWith(s, "''''")
  {
  }

  /** A line break after a visible character is all that `TrimEnd` removes. */
  lemma BreakTrimmed(v: string)
    requires v != [] && !IsSpace(v[|v| - 1])
    ensures TrimEnd(v + "\n") == v
  {
    assert (v + "\n")[..|v|] == v;
  }

  /** The marker `dump` writes as the source has it, for a text holding the
      line `''''` and no backtick: that very line, so the block written for the
      text is closed by its own first line on reading, while the marker
      measured on single quotes is twice as long. */
  lemma QuoteLineClosesEarly()
    ensures XtnPy.TextLines("''''") == ["''''"]
    ensures MarkerAsWritten("''''") == "''''"
    ensures Closes(BodyText("    " + "''''" + "\n", 4), MarkerAsWritten("''''"))
    ensures Marker("''''") == "''''''''"
  {
    QuoteLines();
    QuoteMarkers();
    CloseLineReadBack("    ", "''''");
  }

  lemma QuoteLines()
    ensures XtnPy.TextLines("''''") == ["''''"]
  {
    var v: string := "''''";
    assert FirstBoundary(v) == 4;
  }

  lemma QuoteMarkers()
    ensures MarkerAsWritten("''''") == "''''"
    ensures Marker("''''") == "''''''''"
  {
    var v: string := "''''";
    NoRun(v, '`');
    FullRun(v, '\'');
    assert Repeat('\'', 4) == v;
    assert Repeat('\'', 8) == "''''''''";
  }

  lemma {:induction false} NoRun(s: string, c: char)
    requires forall k :: 0 <= k < |s| ==> s[k] != c
    ensures LongestRun(s, c) == 0
  {
    if s != [] {
      NoRun(s[1..], c);
    }
  }

  lemma {:induction false} FullRun(s: string, c: char)
    requires forall k :: 0 <= k < |s| ==> s[k] == c
    ensures LongestRun(s, c) == |s|
  {
    if s != [] {
      FullRun(s[1..], c);
      LeadRunCovers(s, c, |s|);
    }
  }

  // ---------------------------------------------------------------------------
  // Comments

  /** A one-line comment whose text has visible ends and does not start with
      `#` is written as `#`, its prefix, a space and the text. */
  lemma CommentWritten(indent: string, v: string, prefix: string)
    requires v != [] && !IsSpace(v[0]) && !IsSpace(v[|v| - 1])
    requires forall k :: 0 <= k < |v| ==> !IsLineBoundary(v[k])
    ensures DumpComment(Comment(v, prefix), indent) == indent + "#" + prefix + " " + v + "\n"
  {
    assert FirstBoundary(v) == |v|;
    assert !EndsWith(v, "\n") by {
      assert v[|v| - 1] == v[|v| - 1..][0];
    }
    assert XtnPy.CommentText(v) == [v];
    assert TrimEnd(v) == v;
    assert [v][1..] == [];
    assert CommentLines([v], prefix, indent) == indent + "#" + prefix + " " + v + "\n" + CommentLines([], prefix, indent);
  }

  /** Such a line, indented and with its line break, reads back as the same
      comment: the prefix is the `#` after the first, the space goes. */
  lemma CommentRead(indent: string, v: string, prefix: string)
    requires AllSpace(indent)
    requires v != [] && !IsSpace(v[0]) && v[0] != '#' && !IsSpace(v[|v| - 1])
    requires forall k :: 0 <= k < |prefix| ==> prefix[k] == '#'
    ensures var line := Trim(indent + "#" + prefix + " " + v + "\n");
      line != [] && line[0] == '#' && CommentOf(line) == Comment(v, prefix)
  {
    var h := "#" + prefix;
    var r := " " + v;
    Regroup(indent, "#", prefix, " ", v, "\n");
    VisibleLine(indent, h + r);
    CommentOfParts(h, r, prefix, v);
  }

  /** An indented line with visible ends and its line break trims to itself. */
  lemma VisibleLine(indent: string, body: string)
    requires AllSpace(indent) && body != [] && !IsSpace(body[0]) && !IsSpace(body[|body| - 1])
    ensures Trim(indent + (body + "\n")) == body
  {
    SkipSpaces(indent, body + "\n");
    BreakTrimmed(body);
  }

  lemma CommentOfParts(h: string, r: string, prefix: string, v: string)
    requires h == "#" + prefix && r == " " + v
    requires v != [] && !IsSpace(v[0]) && v[0] != '#'
    requires forall k :: 0 <= k < |prefix| ==> prefix[k] == '#'
    ensures (h + r)[0] == '#' && CommentOf(h + r) == Comment(v, prefix)
  {
    HashRun(prefix);
    TrimHashes(h, r);
    assert Repeat('#', |prefix|) == prefix;
    assert r[1..] == v;
  }

  lemma Regroup(a: string, b: string, c: string, d: string, e: string, f: string)
    ensures a + b + c + d + e + f == a + ((b + c) + (d + e) + f)
  {
  }

  lemma HashRun(prefix: string)
    requires forall k :: 0 <= k < |prefix| ==> prefix[k] == '#'
    ensures forall k :: 0 <= k < |"#" + prefix| ==> ("#" + prefix)[k] == '#'
  {
  }

  /** `lstrip('#')` of a run of `#` before anything else. */
  lemma {:induction false} TrimHashes(p: string, rest: string)
    requires forall k :: 0 <= k < |p| ==> p[k] == '#'
    requires rest == [] || rest[0] != '#'
    ensures TrimLeftChar(p + rest, '#') == rest
    decreases |p|
  {
    if p != [] {
      assert (p + rest)[1..] == p[1..] + rest;
      TrimHashes(p[1..], rest);
    } else {
      assert p + rest == rest;
    }
  }

  // ---------------------------------------------------------------------------
  // Lines outside a block

  /** Any other line is cut at its first colon. */
  lemma KeyValueOf(s: seq<Frame>, comments: seq<Comment>, i: int, orig: string)
    requires StackOk(s) && !Top(s).MultilineState?
    requires Trim(orig) != [] && Trim(orig)[0] != '#'
    ensures StructuralLine(s, comments, i, orig) == KeyValueLine(s, comments, i, KeyOf(orig), ValueOf(orig))
  {
  }

  /** A line starting with a colon has an empty key. */
  lemma ColonFirst(s: seq<Frame>, comments: seq<Comment>, i: int, orig: string)
    requires StackOk(s) && !Top(s).MultilineState?
    requires Trim(orig) != [] && Trim(orig)[0] == ':'
    ensures StructuralLine(s, comments, i, orig) == Err(ParseError(LineMustNotStartWithColon, i + 1))
  {
    FirstChar(Trim(orig), ':', 0);
    assert Partition(Trim(orig), ":").left == [];
    KeyValueOf(s, comments, i, orig);
  }

  /** A line without a colon: the whole line is the key and the value is empty. */
  lemma NoColonParts(orig: string)
    requires var line := Trim(orig);
      line != [] && forall k :: 0 <= k < |line| ==> line[k] != ':'
    ensures KeyOf(orig) == Trim(orig) && ValueOf(orig) == []
  {
    var line := Trim(orig);
    AbsentChar(line, ':');
    assert Partition(line, ":") == Parts(line, "", "");
    assert TrimStart(line) == line;
    assert TrimEnd(line) == line;
  }

  /** A line without a colon is a key with an empty value: in an object it
      stores the empty text under the whole line. */
  lemma NoColonKey(s: seq<Frame>, comments: seq<Comment>, i: int, orig: string)
    requires StackOk(s) && Top(s).ObjectState?
    requires var line := Trim(orig);
      line != [] && line[0] != '#' && line[0] != '+' && line[0] != '-'
      && (forall k :: 0 <= k < |line| ==> line[k] != ':')
      && !EndsWith(line, "{}") && !EndsWith(line, "[]") && !EndsWith(line, "''")
    ensures StructuralLine(s, comments, i, orig)
      == Ok(Loading(Pop(s) + [Insert(Top(s), CollapseSpaces(Trim(orig)), Text([], false, comments, []))], []))
  {
    NoColonParts(orig);
    KeyValueOf(s, comments, i, orig);
    ScalarKeyLine(s, comments, i, Trim(orig), []);
  }

  /** A key that opens nothing and does not start with `-` stores a text. */
  lemma ScalarKeyLine(s: seq<Frame>, comments: seq<Comment>, i: int, left: string, right: string)
    requires StackOk(s) && !Top(s).MultilineState? && left != [] && left[0] != '-'
    requires !(left[0] == '+' && Top(s).ObjectState?)
    requires !EndsWith(left, "{}") && !EndsWith(left, "[]") && !EndsWith(left, "''")
    ensures KeyValueLine(s, comments, i, left, right) == SetText(s, comments, i, left, right)
  {
  }

  /** `+` in an array element object ends that object: the object becomes an
      element of the array below it, and the line is then an element of that
      array, here a text. */
  lemma PlusEndsElement(s: seq<Frame>, comments: seq<Comment>, i: int, right: string)
    requires StackOk(s) && Top(s).ObjectState? && Top(s).inArray
    ensures |s| >= 2 && s[|s| - 2].ArrayState?
    ensures var r := KeyValueLine(s, comments, i, "+", right);
      r.Ok? && r.value.Loading? && r.value.comments == [] && |r.value.stack| == |s| - 1
      && Pop(r.value.stack) == Pop(Pop(s)) && Top(r.value.stack).ArrayState?
      && Top(r.value.stack).target.elements
         == s[|s| - 2].target.elements + [Top(s).target, Text(SpacesToPlain(right), false, comments, [])]
  {
    var s1 := PopInto(s);
    assert KeyValueLine(s, comments, i, "+", right) == KeyLine(s1, comments, i, "+", right);
    ScalarKeyLine(s1, comments, i, "+", right);
    assert CollapseSpaces("+") == "+";
    ArrayElementSet(s1, comments, i, "+", right);
  }

  /** A key that opens nothing and starts with `-`. */
  predicate DashKey(k: string) {
    k != [] && k[0] == '-' && !EndsWith(k, "{}") && !EndsWith(k, "[]") && !EndsWith(k, "''")
  }

  /** A `-` key closes, whatever the value. */
  lemma DashLine(s: seq<Frame>, comments: seq<Comment>, i: int, left: string, right: string)
    requires StackOk(s) && !Top(s).MultilineState? && DashKey(left)
    ensures KeyValueLine(s, comments, i, left, right) == CloseFrame(s, comments)
  {
  }

  /** A `-` line in an array element object closes two frames: the object
      goes into the array, the array takes the comments as trailing comments
      and goes into the frame below. */
  lemma DashEndsElementAndArray(s: seq<Frame>, comments: seq<Comment>, i: int, left: string, right: string)
    requires StackOk(s) && Top(s).ObjectState? && Top(s).inArray && DashKey(left)
    ensures |s| >= 3 && s[|s| - 2].ArrayState? && !s[|s| - 3].MultilineState?
    ensures var r := KeyValueLine(s, comments, i, left, right);
      var arr := s[|s| - 2];
      r.Ok? && r.value.Loading? && r.value.comments == [] && |r.value.stack| == |s| - 2
      && Pop(r.value.stack) == s[..|s| - 3]
      && Top(r.value.stack) == Insert(s[|s| - 3], arr.key, WithTrail(AppendElement(arr.target, Top(s).target), comments))
  {
    DashLine(s, comments, i, left, right);
    CloseElementAndArray(s, comments);
  }

  lemma CloseElementAndArray(s: seq<Frame>, comments: seq<Comment>)
    requires StackOk(s) && Top(s).ObjectState? && Top(s).inArray
    ensures |s| >= 3 && s[|s| - 2].ArrayState? && !s[|s| - 3].MultilineState?
    ensures var r := CloseFrame(s, comments);
      var arr := s[|s| - 2];
      r.Ok? && r.value.Loading? && r.value.comments == [] && |r.value.stack| == |s| - 2
      && Pop(r.value.stack) == s[..|s| - 3]
      && Top(r.value.stack) == Insert(s[|s| - 3], arr.key, WithTrail(AppendElement(arr.target, Top(s).target), comments))
  {
    assert FrameOk(s[|s| - 3]) && FrameOk(s[|s| - 2]);
    var s1 := PopInto(s);
    assert EndElement(s) == s1;
    assert Pop(s1) == s[..|s| - 2];
    assert Pop(Pop(s1)) == s[..|s| - 3];
  }

  /** A `-` line in the root closes it: it takes the comments as trailing
      comments, and every later line raises `IndexError`. */
  lemma DashClosesRoot(s: seq<Frame>, comments: seq<Comment>, i: int, left: string, right: string, later: seq<string>)
    requires StackOk(s) && |s| == 1 && DashKey(left)
    ensures KeyValueLine(s, comments, i, left, right) == Ok(Closed(WithTrail(s[0].target, comments)))
    ensures later != [] ==>
      Run(Closed(WithTrail(s[0].target, comments)), later, i + 1) == Err(ParseError(EmptyStackIndexError, i + 2))
  {
    DashLine(s, comments, i, left, right);
    assert FrameOk(s[0]);
  }

  /** A `-` line in any other container closes it into the frame below, with
      the comments as its trailing comments. */
  lemma DashClosesContainer(s: seq<Frame>, comments: seq<Comment>, i: int, left: string, right: string)
    requires StackOk(s) && |s| >= 2 && !Top(s).MultilineState? && !(Top(s).ObjectState? && Top(s).inArray)
    requires DashKey(left)
    ensures var r := KeyValueLine(s, comments, i, left, right);
      r.Ok? && r.value.Loading? && r.value.comments == [] && |r.value.stack| == |s| - 1
      && Pop(r.value.stack) == Pop(Pop(s))
      && Top(r.value.stack) == Insert(s[|s| - 2], Top(s).key, WithTrail(Top(s).target, comments))
  {
    DashLine(s, comments, i, left, right);
    assert FrameOk(Top(s));
  }

  // ---------------------------------------------------------------------------
  // `set`

  /** A repeated object key is no error: the member keeps its place and takes
      the new value, and nothing else changes. */
  lemma RepeatedKeyOverwrites(s: seq<Frame>, comments: seq<Comment>, i: int, left: string, right: string)
    requires StackOk(s) && Top(s).ObjectState? && HasKey(Top(s).target.entries, CollapseSpaces(left))
    ensures var r := SetText(s, comments, i, left, right);
      var es := Top(s).target.entries;
      var key := CollapseSpaces(left);
      var j := KeyIndex(es, key);
      0 <= j < |es| && r.Ok? && r.value.Loading?
      && Top(r.value.stack).target.entries == es[j := Entry(key, Text(SpacesToPlain(right), false, comments, []))]
  {
    assert FrameOk(Top(s));
  }

  /** An array takes a text only under the name `+`, and appends it. */
  lemma ArrayElementSet(s: seq<Frame>, comments: seq<Comment>, i: int, left: string, right: string)
    requires StackOk(s) && Top(s).ArrayState?
    ensures var r := SetText(s, comments, i, left, right);
      (CollapseSpaces(left) != "+" ==> r == Err(ParseError(ArrayElementMustStartWithPlus, i + 1)))
      && (CollapseSpaces(left) == "+" ==>
            r.Ok? && r.value.Loading? && |r.value.stack| == |s|
            && Top(r.value.stack).target.elements == Top(s).target.elements + [Text(SpacesToPlain(right), false, comments, [])])
  {
  }

  // ---------------------------------------------------------------------------
  // Block lines

  /** A marker line with no line break after it, the last line of a stream,
      does not close the block: the marker becomes part of the text, and the
      block is dropped at the end of input. */
  lemma FinalMarkerStaysOpen(s: seq<Frame>, comments: seq<Comment>, i: int, inner: string)
    requires StackOk(s) && Top(s).MultilineState? && Top(s).marker != []
    requires AllSpace(inner) && |inner| == Top(s).indent
    ensures var f := Top(s);
      Step(Loading(s, comments), i, inner + f.marker)
      == Ok(Loading(Pop(s) + [MultilineState(f.startLine, f.name, f.marker, f.text + f.marker, f.indent)], comments))
  {
    var m := Top(s).marker;
    var line := inner + m;
    if inner == [] {
      assert Cut(line, 0) == 0;
    } else {
      assert line[..|inner|] == inner;
      assert Cut(line, |inner|) == |inner|;
    }
    assert line[|inner|..] == m;
    assert !Closes(m, m);
  }

  /** The same line with its line break closes the block. */
  lemma MarkerLineCloses(s: seq<Frame>, comments: seq<Comment>, i: int, inner: string)
    requires StackOk(s) && Top(s).MultilineState? && Top(s).marker != []
    requires AllSpace(inner) && |inner| == Top(s).indent
    ensures |s| >= 2
    ensures Step(Loading(s, comments), i, inner + Top(s).marker + "\n") == CloseBlock(s, comments, i)
  {
    assert FrameOk(Top(s));
    CloseLineReadBack(inner, Top(s).marker);
  }

  // ---------------------------------------------------------------------------
  // A text member written inline and read back

  /** A one-line text with visible ends is written inline. */
  lemma InlineWritten(name: string, v: string, indent: string)
    requires v != [] && !IsSpace(v[0]) && !IsSpace(v[|v| - 1])
    requires forall k :: 0 <= k < |v| ==> !IsLineBoundary(v[k])
    ensures DumpPair(name, Text(v, false, [], []), indent, true) == indent + name + ": " + v + "\n"
  {
    assert FirstBoundary(v) == |v|;
    assert !EndsWith(v, "\n") by {
      assert v[|v| - 1] == v[|v| - 1..][0];
    }
    assert |XtnPy.TextLines(v)| == 1;
  }

  /** A name without whitespace or colon, a value with visible ends and no
      whitespace but spaces. */
  predicate InlineMember(name: string, v: string) {
    name != [] && (forall k :: 0 <= k < |name| ==> !IsSpace(name[k]) && name[k] != ':')
    && v != [] && !IsSpace(v[0]) && !IsSpace(v[|v| - 1])
    && (forall k :: 0 <= k < |v| ==> v[k] == ' ' || !IsSpace(v[k]))
  }

  /** The inline line cuts back into the name and the value. */
  lemma InlineParts(indent: string, name: string, v: string)
    requires AllSpace(indent) && InlineMember(name, v)
    ensures var line := indent + name + ": " + v + "\n";
      Trim(line) == name + ": " + v && KeyOf(line) == name && ValueOf(line) == v
  {
    InlineTrim(indent, name, v);
    InlineKey(indent, name, v);
    InlineValue(indent, name, v);
  }

  lemma InlineKey(indent: string, name: string, v: string)
    requires AllSpace(indent) && InlineMember(name, v)
    ensures KeyOf(indent + name + ": " + v + "\n") == name
  {
    InlineTrim(indent, name, v);
    InlineSplit(name, v);
    TrimVisible(name);
  }

  lemma InlineValue(indent: string, name: string, v: string)
    requires AllSpace(indent) && InlineMember(name, v)
    ensures ValueOf(indent + name + ": " + v + "\n") == v
  {
    InlineTrim(indent, name, v);
    InlineSplit(name, v);
    TrimAfterSpace(v);
  }

  lemma TrimAfterSpace(v: string)
    requires v != [] && !IsSpace(v[0]) && !IsSpace(v[|v| - 1])
    ensures Trim(" " + v) == v
  {
    assert AllSpace(" ");
    SkipSpaces(" ", v);
    TrimVisible(v);
  }

  lemma TrimVisible(s: string)
    requires s != [] && !IsSpace(s[0]) && !IsSpace(s[|s| - 1])
    ensures TrimStart(s) == s && TrimEnd(s) == s && Trim(s) == s
  {
  }

  lemma InlineTrim(indent: string, name: string, v: string)
    requires AllSpace(indent) && InlineMember(name, v)
    ensures Trim(indent + name + ": " + v + "\n") == name + ": " + v
  {
    var body := name + ": " + v;
    assert body[0] == name[0];
    assert body[|body| - 1] == v[|v| - 1];
    VisibleLine(indent, body);
    Regroup5(indent, name, ": ", v, "\n");
  }

  lemma Regroup5(a: string, b: string, c: string, d: string, e: string)
    ensures a + b + c + d + e == a + ((b + c + d) + e)
  {
  }

  lemma InlineSplit(name: string, v: string)
    requires InlineMember(name, v)
    ensures Partition(name + ": " + v, ":") == Parts(name, ":", " " + v)
  {
    var body := name + ": " + v;
    FirstChar(body, ':', |name|);
    assert body[..|name|] == name;
    assert body[|name| + 1..] == " " + v;
  }

  /** Read inside an object, the inline line stores the same text under the
      same name. */
  lemma InlineRead(s: seq<Frame>, comments: seq<Comment>, i: int, indent: string, name: string, v: string)
    requires StackOk(s) && Top(s).ObjectState? && AllSpace(indent) && InlineMember(name, v)
    requires name[0] != '#' && name[0] != '+' && name[0] != '-'
    requires !EndsWith(name, "{}") && !EndsWith(name, "[]") && !EndsWith(name, "''")
    ensures StructuralLine(s, comments, i, indent + name + ": " + v + "\n")
      == Ok(Loading(Pop(s) + [Insert(Top(s), name, Text(v, false, comments, []))], []))
  {
    var line := indent + name + ": " + v + "\n";
    InlineParts(indent, name, v);
    KeyValueOf(s, comments, i, line);
    ScalarKeyLine(s, comments, i, name, v);
    NoSpaceCollapse(name);
    PlainSpaces(v);
  }

  lemma {:induction false} NoSpaceCollapse(s: string)
    requires forall k :: 0 <= k < |s| ==> !IsSpace(s[k])
    ensures CollapseSpaces(s) == s
  {
    if s != [] {
      NoSpaceCollapse(s[1..]);
    }
  }

  lemma {:induction false} PlainSpaces(s: string)
    requires forall k :: 0 <= k < |s| ==> s[k] == ' ' || !IsSpace(s[k])
    ensures SpacesToPlain(s) == s
  {
    if s != [] {
      PlainSpaces(s[1..]);
    }
  }
}
