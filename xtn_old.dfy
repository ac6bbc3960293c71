/** The older Python implementation (xtn.py), a dialect of its own: a block is
    delimited by a line of at least four single quotes chosen by the writer, `+`
    implicitly closes an object that is an array element, any key starting with `-`
    closes the current container, repeated object keys overwrite, and there is no
    unmatched or missing close marker error. Lines come from the stream one by one,
    each with its line break; errors report them counted from 1. */
module XtnOld {
  import opened Xtn
  import XtnPy

  // ---------------------------------------------------------------------------
  // Frames

  /** `_ObjectState`, `_ArrayState` and `_MultilineState`. A container frame
      holds its node and the key it is stored under in the frame below; a block
      frame holds the marker (empty until its first line), the indentation of the
      marker line and the text so far. */
  datatype Frame =
    | ObjectState(startLine: int, key: string, target: Node, inArray: bool)
    | ArrayState(startLine: int, key: string, target: Node)
    | MultilineState(startLine: int, name: string, marker: string, text: string, indent: nat)

  /** The `_load` locals between two lines: the stack and the comment buffer, or,
      once a `-` line has closed the root, only the finished root (the stack is
      then empty and the next line raises `IndexError`). */
  datatype LoadState =
    | Loading(stack: seq<Frame>, comments: seq<Comment>)
    | Closed(root: Node)

  predicate FrameOk(f: Frame) {
    (f.ObjectState? ==> f.target.Object? && UniqueDeep(f.target))
    && (f.ArrayState? ==> f.target.Array? && UniqueDeep(f.target))
    && (f.MultilineState? && f.marker != [] ==> |f.marker| >= 4 && f.marker[..4] == "''''")
  }

  /** The root object is at the bottom and is no array element, a block frame is
      only ever on top, and an object frame is an array element exactly when the
      frame below it is an array (`in_array=state.mode == _Mode.ARRAY`). */
  predicate StackOk(s: seq<Frame>) {
    |s| >= 1 && s[0].ObjectState? && !s[0].inArray
    && (forall k :: 0 <= k < |s| ==> FrameOk(s[k]))
    && (forall k :: 0 <= k < |s| - 1 ==> !s[k].MultilineState?)
    && (forall k :: 0 < k < |s| && s[k].ObjectState? ==> (s[k].inArray <==> s[k - 1].ArrayState?))
  }

  predicate Valid(st: LoadState) {
    match st
    case Loading(s, _) => StackOk(s)
    case Closed(root) => root.Object? && UniqueDeep(root)
  }

  function Initial(): (st: LoadState)
    ensures Valid(st) && st.Loading? && |st.stack| == 1 && st.comments == []
    ensures st.stack[0].target == NewObject([])
  {
    Loading([ObjectState(-1, [], NewObject([]), false)], [])
  }

  function Top(s: seq<Frame>): Frame
    requires |s| > 0
  {
    s[|s| - 1]
  }

  function Pop(s: seq<Frame>): seq<Frame>
    requires |s| > 0
  {
    s[..|s| - 1]
  }

  /** Replacing the top frame by one of the same kind keeps the stack well formed. */
  lemma ReplaceTop(s: seq<Frame>, f: Frame)
    requires StackOk(s) && FrameOk(f)
    requires f.ObjectState? == Top(s).ObjectState? && f.ArrayState? == Top(s).ArrayState?
    requires f.ObjectState? ==> f.inArray == Top(s).inArray
    ensures StackOk(Pop(s) + [f])
  {
    var r := Pop(s) + [f];
    forall k | 0 <= k < |r| ensures FrameOk(r[k]) {
      if k < |s| - 1 { assert r[k] == s[k]; }
    }
    forall k | 0 < k < |r| && r[k].ObjectState? ensures r[k].inArray <==> r[k - 1].ArrayState? {
      assert r[k - 1] == s[k - 1];
      if k < |s| - 1 { assert r[k] == s[k]; }
    }
  }

  /** Pushing a frame onto a container frame keeps the stack well formed. */
  lemma Push(s: seq<Frame>, f: Frame)
    requires StackOk(s) && !Top(s).MultilineState? && FrameOk(f)
    requires f.ObjectState? ==> (f.inArray <==> Top(s).ArrayState?)
    ensures StackOk(s + [f])
  {
    var r := s + [f];
    forall k | 0 <= k < |r| ensures FrameOk(r[k]) {
      if k < |s| { assert r[k] == s[k]; }
    }
    forall k | 0 < k < |r| && r[k].ObjectState? ensures r[k].inArray <==> r[k - 1].ArrayState? {
      assert r[k - 1] == s[k - 1];
      if k < |s| { assert r[k] == s[k]; }
    }
  }

  /** The stack without its top frame is well formed. */
  lemma PopOk(s: seq<Frame>)
    requires StackOk(s) && |s| >= 2
    ensures StackOk(Pop(s)) && !Top(Pop(s)).MultilineState?
  {
    var r := Pop(s);
    forall k | 0 <= k < |r| ensures FrameOk(r[k]) { assert r[k] == s[k]; }
    forall k | 0 < k < |r| && r[k].ObjectState? ensures r[k].inArray <==> r[k - 1].ArrayState? {
      assert r[k] == s[k] && r[k - 1] == s[k - 1];
    }
  }

  // ---------------------------------------------------------------------------
  // `set`

  /** `_ArrayState.set` refuses any name but `+`; `_ObjectState.set` refuses none. */
  predicate KeyRefused(f: Frame, key: string) {
    f.ArrayState? && key != "+"
  }

  /** `set` once it has accepted the name: an object stores the child under the
      name (an existing name keeps its place and takes the new value), an array
      appends it. */
  function Insert(f: Frame, key: string, child: Node): (r: Frame)
    requires FrameOk(f) && !f.MultilineState? && UniqueDeep(child)
    ensures FrameOk(r) && r.ObjectState? == f.ObjectState? && r.ArrayState? == f.ArrayState?
    ensures r.startLine == f.startLine && r.key == f.key
    ensures f.ObjectState? ==> r.inArray == f.inArray && r.target == PutMember(f.target, key, child)
    ensures f.ArrayState? ==> r.target == AppendElement(f.target, child)
  {
    if f.ObjectState? then ObjectState(f.startLine, f.key, PutMember(f.target, key, child), f.inArray)
    else ArrayState(f.startLine, f.key, AppendElement(f.target, child))
  }

  /** `stack.pop()` of a container: its node goes into the frame below under the
      key it was opened with (where the source stored it when it opened). */
  function PopInto(s: seq<Frame>): (r: seq<Frame>)
    requires StackOk(s) && |s| >= 2 && !Top(s).MultilineState?
    ensures StackOk(r) && |r| == |s| - 1 && Pop(r) == Pop(Pop(s))
    ensures Top(r) == Insert(s[|s| - 2], Top(s).key, Top(s).target)
    ensures Top(s).ObjectState? && Top(s).inArray ==> Top(r).ArrayState?
  {
    PopOk(s);
    var f := Insert(s[|s| - 2], Top(s).key, Top(s).target);
    ReplaceTop(Pop(s), f);
    Pop(Pop(s)) + [f]
  }

  /** `trail_comments = comments.copy()` when the buffer is not empty. */
  function WithTrail(n: Node, cs: seq<Comment>): (r: Node)
    requires IsContainer(n)
    ensures r.Object? == n.Object? && r.Array? == n.Array?
    ensures r.Object? ==> r.entries == n.entries
    ensures r.Array? ==> r.elements == n.elements
    ensures r.above == n.above && r.innerTop == n.innerTop && r.below == n.below
    ensures r.innerBottom == if cs == [] then n.innerBottom else cs
    ensures UniqueDeep(r) == UniqueDeep(n)
  {
    var b := if cs == [] then n.innerBottom else cs;
    if n.Object? then Object(n.entries, n.above, n.innerTop, b, n.below)
    else Array(n.elements, n.above, n.innerTop, b, n.below)
  }

  // ---------------------------------------------------------------------------
  // `record_comment`

  /** `record_comment` (the stripped line is empty or starts with `#`): all
      leading `#` go, one fewer than their number is the prefix, one whitespace
      character after them goes, and whitespace only is a blank comment. */
  function CommentOf(line: string): (c: Comment)
    requires line == [] || line[0] == '#'
    ensures line == [] ==> c == BlankComment
    ensures forall k :: 0 <= k < |c.prefix| ==> c.prefix[k] == '#'
    ensures |c.prefix| < |line| || c.prefix == []
  {
    if line == [] then BlankComment
    else
      var value := TrimLeftChar(line, '#');
      var prefix := Repeat('#', |line| - |value| - 1);
      var v := if value != [] && IsSpace(value[0]) then value[1..] else value;
      if PyIsSpace(v) then BlankComment else Comment(v, prefix)
  }

  // ---------------------------------------------------------------------------
  // One line of `_load`

  function Step(st: LoadState, i: int, line: string): (r: Result<LoadState>)
    requires Valid(st)
    ensures r.Ok? ==> Valid(r.value)
    ensures st.Closed? ==> r == Err(ParseError(EmptyStackIndexError, i + 1))
  {
    match st
    case Closed(_) => Err(ParseError(EmptyStackIndexError, i + 1))
    case Loading(s, comments) =>
      if Top(s).MultilineState? then
        if Top(s).marker == [] then MarkerLine(s, comments, i, line)
        else BodyLine(s, comments, i, line)
      else StructuralLine(s, comments, i, line)
  }

  /** The first line of a block: after its leading whitespace it must start with
      four single quotes; it fixes the marker (right-trimmed) and the indentation
      (the length of that whitespace). */
  function MarkerLine(s: seq<Frame>, comments: seq<Comment>, i: int, line: string): (r: Result<LoadState>)
    requires StackOk(s) && Top(s).MultilineState? && Top(s).marker == []
    ensures r.Ok? ==> Valid(r.value)
    ensures var rest := TrimStart(line);
      r.Err? <==> !StartsWith(rest, "''''")
    ensures r.Err? ==> r.error == ParseError(MultilineMarkerTooShort, i + 1)
    ensures r.Ok? ==> var f := Top(s); var rest := TrimStart(line);
      r.value == Loading(Pop(s) + [MultilineState(f.startLine, f.name, TrimEnd(rest), f.text, |line| - |rest|)], comments)
  {
    var rest := TrimStart(line);
    if !StartsWith(rest, "''''") then Err(ParseError(MultilineMarkerTooShort, i + 1))
    else
      var f := Top(s);
      MarkerFrameOk(s, comments, line);
      Ok(Loading(Pop(s) + [MultilineState(f.startLine, f.name, TrimEnd(rest), f.text, |line| - |rest|)], comments))
  }

  /** The block frame with its marker and indentation fixed keeps the stack
      valid. */
  lemma MarkerFrameOk(s: seq<Frame>, comments: seq<Comment>, line: string)
    requires StackOk(s) && Top(s).MultilineState? && Top(s).marker == []
    requires StartsWith(TrimStart(line), "''''")
    ensures var f := Top(s); var rest := TrimStart(line);
      Valid(Loading(Pop(s) + [MultilineState(f.startLine, f.name, TrimEnd(rest), f.text, |line| - |rest|)], comments))
  {
    var f := Top(s);
    var rest := TrimStart(line);
    QuotesSurviveTrim(rest);
    ReplaceTop(s, MultilineState(f.startLine, f.name, TrimEnd(rest), f.text, |line| - |rest|));
  }

  /** Right-trimming keeps four leading quotes. */
  lemma QuotesSurviveTrim(rest: string)
    requires StartsWith(rest, "''''")
    ensures |TrimEnd(rest)| >= 4 && TrimEnd(rest)[..4] == "''''"
  {
    var m := TrimEnd(rest);
    assert rest[3] == '\'' && !IsSpace(rest[3]);
    assert |m| >= 4;
    assert m[..4] == rest[..4];
  }

  /** The whitespace characters a line starts with. */
  function Lead(line: string): (n: nat)
    ensures n <= |line| && AllSpace(line[..n]) && (n < |line| ==> !IsSpace(line[n]))
  {
    var t := TrimStart(line);
    assert line[|line| - |t|..] == t;
    |line| - |t|
  }

  /** How much of a body line is taken off: `line[0:indent]` when it is
      whitespace only (possibly past the end of a short line), otherwise only its
      leading whitespace. */
  function Cut(line: string, indent: nat): nat {
    var prefix := line[..if indent < |line| then indent else |line|];
    if PyIsSpace(prefix) then indent else |prefix| - |TrimStart(prefix)|
  }

  /** A body line with the indentation taken off; an empty rest becomes a line
      feed. */
  function BodyText(line: string, indent: nat): (r: string)
    ensures r != []
  {
    var cut := Cut(line, indent);
    var rest := if cut <= |line| then line[cut..] else [];
    if rest == [] then "\n" else rest
  }

  /** What `Cut` removes is the line's leading whitespace, but no more than the
      indentation of the marker line. */
  lemma CutIsLead(line: string, indent: nat)
    ensures var cut := Cut(line, indent);
      (if cut < |line| then cut else |line|) == if Lead(line) < indent then Lead(line) else indent
  {
    var n := if indent < |line| then indent else |line|;
    var prefix := line[..n];
    if PyIsSpace(prefix) {
      SpacesThenTrim(line, n);
      assert Cut(line, indent) == indent;
    } else if prefix != [] {
      PrefixTrim(line, prefix);
      assert Cut(line, indent) == Lead(line);
    } else {
      assert Cut(line, indent) == 0;
    }
  }

  /** A whitespace-only start is part of what `TrimStart` drops. */
  lemma {:induction false} SpacesThenTrim(s: string, n: nat)
    requires n <= |s| && AllSpace(s[..n])
    ensures Lead(s) >= n
    decreases n
  {
    if n > 0 {
      assert s[0] == s[..n][0];
      assert s[1..][..n - 1] == s[..n][1..];
      SpacesThenTrim(s[1..], n - 1);
    }
  }

  /** A prefix holding a visible character loses to `TrimStart` what the whole
      line loses. */
  lemma {:induction false} PrefixTrim(s: string, p: string)
    requires p != [] && |p| <= |s| && p == s[..|p|] && !PyIsSpace(p)
    ensures |p| - |TrimStart(p)| == Lead(s) && Lead(s) < |p|
    decreases |p|
  {
    if IsSpace(p[0]) {
      assert p[1..] == s[1..][..|p| - 1];
      PrefixTrim(s[1..], p[1..]);
    }
  }

  /** A line that ends the block: the indentation taken off, the marker followed
      by whitespace only, at least one character of it (the line break, so a
      marker on a last line without one does not end the block). */
  predicate Closes(body: string, marker: string) {
    StartsWith(body, marker) && PyIsSpace(body[|marker|..])
  }

  /** A block line once the marker is known: a closing line ends the block,
      any other line (with its line break) is added to the text. */
  function BodyLine(s: seq<Frame>, comments: seq<Comment>, i: int, line: string): (r: Result<LoadState>)
    requires StackOk(s) && Top(s).MultilineState? && Top(s).marker != []
    ensures r.Ok? ==> Valid(r.value)
    ensures r.Err? ==> (Closes(BodyText(line, Top(s).indent), Top(s).marker)
                        && KeyRefused(s[|s| - 2], CollapseSpaces(Top(s).name)))
    ensures Closes(BodyText(line, Top(s).indent), Top(s).marker) ==> r == CloseBlock(s, comments, i)
    ensures var f := Top(s);
      !Closes(BodyText(line, f.indent), f.marker) ==>
        r == Ok(Loading(Pop(s) + [MultilineState(f.startLine, f.name, f.marker, f.text + BodyText(line, f.indent), f.indent)], comments))
  {
    var f := Top(s);
    var body := BodyText(line, f.indent);
    if Closes(body, f.marker) then CloseBlock(s, comments, i)
    else
      var g := MultilineState(f.startLine, f.name, f.marker, f.text + body, f.indent);
      ReplaceTop(s, g);
      Ok(Loading(Pop(s) + [g], comments))
  }

  /** Closing a block: the frame below stores the text without its last
      character and without whitespace conversion, marked `force_multiline` and
      carrying the buffered comments; an array refuses a name other than `+`. */
  function CloseBlock(s: seq<Frame>, comments: seq<Comment>, i: int): (r: Result<LoadState>)
    requires StackOk(s) && Top(s).MultilineState? && |s| >= 2
    ensures r.Ok? ==> Valid(r.value)
    ensures var key := CollapseSpaces(Top(s).name);
      r.Err? <==> KeyRefused(s[|s| - 2], key)
    ensures r.Err? ==> r.error == ParseError(ArrayElementMustStartWithPlus, i + 1)
    ensures r.Ok? ==> r.value == Loading(Pop(Pop(s)) + [Insert(s[|s| - 2], CollapseSpaces(Top(s).name),
      Text(DropLast(Top(s).text), true, comments, []))], [])
  {
    var f := Top(s);
    var parent := s[|s| - 2];
    var key := CollapseSpaces(f.name);
    PopOk(s);
    if KeyRefused(parent, key) then Err(ParseError(ArrayElementMustStartWithPlus, i + 1))
    else
      var g := Insert(parent, key, Text(DropLast(f.text), true, comments, []));
      ReplaceTop(Pop(s), g);
      Ok(Loading(Pop(Pop(s)) + [g], []))
  }

  // ---------------------------------------------------------------------------
  // Lines outside a block

  /** A line outside a block: stripped, an empty line or one starting with `#` is
      a comment; otherwise it is cut at its first colon. */
  function StructuralLine(s: seq<Frame>, comments: seq<Comment>, i: int, orig: string): (r: Result<LoadState>)
    requires StackOk(s) && !Top(s).MultilineState?
    ensures r.Ok? ==> Valid(r.value)
    ensures Trim(orig) == [] || Trim(orig)[0] == '#' ==> r == Ok(Loading(s, comments + [CommentOf(Trim(orig))]))
  {
    var line := Trim(orig);
    if line == [] || line[0] == '#' then Ok(Loading(s, comments + [CommentOf(line)]))
    else KeyValueLine(s, comments, i, KeyOf(orig), ValueOf(orig))
  }

  /** A line cut at its first colon into a stripped key and value. An empty key
      is refused; a key starting with `+` in an object ends that object when it
      is an array element and is refused otherwise. */
  function KeyValueLine(s: seq<Frame>, comments: seq<Comment>, i: int, left: string, right: string): (r: Result<LoadState>)
    requires StackOk(s) && !Top(s).MultilineState?
    ensures r.Ok? ==> Valid(r.value)
    ensures left == [] ==> r == Err(ParseError(LineMustNotStartWithColon, i + 1))
    ensures left != [] && left[0] == '+' && Top(s).ObjectState? && !Top(s).inArray ==>
              r == Err(ParseError(PlusEncounteredOutsideArray, i + 1))
  {
    if left == [] then Err(ParseError(LineMustNotStartWithColon, i + 1))
    else if left[0] == '+' && Top(s).ObjectState? then
      if !Top(s).inArray then Err(ParseError(PlusEncounteredOutsideArray, i + 1))
      else KeyLine(PopInto(s), comments, i, left, right)
    else KeyLine(s, comments, i, left, right)
  }

  /** The part of a stripped line before its first colon, stripped (the whole
      line when it has none). */
  function KeyOf(orig: string): string {
    Trim(Partition(Trim(orig), ":").left)
  }

  /** The part after the first colon, stripped. */
  function ValueOf(orig: string): string {
    Trim(Partition(Trim(orig), ":").right)
  }

  /** A key line once the frame it applies to is on top: `{}`, `[]` and `''`
      keys open a frame and take no value, any other key not starting with `-`
      stores a text, and a key starting with `-` closes the current container. */
  function KeyLine(s: seq<Frame>, comments: seq<Comment>, i: int, left: string, right: string): (r: Result<LoadState>)
    requires StackOk(s) && !Top(s).MultilineState? && left != []
    ensures r.Ok? ==> Valid(r.value)
    ensures EndsWith(left, "{}") && right != [] ==> r == Err(ParseError(ObjectMustBeOnNewLine, i + 1))
    ensures !EndsWith(left, "{}") && EndsWith(left, "[]") && right != [] ==>
              r == Err(ParseError(ArrayMustBeOnNewLine, i + 1))
    ensures !EndsWith(left, "{}") && !EndsWith(left, "[]") && EndsWith(left, "''") && right != [] ==>
              r == Err(ParseError(MultilineMustBeOnNewLine, i + 1))
  {
    if EndsWith(left, "{}") then
      if right != [] then Err(ParseError(ObjectMustBeOnNewLine, i + 1))
      else OpenContainer(s, comments, i, TrimEnd(left[..|left| - 2]), true)
    else if EndsWith(left, "[]") then
      if right != [] then Err(ParseError(ArrayMustBeOnNewLine, i + 1))
      else OpenContainer(s, comments, i, TrimEnd(left[..|left| - 2]), false)
    else if EndsWith(left, "''") then
      if right != [] then Err(ParseError(MultilineMustBeOnNewLine, i + 1))
      else
        var f := MultilineState(i, TrimEnd(left[..|left| - 2]), [], [], 0);
        Push(s, f);
        Ok(Loading(s + [f], comments))
    else if left[0] != '-' then SetText(s, comments, i, left, right)
    else CloseFrame(s, comments)
  }

  /** `{}` / `[]`: the current frame must accept the name; the new container
      takes the buffered comments and is pushed, an object recording whether it
      is an array element. */
  function OpenContainer(s: seq<Frame>, comments: seq<Comment>, i: int, name: string, isObject: bool): (r: Result<LoadState>)
    requires StackOk(s) && !Top(s).MultilineState?
    ensures r.Ok? ==> Valid(r.value)
    ensures r.Err? <==> KeyRefused(Top(s), CollapseSpaces(name))
    ensures r.Err? ==> r.error == ParseError(ArrayElementMustStartWithPlus, i + 1)
    ensures r.Ok? ==> (r.value.Loading? && r.value.comments == [] && |r.value.stack| == |s| + 1
      && r.value.stack[..|s|] == s
      && Top(r.value.stack) == if isObject then ObjectState(i, CollapseSpaces(name), NewObject(comments), Top(s).ArrayState?)
                               else ArrayState(i, CollapseSpaces(name), NewArray(comments)))
  {
    var key := CollapseSpaces(name);
    if KeyRefused(Top(s), key) then Err(ParseError(ArrayElementMustStartWithPlus, i + 1))
    else
      var f := if isObject then ObjectState(i, key, NewObject(comments), Top(s).ArrayState?)
               else ArrayState(i, key, NewArray(comments));
      Push(s, f);
      assert (s + [f])[..|s|] == s;
      Ok(Loading(s + [f], []))
  }

  /** `name: value`: the current frame must accept the name; the value has each
      whitespace character made a plain space and takes the buffered comments. */
  function SetText(s: seq<Frame>, comments: seq<Comment>, i: int, left: string, right: string): (r: Result<LoadState>)
    requires StackOk(s) && !Top(s).MultilineState?
    ensures r.Ok? ==> Valid(r.value)
    ensures r.Err? <==> KeyRefused(Top(s), CollapseSpaces(left))
    ensures r.Err? ==> r.error == ParseError(ArrayElementMustStartWithPlus, i + 1)
    ensures r.Ok? ==> r.value == Loading(Pop(s) + [Insert(Top(s), CollapseSpaces(left), Text(SpacesToPlain(right), false, comments, []))], [])
  {
    var key := CollapseSpaces(left);
    if KeyRefused(Top(s), key) then Err(ParseError(ArrayElementMustStartWithPlus, i + 1))
    else
      var g := Insert(Top(s), key, Text(SpacesToPlain(right), false, comments, []));
      ReplaceTop(s, g);
      Ok(Loading(Pop(s) + [g], []))
  }

  /** The same frame with another node. */
  function WithTarget(f: Frame, t: Node): (g: Frame)
    requires !f.MultilineState?
    ensures g.ObjectState? == f.ObjectState? && g.ArrayState? == f.ArrayState?
    ensures g.startLine == f.startLine && g.key == f.key && g.target == t
    ensures g.ObjectState? ==> g.inArray == f.inArray
  {
    if f.ObjectState? then ObjectState(f.startLine, f.key, t, f.inArray)
    else ArrayState(f.startLine, f.key, t)
  }

  /** The stack after the implicit close of an array element object, if that is
      what is on top. */
  function EndElement(s: seq<Frame>): (r: seq<Frame>)
    requires StackOk(s) && !Top(s).MultilineState?
    ensures StackOk(r) && !Top(r).MultilineState?
    ensures Top(s).ObjectState? && Top(s).inArray ==> r == PopInto(s) && Top(r).ArrayState?
    ensures !(Top(s).ObjectState? && Top(s).inArray) ==> r == s
  {
    if Top(s).ObjectState? && Top(s).inArray then PopInto(s) else s
  }

  /** A `-` line: an array element object on top is closed first (without the
      comments), then the container on top takes the buffered comments as its
      trailing comments and is closed; closing the root ends the stream's
      content. */
  function CloseFrame(s: seq<Frame>, comments: seq<Comment>): (r: Result<LoadState>)
    requires StackOk(s) && !Top(s).MultilineState?
    ensures r.Ok? && Valid(r.value)
    ensures var s1 := EndElement(s);
      var t := WithTarget(Top(s1), WithTrail(Top(s1).target, comments));
      if |s1| == 1 then r.value == Closed(t.target)
      else r.value.Loading? && r.value.comments == [] && r.value.stack == PopInto(Pop(s1) + [t])
  {
    var s1 := EndElement(s);
    assert FrameOk(Top(s1));
    var t := WithTarget(Top(s1), WithTrail(Top(s1).target, comments));
    ReplaceTop(s1, t);
    if |s1| == 1 then Ok(Closed(t.target))
    else Ok(Loading(PopInto(Pop(s1) + [t]), []))
  }

  // ---------------------------------------------------------------------------
  // The whole stream

  /** The lines from index `i` on, one `Step` each, stopping at the first error. */
  function Run(st: LoadState, lines: seq<string>, i: int): (r: Result<LoadState>)
    requires Valid(st)
    ensures r.Ok? ==> Valid(r.value)
    decreases |lines|
  {
    if lines == [] then Ok(st)
    else
      match Step(st, i, lines[0])
      case Err(e) => Err(e)
      case Ok(s1) => Run(s1, lines[1..], i + 1)
  }

  /** What the root holds at the end of input while frames are still open: each
      open container already sits in its parent, an open block does not (its key
      is stored only when it closes). */
  function Fold(s: seq<Frame>): (r: Node)
    requires StackOk(s)
    ensures r.Object? && UniqueDeep(r)
    ensures |s| == 1 ==> r == s[0].target
    decreases |s|
  {
    if |s| == 1 then
      assert FrameOk(s[0]);
      s[0].target
    else if Top(s).MultilineState? then
      PopOk(s);
      Fold(Pop(s))
    else Fold(PopInto(s))
  }

  /** The end of input: `top_level` as it stands; the comment buffer is dropped. */
  function Finish(st: LoadState): (r: Node)
    requires Valid(st)
    ensures r.Object? && UniqueDeep(r)
    ensures st.Closed? ==> r == st.root
    ensures st.Loading? ==> r == Fold(st.stack)
  {
    match st
    case Closed(root) => root
    case Loading(s, _) => Fold(s)
  }

  /** `XtnObject.load` on the lines of a stream: the tree, or the first error. */
  function LoadSpec(lines: seq<string>): (r: Result<Node>)
    ensures r.Ok? ==> r.value.Object? && UniqueDeep(r.value)
  {
    match Run(Initial(), lines, 0)
    case Err(e) => Err(e)
    case Ok(st) => Ok(Finish(st))
  }

  /** `_load`: the loop over the lines with the stack and the comment buffer. */
  method Load(lines: seq<string>) returns (r: Result<Node>)
    ensures r == LoadSpec(lines)
    ensures r.Ok? ==> r.value.Object? && UniqueDeep(r.value)
  {
    var st := Initial();
    var i := 0;
    while i < |lines|
      invariant 0 <= i <= |lines|
      invariant Valid(st)
      invariant Run(Initial(), lines, 0) == Run(st, lines[i..], i)
    {
      assert lines[i..][0] == lines[i] && lines[i..][1..] == lines[i + 1..];
      var next := Step(st, i, lines[i]);
      if next.Err? {
        return Err(next.error);
      }
      st := next.value;
      i := i + 1;
    }
    assert lines[i..] == [];
    r := Ok(Finish(st));
  }

  // ---------------------------------------------------------------------------
  // `XtnObject.dump`

  /** `write_comment` on the lines of a comment: each line right-trimmed; an
      empty one is an empty output line, any other is written after `#` and the
      prefix, with a space between unless the line starts with whitespace. */
  function CommentLines(lines: seq<string>, prefix: string, indent: string): string {
    if lines == [] then []
    else
      var line := TrimEnd(lines[0]);
      (if line == [] then "\n" else indent + "#" + prefix + (if IsSpace(line[0]) then "" else " ") + line + "\n")
      + CommentLines(lines[1..], prefix, indent)
  }

  function DumpComment(c: Comment, indent: string): string {
    CommentLines(XtnPy.CommentText(c.value), c.prefix, indent)
  }

  function DumpComments(cs: seq<Comment>, indent: string): string {
    if cs == [] then [] else DumpComment(cs[0], indent) + DumpComments(cs[1..], indent)
  }

  /** The length of the run of `c` that `s` starts with. */
  function LeadRun(s: string, c: char): (n: nat)
    ensures n <= |s| && forall k :: 0 <= k < n ==> s[k] == c
    ensures n < |s| ==> s[n] != c
  {
    if s != [] && s[0] == c then 1 + LeadRun(s[1..], c) else 0
  }

  /** `n` copies of `c` start at position `j` of `s`. */
  predicate RunAt(s: string, c: char, j: nat, n: nat) {
    j + n <= |s| && forall k :: j <= k < j + n ==> s[k] == c
  }

  /** The length of the longest run of `c` in `s`: the longest match of the
      regular expression `c+`, 0 when there is none. Some run has that length;
      that none is longer is `RunAtCovers`. */
  function LongestRun(s: string, c: char): (n: nat)
    ensures n <= |s|
    ensures exists j: nat :: RunAt(s, c, j, n)
  {
    if s == [] then
      assert RunAt(s, c, 0, 0);
      0
    else
      var rest := LongestRun(s[1..], c);
      RunShift(s, c, rest);
      assert RunAt(s, c, 0, LeadRun(s, c));
      if LeadRun(s, c) < rest then rest else LeadRun(s, c)
  }

  /** A run in `s[1..]` is a run in `s`, one position later. */
  lemma RunShift(s: string, c: char, n: nat)
    requires s != [] && exists j: nat :: RunAt(s[1..], c, j, n)
    ensures exists j: nat :: RunAt(s, c, j, n)
  {
    var j: nat :| RunAt(s[1..], c, j, n);
    forall k | j + 1 <= k < j + 1 + n ensures s[k] == c {
      assert s[k] == s[1..][k - 1];
    }
    assert RunAt(s, c, j + 1, n);
  }

  /** No run of `c` is longer than `LongestRun`. */
  lemma {:induction false} RunAtCovers(s: string, c: char, j: nat, n: nat)
    requires RunAt(s, c, j, n)
    ensures LongestRun(s, c) >= n
    decreases j
  {
    if j == 0 {
      LeadRunCovers(s, c, n);
    } else {
      forall k | j - 1 <= k < j - 1 + n ensures s[1..][k] == c {
        assert s[1..][k] == s[k + 1];
      }
      RunAtCovers(s[1..], c, j - 1, n);
    }
  }

  lemma {:induction false} LeadRunCovers(s: string, c: char, n: nat)
    requires n <= |s| && forall k :: 0 <= k < n ==> s[k] == c
    ensures LeadRun(s, c) >= n
    decreases n
  {
    if n > 0 {
      LeadRunCovers(s[1..], c, n - 1);
    }
  }

  /** The marker length for a longest run of `n`: four below three, otherwise
      `n` plus three when `n` is odd and plus four when it is even. */
  function MarkerLength(n: nat): (m: nat)
    ensures m >= 4 && m > n
    ensures n <= 4 ==> m == 4 || m == 6 || m == 8
  {
    if n < 3 then 4 else n + (if n % 2 == 1 then 3 else 4)
  }

  /** The marker `write_pair` writes: the longest run of backticks in the
      text, capped at four, picks one of three lengths of single quotes. */
  function MarkerAsWritten(value: string): (m: string)
    ensures |m| == 4 || |m| == 6 || |m| == 8
    ensures forall k :: 0 <= k < |m| ==> m[k] == '\''
  {
    var n := LongestRun(value, '`');
    Repeat('\'', MarkerLength(if n < 4 then n else 4))
  }

  /** The marker as the loader needs it: measured on the runs of single quotes,
      the character markers are made of, with no cap, so it is longer than any
      run of single quotes in the text. */
  function Marker(value: string): (m: string)
    ensures |m| >= 4 && |m| > LongestRun(value, '\'')
    ensures forall k :: 0 <= k < |m| ==> m[k] == '\''
  {
    Repeat('\'', MarkerLength(LongestRun(value, '\'')))
  }

  /** The block-form test of `write_pair`: forced, several lines, or whitespace
      at either end. */
  predicate TextUsesBlock(value: string, force: bool) {
    force || |XtnPy.TextLines(value)| > 1
    || (value != [] && (IsSpace(value[0]) || IsSpace(value[|value| - 1])))
  }

  /** `write_pair`: the node's comments, then the node. Containers open with
      `name[]:` / `name{}:` and list their children four spaces deeper, array
      elements under the name `+`, followed by their trailing comments; `----`
      closes them only when `end` is set, which it is not for array elements. A
      block text writes its lines four spaces deeper between two marker lines. */
  function DumpPair(name: string, n: Node, indent: string, end: bool): string
    decreases n
  {
    var inner := indent + "    ";
    DumpComments(n.above, indent) +
    match n
    case Array(els, _, _, trail, _) =>
      indent + name + "[]:\n" + DumpElements(els, inner) + DumpComments(trail, inner)
      + (if end then indent + "----\n" else "")
    case Object(es, _, _, trail, _) =>
      indent + name + "{}:\n" + DumpEntries(es, inner) + DumpComments(trail, inner)
      + (if end then indent + "----\n" else "")
    case Text(value, force, _, _) =>
      if TextUsesBlock(value, force) then
        var marker := Marker(value);
        indent + name + "'':\n" + inner + marker + "\n" + BlockLines(XtnPy.TextLines(value), inner)
        + inner + marker + "\n"
      else
        indent + name + ": " + value + "\n"
  }

  function BlockLines(lines: seq<string>, indent: string): string {
    if lines == [] then [] else indent + lines[0] + "\n" + BlockLines(lines[1..], indent)
  }

  function DumpElements(els: seq<Node>, indent: string): string
    decreases els
  {
    if els == [] then [] else DumpPair("+", els[0], indent, false) + DumpElements(els[1..], indent)
  }

  function DumpEntries(es: seq<Entry>, indent: string): string
    decreases es
  {
    if es == [] then [] else DumpPair(es[0].key, es[0].value, indent, true) + DumpEntries(es[1..], indent)
  }

  lemma {:induction false} DumpEntriesAppend(es: seq<Entry>, e: Entry, indent: string)
    ensures DumpEntries(es + [e], indent) == DumpEntries(es, indent) + DumpPair(e.key, e.value, indent, true)
  {
    if es == [] {
      assert [e][1..] == [];
    } else {
      assert (es + [e])[1..] == es[1..] + [e];
      DumpEntriesAppend(es[1..], e, indent);
    }
  }

  /** Writing the first `j + 1` members gives the text of the first `j` followed
      by the text of member `j`: the step the member loop of `dump` takes. */
  lemma DumpEntriesPrefix(es: seq<Entry>, j: nat, indent: string)
    requires j < |es|
    ensures DumpEntries(es[..j + 1], indent) == DumpEntries(es[..j], indent) + DumpPair(es[j].key, es[j].value, indent, true)
  {
    assert es[..j + 1] == es[..j] + [es[j]];
    DumpEntriesAppend(es[..j], es[j], indent);
  }

  /** What `dump` writes: the root's comments, its members in order at
      indentation zero, each closed, then its trailing comments. */
  function DumpText(root: Node): string
    requires root.Object?
  {
    DumpComments(root.above, "") + DumpEntries(root.entries, "") + DumpComments(root.innerBottom, "")
  }

  /** `XtnObject.dump`: the root's comments, the loop over its members, then its
      trailing comments, each line written to the stream in turn. */
  method Dump(root: Node) returns (output: string)
    requires root.Object?
    ensures output == DumpText(root)
  {
    var es := root.entries;
    output := DumpComments(root.above, "");
    var members := "";
    var j := 0;
    while j < |es|
      invariant 0 <= j <= |es|
      invariant members == DumpEntries(es[..j], "")
    {
      DumpEntriesPrefix(es, j, "");
      members := members + DumpPair(es[j].key, es[j].value, "", true);
      j := j + 1;
    }
    assert es[..j] == es;
    output := output + members + DumpComments(root.innerBottom, "");
  }
}
