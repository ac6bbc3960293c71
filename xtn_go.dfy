/** The Go implementation (xtngo/xtn.go). `UnmarshalToMap` cuts the input into
    lines itself and hands them one at a time to a scanner whose state is a stack
    of frames, two comment buffers and a pointer to the node that the upward
    buffer belongs to. This module holds that state as a value and every scanner
    routine as a function of it; the class in module `XtnGoScanner` updates the
    same state in place. Only the full (`*Object`) mode is modelled; the map mode
    yields the erasure of the same tree. */
module XtnGo {
  import opened Xtn

  // ---------------------------------------------------------------------------
  // `cleanKeyName` and `convertToRegularSpace`: `strings.Map` over the runes

  /** `strings.Map` with the `cleanKeyName` callback, which remembers whether the
      previous rune was whitespace: the first rune of a whitespace run becomes
      U+0020, the others are dropped. */
  function CleanRunes(s: string, prevSpace: bool): (r: string)
    ensures r == CollapseSpaces(if prevSpace then TrimStart(s) else s)
    decreases |s|
  {
    if s == [] then []
    else
      CollapseStep(s);
      if IsSpace(s[0]) then (if prevSpace then [] else [' ']) + CleanRunes(s[1..], true)
      else [s[0]] + CleanRunes(s[1..], false)
  }

  /** `cleanKeyName`: the same key as the `\s+` to one space rule of the other
      implementations. */
  function CleanKeyName(key: string): (r: string)
    ensures r == CollapseSpaces(key)
  {
    CleanRunes(key, false)
  }

  /** `strings.Map` with a callback that never drops a rune. */
  function MapRunes(s: string, f: char -> char): (r: string)
    ensures |r| == |s| && forall k :: 0 <= k < |s| ==> r[k] == f(s[k])
  {
    if s == [] then [] else [f(s[0])] + MapRunes(s[1..], f)
  }

  /** `convertToRegularSpace`: every whitespace rune becomes U+0020. */
  function ConvertToRegularSpace(value: string): (r: string)
    ensures r == SpacesToPlain(value)
  {
    MapRunes(value, c => if IsSpace(c) then ' ' else c)
  }

  // ---------------------------------------------------------------------------
  // Comments

  /** The `position` argument of `setComments`: "it", "ib", "a", and anything
      else, which the scanner only ever passes as "b". */
  datatype Position = InnerTop | InnerBottom | Above | Below

  /** `setComments`: a container stores the buffer in the named slot; a text node
      has only the above and below slots and ignores the inner ones. The buffer
      replaces what the slot held. */
  function SetComments(n: Node, cs: seq<Comment>, pos: Position): (r: Node)
    ensures r.Text? == n.Text? && r.Array? == n.Array? && r.Object? == n.Object?
    ensures r.above == (if pos == Above then cs else n.above)
    ensures r.below == (if pos == Below then cs else n.below)
    ensures IsContainer(n) ==> r.innerTop == (if pos == InnerTop then cs else n.innerTop)
    ensures IsContainer(n) ==> r.innerBottom == (if pos == InnerBottom then cs else n.innerBottom)
    ensures n.Text? ==> r.value == n.value && r.forceMultiline == n.forceMultiline
    ensures n.Text? && (pos == InnerTop || pos == InnerBottom) ==> r == n
    ensures n.Array? ==> r.elements == n.elements
    ensures n.Object? ==> r.entries == n.entries
    ensures ChildCount(r) == ChildCount(n) && UniqueDeep(r) == UniqueDeep(n)
    ensures SameKeys(r, n)
  {
    match n
    case Text(v, f, a, b) =>
      (match pos
       case Above => Text(v, f, cs, b)
       case Below => Text(v, f, a, cs)
       case _ => n)
    case Array(els, a, it, ib, b) =>
      (match pos
       case InnerTop => Array(els, a, cs, ib, b)
       case InnerBottom => Array(els, a, it, cs, b)
       case Above => Array(els, cs, it, ib, b)
       case Below => Array(els, a, it, ib, cs))
    case Object(es, a, it, ib, b) =>
      (match pos
       case InnerTop => Object(es, a, cs, ib, b)
       case InnerBottom => Object(es, a, it, cs, b)
       case Above => Object(es, cs, it, ib, b)
       case Below => Object(es, a, it, ib, cs))
  }

  /** `strings.IndexFunc(s, unicode.IsSpace)`: the first whitespace rune, or -1. */
  function FirstSpace(s: string): (r: int)
    ensures -1 <= r < |s|
    ensures r >= 0 ==> IsSpace(s[r])
    ensures forall k :: 0 <= k < |s| && (r < 0 || k < r) ==> !IsSpace(s[k])
  {
    if s == [] then -1
    else if IsSpace(s[0]) then 0
    else
      var r := FirstSpace(s[1..]);
      if r < 0 then -1 else r + 1
  }

  /** The end of `recordComment`: a `##` prefix sends the comment up; otherwise
      whitespace-only text is a blank comment. */
  function Tagged(value: string, prefix: string): (r: (Comment, bool))
    ensures r.1 <==> prefix == "##"
    ensures r.1 || PyIsSpace(value) ==> r.0.prefix == (if r.1 then "##" else "")
    ensures r.0 == (if !r.1 && PyIsSpace(value) then BlankComment else Comment(value, prefix))
  {
    if prefix == "##" then (Comment(value, prefix), true)
    else if PyIsSpace(value) then (BlankComment, false)
    else (Comment(value, prefix), false)
  }

  /** `recordComment` as written: the comment a `#` line (or an empty line) stands
      for, and whether it goes up. `####` gives prefix `##`; `##tag text` gives
      prefix `tag`; a single `#` loses one following whitespace character. When a
      `##` line has no whitespace after its tag, the tag is kept as the value too. */
  function CommentOfAsWritten(line: string): (r: (Comment, bool))
    requires line == [] || line[0] == '#'
    ensures line == [] ==> r == (BlankComment, false)
  {
    if line == [] then (BlankComment, false)
    else if StartsWith(line, "##") then
      if StartsWith(line, "####") then Tagged(TrimStart(line[4..]), "##")
      else
        var rest := TrimStart(line[2..]);
        var we := FirstSpace(rest);
        if we < 0 then Tagged(rest, rest)
        else Tagged(TrimStart(rest[we..]), rest[..we])
    else
      var rest := line[1..];
      Tagged(if rest != [] && IsSpace(rest[0]) then rest[1..] else rest, "")
  }

  /** A tag with nothing after it is recorded as both prefix and value. */
  lemma BareTagAsWritten()
    ensures CommentOfAsWritten("##meta") == (Comment("meta", "meta"), false)
  {
    assert StartsWith("##meta", "##");
    assert !StartsWith("##meta", "####") by { assert "##meta"[2] == 'm'; }
    assert "##meta"[2..] == "meta";
    assert FirstSpace("meta") == -1;
  }

  /** `recordComment` with the value of a bare `##tag` line empty, as the Python
      implementation records it. Identical to `CommentOfAsWritten` elsewhere. */
  function CommentOf(line: string): (r: (Comment, bool))
    requires line == [] || line[0] == '#'
    ensures line == [] ==> r == (BlankComment, false)
    ensures (!StartsWith(line, "##") || StartsWith(line, "####")
             || FirstSpace(TrimStart(line[2..])) >= 0) ==> r == CommentOfAsWritten(line)
  {
    if line == [] then (BlankComment, false)
    else if StartsWith(line, "##") then
      if StartsWith(line, "####") then Tagged(TrimStart(line[4..]), "##")
      else
        var rest := TrimStart(line[2..]);
        var we := FirstSpace(rest);
        if we < 0 then Tagged([], rest)
        else Tagged(TrimStart(rest[we..]), rest[..we])
    else
      var rest := line[1..];
      Tagged(if rest != [] && IsSpace(rest[0]) then rest[1..] else rest, "")
  }

  /** `####` and any text: an upward comment with prefix `##`. */
  lemma UpwardComment(v: string)
    ensures CommentOf("####" + v) == (Comment(TrimStart(v), "##"), true)
  {
    var line := "####" + v;
    assert StartsWith(line, "##") && StartsWith(line, "####");
    assert line[4..] == v;
  }

  /** A `##` line whose next two characters are not `##` takes the tag path. */
  lemma TagPath(rest: string)
    requires !StartsWith(rest, "##")
    ensures var line := "##" + rest;
      StartsWith(line, "##") && !StartsWith(line, "####") && line[2..] == rest
  {
    var line := "##" + rest;
    assert line[..2] == "##";
    if |line| >= 4 {
      assert line[..4][2..] == rest[..2];
    }
  }

  /** `##tag text`: the tag is the prefix and the text after the whitespace is the
      value; the comment stays in the downward buffer. */
  lemma TaggedComment(tag: string, ws: string, v: string)
    requires tag != [] && tag != "##" && !StartsWith(tag, "##")
    requires forall k :: 0 <= k < |tag| ==> !IsSpace(tag[k])
    requires PyIsSpace(ws)
    ensures CommentOf("##" + tag + ws + v) == (Comment(TrimStart(v), tag), false)
  {
    var rest := tag + (ws + v);
    assert !StartsWith(rest, "##") by {
      if |tag| == 1 { assert rest[1] == ws[0]; } else { assert rest[..2] == tag[..2]; }
    }
    TagPath(rest);
    assert "##" + rest == "##" + tag + ws + v;
    TagSplit(tag, ws, v);
  }

  /** The tag ends at the first whitespace; the value is what follows it, trimmed. */
  lemma TagSplit(tag: string, ws: string, v: string)
    requires tag != [] && tag != "##"
    requires forall k :: 0 <= k < |tag| ==> !IsSpace(tag[k])
    requires PyIsSpace(ws)
    ensures var rest := TrimStart(tag + (ws + v));
      var we := FirstSpace(rest);
      we >= 0 && Tagged(TrimStart(rest[we..]), rest[..we]) == (Comment(TrimStart(v), tag), false)
  {
    var rest := tag + (ws + v);
    assert rest[0] == tag[0] && !IsSpace(rest[0]);
    assert TrimStart(rest) == rest;
    assert (ws + v)[0] == ws[0] && IsSpace(ws[0]);
    FirstSpaceAfter(tag, ws + v);
    assert rest[..|tag|] == tag;
    assert rest[|tag|..] == ws + v;
    TrimSpacePrefix(ws, v);
    var value := TrimStart(v);
    assert !PyIsSpace(value) by {
      assert value == [] || !IsSpace(value[0]);
    }
  }

  lemma FirstSpaceAfter(tag: string, w: string)
    requires forall k :: 0 <= k < |tag| ==> !IsSpace(tag[k])
    requires w != [] && IsSpace(w[0])
    ensures FirstSpace(tag + w) == |tag|
  {
    var s := tag + w;
    assert IsSpace(s[|tag|]);
    assert forall k :: 0 <= k < |tag| ==> s[k] == tag[k];
  }

  lemma {:induction false} TrimSpacePrefix(ws: string, v: string)
    requires AllSpace(ws)
    ensures TrimStart(ws + v) == TrimStart(v)
    decreases |ws|
  {
    if ws != [] {
      ConsTail(ws, v);
      TrimSpacePrefix(ws[1..], v);
    } else {
      assert ws + v == v;
    }
  }

  /** `##tag` alone: a tagged comment with an empty value. */
  lemma BareTag(tag: string)
    requires tag != [] && tag != "##" && !StartsWith(tag, "##")
    requires forall k :: 0 <= k < |tag| ==> !IsSpace(tag[k])
    ensures CommentOf("##" + tag) == (Comment("", tag), false)
  {
    TagPath(tag);
    assert TrimStart(tag) == tag;
  }

  /** `# text`: one whitespace character after the `#` is dropped, the rest is the
      value, with no prefix. */
  lemma HashComment(c: char, v: string)
    requires IsSpace(c) && v != [] && !AllSpace(v)
    ensures CommentOf("#" + [c] + v) == (Comment(v, ""), false)
  {
    var line := "#" + [c] + v;
    assert !StartsWith(line, "##") by { assert line[1] == c; }
    assert line[1..] == [c] + v;
    assert ([c] + v)[1..] == v;
  }

  // ---------------------------------------------------------------------------
  // Scanner state

  /** `objectState`, `arrayState` and `multilineState`. A frame holds the node it
      fills; the parent holds the same node in its last slot, and that slot is
      rewritten with the finished node when the frame is popped (the Go code fills
      the node in place through the pointer). `indentChar` and `expIndent` are set
      by the first body line of a block; `expIndent` is empty until then. */
  datatype Frame =
    | ObjectState(startLine: int, target: Node, inArray: bool)
    | ArrayState(startLine: int, target: Node)
    | MultilineState(startLine: int, target: Node, indent: string, indentChar: char,
                     expIndent: string, text: string)

  /** `upProp`: "inner" or "below". */
  datatype UpProp = UpInner | UpBelow

  /** Where `upTarget` points, relative to the stack: the node of the top frame, or
      the last member of that node. Every assignment of `upTarget` in the source
      points at one of these two. */
  datatype UpTarget = TopNode | TopLastChild

  /** `scannerState` in full mode. */
  datatype ScanState = ScanState(stack: seq<Frame>, commentsUp: seq<Comment>,
                                 commentsDown: seq<Comment>, upProp: UpProp,
                                 upTarget: UpTarget, i: int)

  /** A block's key indentation was checked when the block opened, so its
      indentation character is a space or a tab. */
  predicate FrameOk(f: Frame) {
    match f
    case ObjectState(_, t, _) => t.Object? && UniqueDeep(t)
    case ArrayState(_, t) => t.Array? && UniqueDeep(t)
    case MultilineState(_, t, indent, c, e, _) =>
      t.Text? && (indent == [] || indent[0] == ' ' || indent[0] == '\t')
      && (e != [] ==> c == ' ' || c == '\t')
  }

  /** The root object frame at the bottom, a block frame only on top, every frame
      above another sitting in the last slot of its node, and no repeated key in
      any node under construction. */
  predicate FramesOk(st: ScanState) {
    var s := st.stack;
    |s| >= 1 && s[0].ObjectState?
    && (forall k :: 0 <= k < |s| ==> FrameOk(s[k]))
    && (forall k :: 0 <= k < |s| - 1 ==> !s[k].MultilineState? && ChildCount(s[k].target) > 0)
  }

  function Top(st: ScanState): Frame
    requires |st.stack| > 0
  {
    st.stack[|st.stack| - 1]
  }

  function Pop(s: seq<Frame>): seq<Frame>
    requires |s| > 0
  {
    s[..|s| - 1]
  }

  /** What `upTarget` and `upProp` can be: a last member exists when it is
      designated; a block's text node is the target while the block is open; and
      "inner" is used only for a container that has no member yet. */
  predicate UpOk(st: ScanState)
    requires |st.stack| > 0
  {
    var top := Top(st);
    (st.upTarget == TopLastChild ==> IsContainer(top.target) && ChildCount(top.target) > 0)
    && (top.MultilineState? ==> st.upTarget == TopNode && st.upProp == UpBelow)
    && (st.upProp == UpInner ==>
          st.upTarget == TopNode && IsContainer(top.target) && ChildCount(top.target) == 0)
  }

  predicate Valid(st: ScanState) {
    FramesOk(st) && UpOk(st)
  }

  /** The state `UnmarshalToMap` starts from: the root object, `upProp` "inner"
      and `upTarget` the root, line counter -1. */
  function Initial(): (st: ScanState)
    ensures Valid(st)
  {
    ScanState([ObjectState(-1, NewObject([]), false)], [], [], UpInner, TopNode, -1)
  }

  /** A frame with its node replaced. */
  function WithTarget(f: Frame, t: Node): (g: Frame)
    ensures g.target == t && g.startLine == f.startLine
    ensures g.ObjectState? == f.ObjectState? && g.ArrayState? == f.ArrayState?
    ensures g.MultilineState? == f.MultilineState?
    ensures f.ObjectState? ==> g.inArray == f.inArray
    ensures f.MultilineState? ==> (g.indent == f.indent && g.indentChar == f.indentChar
                                   && g.expIndent == f.expIndent && g.text == f.text)
    ensures FrameOk(f) && SameKind(t, f.target) && UniqueDeep(t) ==> FrameOk(g)
  {
    match f
    case ObjectState(l, _, a) => ObjectState(l, t, a)
    case ArrayState(l, _) => ArrayState(l, t)
    case MultilineState(l, _, ind, c, e, x) => MultilineState(l, t, ind, c, e, x)
  }

  lemma WithTargetTwice(f: Frame, a: Node, b: Node)
    ensures WithTarget(WithTarget(f, a), b) == WithTarget(f, b)
  {
  }

  predicate SameKind(a: Node, b: Node) {
    a.Text? == b.Text? && a.Array? == b.Array? && a.Object? == b.Object?
  }

  /** Two nodes of the same kind with the same member keys. */
  predicate SameKeys(a: Node, b: Node) {
    SameKind(a, b) && ChildCount(a) == ChildCount(b)
    && (a.Object? ==> forall j :: 0 <= j < |a.entries| ==> a.entries[j].key == b.entries[j].key)
  }

  lemma SameKeysHasKey(a: Node, b: Node, k: string)
    requires SameKeys(a, b) && a.Object?
    ensures HasKey(a.entries, k) <==> HasKey(b.entries, k)
  {
    if HasKey(a.entries, k) {
      var j :| 0 <= j < |a.entries| && a.entries[j].key == k;
      assert b.entries[j].key == k;
    }
    if HasKey(b.entries, k) {
      var j :| 0 <= j < |b.entries| && b.entries[j].key == k;
      assert a.entries[j].key == k;
    }
  }

  /** The slot `upProp` names: "inner" is "it", anything else "b". */
  function UpPosition(p: UpProp): Position {
    if p == UpInner then InnerTop else Below
  }

  /** The stack with its top frame replaced; the frames below are unchanged. */
  function SetTop(s: seq<Frame>, g: Frame): (r: seq<Frame>)
    requires |s| > 0
    ensures |r| == |s| && Pop(r) == Pop(s) && r[|r| - 1] == g
  {
    Pop(s) + [g]
  }

  /** The top frame with its node replaced. */
  function ReplaceTop(s: seq<Frame>, t: Node): (r: seq<Frame>)
    requires |s| > 0
    ensures |r| == |s| && Pop(r) == Pop(s) && r[|r| - 1] == WithTarget(s[|s| - 1], t)
  {
    SetTop(s, WithTarget(s[|s| - 1], t))
  }

  /** Replacing the top frame by a well-formed frame of the same kind keeps the
      stack well formed. */
  lemma SetTopOk(st: ScanState, g: Frame)
    requires FramesOk(st) && FrameOk(g)
    requires g.ObjectState? == Top(st).ObjectState? && g.MultilineState? == Top(st).MultilineState?
    ensures FramesOk(st.(stack := SetTop(st.stack, g)))
  {
    var r := SetTop(st.stack, g);
    var s := st.stack;
    forall k | 0 <= k < |r| - 1 ensures r[k] == s[k] {
      assert r[k] == Pop(r)[k] && s[k] == Pop(s)[k];
    }
    assert r[0].ObjectState? by {
      if |r| == 1 {
        assert r[0] == g && s[0] == Top(st);
      }
    }
    assert forall k :: 0 <= k < |r| ==> FrameOk(r[k]);
  }

  /** Replacing the top node by one of the same kind, with the same keys and no
      repeated key, keeps the frames well formed. */
  lemma ReplaceTopOk(st: ScanState, t: Node)
    requires FramesOk(st) && SameKeys(t, Top(st).target) && UniqueDeep(t)
    ensures FramesOk(st.(stack := ReplaceTop(st.stack, t)))
  {
    var g := WithTarget(Top(st), t);
    assert SameKind(t, Top(st).target);
    assert FrameOk(g);
    SetTopOk(st, g);
    assert ReplaceTop(st.stack, t) == SetTop(st.stack, g);
  }

  /** Replacing the top node as `ReplaceTopOk` allows keeps `upTarget` and
      `upProp` meaningful too. */
  lemma ReplaceTopValid(st: ScanState, t: Node)
    requires Valid(st) && SameKeys(t, Top(st).target) && UniqueDeep(t)
    ensures Valid(st.(stack := ReplaceTop(st.stack, t)))
  {
    ReplaceTopOk(st, t);
  }

  /** The last step of `attachTrailingComments` keeps the state valid: the top
      node gets a comment slot filled, and `upTarget` at the top node, "below",
      suits every stack. */
  lemma TrailingOk(st: ScanState, t: Node)
    requires FramesOk(st) && SameKeys(t, Top(st).target) && UniqueDeep(t)
    ensures var r := st.(stack := ReplaceTop(st.stack, t), commentsDown := [],
                         upTarget := TopNode, upProp := UpBelow);
      Valid(r) && Top(r) == WithTarget(Top(st), t)
  {
    ReplaceTopOk(st, t);
  }

  /** The top node after a comment buffer is stored at `upTarget`: in the node
      itself, or in its last member. */
  function StoreAt(t: Node, cs: seq<Comment>, pos: Position, at: UpTarget): (r: Node)
    requires at == TopLastChild ==> IsContainer(t) && ChildCount(t) > 0
    ensures SameKeys(r, t) && (UniqueDeep(t) ==> UniqueDeep(r))
    ensures at == TopNode ==> r == SetComments(t, cs, pos)
    ensures at == TopLastChild ==> LastChild(r) == SetComments(LastChild(t), cs, pos)
  {
    if at == TopNode then SetComments(t, cs, pos)
    else
      var r := SetLastChild(t, SetComments(LastChild(t), cs, pos));
      assert SameKeys(r, t) by {
        if t.Object? {
          forall j | 0 <= j < |r.entries| ensures r.entries[j].key == t.entries[j].key {
            if j < |r.entries| - 1 {
              assert r.entries[j] == r.entries[..|r.entries| - 1][j];
            }
          }
        }
      }
      r
  }

  /** The step shared by `attachComments` and `attachTrailingComments`: a
      non-empty upward buffer goes to `upTarget`, into the inner-top slot when
      `upProp` is "inner" and below it otherwise, and is emptied. */
  function SetUpComments(st: ScanState): (r: ScanState)
    requires Valid(st)
    ensures Valid(r) && r.commentsUp == [] && r.commentsDown == st.commentsDown
    ensures r.upProp == st.upProp && r.upTarget == st.upTarget && r.i == st.i
    ensures |r.stack| == |st.stack| && Pop(r.stack) == Pop(st.stack)
    ensures Top(r) == WithTarget(Top(st), Top(r).target) && SameKeys(Top(r).target, Top(st).target)
    ensures st.commentsUp == [] ==> r == st
    ensures st.commentsUp != [] && st.upTarget == TopNode ==>
      Top(r).target == SetComments(Top(st).target, st.commentsUp, UpPosition(st.upProp))
    ensures st.commentsUp != [] && st.upTarget == TopLastChild ==>
      LastChild(Top(r).target) == SetComments(LastChild(Top(st).target), st.commentsUp, Below)
  {
    if st.commentsUp == [] then st
    else
      var t := StoreAt(Top(st).target, st.commentsUp, UpPosition(st.upProp), st.upTarget);
      var s0 := st.(stack := ReplaceTop(st.stack, t));
      ReplaceTopValid(st, t);
      assert Top(s0) == WithTarget(Top(st), t);
      s0.(commentsUp := [])
  }

  /** `attachComments(target)` for a node about to be inserted at `at`: the upward
      buffer goes to the old `upTarget` (resolved before the insertion), the
      downward buffer becomes the new node's above comments, and the new node
      becomes `upTarget`, "below" for text and "inner" for a container. */
  function AttachComments(st: ScanState, n: Node, at: UpTarget): (r: (ScanState, Node))
    requires Valid(st)
    ensures var s := r.0;
      FramesOk(s) && s.commentsUp == [] && s.commentsDown == [] && s.i == st.i
      && s.upTarget == at && s.upProp == (if n.Text? then UpBelow else UpInner)
      && |s.stack| == |st.stack| && Pop(s.stack) == Pop(st.stack)
      && Top(s) == WithTarget(Top(st), Top(s).target) && SameKeys(Top(s).target, Top(st).target)
    ensures st.commentsUp != [] && st.upTarget == TopNode ==>
      Top(r.0).target == SetComments(Top(st).target, st.commentsUp, UpPosition(st.upProp))
    ensures st.commentsUp != [] && st.upTarget == TopLastChild ==>
      LastChild(Top(r.0).target) == SetComments(LastChild(Top(st).target), st.commentsUp, Below)
    ensures r.1 == (if st.commentsDown != [] then SetComments(n, st.commentsDown, Above) else n)
  {
    var s1 := SetUpComments(st);
    var m := if st.commentsDown != [] then SetComments(n, st.commentsDown, Above) else n;
    (s1.(commentsDown := [], upTarget := at, upProp := if n.Text? then UpBelow else UpInner), m)
  }

  /** `attachTrailingComments`: the upward buffer goes to `upTarget`, the downward
      buffer into the inner-bottom slot of the top frame's node (a text node
      ignores it), and the top frame's node becomes `upTarget`, "below". */
  function AttachTrailingComments(st: ScanState): (r: ScanState)
    requires Valid(st)
    ensures Valid(r) && r.commentsUp == [] && r.commentsDown == [] && r.i == st.i
    ensures r.upTarget == TopNode && r.upProp == UpBelow
    ensures |r.stack| == |st.stack| && Pop(r.stack) == Pop(st.stack)
    ensures Top(r) == WithTarget(Top(st), Top(r).target) && SameKeys(Top(r).target, Top(st).target)
    ensures IsContainer(Top(st).target) && st.commentsDown != [] ==>
      Top(r).target.innerBottom == st.commentsDown
  {
    var s1 := SetUpComments(st);
    var top := Top(s1);
    var t := if st.commentsDown != [] then SetComments(top.target, st.commentsDown, InnerBottom)
             else top.target;
    TrailingOk(s1, t);
    WithTargetTwice(Top(st), top.target, t);
    s1.(stack := ReplaceTop(s1.stack, t), commentsDown := [], upTarget := TopNode, upProp := UpBelow)
  }

  /** `recordComment`: the comment joins the downward buffer; a `##` comment then
      moves the whole downward buffer to the end of the upward one. */
  function RecordComment(st: ScanState, line: string): (r: ScanState)
    requires Valid(st) && (line == [] || line[0] == '#')
    ensures Valid(r) && r.stack == st.stack && r.i == st.i
    ensures r.upTarget == st.upTarget && r.upProp == st.upProp
    ensures !CommentOf(line).1 ==>
      r.commentsDown == st.commentsDown + [CommentOf(line).0] && r.commentsUp == st.commentsUp
    ensures CommentOf(line).1 ==>
      r.commentsUp == st.commentsUp + st.commentsDown + [CommentOf(line).0] && r.commentsDown == []
  {
    Buffer(st, CommentOf(line))
  }

  /** A read comment joins the downward buffer; an upward one then moves the
      whole downward buffer to the end of the upward one. */
  function Buffer(st: ScanState, cu: (Comment, bool)): (r: ScanState)
    requires Valid(st)
    ensures Valid(r) && r.stack == st.stack && r.i == st.i
    ensures r.upTarget == st.upTarget && r.upProp == st.upProp
    ensures !cu.1 ==> r.commentsDown == st.commentsDown + [cu.0] && r.commentsUp == st.commentsUp
    ensures cu.1 ==> r.commentsUp == st.commentsUp + st.commentsDown + [cu.0] && r.commentsDown == []
  {
    var down := st.commentsDown + [cu.0];
    var up := if cu.1 then st.commentsUp + down else st.commentsUp;
    var r := st.(commentsUp := up, commentsDown := if cu.1 then [] else down);
    BuffersOnly(st, r);
    r
  }

  /** Validity does not depend on the comment buffers. */
  lemma BuffersOnly(st: ScanState, r: ScanState)
    requires Valid(st) && r.stack == st.stack && r.upTarget == st.upTarget && r.upProp == st.upProp
    ensures Valid(r)
  {
  }

  // ---------------------------------------------------------------------------
  // Keys, insertion and the frame stack

  /** `validateKey`: an object refuses a key it already holds; an array element
      must be named exactly `+`, and one named `+...` has a key. */
  function ValidateKey(f: Frame, name: string): (r: Option<ErrorCode>)
    requires FrameOk(f) && !f.MultilineState?
    ensures f.ObjectState? ==> (r.Some? <==> HasKey(f.target.entries, name))
    ensures f.ObjectState? && r.Some? ==> r.value == ObjectKeysCannotBeRepeated
    ensures f.ArrayState? ==> (r.Some? <==> name != "+")
    ensures f.ArrayState? && r.Some? ==>
      r.value == (if StartsWith(name, "+") then ArrayElementMustNotHaveAKey
                  else ArrayElementMustStartWithPlus)
  {
    if f.ObjectState? then
      if HasKey(f.target.entries, name) then Some(ObjectKeysCannotBeRepeated) else None
    else if name != "+" then
      if StartsWith(name, "+") then Some(ArrayElementMustNotHaveAKey)
      else Some(ArrayElementMustStartWithPlus)
    else None
  }

  /** Storing comments does not change what `validateKey` answers. */
  lemma ValidateKeySame(f: Frame, g: Frame, name: string)
    requires FrameOk(f) && !f.MultilineState? && FrameOk(g)
    requires g == WithTarget(f, g.target) && SameKeys(g.target, f.target)
    ensures ValidateKey(g, name) == ValidateKey(f, name)
  {
    if f.ObjectState? {
      SameKeysHasKey(g.target, f.target, name);
    }
  }

  /** `current[name] = target` / `append(elements, target)`. */
  function Insert(f: Frame, name: string, n: Node): (g: Frame)
    requires FrameOk(f) && !f.MultilineState? && ValidateKey(f, name).None? && UniqueDeep(n)
    ensures g == WithTarget(f, g.target) && FrameOk(g) && IsContainer(g.target)
    ensures ChildCount(g.target) == ChildCount(f.target) + 1 && LastChild(g.target) == n
    ensures f.ObjectState? ==> g.target.entries == f.target.entries + [Entry(name, n)]
    ensures f.ArrayState? ==> g.target.elements == f.target.elements + [n]
    ensures f.ObjectState? ==> HasKey(g.target.entries, name)
    ensures g.target.above == f.target.above && g.target.innerTop == f.target.innerTop
    ensures g.target.innerBottom == f.target.innerBottom && g.target.below == f.target.below
  {
    var t := if f.ObjectState? then AppendEntry(f.target, name, n) else AppendElement(f.target, n);
    assert f.ObjectState? ==> t.entries[|t.entries| - 1].key == name;
    WithTarget(f, t)
  }

  /** What a key line opens: an object, an array, or a block with the key line's
      indentation. */
  datatype Kind = ObjectKind | ArrayKind | BlockKind(indent: string)

  /** The node `make...State` creates. */
  function NewChild(kind: Kind): (n: Node)
    ensures kind.ObjectKind? ==> n == NewObject([])
    ensures kind.ArrayKind? ==> n == NewArray([])
    ensures kind.BlockKind? ==> n == NewText("", true, [])
  {
    match kind
    case ObjectKind => NewObject([])
    case ArrayKind => NewArray([])
    case BlockKind(_) => NewText("", true, [])
  }

  /** The frame `make...State` pushes. The block's indentation character and
      expected indentation are set by its first body line. */
  function ChildFrame(kind: Kind, line: int, n: Node, inArray: bool): (f: Frame)
    ensures f.target == n
  {
    match kind
    case ObjectKind => ObjectState(line, n, inArray)
    case ArrayKind => ArrayState(line, n)
    case BlockKind(indent) => MultilineState(line, n, indent, ' ', "", "")
  }

  /** Pushing a frame whose node sits in the last slot of the one below keeps the
      stack well formed. */
  lemma PushOk(st: ScanState, parent: Frame, child: Frame)
    requires FramesOk(st) && FrameOk(parent) && FrameOk(child) && !parent.MultilineState?
    requires parent.ObjectState? == Top(st).ObjectState? && ChildCount(parent.target) > 0
    ensures FramesOk(st.(stack := Pop(st.stack) + [parent, child]))
  {
    var r := Pop(st.stack) + [parent, child];
    forall k | 0 <= k < |r| - 2 ensures r[k] == st.stack[k] {
      assert r[k] == Pop(st.stack)[k];
    }
  }

  /** Inserts `n` under `name` into the top frame and pushes the frame that
      fills it. */
  function PushChild(st: ScanState, name: string, n: Node, kind: Kind, inArray: bool): (r: ScanState)
    requires FramesOk(st) && !Top(st).MultilineState? && ValidateKey(Top(st), name).None?
    requires UniqueDeep(n) && FrameOk(ChildFrame(kind, st.i, n, inArray))
    ensures FramesOk(r) && |r.stack| == |st.stack| + 1 && Pop(Pop(r.stack)) == Pop(st.stack)
    ensures Top(r) == ChildFrame(kind, st.i, n, inArray)
    ensures r.stack[|r.stack| - 2] == Insert(Top(st), name, n)
    ensures r == st.(stack := r.stack)
  {
    var parent := Insert(Top(st), name, n);
    var child := ChildFrame(kind, st.i, n, inArray);
    PushOk(st, parent, child);
    var r := st.(stack := Pop(st.stack) + [parent, child]);
    assert Pop(r.stack) == Pop(st.stack) + [parent];
    r
  }

  /** The pushed node is `upTarget`: "inner" while it is an empty container,
      "below" when it is a block's text. */
  lemma PushValid(st: ScanState, name: string, n: Node, kind: Kind, inArray: bool)
    requires FramesOk(st) && !Top(st).MultilineState? && ValidateKey(Top(st), name).None?
    requires UniqueDeep(n) && FrameOk(ChildFrame(kind, st.i, n, inArray))
    requires SameKind(n, NewChild(kind)) && ChildCount(n) == 0
    requires st.upTarget == TopNode && st.upProp == (if n.Text? then UpBelow else UpInner)
    ensures Valid(PushChild(st, name, n, kind, inArray))
  {
  }

  /** The state after a key line opened a frame of the given kind under `name`:
      the new node sits in the last slot of the old top frame's node, with the
      downward comments above it, its frame is on top, and it is `upTarget`. */
  predicate Opened(st: ScanState, name: string, kind: Kind, r: ScanState)
    requires |st.stack| > 0
  {
    Valid(r) && r.i == st.i && |r.stack| == |st.stack| + 1
    && Pop(Pop(r.stack)) == Pop(st.stack)
    && r.commentsUp == [] && r.commentsDown == [] && r.upTarget == TopNode
    && var parent := r.stack[|r.stack| - 2];
    parent == WithTarget(Top(st), parent.target)
    && IsContainer(parent.target) && ChildCount(parent.target) > 0
    && LastChild(parent.target) == Top(r).target
    && (parent.target.Object? ==> HasKey(parent.target.entries, name))
    && Top(r) == ChildFrame(kind, st.i, Top(r).target, Top(st).ArrayState?)
    && Top(r).target == (if st.commentsDown == [] then NewChild(kind)
                         else SetComments(NewChild(kind), st.commentsDown, Above))
  }

  /** Attaching the buffers and pushing the new node's frame gives `Opened`. */
  lemma AttachAndPush(st: ScanState, name: string, kind: Kind)
    requires Valid(st) && !Top(st).MultilineState? && ValidateKey(Top(st), name).None?
    requires kind.BlockKind? ==>
      (kind.indent == [] || kind.indent[0] == ' ' || kind.indent[0] == '\t')
    ensures var a := AttachComments(st, NewChild(kind), TopNode);
      FramesOk(a.0) && !Top(a.0).MultilineState? && ValidateKey(Top(a.0), name).None?
      && UniqueDeep(a.1) && FrameOk(ChildFrame(kind, st.i, a.1, Top(st).ArrayState?))
      && Opened(st, name, kind, PushChild(a.0, name, a.1, kind, Top(st).ArrayState?))
  {
    var top := Top(st);
    AttachReady(st, name, kind);
    var (s1, n) := AttachComments(st, NewChild(kind), TopNode);
    var r := PushChild(s1, name, n, kind, top.ArrayState?);
    PushValid(s1, name, n, kind, top.ArrayState?);
    var parent := r.stack[|r.stack| - 2];
    assert parent == Insert(Top(s1), name, n) && Top(r).target == n;
    WithTargetTwice(top, Top(s1).target, parent.target);
  }

  /** After the buffers are attached, the key is still accepted and the new node
      can be pushed. */
  lemma AttachReady(st: ScanState, name: string, kind: Kind)
    requires Valid(st) && !Top(st).MultilineState? && ValidateKey(Top(st), name).None?
    requires kind.BlockKind? ==>
      (kind.indent == [] || kind.indent[0] == ' ' || kind.indent[0] == '\t')
    ensures var a := AttachComments(st, NewChild(kind), TopNode);
      FramesOk(a.0) && !Top(a.0).MultilineState? && ValidateKey(Top(a.0), name).None?
      && UniqueDeep(a.1) && FrameOk(ChildFrame(kind, st.i, a.1, Top(st).ArrayState?))
      && SameKind(a.1, NewChild(kind)) && ChildCount(a.1) == 0
  {
    var (s1, n) := AttachComments(st, NewChild(kind), TopNode);
    ValidateKeySame(Top(st), Top(s1), name);
  }

  /** `validateKey` then `make...State`: the key is checked before anything
      changes; then the buffers are attached, the new node goes into the current
      frame under the key and its frame is pushed. */
  function Open(st: ScanState, name: string, kind: Kind): (r: Result<ScanState>)
    requires Valid(st) && !Top(st).MultilineState?
    requires kind.BlockKind? ==>
      (kind.indent == [] || kind.indent[0] == ' ' || kind.indent[0] == '\t')
    ensures r.Err? <==> ValidateKey(Top(st), name).Some?
    ensures r.Err? ==> r.error == ParseError(ValidateKey(Top(st), name).value, st.i + 1)
    ensures r.Ok? ==> Opened(st, name, kind, r.value)
  {
    match ValidateKey(Top(st), name)
    case Some(c) => Err(ParseError(c, st.i + 1))
    case None =>
      AttachAndPush(st, name, kind);
      var a := AttachComments(st, NewChild(kind), TopNode);
      Ok(PushChild(a.0, name, a.1, kind, Top(st).ArrayState?))
  }

  /** Inserting a text node into the top frame, which becomes `upTarget`'s
      container, keeps the state valid. */
  lemma InsertTextOk(st: ScanState, name: string, n: Node)
    requires FramesOk(st) && !Top(st).MultilineState? && ValidateKey(Top(st), name).None?
    requires UniqueDeep(n) && st.upTarget == TopLastChild && st.upProp == UpBelow
    ensures var r := st.(stack := SetTop(st.stack, Insert(Top(st), name, n)));
      Valid(r) && Top(r) == Insert(Top(st), name, n)
  {
    SetTopOk(st, Insert(Top(st), name, n));
  }

  /** `setSimpleText`: the value with its whitespace made plain becomes a text
      node in the current frame and the new `upTarget`. */
  function SetSimpleText(st: ScanState, name: string, value: string): (r: Result<ScanState>)
    requires Valid(st) && !Top(st).MultilineState?
    ensures r.Err? <==> ValidateKey(Top(st), name).Some?
    ensures r.Err? ==> r.error == ParseError(ValidateKey(Top(st), name).value, st.i + 1)
    ensures r.Ok? ==> (Valid(r.value) && r.value.i == st.i && |r.value.stack| == |st.stack|
      && Pop(r.value.stack) == Pop(st.stack)
      && Top(r.value) == WithTarget(Top(st), Top(r.value).target)
      && r.value.commentsUp == [] && r.value.commentsDown == []
      && r.value.upTarget == TopLastChild && r.value.upProp == UpBelow
      && LastChild(Top(r.value).target) == NewText(SpacesToPlain(value), false, st.commentsDown))
    ensures r.Ok? && Top(st).ObjectState? ==> HasKey(Top(r.value).target.entries, name)
  {
    var top := Top(st);
    match ValidateKey(top, name)
    case Some(c) => Err(ParseError(c, st.i + 1))
    case None =>
      var (s1, n) := AttachComments(st, NewText(ConvertToRegularSpace(value), false, []), TopLastChild);
      ValidateKeySame(top, Top(s1), name);
      var g := Insert(Top(s1), name, n);
      InsertTextOk(s1, name, n);
      WithTargetTwice(top, Top(s1).target, g.target);
      Ok(s1.(stack := SetTop(s1.stack, g)))
  }

  /** Popping a frame: its finished node is written into the last slot of the
      frame below, and `upTarget`, which pointed at that node, now designates the
      last member of the new top. */
  function PopFrame(st: ScanState): (r: ScanState)
    requires FramesOk(st) && |st.stack| >= 2 && st.upTarget == TopNode && st.upProp == UpBelow
    ensures Valid(r) && |r.stack| == |st.stack| - 1 && Pop(r.stack) == Pop(Pop(st.stack))
    ensures Top(r) == WithTarget(st.stack[|st.stack| - 2], Top(r).target)
    ensures IsContainer(Top(r).target) && ChildCount(Top(r).target) > 0
    ensures LastChild(Top(r).target) == Top(st).target
    ensures SameKeys(Top(r).target, st.stack[|st.stack| - 2].target)
    ensures r.upTarget == TopLastChild && r.upProp == UpBelow
    ensures r.commentsUp == st.commentsUp && r.commentsDown == st.commentsDown && r.i == st.i
  {
    PopFrameOk(st);
    var t := SetLastChild(st.stack[|st.stack| - 2].target, Top(st).target);
    st.(stack := ReplaceTop(Pop(st.stack), t), upTarget := TopLastChild)
  }

  /** The facts `PopFrame` needs: the frame below holds the finished node in its
      last slot, rewriting that slot keeps its keys, and the result is valid. */
  lemma PopFrameOk(st: ScanState)
    requires FramesOk(st) && |st.stack| >= 2 && st.upTarget == TopNode && st.upProp == UpBelow
    ensures var parent := st.stack[|st.stack| - 2];
      IsContainer(parent.target) && ChildCount(parent.target) > 0
      && Pop(st.stack)[|st.stack| - 2] == parent
      && var t := SetLastChild(parent.target, Top(st).target);
      SameKeys(t, parent.target)
      && Valid(st.(stack := ReplaceTop(Pop(st.stack), t), upTarget := TopLastChild))
  {
    var rest := Pop(st.stack);
    var parent := rest[|rest| - 1];
    assert parent == st.stack[|st.stack| - 2];
    var s1 := st.(stack := rest);
    assert FramesOk(s1) by {
      forall k | 0 <= k < |rest| ensures rest[k] == st.stack[k] { }
    }
    var t := SetLastChild(parent.target, Top(st).target);
    assert SameKeys(t, parent.target) by {
      if t.Object? {
        forall j | 0 <= j < |t.entries| ensures t.entries[j].key == parent.target.entries[j].key {
          if j < |t.entries| - 1 {
            assert t.entries[j] == t.entries[..|t.entries| - 1][j];
          }
        }
      }
    }
    SetTopOk(s1, WithTarget(parent, t));
  }

  /** A structural `----`: the buffers are attached as trailing comments of the
      top frame's node, then the frame is popped; popping the root is an error. */
  function CloseMarker(st: ScanState): (r: Result<ScanState>)
    requires Valid(st) && !Top(st).MultilineState?
    ensures r.Err? <==> |st.stack| == 1
    ensures r.Err? ==> r.error == ParseError(UnmatchedCloseMarker, st.i + 1)
    ensures r.Ok? ==> Valid(r.value) && r.value.i == st.i && |r.value.stack| == |st.stack| - 1
  {
    var s1 := AttachTrailingComments(st);
    if |s1.stack| == 1 then Err(ParseError(UnmatchedCloseMarker, st.i + 1))
    else Ok(PopFrame(s1))
  }

  // ---------------------------------------------------------------------------
  // Block (multiline) lines

  /** The expected indentation, fixed by the first body line: the key line's
      indentation plus one tab or four spaces; with no key indentation a tab when
      the first body line starts with one, four spaces otherwise. */
  function WithExpectedIndent(f: Frame, line: string): (g: Frame)
    requires f.MultilineState? && FrameOk(f)
    ensures g.MultilineState? && FrameOk(g) && g.expIndent != []
    ensures g == MultilineState(f.startLine, f.target, f.indent, g.indentChar, g.expIndent, f.text)
    ensures f.expIndent != [] ==> g == f
    ensures f.expIndent == [] && f.indent != [] ==>
      g.indentChar == f.indent[0]
      && g.expIndent == f.indent + Repeat(f.indent[0], if f.indent[0] == '\t' then 1 else 4)
    ensures f.expIndent == [] && f.indent == [] ==>
      g.indentChar == (if StartsWith(line, "\t") then '\t' else ' ')
      && g.expIndent == (if StartsWith(line, "\t") then "\t" else "    ")
  {
    if f.expIndent != [] then f
    else if f.indent != [] then
      var c := f.indent[0];
      f.(indentChar := c, expIndent := f.indent + Repeat(c, if c != '\t' then 4 else 1))
    else if StartsWith(line, "\t") then f.(expIndent := "\t", indentChar := '\t')
    else f.(expIndent := "    ", indentChar := ' ')
  }

  /** `actIndentLen`: how many of the first `e` characters of the line are the
      indentation character. */
  function IndentLength(line: string, e: nat, c: char): (a: nat)
    ensures a <= e && a <= |line|
    ensures forall k :: 0 <= k < a ==> line[k] == c
    ensures a < e && a < |line| ==> line[a] != c
  {
    var head := line[..if e < |line| then e else |line|];
    var rest := TrimLeftChar(head, c);
    assert |rest| > 0 ==> rest[0] == head[|head| - |rest|];
    |head| - |rest|
  }

  /** The slice `prefix[actIndentLen : actIndentLen+1]` at xtn.go:366 is out of
      range: the line is shorter than the expected indentation and made only of
      the indentation character. */
  predicate BlockPanics(f: Frame, line: string)
    requires f.MultilineState? && FrameOk(f)
  {
    var g := WithExpectedIndent(f, line);
    IndentLength(line, |g.expIndent|, g.indentChar) == |line| < |g.expIndent|
  }

  predicate Panics(st: ScanState, line: string)
    requires FramesOk(st)
  {
    Top(st).MultilineState? && BlockPanics(Top(st), line)
  }

  /** A line that ends in a line break never hits that slice: the break is not an
      indentation character. Every line but the last one of the input ends so. */
  lemma TerminatedLineNeverPanics(st: ScanState, line: string)
    requires FramesOk(st) && Terminated(line)
    ensures !Panics(st, line)
  {
    if Top(st).MultilineState? {
      var g := WithExpectedIndent(Top(st), line);
      var a := IndentLength(line, |g.expIndent|, g.indentChar);
      assert a != |line| by {
        if a > 0 {
          assert line[a - 1] == g.indentChar;
        }
      }
    }
  }

  /** The text a body line contributes: the line after the indentation, a final
      carriage return written as a line feed. */
  function BodyText(rest: string): (r: string)
    ensures EndsWith(rest, "\r") ==> r == rest[..|rest| - 1] + "\n"
    ensures !EndsWith(rest, "\r") ==> r == rest
  {
    if EndsWith(rest, "\r") then rest[..|rest| - 1] + "\n" else rest
  }

  /** The block's node when it closes: the collected text without its last
      character (the line break of the last body line); with no body line the
      value stays empty. */
  function ClosedText(f: Frame): (n: Node)
    requires f.MultilineState? && f.target.Text?
    ensures n.Text? && n.forceMultiline == f.target.forceMultiline
    ensures n.above == f.target.above && n.below == f.target.below
    ensures f.text != [] ==> n.value == f.text[..|f.text| - 1]
    ensures f.text == [] ==> n.value == f.target.value
  {
    var t := f.target;
    Text(if f.text != [] then f.text[..|f.text| - 1] else t.value, t.forceMultiline, t.above, t.below)
  }

  /** What a line inside a block is (xtn.go:365-392), from the line, the expected
      indentation width `e`, the actual indentation width `a` and the key line's
      indentation width. */
  datatype BlockVerdict = MixedIndent | ClosesBlock | WrongCloseIndent | ShortIndent | BodyLine

  /** The indentation checks of a block line, in the source's order. Within the
      expected width: whitespace other than a line break is mixed indentation;
      `----` and trailing whitespace closes the block at the key's indentation and
      is refused elsewhere; anything but a line break is insufficient. */
  function BlockRule(line: string, e: nat, a: nat, keyLen: nat): (v: BlockVerdict)
    requires a <= e && a <= |line| && (a < e ==> a < |line|)
    ensures v == MixedIndent <==> a < e && IsSpace(line[a]) && line[a] != '\r' && line[a] != '\n'
    ensures v == ClosesBlock <==> a < e && !IsSpace(line[a]) && IsCloser(line[a..]) && a == keyLen
    ensures v == WrongCloseIndent <==> a < e && !IsSpace(line[a]) && IsCloser(line[a..]) && a != keyLen
    ensures v == ShortIndent <==> a < e && !IsSpace(line[a]) && !IsCloser(line[a..])
    ensures v == BodyLine <==> a == e || line[a] == '\r' || line[a] == '\n'
  {
    var head := line[a..if a < e then a + 1 else a];
    assert a < e ==> head == [line[a]];
    assert a < e && IsCloser(line[a..]) ==> !IsSpace(line[a]) by {
      if a < e && IsCloser(line[a..]) { CloserStart(line, a); }
    }
    if a < e && PyIsSpace(head) && head != "\r" && head != "\n" then MixedIndent
    else if a < e && IsCloser(line[a..]) then
      if a == keyLen then ClosesBlock else WrongCloseIndent
    else if a < e && head != "\n" && head != "\r" then ShortIndent
    else BodyLine
  }

  /** `----` followed by whitespace only (`isEmptyOrSpace(line[4:])`). */
  predicate IsCloser(rest: string) {
    StartsWith(rest, "----") && AllSpace(rest[4..])
  }

  /** A close marker starts with a dash, which is no whitespace. */
  lemma CloserStart(line: string, a: nat)
    requires a < |line| && IsCloser(line[a..])
    ensures line[a] == '-' && !IsSpace(line[a])
  {
    assert line[a] == line[a..][..4][0];
  }

  /** A line inside a block: the indentation checks, the closing `----` at the key
      line's indentation, or one more line of text. */
  function BlockLine(st: ScanState, line: string): (r: Result<ScanState>)
    requires Valid(st) && Top(st).MultilineState? && !BlockPanics(Top(st), line)
    ensures r.Ok? ==> Valid(r.value) && r.value.i == st.i
  {
    var f := WithExpectedIndent(Top(st), line);
    var e := |f.expIndent|;
    var a := IndentLength(line, e, f.indentChar);
    match BlockRule(line, e, a, |f.indent|)
    case MixedIndent => Err(ParseError(IndentationMustNotBeMixed, st.i + 1))
    case ClosesBlock => Ok(CloseBlock(st, f))
    case WrongCloseIndent => Err(ParseError(IncorrectIndentation, st.i + 1))
    case ShortIndent => Err(ParseError(InsufficientIndentation, st.i + 1))
    case BodyLine => Ok(AddBodyLine(st, f, line[a..]))
  }

  /** The block frame with one more line of text. */
  function AddBodyLine(st: ScanState, f: Frame, rest: string): (r: ScanState)
    requires Valid(st) && Top(st).MultilineState? && f.MultilineState? && FrameOk(f)
    requires f.target == Top(st).target
    ensures Valid(r) && r.i == st.i && |r.stack| == |st.stack| && Pop(r.stack) == Pop(st.stack)
    ensures Top(r) == f.(text := f.text + BodyText(rest))
  {
    var g := f.(text := f.text + BodyText(rest));
    SetTopOk(st, g);
    st.(stack := SetTop(st.stack, g))
  }

  /** The closing `----` of a block: the finished text node goes into the parent
      and the frame is popped. */
  function CloseBlock(st: ScanState, f: Frame): (r: ScanState)
    requires Valid(st) && Top(st).MultilineState? && f.MultilineState? && FrameOk(f)
    requires f.target == Top(st).target
    ensures Valid(r) && r.i == st.i && |r.stack| == |st.stack| - 1
    ensures Pop(r.stack) == Pop(Pop(st.stack))
    ensures IsContainer(Top(r).target) && ChildCount(Top(r).target) > 0
    ensures LastChild(Top(r).target) == ClosedText(f)
    ensures Top(r) == WithTarget(st.stack[|st.stack| - 2], Top(r).target)
    ensures SameKeys(Top(r).target, st.stack[|st.stack| - 2].target)
    ensures r.commentsUp == st.commentsUp && r.commentsDown == st.commentsDown
  {
    var n := ClosedText(f);
    assert SameKeys(n, Top(st).target) && UniqueDeep(n);
    ReplaceTopOk(st, n);
    var s1 := st.(stack := ReplaceTop(st.stack, n));
    assert Top(s1).target == n;
    assert s1.stack[|s1.stack| - 2] == st.stack[|st.stack| - 2] by {
      assert Pop(s1.stack) == Pop(st.stack);
    }
    PopFrame(s1)
  }

  // ---------------------------------------------------------------------------
  // Structural lines

  /** A line outside a block: a comment or blank line, a key line, a close marker,
      or an error. */
  function StructuralLine(st: ScanState, origLine: string): (r: Result<ScanState>)
    requires Valid(st) && !Top(st).MultilineState?
    ensures r.Ok? ==> Valid(r.value) && r.value.i == st.i
  {
    var line := Trim(origLine);
    if line == [] || line[0] == '#' then Ok(RecordComment(st, line))
    else
      var p := Partition(line, ":");
      var left := TrimEnd(p.left);
      var right := TrimStart(p.right);
      ColonSplit(line);
      if p.sep != [] then
        KeyLine(st, origLine, left, right)
      else
        OtherLine(st, left)
  }

  /** A line without a colon: `----` closes the current frame, anything else is
      an error. */
  function OtherLine(st: ScanState, left: string): (r: Result<ScanState>)
    requires Valid(st) && !Top(st).MultilineState? && left != []
    ensures r.Ok? ==> Valid(r.value) && r.value.i == st.i
  {
    if StartsWith(left, "----") && AllSpace(left[4..]) then CloseMarker(st)
    else if Top(st).ArrayState? then
      if left[0] == '+' then Err(ParseError(MissingColon, st.i + 1))
      else Err(ParseError(ArrayElementMustStartWithPlus, st.i + 1))
    else Err(ParseError(MissingColon, st.i + 1))
  }

  /** A line with a colon: the suffix of the key picks an object, an array, a
      block or a simple value. */
  function KeyLine(st: ScanState, origLine: string, left: string, right: string): (r: Result<ScanState>)
    requires Valid(st) && !Top(st).MultilineState?
    requires Trim(origLine) != [] && (left != [] ==> left[0] == Trim(origLine)[0])
    ensures r.Ok? ==> Valid(r.value) && r.value.i == st.i
  {
    if left == [] then Err(ParseError(LineMustNotStartWithColon, st.i + 1))
    else if StartsWith(left, "+") && Top(st).ObjectState? then
      Err(ParseError(PlusEncounteredOutsideArray, st.i + 1))
    else if EndsWith(left, "{}") then
      if right != [] then Err(ParseError(ObjectMustBeOnNewLine, st.i + 1))
      else Open(st, CleanKeyName(TrimEnd(left[..|left| - 2])), ObjectKind)
    else if EndsWith(left, "[]") then
      if right != [] then Err(ParseError(ArrayMustBeOnNewLine, st.i + 1))
      else Open(st, CleanKeyName(TrimEnd(left[..|left| - 2])), ArrayKind)
    else if EndsWith(left, "''") then
      KeyIndent(origLine);
      BlockKey(st, origLine[..IndexOf(origLine, [left[0]])],
               CleanKeyName(TrimEnd(left[..|left| - 2])), right)
    else
      SetSimpleText(st, CleanKeyName(left), right)
  }

  /** `key'':`: the key line's indentation must be spaces only or tabs only and
      nothing may follow the colon; the key is validated before the block opens. */
  function BlockKey(st: ScanState, indent: string, name: string, right: string): (r: Result<ScanState>)
    requires Valid(st) && !Top(st).MultilineState?
    ensures r.Ok? ==> Valid(r.value) && r.value.i == st.i && BlockIndent(indent) && right == []
    ensures indent != [] && indent[0] != ' ' && indent[0] != '\t' ==>
      r == Err(ParseError(IndentationMustBeSpaceOrTab, st.i + 1))
    ensures indent != [] && (indent[0] == ' ' || indent[0] == '\t') && !BlockIndent(indent) ==>
      r == Err(ParseError(IndentationMustNotBeMixed, st.i + 1))
    ensures BlockIndent(indent) && right != [] ==> r == Err(ParseError(MultilineMustBeOnNewLine, st.i + 1))
  {
    if indent != [] && indent[0] != ' ' && indent[0] != '\t' then
      Err(ParseError(IndentationMustBeSpaceOrTab, st.i + 1))
    else if indent != [] && TrimLeftChar(indent, indent[0]) != [] then
      Err(ParseError(IndentationMustNotBeMixed, st.i + 1))
    else if right != [] then
      Err(ParseError(MultilineMustBeOnNewLine, st.i + 1))
    else
      Open(st, name, BlockKind(indent))
  }

  // ---------------------------------------------------------------------------
  // The whole input

  /** `processLine`: the line counter advances, then the line goes to the block
      or to the structural rules. Errors carry the 1-based line number. */
  function Step(st: ScanState, origLine: string): (r: Result<ScanState>)
    requires Valid(st) && !Panics(st, origLine)
    ensures r.Ok? ==> Valid(r.value) && r.value.i == st.i + 1
  {
    var s1 := Tick(st);
    if Top(s1).MultilineState? then BlockLine(s1, origLine) else StructuralLine(s1, origLine)
  }

  // The lines of a block body, one rule each. `st.i` still counts the previous
  // line, so an error names line `st.i + 2`, the 1-based number of this one.

  /** Whitespace other than the indentation character and a line break, inside
      the expected indentation, is mixed indentation. */
  lemma BlockMixedIndent(st: ScanState, line: string)
    requires Valid(st) && Top(st).MultilineState? && !Panics(st, line)
    requires var f := WithExpectedIndent(Top(st), line);
      var a := IndentLength(line, |f.expIndent|, f.indentChar);
      a < |f.expIndent| && IsSpace(line[a]) && line[a] != '\r' && line[a] != '\n'
    ensures Step(st, line) == Err(ParseError(IndentationMustNotBeMixed, st.i + 2))
  {
    var f := WithExpectedIndent(Top(st), line);
    var a := IndentLength(line, |f.expIndent|, f.indentChar);
    assert BlockRule(line, |f.expIndent|, a, |f.indent|) == MixedIndent;
    assert Step(st, line) == BlockLine(Tick(st), line);
  }

  /** `----` short of the body indentation but not at the key's indentation is
      refused. */
  lemma BlockWrongCloseIndent(st: ScanState, line: string)
    requires Valid(st) && Top(st).MultilineState? && !Panics(st, line)
    requires var f := WithExpectedIndent(Top(st), line);
      var a := IndentLength(line, |f.expIndent|, f.indentChar);
      a < |f.expIndent| && IsCloser(line[a..]) && a != |Top(st).indent|
    ensures Step(st, line) == Err(ParseError(IncorrectIndentation, st.i + 2))
  {
    var f := WithExpectedIndent(Top(st), line);
    var a := IndentLength(line, |f.expIndent|, f.indentChar);
    CloserStart(line, a);
    assert BlockRule(line, |f.expIndent|, a, |f.indent|) == WrongCloseIndent;
    assert Step(st, line) == BlockLine(Tick(st), line);
  }

  /** Any other visible character inside the expected indentation is
      insufficient indentation. */
  lemma BlockShortLine(st: ScanState, line: string)
    requires Valid(st) && Top(st).MultilineState? && !Panics(st, line)
    requires var f := WithExpectedIndent(Top(st), line);
      var a := IndentLength(line, |f.expIndent|, f.indentChar);
      a < |f.expIndent| && !IsSpace(line[a]) && !IsCloser(line[a..])
    ensures Step(st, line) == Err(ParseError(InsufficientIndentation, st.i + 2))
  {
    var f := WithExpectedIndent(Top(st), line);
    var a := IndentLength(line, |f.expIndent|, f.indentChar);
    assert BlockRule(line, |f.expIndent|, a, |f.indent|) == ShortIndent;
    assert Step(st, line) == BlockLine(Tick(st), line);
  }

  /** `----` at the key's indentation closes the block. */
  lemma BlockCloseLine(st: ScanState, line: string)
    requires Valid(st) && Top(st).MultilineState? && !Panics(st, line)
    requires var f := WithExpectedIndent(Top(st), line);
      var a := IndentLength(line, |f.expIndent|, f.indentChar);
      a < |f.expIndent| && IsCloser(line[a..]) && a == |Top(st).indent|
    ensures Step(st, line) == Ok(CloseBlock(Tick(st), WithExpectedIndent(Top(st), line)))
  {
    var f := WithExpectedIndent(Top(st), line);
    var a := IndentLength(line, |f.expIndent|, f.indentChar);
    CloserStart(line, a);
    assert BlockRule(line, |f.expIndent|, a, |f.indent|) == ClosesBlock;
    var s1 := Tick(st);
    assert Step(st, line) == BlockLine(s1, line);
  }

  /** The scanner with its line counter advanced, as `processLine` starts. */
  function Tick(st: ScanState): (r: ScanState)
    requires Valid(st)
    ensures Valid(r) && r.stack == st.stack && Top(r) == Top(st) && r.i == st.i + 1
  {
    st.(i := st.i + 1)
  }

  /** A line with the full indentation, or one that breaks inside it, adds what
      follows the indentation to the text. */
  lemma BlockTextLine(st: ScanState, line: string)
    requires Valid(st) && Top(st).MultilineState? && !Panics(st, line)
    requires var f := WithExpectedIndent(Top(st), line);
      var a := IndentLength(line, |f.expIndent|, f.indentChar);
      a == |f.expIndent| || line[a] == '\r' || line[a] == '\n'
    ensures var f := WithExpectedIndent(Top(st), line);
      var a := IndentLength(line, |f.expIndent|, f.indentChar);
      Step(st, line) == Ok(AddBodyLine(Tick(st), f, line[a..]))
  {
    var f := WithExpectedIndent(Top(st), line);
    var a := IndentLength(line, |f.expIndent|, f.indentChar);
    assert BlockRule(line, |f.expIndent|, a, |f.indent|) == BodyLine;
    assert Step(st, line) == BlockLine(Tick(st), line);
  }

  /** Some line of the run reaches the out-of-range slice. */
  predicate RunPanics(st: ScanState, lines: seq<string>)
    requires Valid(st)
    decreases |lines|
  {
    lines != []
    && (Panics(st, lines[0])
        || (Step(st, lines[0]).Ok? && RunPanics(Step(st, lines[0]).value, lines[1..])))
  }

  /** The lines one `processLine` each, stopping at the first error. */
  function Run(st: ScanState, lines: seq<string>): (r: Result<ScanState>)
    requires Valid(st) && !RunPanics(st, lines)
    ensures r.Ok? ==> Valid(r.value) && r.value.i == st.i + |lines|
    decreases |lines|
  {
    if lines == [] then Ok(st)
    else
      match Step(st, lines[0])
      case Err(e) => Err(e)
      case Ok(s1) => Run(s1, lines[1..])
  }

  /** `complete`: the buffers are attached as trailing comments of the top
      frame's node; a frame left open above the root is a missing close marker,
      reported one past the last line. */
  function Complete(st: ScanState): (r: Result<Node>)
    requires Valid(st)
    ensures r.Err? <==> |st.stack| > 1
    ensures r.Err? ==> r.error == ParseError(MissingCloseMarker, st.i + 2)
    ensures r.Ok? ==> r.value.Object? && UniqueDeep(r.value)
    ensures r.Ok? ==> SameKeys(r.value, st.stack[0].target)
    ensures r.Ok? && st.commentsDown != [] ==> r.value.innerBottom == st.commentsDown
  {
    var s1 := AttachTrailingComments(st);
    if |s1.stack| > 1 then Err(ParseError(MissingCloseMarker, st.i + 2))
    else
      var root := s1.stack[0];
      assert root == Top(s1) && st.stack[0] == Top(st);
      assert root.ObjectState? && FrameOk(root);
      Ok(root.target)
  }

  predicate IsBreak(c: char) {
    c == '\r' || c == '\n'
  }

  /** A line that ends in a line break. */
  predicate Terminated(line: string) {
    line != [] && IsBreak(line[|line| - 1])
  }

  /** The position of the first line break, or the length. */
  function FirstBreak(d: string): (k: nat)
    ensures k <= |d| && (k < |d| ==> IsBreak(d[k]))
    ensures forall j :: 0 <= j < k ==> !IsBreak(d[j])
  {
    if d == [] || IsBreak(d[0]) then 0 else 1 + FirstBreak(d[1..])
  }

  /** Drops one line feed that directly follows a carriage return. */
  function SkipLf(d: string): (r: string)
    ensures r == (if d != [] && d[0] == '\n' then d[1..] else d)
  {
    if d != [] && d[0] == '\n' then d[1..] else d
  }

  /** The byte loop of `UnmarshalToMap`: a line ends after each `\r` and after each
      `\n` that does not directly follow a `\r` (that one is skipped); a trailing
      piece without a break is the last line. */
  function SplitLines(d: string): (lines: seq<string>)
    ensures d == [] <==> lines == []
    decreases |d|
  {
    if d == [] then []
    else
      var k := FirstBreak(d);
      if k == |d| then [d]
      else [d[..k + 1]] + SplitLines(RestAfter(d, k))
  }

  /** The input after the line that ends at the break `d[k]`. */
  function RestAfter(d: string, k: nat): (r: string)
    requires k < |d|
    ensures r == (if d[k] == '\r' then SkipLf(d[k + 1..]) else d[k + 1..])
    ensures |r| < |d|
  {
    if d[k] == '\r' then SkipLf(d[k + 1..]) else d[k + 1..]
  }

  /** `UnmarshalToMap` into an `*Object`: the tree of the input, or the first
      error. No object in the tree holds a key twice. */
  function LoadSpec(data: string): (r: Result<Node>)
    requires !RunPanics(Initial(), SplitLines(data))
    ensures r.Ok? ==> r.value.Object? && UniqueDeep(r.value)
  {
    match Run(Initial(), SplitLines(data))
    case Err(e) => Err(e)
    case Ok(st) => Complete(st)
  }

  /** The position of the first line break, known from the characters before it. */
  lemma FirstBreakAt(d: string, k: nat)
    requires k <= |d| && (k < |d| ==> IsBreak(d[k]))
    requires forall j :: 0 <= j < k ==> !IsBreak(d[j])
    ensures FirstBreak(d) == k
  {
  }

  /** Input with a line break at `k`, the first one: its first line runs to that
      break, which it keeps, and the other lines are those of the rest. */
  lemma SplitLinesCons(d: string, k: nat)
    requires d != [] && k == FirstBreak(d) && k < |d|
    ensures SplitLines(d) != [] && SplitLines(d)[0] == d[..k + 1]
    ensures SplitLines(d)[1..] == SplitLines(RestAfter(d, k))
    ensures Terminated(d[..k + 1])
  {
    assert d[..k + 1][k] == d[k];
  }

  /** A run over lines that all end in a line break never reaches the slice that
      panics. */
  lemma {:induction false} TerminatedLinesNeverPanic(st: ScanState, lines: seq<string>)
    requires Valid(st)
    requires forall j :: 0 <= j < |lines| ==> Terminated(lines[j])
    ensures !RunPanics(st, lines)
    decreases |lines|
  {
    if lines != [] {
      TerminatedLineNeverPanics(st, lines[0]);
      var r := Step(st, lines[0]);
      if r.Ok? {
        TerminatedLinesNeverPanic(r.value, lines[1..]);
      }
    }
  }

  /** Input that ends in a line break (or is empty) always has a result: the only
      line that can panic is an unterminated last one. */
  lemma TerminatedInputNeverPanics(data: string)
    requires data == [] || Terminated(data)
    ensures !RunPanics(Initial(), SplitLines(data))
  {
    TerminatedSplit(data);
    TerminatedLinesNeverPanic(Initial(), SplitLines(data));
  }

  /** No line is empty, and every line but the last ends in a line break. */
  lemma {:induction false} SplitLinesShape(d: string)
    ensures var lines := SplitLines(d);
      (forall j :: 0 <= j < |lines| - 1 ==> Terminated(lines[j]))
      && (lines != [] ==> lines[|lines| - 1] != [])
    decreases |d|
  {
    if d != [] {
      var k := FirstBreak(d);
      if k == |d| {
        assert SplitLines(d) == [d];
      } else {
        var tail := RestAfter(d, k);
        SplitLinesCons(d, k);
        SplitLinesShape(tail);
        ConsLines(SplitLines(d));
      }
    }
  }

  /** Lines after a first, terminated one: what holds of the others carries
      over. */
  lemma ConsLines(lines: seq<string>)
    requires lines != [] && Terminated(lines[0])
    ensures var tl := lines[1..];
      ((forall j :: 0 <= j < |tl| - 1 ==> Terminated(tl[j])) ==>
         forall j :: 0 <= j < |lines| - 1 ==> Terminated(lines[j]))
      && ((tl != [] ==> tl[|tl| - 1] != []) ==> lines[|lines| - 1] != [])
      && ((forall j :: 0 <= j < |tl| ==> Terminated(tl[j])) ==>
            forall j :: 0 <= j < |lines| ==> Terminated(lines[j]))
  {
    var tl := lines[1..];
    forall j | 1 <= j < |lines| ensures lines[j] == tl[j - 1] { }
  }

  /** Input that ends in a line break is cut into lines that all do. */
  lemma {:induction false} TerminatedSplit(d: string)
    requires d == [] || Terminated(d)
    ensures forall j :: 0 <= j < |SplitLines(d)| ==> Terminated(SplitLines(d)[j])
    decreases |d|
  {
    if d != [] {
      var k := FirstBreak(d);
      RestTerminated(d, k);
      SplitLinesCons(d, k);
      TerminatedSplit(RestAfter(d, k));
      ConsLines(SplitLines(d));
    }
  }

  /** In input that ends in a line break there is a first one, and the input
      after it is empty or ends in a line break too. */
  lemma RestTerminated(d: string, k: nat)
    requires Terminated(d) && k == FirstBreak(d)
    ensures k < |d| && (RestAfter(d, k) == [] || Terminated(RestAfter(d, k)))
  {
    assert IsBreak(d[|d| - 1]);
    assert k <= |d| - 1;
    var m := if d[k] == '\r' && k + 1 < |d| && d[k + 1] == '\n' then k + 2 else k + 1;
    var tail := RestAfter(d, k);
    assert tail == d[m..];
    if m < |d| {
      assert tail[|tail| - 1] == d[|d| - 1];
    }
  }

  /** The input with every line feed that directly follows a carriage return
      left out: the characters the byte loop copies into its lines. */
  function DropCrLf(d: string): string
    decreases |d|
  {
    if d == [] then []
    else if d[0] == '\r' && |d| > 1 && d[1] == '\n' then "\r" + DropCrLf(d[2..])
    else [d[0]] + DropCrLf(d[1..])
  }

  /** The lines hold the whole input, in order, but for each line feed that
      follows a carriage return; a line break occurs in a line only as its last
      character. */
  lemma {:induction false} SplitLinesContent(d: string)
    ensures Concat(SplitLines(d)) == DropCrLf(d)
    ensures forall j, i :: 0 <= j < |SplitLines(d)| && 0 <= i < |SplitLines(d)[j]| - 1 ==>
      !IsBreak(SplitLines(d)[j][i])
    decreases |d|
  {
    if d != [] {
      var k := FirstBreak(d);
      var lines := SplitLines(d);
      if k == |d| {
        assert lines == [d];
        DropPlainPrefix(d, []);
        assert d + [] == d;
        assert Concat(lines) == d + Concat([]);
      } else {
        var tail := RestAfter(d, k);
        SplitLinesCons(d, k);
        SplitLinesContent(tail);
        assert Concat(lines) == lines[0] + Concat(lines[1..]);
        DropAtBreak(d, k);
        forall j, i | 0 <= j < |lines| && 0 <= i < |lines[j]| - 1
          ensures !IsBreak(lines[j][i])
        {
          if j > 0 {
            assert lines[j] == SplitLines(tail)[j - 1];
          }
        }
      }
    }
  }

  /** Text without line breaks is copied unchanged. */
  lemma {:induction false} DropPlainPrefix(p: string, s: string)
    requires forall j :: 0 <= j < |p| ==> !IsBreak(p[j])
    ensures DropCrLf(p + s) == p + DropCrLf(s)
    decreases |p|
  {
    if p == [] {
      assert p + s == s;
    } else {
      assert (p + s)[0] == p[0] && (p + s)[1..] == p[1..] + s;
      DropPlainPrefix(p[1..], s);
      Assoc([p[0]], p[1..], DropCrLf(s));
      assert [p[0]] + p[1..] == p;
    }
  }

  /** The first line is copied up to and including its break; a line feed that
      follows a carriage return there is left out. */
  lemma DropAtBreak(d: string, k: nat)
    requires k == FirstBreak(d) && k < |d|
    ensures DropCrLf(d) == d[..k + 1] + DropCrLf(RestAfter(d, k))
  {
    var p, s := d[..k], d[k..];
    var rest := DropCrLf(RestAfter(d, k));
    assert forall j :: 0 <= j < |p| ==> !IsBreak(p[j]);
    DropPlainPrefix(p, s);
    DropBreakHead(d, k);
    Assoc(p, [d[k]], rest);
    TakeDrop(d, k);
    TakeNext(d, k);
  }

  /** From a line break on, the break is copied and the input goes on where
      `RestAfter` resumes. */
  lemma DropBreakHead(d: string, k: nat)
    requires k < |d| && IsBreak(d[k])
    ensures DropCrLf(d[k..]) == [d[k]] + DropCrLf(RestAfter(d, k))
  {
    var s := d[k..];
    if d[k] == '\r' && k + 1 < |d| && d[k + 1] == '\n' {
      assert s[2..] == d[k + 2..] == RestAfter(d, k);
    } else {
      assert s[1..] == d[k + 1..] == RestAfter(d, k);
    }
  }
}
