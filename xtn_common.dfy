/** Shared vocabulary of the four XTN implementations: the document tree, comments,
    error codes, the whitespace classification and the string helpers that every
    implementation uses (trim, partition, whitespace conversion). */
module Xtn {

  datatype Option<T> = None | Some(value: T)

  /** Every error aborts the parse: a parse either yields a value or one error. */
  datatype Result<T> = Ok(value: T) | Err(error: ParseError)

  /** The error codes of the format. `MultilineMarkerTooShort` exists only in the
      older dialect; `EmptyStackIndexError` stands for the Python `IndexError` that
      the older dialect raises when a line follows the closing of the root. */
  datatype ErrorCode =
    | ObjectMustBeOnNewLine
    | ArrayMustBeOnNewLine
    | MultilineMustBeOnNewLine
    | LineMustNotStartWithColon
    | PlusEncounteredOutsideArray
    | ArrayElementMustStartWithPlus
    | MissingColon
    | UnmatchedCloseMarker
    | MissingCloseMarker
    | IndentationMustBeSpaceOrTab
    | IndentationMustNotBeMixed
    | InsufficientIndentation
    | ArrayElementMustNotHaveAKey
    | ObjectKeysCannotBeRepeated
    | IncorrectIndentation
    | MultilineMarkerTooShort
    | EmptyStackIndexError

  /** An error code and the line it is reported at (each implementation has its own
      line base). Messages and column spans are not modelled. */
  datatype ParseError = ParseError(code: ErrorCode, line: int)

  datatype Comment = Comment(value: string, prefix: string)

  const BlankComment := Comment("", "")

  /** A data element. The Go implementation uses all four comment slots; the other
      implementations use `above` for `comments` and `innerBottom` for
      `trail_comments`. */
  datatype Node =
    | Text(value: string, forceMultiline: bool, above: seq<Comment>, below: seq<Comment>)
    | Array(elements: seq<Node>, above: seq<Comment>, innerTop: seq<Comment>,
            innerBottom: seq<Comment>, below: seq<Comment>)
    | Object(entries: seq<Entry>, above: seq<Comment>, innerTop: seq<Comment>,
             innerBottom: seq<Comment>, below: seq<Comment>)

  /** Object members in insertion order. */
  datatype Entry = Entry(key: string, value: Node)

  function NewText(value: string, forceMultiline: bool, above: seq<Comment>): (n: Node)
    ensures n.Text? && n.value == value && n.forceMultiline == forceMultiline && n.above == above
    ensures n.below == []
  {
    Text(value, forceMultiline, above, [])
  }

  function NewObject(above: seq<Comment>): (n: Node)
    ensures n.Object? && n.entries == [] && n.above == above
    ensures n.innerTop == [] && n.innerBottom == [] && n.below == []
  {
    Object([], above, [], [], [])
  }

  function NewArray(above: seq<Comment>): (n: Node)
    ensures n.Array? && n.elements == [] && n.above == above
    ensures n.innerTop == [] && n.innerBottom == [] && n.below == []
  {
    Array([], above, [], [], [])
  }

  // ---------------------------------------------------------------------------
  // Object members

  predicate HasKey(entries: seq<Entry>, k: string) {
    exists j :: 0 <= j < |entries| && entries[j].key == k
  }

  predicate UniqueKeys(entries: seq<Entry>) {
    forall i, j :: 0 <= i < j < |entries| ==> entries[i].key != entries[j].key
  }

  /** No object anywhere in the tree holds the same key twice. */
  predicate UniqueDeep(n: Node)
    decreases n
  {
    match n
    case Text(_, _, _, _) => true
    case Array(els, _, _, _, _) => forall j :: 0 <= j < |els| ==> UniqueDeep(els[j])
    case Object(es, _, _, _, _) =>
      UniqueKeys(es) && forall j :: 0 <= j < |es| ==> UniqueDeep(es[j].value)
  }

  /** Appending a member under a fresh key keeps the keys unique. */
  lemma AppendFreshKey(entries: seq<Entry>, e: Entry)
    requires UniqueKeys(entries) && !HasKey(entries, e.key)
    ensures UniqueKeys(entries + [e])
  {
    var r := entries + [e];
    forall i, j | 0 <= i < j < |r| ensures r[i].key != r[j].key {
      if j == |entries| {
        assert r[i] == entries[i];
      }
    }
  }

  /** The position of key `k`, or -1. */
  function KeyIndex(entries: seq<Entry>, k: string): (r: int)
    ensures -1 <= r < |entries|
    ensures r >= 0 ==> entries[r].key == k
    ensures r == -1 <==> !HasKey(entries, k)
  {
    if entries == [] then -1
    else if entries[|entries| - 1].key == k then |entries| - 1
    else
      var r := KeyIndex(entries[..|entries| - 1], k);
      assert !HasKey(entries[..|entries| - 1], k) ==> !HasKey(entries, k) by {
        if HasKey(entries, k) {
          var j :| 0 <= j < |entries| && entries[j].key == k;
          assert entries[..|entries| - 1][j].key == k;
        }
      }
      r
  }

  /** Python dict assignment `d[k] = v`: an existing key keeps its position and
      gets the new value, a new key goes at the end. */
  function PutEntry(entries: seq<Entry>, k: string, v: Node): (r: seq<Entry>)
    ensures HasKey(entries, k) ==> |r| == |entries|
    ensures !HasKey(entries, k) ==> r == entries + [Entry(k, v)]
    ensures HasKey(r, k)
    ensures forall j :: 0 <= j < |entries| && entries[j].key != k ==> r[j] == entries[j]
    ensures forall j :: 0 <= j < |r| ==> (j < |entries| && r[j].key == entries[j].key) || (j == |entries| && r[j] == Entry(k, v))
    ensures UniqueKeys(entries) ==> forall j :: 0 <= j < |r| && r[j].key == k ==> r[j].value == v
  {
    var i := KeyIndex(entries, k);
    if i >= 0 then
      var r := entries[i := Entry(k, v)];
      assert r[i].key == k;
      r
    else
      var r := entries + [Entry(k, v)];
      assert r[|entries|].key == k;
      r
  }

  lemma PutEntryKeepsUnique(entries: seq<Entry>, k: string, v: Node)
    requires UniqueKeys(entries)
    ensures UniqueKeys(PutEntry(entries, k, v))
  {
    if !HasKey(entries, k) {
      AppendFreshKey(entries, Entry(k, v));
    }
  }

  // ---------------------------------------------------------------------------
  // Containers under construction

  predicate IsContainer(n: Node) {
    n.Array? || n.Object?
  }

  function ChildCount(n: Node): nat {
    match n
    case Text(_, _, _, _) => 0
    case Array(els, _, _, _, _) => |els|
    case Object(es, _, _, _, _) => |es|
  }

  function LastChild(n: Node): (c: Node)
    requires IsContainer(n) && ChildCount(n) > 0
    ensures c < n
  {
    if n.Array? then n.elements[|n.elements| - 1] else n.entries[|n.entries| - 1].value
  }

  /** Writes `c` into the last slot of a container: the slot of the child that is
      currently open, or the one just created. */
  function SetLastChild(n: Node, c: Node): (r: Node)
    requires IsContainer(n) && ChildCount(n) > 0
    ensures r.Array? == n.Array? && r.Object? == n.Object? && ChildCount(r) == ChildCount(n)
    ensures LastChild(r) == c
    ensures r.above == n.above && r.innerTop == n.innerTop
    ensures r.innerBottom == n.innerBottom && r.below == n.below
    ensures n.Array? ==> r.elements[..|r.elements| - 1] == n.elements[..|n.elements| - 1]
    ensures n.Object? ==> (r.entries[..|r.entries| - 1] == n.entries[..|n.entries| - 1]
                           && r.entries[|r.entries| - 1].key == n.entries[|n.entries| - 1].key)
    ensures n.Array? ==> r.elements == n.elements[..|n.elements| - 1] + [c]
    ensures n.Object? ==>
      r.entries == n.entries[..|n.entries| - 1] + [Entry(n.entries[|n.entries| - 1].key, c)]
    ensures UniqueDeep(n) && UniqueDeep(c) ==> UniqueDeep(r)
  {
    if n.Array? then
      var els := n.elements[|n.elements| - 1 := c];
      var r := n.(elements := els);
      assert UniqueDeep(n) && UniqueDeep(c) ==> UniqueDeep(r) by {
        if UniqueDeep(n) && UniqueDeep(c) {
          forall j | 0 <= j < |els| ensures UniqueDeep(els[j]) {
            if j < |els| - 1 { assert els[j] == n.elements[j]; }
          }
        }
      }
      r
    else
      var last := |n.entries| - 1;
      var es := n.entries[last := Entry(n.entries[last].key, c)];
      var r := n.(entries := es);
      assert UniqueDeep(n) && UniqueDeep(c) ==> UniqueDeep(r) by {
        if UniqueDeep(n) && UniqueDeep(c) {
          forall a, b | 0 <= a < b < |es| ensures es[a].key != es[b].key {
            assert es[a].key == n.entries[a].key && es[b].key == n.entries[b].key;
          }
          forall j | 0 <= j < |es| ensures UniqueDeep(es[j].value) {
            if j < last { assert es[j] == n.entries[j]; }
          }
        }
      }
      r
  }

  /** Rewriting the slot just appended replaces only the appended member. */
  lemma SetLastAfterAppendEntry(t: Node, es: seq<Entry>, k: string, x: Node, c: Node)
    requires t.Object? && t.entries == es + [Entry(k, x)]
    ensures SetLastChild(t, c).Object? && SetLastChild(t, c).entries == es + [Entry(k, c)]
  {
    assert t.entries[..|t.entries| - 1] == es;
  }

  /** Rewriting the element just appended replaces only that element. */
  lemma SetLastAfterAppendElement(t: Node, els: seq<Node>, x: Node, c: Node)
    requires t.Array? && t.elements == els + [x]
    ensures SetLastChild(t, c).Array? && SetLastChild(t, c).elements == els + [c]
  {
    assert t.elements[..|t.elements| - 1] == els;
  }

  /** Appends an array element. */
  function AppendElement(n: Node, c: Node): (r: Node)
    requires n.Array?
    ensures r.Array? && r.elements == n.elements + [c]
    ensures r.above == n.above && r.innerTop == n.innerTop
    ensures r.innerBottom == n.innerBottom && r.below == n.below
    ensures UniqueDeep(n) && UniqueDeep(c) ==> UniqueDeep(r)
  {
    var r := n.(elements := n.elements + [c]);
    assert UniqueDeep(n) && UniqueDeep(c) ==> UniqueDeep(r) by {
      if UniqueDeep(n) && UniqueDeep(c) {
        forall j | 0 <= j < |r.elements| ensures UniqueDeep(r.elements[j]) {
          if j < |n.elements| { assert r.elements[j] == n.elements[j]; }
        }
      }
    }
    r
  }

  /** Appends an object member under a key it does not hold yet. */
  function AppendEntry(n: Node, k: string, c: Node): (r: Node)
    requires n.Object? && !HasKey(n.entries, k)
    ensures r.Object? && r.entries == n.entries + [Entry(k, c)]
    ensures r.above == n.above && r.innerTop == n.innerTop
    ensures r.innerBottom == n.innerBottom && r.below == n.below
    ensures UniqueDeep(n) && UniqueDeep(c) ==> UniqueDeep(r)
  {
    var r := n.(entries := n.entries + [Entry(k, c)]);
    assert UniqueDeep(n) && UniqueDeep(c) ==> UniqueDeep(r) by {
      if UniqueDeep(n) && UniqueDeep(c) {
        AppendFreshKey(n.entries, Entry(k, c));
        forall j | 0 <= j < |r.entries| ensures UniqueDeep(r.entries[j].value) {
          if j < |n.entries| { assert r.entries[j] == n.entries[j]; }
        }
      }
    }
    r
  }

  /** Python dict assignment `d[k] = c` on an object node. */
  function PutMember(n: Node, k: string, c: Node): (r: Node)
    requires n.Object?
    ensures r.Object? && r.entries == PutEntry(n.entries, k, c)
    ensures r.above == n.above && r.innerTop == n.innerTop
    ensures r.innerBottom == n.innerBottom && r.below == n.below
    ensures UniqueDeep(n) && UniqueDeep(c) ==> UniqueDeep(r)
  {
    var r := Object(PutEntry(n.entries, k, c), n.above, n.innerTop, n.innerBottom, n.below);
    assert UniqueDeep(n) && UniqueDeep(c) ==> UniqueDeep(r) by {
      if UniqueDeep(n) && UniqueDeep(c) {
        PutEntryKeepsUnique(n.entries, k, c);
        var es := r.entries;
        forall j | 0 <= j < |es| ensures UniqueDeep(es[j].value) {
          if j < |n.entries| && n.entries[j].key != k {
            assert es[j] == n.entries[j];
          } else {
            assert es[j].key == k;
          }
        }
      }
    }
    r
  }

  /** The indentation of a key line: the whitespace before its first visible
      character, which is where `indexOf(left[0])` lands. */
  lemma KeyIndent(orig: string)
    requires Trim(orig) != []
    ensures IndexOf(orig, [Trim(orig)[0]]) == |orig| - |TrimStart(orig)|
  {
    var a := |orig| - |TrimStart(orig)|;
    TrimHead(orig);
    assert forall j :: 0 <= j < a ==> IsSpace(orig[j]);
    FirstChar(orig, orig[a], a);
  }

  /** The first character of the trimmed string is the first visible one. */
  lemma TrimHead(s: string)
    requires Trim(s) != []
    ensures |s| - |TrimStart(s)| < |s|
    ensures Trim(s)[0] == s[|s| - |TrimStart(s)|] && !IsSpace(s[|s| - |TrimStart(s)|])
  {
    var t := TrimStart(s);
    var r := TrimEnd(t);
    assert Trim(s) == r && r[0] == t[0];
  }

  // ---------------------------------------------------------------------------
  // Plain values: the untyped mode of every implementation (`load`,
  // `UnmarshalToMap` into a map) keeps only the data, not comments or flags.

  datatype Value = Str(s: string) | List(items: seq<Value>) | Dict(pairs: seq<Pair>)
  datatype Pair = Pair(key: string, value: Value)

  /** Forgets comments and `forceMultiline`; keeps keys, order and text. */
  function Erase(n: Node): (v: Value)
    ensures n.Text? <==> v.Str?
    ensures n.Text? ==> v.s == n.value
    ensures n.Array? <==> v.List?
    ensures n.Array? ==> |v.items| == |n.elements|
    ensures n.Object? <==> v.Dict?
    ensures n.Object? ==> (|v.pairs| == |n.entries|
      && forall j :: 0 <= j < |n.entries| ==> v.pairs[j].key == n.entries[j].key)
    decreases n
  {
    match n
    case Text(s, _, _, _) => Str(s)
    case Array(els, _, _, _, _) => List(seq(|els|, j requires 0 <= j < |els| => Erase(els[j])))
    case Object(es, _, _, _, _) =>
      Dict(seq(|es|, j requires 0 <= j < |es| => Pair(es[j].key, Erase(es[j].value))))
  }

  // ---------------------------------------------------------------------------
  // Whitespace

  /** The Unicode White_Space characters, as Go's `unicode.IsSpace` tests them.
      JavaScript's `\s` and `trim` leave out U+0085 and add U+FEFF; Python's
      `str.isspace` adds U+001C to U+001F. */
  predicate IsSpace(c: char) {
    c == ' ' || ('\t' <= c <= '\r') || c == '\U{85}' || c == '\U{A0}' || c == '\U{1680}'
    || ('\U{2000}' <= c <= '\U{200A}') || c == '\U{2028}' || c == '\U{2029}'
    || c == '\U{202F}' || c == '\U{205F}' || c == '\U{3000}'
  }

  /** ASCII whitespace: tab, line feed, vertical tab, form feed, carriage return, space. */
  predicate IsAsciiSpace(c: char) {
    c == ' ' || ('\t' <= c <= '\r')
  }

  predicate AllSpace(s: string) {
    forall k :: 0 <= k < |s| ==> IsSpace(s[k])
  }

  /** Python `str.isspace()`: false for the empty string. */
  predicate PyIsSpace(s: string) {
    |s| > 0 && AllSpace(s)
  }

  predicate StartsWith(s: string, p: string) {
    |p| <= |s| && s[..|p|] == p
  }

  predicate EndsWith(s: string, p: string) {
    |p| <= |s| && s[|s| - |p|..] == p
  }

  /** Removes the maximal run of leading whitespace. */
  function TrimStart(s: string): (r: string)
    ensures |r| <= |s| && r == s[|s| - |r|..]
    ensures r == [] || !IsSpace(r[0])
    ensures forall k :: 0 <= k < |s| - |r| ==> IsSpace(s[k])
    ensures s != [] && IsSpace(s[0]) ==> |r| < |s|
  {
    if s != [] && IsSpace(s[0]) then TrimStart(s[1..]) else s
  }

  /** Removes the maximal run of trailing whitespace. */
  function TrimEnd(s: string): (r: string)
    ensures |r| <= |s| && r == s[..|r|]
    ensures r == [] || !IsSpace(r[|r| - 1])
    ensures forall k :: |r| <= k < |s| ==> IsSpace(s[k])
  {
    if s != [] && IsSpace(s[|s| - 1]) then TrimEnd(s[..|s| - 1]) else s
  }

  /** `trim()` / `strip()` / `strings.TrimSpace`. */
  function Trim(s: string): (r: string)
    ensures |r| <= |s|
    ensures r == [] || (!IsSpace(r[0]) && !IsSpace(r[|r| - 1]))
  {
    TrimEnd(TrimStart(s))
  }

  /** The trimmed string is a slice of the original with only whitespace around
      it. */
  lemma TrimIsSlice(s: string)
    ensures exists a, b :: (0 <= a <= b <= |s| && Trim(s) == s[a..b]
      && AllSpace(s[..a]) && AllSpace(s[b..]))
  {
    var t := TrimStart(s);
    var a := |s| - |t|;
    var r := TrimEnd(t);
    var b := a + |r|;
    SliceOfSlice(s, a, |r|);
    SpacesBefore(s, a);
    SpacesAfter(s, t, r, a);
    assert Trim(s) == s[a..b];
    assert 0 <= a <= b <= |s| && Trim(s) == s[a..b] && AllSpace(s[..a]) && AllSpace(s[b..]);
  }

  lemma SliceOfSlice(s: string, a: nat, n: nat)
    requires a + n <= |s|
    ensures s[a..][..n] == s[a..a + n]
  {
  }

  lemma SpacesBefore(s: string, a: nat)
    requires a <= |s| && forall k :: 0 <= k < a ==> IsSpace(s[k])
    ensures AllSpace(s[..a])
  {
    assert forall k :: 0 <= k < a ==> s[..a][k] == s[k];
  }

  lemma SpacesAfter(s: string, t: string, r: string, a: nat)
    requires a <= |s| && t == s[a..] && |r| <= |t|
    requires forall k :: |r| <= k < |t| ==> IsSpace(t[k])
    ensures AllSpace(s[a + |r|..])
  {
    var u := s[a + |r|..];
    forall k | 0 <= k < |u| ensures IsSpace(u[k]) {
      assert u[k] == t[|r| + k];
    }
  }


  /** Leading whitespace before a visible character is what `TrimStart` drops. */
  lemma {:induction false} SkipSpaces(ws: string, s: string)
    requires AllSpace(ws) && (s == [] || !IsSpace(s[0]))
    ensures TrimStart(ws + s) == s
    decreases |ws|
  {
    if ws != [] {
      ConsTail(ws, s);
      assert IsSpace(ws[0]) && AllSpace(ws[1..]);
      SkipSpaces(ws[1..], s);
      assert TrimStart(ws + s) == TrimStart(ws[1..] + s);
    }
  }

  /** The head and the tail of a concatenation with a non-empty left part. */
  lemma ConsTail(a: string, b: string)
    requires a != []
    ensures (a + b)[0] == a[0] && (a + b)[1..] == a[1..] + b
  {
  }

  /** Trailing whitespace after a visible last character is exactly what `TrimEnd`
      removes. */
  lemma {:induction false} TrimEndSpaceSuffix(u: string, w: string)
    requires AllSpace(w) && (u == [] || !IsSpace(u[|u| - 1]))
    ensures TrimEnd(u + w) == u
    decreases |w|
  {
    if w == [] {
      assert u + w == u;
    } else {
      var w' := w[..|w| - 1];
      assert (u + w)[..|u + w| - 1] == u + w';
      TrimEndSpaceSuffix(u, w');
    }
  }

  /** A string with visible first and last characters is its own trimmed form. */
  lemma VisibleEnds(s: string)
    requires s != [] && !IsSpace(s[0]) && !IsSpace(s[|s| - 1])
    ensures TrimStart(s) == s && TrimEnd(s) == s && Trim(s) == s
  {
  }

  /** A trimmed, non-empty line cut at its first colon: the trimmed key keeps the
      line's first character, and without a colon the whole line is the key. */
  lemma ColonSplit(line: string)
    requires line != [] && !IsSpace(line[0]) && !IsSpace(line[|line| - 1])
    ensures var p := Partition(line, ":");
      (p.sep != [] ==> p.sep == ":" && (TrimEnd(p.left) != [] ==> TrimEnd(p.left)[0] == line[0]))
      && (p.sep == [] ==> TrimEnd(p.left) == line)
  {
    var p := Partition(line, ":");
    if IndexOf(line, ":") >= 0 {
      var l := TrimEnd(p.left);
      if l != [] {
        assert l[0] == p.left[0];
        assert line == p.left + (p.sep + p.right);
        assert line[0] == p.left[0];
      }
    } else {
      VisibleEnds(line);
    }
  }

  lemma TrimEndEmptyIffAllSpace(s: string)
    ensures TrimEnd(s) == [] <==> AllSpace(s)
  {
  }

  /** Strips the leading run of one given character (`lstrip(c)`,
      `strings.TrimLeft(s, c)`, the TS `trimLeadingSpaceOrTab`). */
  function TrimLeftChar(s: string, c: char): (r: string)
    ensures |r| <= |s| && r == s[|s| - |r|..]
    ensures r == [] || r[0] != c
    ensures forall k :: 0 <= k < |s| - |r| ==> s[k] == c
  {
    if s != [] && s[0] == c then TrimLeftChar(s[1..], c) else s
  }

  function Repeat(c: char, n: nat): (r: string)
    ensures |r| == n && forall k :: 0 <= k < n ==> r[k] == c
  {
    if n == 0 then [] else [c] + Repeat(c, n - 1)
  }

  // ---------------------------------------------------------------------------
  // Searching and splitting

  predicate OccursAt(s: string, sep: string, k: nat) {
    k + |sep| <= |s| && s[k..k + |sep|] == sep
  }

  function IndexFrom(s: string, sep: string, from: nat): (r: int)
    requires from <= |s|
    ensures r == -1 || from <= r <= |s|
    ensures r >= 0 ==> OccursAt(s, sep, r) && forall k :: from <= k < r ==> !OccursAt(s, sep, k)
    ensures r == -1 ==> forall k :: from <= k <= |s| ==> !OccursAt(s, sep, k)
    decreases |s| - from
  {
    if OccursAt(s, sep, from) then from
    else if from == |s| then -1
    else IndexFrom(s, sep, from + 1)
  }

  /** `indexOf` / `find` / `strings.Index`: the first occurrence, or -1. */
  function IndexOf(s: string, sep: string): (r: int)
    ensures r == -1 || 0 <= r <= |s|
    ensures r >= 0 ==> OccursAt(s, sep, r) && forall k :: 0 <= k < r ==> !OccursAt(s, sep, k)
    ensures r == -1 ==> forall k :: 0 <= k <= |s| ==> !OccursAt(s, sep, k)
  {
    IndexFrom(s, sep, 0)
  }

  /** An occurrence with none before it is the one `IndexOf` finds. */
  lemma FirstOccurrence(s: string, sep: string, a: nat)
    requires OccursAt(s, sep, a) && forall k :: 0 <= k < a ==> !OccursAt(s, sep, k)
    ensures IndexOf(s, sep) == a
  {
  }

  /** A character that does not occur is not found. */
  lemma AbsentChar(s: string, c: char)
    requires forall k :: 0 <= k < |s| ==> s[k] != c
    ensures IndexOf(s, [c]) == -1
  {
    forall k | 0 <= k <= |s| ensures !OccursAt(s, [c], k) {
      if k < |s| {
        assert s[k..k + 1][0] == s[k];
      }
    }
  }

  /** The first occurrence of a character is found at its position. */
  lemma FirstChar(s: string, c: char, k: nat)
    requires k < |s| && s[k] == c
    requires forall j :: 0 <= j < k ==> s[j] != c
    ensures IndexOf(s, [c]) == k
  {
    assert OccursAt(s, [c], k) by { assert s[k..k + 1] == [c]; }
    forall j | 0 <= j < k ensures !OccursAt(s, [c], j) {
      assert s[j..j + 1][0] == s[j];
    }
  }

  /** The three parts of `partition` / `strings.Cut`. */
  datatype Parts = Parts(left: string, sep: string, right: string)

  /** Splits at the first occurrence of `sep`; `[s, "", ""]` when it is absent. */
  function Partition(s: string, sep: string): (p: Parts)
    ensures IndexOf(s, sep) >= 0 ==>
      p.sep == sep && p.left + p.sep + p.right == s
      && forall k :: 0 <= k < |p.left| ==> !OccursAt(s, sep, k)
    ensures IndexOf(s, sep) < 0 ==> p == Parts(s, "", "")
  {
    var i := IndexOf(s, sep);
    if i >= 0 then
      assert s[..i] + sep + s[i + |sep|..] == s by {
        assert s == s[..i] + s[i..i + |sep|] + s[i + |sep|..];
      }
      Parts(s[..i], sep, s[i + |sep|..])
    else Parts(s, "", "")
  }

  // ---------------------------------------------------------------------------
  // Whitespace conversion (`_convert_spaces`, `cleanKeyName`, `convertToRegularSpace`)

  /** Replaces every whitespace character by U+0020 (the `\s` form). */
  function SpacesToPlain(s: string): (r: string)
    ensures |r| == |s|
    ensures forall k :: 0 <= k < |s| ==> r[k] == if IsSpace(s[k]) then ' ' else s[k]
  {
    if s == [] then [] else [if IsSpace(s[0]) then ' ' else s[0]] + SpacesToPlain(s[1..])
  }

  /** Replaces every maximal whitespace run by a single U+0020 (the `\s+` form). */
  function CollapseSpaces(s: string): (r: string)
    ensures |r| <= |s|
    ensures forall k :: 0 <= k < |r| && IsSpace(r[k]) ==> r[k] == ' '
    ensures r == [] <==> s == []
    ensures s != [] ==> (IsSpace(s[0]) <==> r[0] == ' ')
    ensures forall k :: 0 <= k < |r| - 1 ==> !(r[k] == ' ' && r[k + 1] == ' ')
    decreases |s|
  {
    if s == [] then []
    else if IsSpace(s[0]) then
      var t := TrimStart(s);
      [' '] + CollapseSpaces(t)
    else [s[0]] + CollapseSpaces(s[1..])
  }

  /** One step of `CollapseSpaces` and `TrimStart` on a non-empty string. */
  lemma CollapseStep(s: string)
    requires s != []
    ensures IsSpace(s[0]) ==>
      TrimStart(s) == TrimStart(s[1..]) && CollapseSpaces(s) == [' '] + CollapseSpaces(TrimStart(s[1..]))
    ensures !IsSpace(s[0]) ==> TrimStart(s) == s && CollapseSpaces(s) == [s[0]] + CollapseSpaces(s[1..])
  {
  }

  function ConvertSpaces(value: string, collapse: bool): (r: string)
    ensures !collapse ==> |r| == |value|
    ensures forall k :: 0 <= k < |r| && IsSpace(r[k]) ==> r[k] == ' '
  {
    if collapse then CollapseSpaces(value) else SpacesToPlain(value)
  }

  /** The characters other than whitespace, in order. */
  function NonSpace(s: string): string {
    if s == [] then [] else (if IsSpace(s[0]) then [] else [s[0]]) + NonSpace(s[1..])
  }

  lemma {:induction false} NonSpaceOfSpaces(s: string)
    requires AllSpace(s)
    ensures NonSpace(s) == []
  {
    if s != [] {
      NonSpaceOfSpaces(s[1..]);
    }
  }

  lemma {:induction false} NonSpaceAppend(a: string, b: string)
    ensures NonSpace(a + b) == NonSpace(a) + NonSpace(b)
  {
    if a == [] {
      assert a + b == b;
    } else {
      assert (a + b)[1..] == a[1..] + b;
      NonSpaceAppend(a[1..], b);
    }
  }

  /** Collapsing keeps every non-whitespace character, in order. */
  lemma {:induction false} CollapseKeepsText(s: string)
    ensures NonSpace(CollapseSpaces(s)) == NonSpace(s)
    decreases |s|
  {
    if s == [] {
    } else if IsSpace(s[0]) {
      var t := TrimStart(s);
      CollapseKeepsText(t);
      var k := |s| - |t|;
      assert s == s[..k] + t;
      NonSpaceOfSpaces(s[..k]);
      NonSpaceAppend(s[..k], t);
      assert NonSpace(CollapseSpaces(s)) == NonSpace([' '] + CollapseSpaces(t));
      NonSpaceAppend([' '], CollapseSpaces(t));
    } else {
      CollapseKeepsText(s[1..]);
      assert CollapseSpaces(s) == [s[0]] + CollapseSpaces(s[1..]);
      NonSpaceAppend([s[0]], CollapseSpaces(s[1..]));
    }
  }

  /** A string whose only whitespace is single U+0020 characters is its own
      collapsed form. */
  lemma {:induction false} CollapseNormal(s: string)
    requires forall k :: 0 <= k < |s| && IsSpace(s[k]) ==> s[k] == ' '
    requires forall k :: 0 <= k < |s| - 1 ==> !(s[k] == ' ' && s[k + 1] == ' ')
    ensures CollapseSpaces(s) == s
    decreases |s|
  {
    if s != [] {
      CollapseNormal(s[1..]);
      if IsSpace(s[0]) {
        assert TrimStart(s) == s[1..] by {
          assert s[1..] == [] || !IsSpace(s[1..][0]);
        }
      }
      assert s == [s[0]] + s[1..];
    }
  }

  /** A string that is empty or ends in a visible character collapses on its own:
      no whitespace run crosses its end. */
  lemma {:induction false} CollapseAppendVisible(u: string, x: string)
    requires u == [] || !IsSpace(u[|u| - 1])
    ensures CollapseSpaces(u + x) == CollapseSpaces(u) + CollapseSpaces(x)
    decreases |u|
  {
    if u == [] {
      assert u + x == x;
    } else if !IsSpace(u[0]) {
      var u' := u[1..];
      assert (u + x)[0] == u[0] && (u + x)[1..] == u' + x;
      assert CollapseSpaces(u + x) == [u[0]] + CollapseSpaces(u' + x);
      CollapseAppendVisible(u', x);
      Assoc([u[0]], CollapseSpaces(u'), CollapseSpaces(x));
    } else {
      var t := TrimStart(u);
      var ws := u[..|u| - |t|];
      assert t != [] by { assert !AllSpace(u); }
      assert TrimStart(u + x) == t + x by {
        assert u + x == ws + (t + x);
        SkipSpaces(ws, t + x);
      }
      assert (u + x)[0] == u[0];
      assert CollapseSpaces(u + x) == [' '] + CollapseSpaces(t + x);
      CollapseAppendVisible(t, x);
      Assoc([' '], CollapseSpaces(t), CollapseSpaces(x));
    }
  }

  lemma Assoc(a: string, b: string, c: string)
    ensures a + (b + c) == a + b + c
  {
  }

  /** A whitespace run followed by a visible character or nothing collapses to one
      U+0020. */
  lemma {:induction false} CollapseLeadingRun(w: string, v: string)
    requires w != [] && AllSpace(w) && (v == [] || !IsSpace(v[0]))
    ensures CollapseSpaces(w + v) == " " + CollapseSpaces(v)
  {
    SkipSpaces(w, v);
    assert (w + v)[0] == w[0];
  }

  /** Where the single space goes: a maximal whitespace run between two visible
      parts becomes exactly one U+0020 at that place, and the parts on either side
      collapse on their own. */
  lemma {:induction false} CollapseRun(u: string, w: string, v: string)
    requires u == [] || !IsSpace(u[|u| - 1])
    requires w != [] && AllSpace(w)
    requires v == [] || !IsSpace(v[0])
    ensures CollapseSpaces(u + w + v) == CollapseSpaces(u) + " " + CollapseSpaces(v)
  {
    var x := w + v;
    assert u + w + v == u + x;
    CollapseAppendVisible(u, x);
    CollapseLeadingRun(w, v);
    Assoc(CollapseSpaces(u), " ", CollapseSpaces(v));
  }

  /** Collapsing a collapsed string changes nothing. */
  lemma {:induction false} CollapseIdempotent(s: string)
    ensures CollapseSpaces(CollapseSpaces(s)) == CollapseSpaces(s)
    decreases |s|
  {
    if s == [] {
    } else if IsSpace(s[0]) {
      var t := TrimStart(s);
      CollapseIdempotent(t);
      var c := CollapseSpaces(t);
      var r := [' '] + c;
      assert CollapseSpaces(s) == r;
      assert TrimStart(r) == c by {
        assert c == [] || !IsSpace(c[0]);
        assert r[1..] == c;
      }
    } else {
      CollapseIdempotent(s[1..]);
      var r := [s[0]] + CollapseSpaces(s[1..]);
      assert r[1..] == CollapseSpaces(s[1..]);
    }
  }

  /** A block key's indentation: spaces only or tabs only. */
  predicate BlockIndent(indent: string) {
    (forall k :: 0 <= k < |indent| ==> indent[k] == ' ')
    || (forall k :: 0 <= k < |indent| ==> indent[k] == '\t')
  }

  /** The lines of a document written one after another. */
  function Concat(lines: seq<string>): string {
    if lines == [] then [] else lines[0] + Concat(lines[1..])
  }

  // ---------------------------------------------------------------------------
  // Python string operations shared by the two Python implementations

  /** `text[0:-1]`: the text without its last character. */
  function DropLast(s: string): (r: string)
    ensures s == [] ==> r == []
    ensures s != [] ==> r + [s[|s| - 1]] == s
  {
    if s == [] then [] else s[..|s| - 1]
  }

  /** The characters `str.splitlines` breaks at. */
  predicate IsLineBoundary(c: char) {
    c == '\n' || c == '\r' || c == '\U{B}' || c == '\U{C}' || c == '\U{1C}' || c == '\U{1D}'
    || c == '\U{1E}' || c == '\U{85}' || c == '\U{2028}' || c == '\U{2029}'
  }

  /** The index of the first line boundary, or the length when there is none. */
  function FirstBoundary(s: string): (k: nat)
    ensures k <= |s| && (k < |s| ==> IsLineBoundary(s[k]))
    ensures forall j :: 0 <= j < k ==> !IsLineBoundary(s[j])
  {
    if s == [] || IsLineBoundary(s[0]) then 0 else 1 + FirstBoundary(s[1..])
  }

  /** `str.splitlines()`: the pieces between line boundaries, `\r\n` counting as
      one; nothing for the empty string and no empty piece after a final boundary. */
  function SplitLines(s: string): (r: seq<string>)
    ensures s == [] <==> r == []
    ensures (forall j :: 0 <= j < |s| ==> !IsLineBoundary(s[j])) ==> |r| <= 1
    ensures forall k, j :: 0 <= k < |r| && 0 <= j < |r[k]| ==> !IsLineBoundary(r[k][j])
    decreases |s|
  {
    if s == [] then []
    else
      var k := FirstBoundary(s);
      if k == |s| then [s]
      else
        var m := if s[k] == '\r' && k + 1 < |s| && s[k + 1] == '\n' then k + 2 else k + 1;
        [s[..k]] + SplitLines(s[m..])
  }

  /** A line break as `str.splitlines` removes it: `\r\n`, or one boundary
      character. */
  predicate LineEnd(e: string) {
    e == "\r\n" || (|e| == 1 && IsLineBoundary(e[0]))
  }

  /** `str.splitlines(keepends=True)`: the same cut, with each line keeping the
      break it ended at. */
  function SplitLinesKeepEnds(s: string): seq<string>
    decreases |s|
  {
    if s == [] then []
    else
      var k := FirstBoundary(s);
      if k == |s| then [s]
      else
        var m := if s[k] == '\r' && k + 1 < |s| && s[k + 1] == '\n' then k + 2 else k + 1;
        [s[..m]] + SplitLinesKeepEnds(s[m..])
  }

  /** `full` is `line` followed by a line break, or, for the last line only,
      `line` itself. */
  predicate EndsLine(line: string, full: string, last: bool) {
    |line| <= |full| && full[..|line|] == line
    && (LineEnd(full[|line|..]) || (last && full == line))
  }

  /** Each line of `str.splitlines()` followed by the break it ended at gives the
      text back; only the last line may have no break after it. */
  lemma {:induction false} SplitLinesRebuild(s: string)
    ensures var lines := SplitLines(s); var full := SplitLinesKeepEnds(s);
      |full| == |lines| && Concat(full) == s
      && forall j :: 0 <= j < |lines| ==> EndsLine(lines[j], full[j], j == |lines| - 1)
    decreases |s|
  {
    if s != [] {
      var k := FirstBoundary(s);
      var lines := SplitLines(s);
      var full := SplitLinesKeepEnds(s);
      if k == |s| {
        assert lines == [s] && full == [s];
        assert Concat(full) == s + Concat([]);
        assert EndsLine(s, s, true) by { assert s[..|s|] == s; }
      } else {
        var m := if s[k] == '\r' && k + 1 < |s| && s[k + 1] == '\n' then k + 2 else k + 1;
        var t := s[m..];
        SplitLinesRebuild(t);
        assert lines == [s[..k]] + SplitLines(t);
        assert full == [s[..m]] + SplitLinesKeepEnds(t);
        assert Concat(full) == s[..m] + Concat(SplitLinesKeepEnds(t));
        TakeDrop(s, m);
        FirstLineEnds(s, k, m);
        EndsLineCons(s[..k], s[..m], SplitLines(t), SplitLinesKeepEnds(t));
      }
    }
  }

  lemma TakeDrop(s: string, m: nat)
    requires m <= |s|
    ensures s[..m] + s[m..] == s
  {
  }

  lemma TakeNext(s: string, m: nat)
    requires m < |s|
    ensures s[..m] + [s[m]] == s[..m + 1]
  {
  }

  /** The first line and its break. */
  lemma FirstLineEnds(s: string, k: nat, m: nat)
    requires k < |s| && IsLineBoundary(s[k])
    requires m == if s[k] == '\r' && k + 1 < |s| && s[k + 1] == '\n' then k + 2 else k + 1
    ensures EndsLine(s[..k], s[..m], false)
  {
    assert s[..m][..k] == s[..k];
    assert s[..m][k..] == s[k..m];
    if m == k + 2 { assert s[k..m] == [s[k], s[k + 1]]; } else { assert s[k..m] == [s[k]]; }
  }

  /** One more line, with its break, in front. */
  lemma EndsLineCons(l0: string, f0: string, lines: seq<string>, full: seq<string>)
    requires EndsLine(l0, f0, false) && |lines| == |full|
    requires forall j :: 0 <= j < |lines| ==> EndsLine(lines[j], full[j], j == |lines| - 1)
    ensures var ls := [l0] + lines; var fs := [f0] + full;
      forall j :: 0 <= j < |ls| ==> EndsLine(ls[j], fs[j], j == |ls| - 1)
  {
    var ls := [l0] + lines;
    var fs := [f0] + full;
    forall j | 0 <= j < |ls| ensures EndsLine(ls[j], fs[j], j == |ls| - 1) {
      if j > 0 {
        assert ls[j] == lines[j - 1] && fs[j] == full[j - 1];
      }
    }
  }
}
