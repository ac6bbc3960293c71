/** The Go implementation's mutable side (xtngo/xtn.go): `scannerState` as an
    object whose fields `processLine` and `complete` update in place, and the
    byte loop of `UnmarshalToMap` that cuts the input into lines and feeds them
    to it. Each method is proved against the value-level definitions of module
    `XtnGo`. */
module XtnGoScanner {
  import opened Xtn
  import XtnGo

  /** `scannerState` in full mode (`full` is true: the caller passed an
      `*Object`). */
  class Scanner {
    var stack: seq<XtnGo.Frame>
    var commentsUp: seq<Comment>
    var commentsDown: seq<Comment>
    var upProp: XtnGo.UpProp
    var upTarget: XtnGo.UpTarget
    var i: int

    /** The fields as one value. */
    function State(): XtnGo.ScanState
      reads this
    {
      XtnGo.ScanState(stack, commentsUp, commentsDown, upProp, upTarget, i)
    }

    predicate Valid()
      reads this
    {
      XtnGo.Valid(State())
    }

    /** The set-up in `UnmarshalToMap`: the root object as the only frame,
        `upProp` "inner", `upTarget` the root, line counter -1. */
    constructor ()
      ensures State() == XtnGo.Initial() && Valid()
    {
      stack := [XtnGo.ObjectState(-1, NewObject([]), false)];
      commentsUp := [];
      commentsDown := [];
      upProp := XtnGo.UpInner;
      upTarget := XtnGo.TopNode;
      i := -1;
    }

    method SetState(st: XtnGo.ScanState)
      modifies this
      ensures State() == st
    {
      stack := st.stack;
      commentsUp := st.commentsUp;
      commentsDown := st.commentsDown;
      upProp := st.upProp;
      upTarget := st.upTarget;
      i := st.i;
    }

    /** `processLine`: the counter advances, then the top frame decides how the
        line is read. On success the new state is that of `XtnGo.Step`; on
        failure the error is the one `XtnGo.Step` reports. */
    method ProcessLine(line: string) returns (err: Option<ParseError>)
      requires Valid() && !XtnGo.Panics(State(), line)
      modifies this
      ensures XtnGo.Step(old(State()), line).Ok? <==> err.None?
      ensures err.None? ==> State() == XtnGo.Step(old(State()), line).value && Valid()
      ensures err.Some? ==> err.value == XtnGo.Step(old(State()), line).error && i == old(i) + 1
    {
      var r := XtnGo.Step(State(), line);
      if r.Err? {
        i := i + 1;
        return Some(r.error);
      }
      SetState(r.value);
      err := None;
    }

    /** `complete`: trailing comments are attached, the counter advances, and a
        frame still open above the root is an error. */
    method Complete() returns (r: Result<Node>)
      requires Valid()
      modifies this
      ensures r == XtnGo.Complete(old(State()))
      ensures State() == XtnGo.AttachTrailingComments(old(State())).(i := old(i) + 1)
    {
      var st := XtnGo.AttachTrailingComments(State());
      SetState(st.(i := st.i + 1));
      if |stack| > 1 {
        return Err(ParseError(MissingCloseMarker, i + 1));
      }
      r := Ok(stack[0].target);
    }
  }

  /** The part of the input still to be cut into lines: from `si` on, without
      the line feed of a `\r\n` pair when the last byte was a carriage return. */
  function Pending(data: string, si: nat, ignoreNewLine: bool): (d: string)
    requires si <= |data|
    ensures ignoreNewLine && si < |data| && data[si] == '\n' ==> d == data[si + 1..]
    ensures !(ignoreNewLine && si < |data| && data[si] == '\n') ==> d == data[si..]
  {
    if ignoreNewLine then XtnGo.SkipLf(data[si..]) else data[si..]
  }

  /** A piece `data[si..i]` without line break followed by a break that ends a
      line: the next line runs to that break, and the lines after it are those
      of the input after it. */
  lemma NextLine(data: string, si: nat, i: nat, ignoreNewLine: bool)
    requires si <= i < |data| && (ignoreNewLine ==> si == i)
    requires data[i] == '\r' || (data[i] == '\n' && !ignoreNewLine)
    requires NoBreak(data, si, i)
    ensures var lines := XtnGo.SplitLines(Pending(data, si, ignoreNewLine));
      lines != [] && lines[0] == data[si..i + 1]
      && lines[1..] == XtnGo.SplitLines(Pending(data, i + 1, data[i] == '\r'))
  {
    var d := data[si..];
    assert Pending(data, si, ignoreNewLine) == d;
    assert d[i - si] == data[i];
    assert forall j :: 0 <= j < i - si ==> d[j] == data[si + j];
    XtnGo.FirstBreakAt(d, i - si);
    XtnGo.SplitLinesCons(d, i - si);
    assert d[..i - si + 1] == data[si..i + 1];
    assert XtnGo.RestAfter(d, i - si) == Pending(data, i + 1, data[i] == '\r') by {
      assert d[i - si + 1..] == data[i + 1..];
    }
  }

  /** A last piece without a line break is one line. */
  lemma LastLine(data: string, si: nat)
    requires si < |data| && NoBreak(data, si, |data|)
    ensures var lines := XtnGo.SplitLines(data[si..]);
      lines != [] && lines[0] == data[si..] && lines[1..] == []
  {
    var d := data[si..];
    assert forall j :: 0 <= j < |d| ==> d[j] == data[si + j];
    XtnGo.FirstBreakAt(d, |d|);
    assert XtnGo.SplitLines(d) == [d];
  }

  /** A byte that ends no line: the pending input, and so the lines still to
      come, stay as they are (a line feed right after a carriage return is
      dropped from it), and the current piece still holds no line break. */
  lemma PendingAfterByte(data: string, si: nat, i: nat, ignoreNewLine: bool, next: nat)
    requires si <= i < |data| && (ignoreNewLine ==> si == i) && NoBreak(data, si, i)
    requires data[i] != '\r' && (data[i] == '\n' ==> ignoreNewLine)
    requires next == if data[i] == '\n' then i + 1 else si
    ensures Pending(data, si, ignoreNewLine) == Pending(data, next, false)
    ensures NoBreak(data, next, i + 1)
  {
  }

  /** One line of the run: it does not panic, and the run goes on from the state
      after it or ends with its error. */
  lemma RunStep(st: XtnGo.ScanState, lines: seq<string>)
    requires XtnGo.Valid(st) && lines != [] && !XtnGo.RunPanics(st, lines)
    ensures !XtnGo.Panics(st, lines[0])
    ensures XtnGo.Step(st, lines[0]).Ok? ==>
      !XtnGo.RunPanics(XtnGo.Step(st, lines[0]).value, lines[1..])
      && XtnGo.Run(st, lines) == XtnGo.Run(XtnGo.Step(st, lines[0]).value, lines[1..])
    ensures XtnGo.Step(st, lines[0]).Err? ==>
      XtnGo.Run(st, lines) == Err(XtnGo.Step(st, lines[0]).error)
  {
  }

  /** The bytes `data[si..i]` hold no line break. */
  predicate NoBreak(data: string, si: nat, i: nat)
    requires si <= i <= |data|
  {
    forall j :: si <= j < i ==> !XtnGo.IsBreak(data[j])
  }

  /** The branch of the byte loop for a byte that ends a line: `processLine` on
      `data[si..i+1]`; the scanner follows the run `expected` one line further,
      or stops with the error that ends it. */
  method EndLine(state: Scanner, data: string, si: nat, i: nat, ignoreNewLine: bool,
                 ghost lines: seq<string>, ghost expected: Result<XtnGo.ScanState>,
                 next: nat, nextIgnore: bool)
    returns (err: Option<ParseError>, ghost rest: seq<string>)
    requires si <= i < |data| && (ignoreNewLine ==> si == i) && NoBreak(data, si, i)
    requires data[i] == '\r' || (data[i] == '\n' && !ignoreNewLine)
    requires next == i + 1 && nextIgnore == (data[i] == '\r')
    requires lines == XtnGo.SplitLines(Pending(data, si, ignoreNewLine))
    requires state.Valid() && !XtnGo.RunPanics(state.State(), lines)
    requires expected == XtnGo.Run(state.State(), lines)
    modifies state
    ensures rest == XtnGo.SplitLines(Pending(data, next, nextIgnore)) && NoBreak(data, next, i + 1)
    ensures err.None? ==>
      state.Valid() && !XtnGo.RunPanics(state.State(), rest)
      && expected == XtnGo.Run(state.State(), rest)
    ensures err.Some? ==> expected == Err(err.value)
  {
    NextLine(data, si, i, ignoreNewLine);
    rest := lines[1..];
    RunStep(state.State(), lines);
    err := state.ProcessLine(data[si..i + 1]);
  }

  /** One pass of the byte loop over `data[i]`: a byte that ends a line hands
      the line to `processLine`; any other byte only moves the start of the
      current piece past a line feed. Afterwards the loop's invariant holds
      for `i + 1`, unless the line failed. */
  method Advance(state: Scanner, data: string, si: nat, i: nat, ignoreNewLine: bool,
                 ghost lines: seq<string>, ghost expected: Result<XtnGo.ScanState>)
    returns (err: Option<ParseError>, si': nat, ignore': bool, ghost rest: seq<string>)
    requires si <= i < |data| && (ignoreNewLine ==> si == i) && NoBreak(data, si, i)
    requires lines == XtnGo.SplitLines(Pending(data, si, ignoreNewLine))
    requires state.Valid() && !XtnGo.RunPanics(state.State(), lines)
    requires expected == XtnGo.Run(state.State(), lines)
    modifies state
    ensures err.Some? ==> expected == Err(err.value)
    ensures err.None? ==> si' <= i + 1 && (ignore' ==> si' == i + 1) && NoBreak(data, si', i + 1)
    ensures err.None? ==> rest == XtnGo.SplitLines(Pending(data, si', ignore'))
    ensures err.None? ==> state.Valid() && !XtnGo.RunPanics(state.State(), rest)
    ensures err.None? ==> expected == XtnGo.Run(state.State(), rest)
  {
    var b := data[i];
    if b == '\r' || (b == '\n' && !ignoreNewLine) {
      si' := i + 1;
      ignore' := b == '\r';
      err, rest := EndLine(state, data, si, i, ignoreNewLine, lines, expected, si', ignore');
    } else {
      si' := if b == '\n' then i + 1 else si;
      ignore' := false;
      PendingAfterByte(data, si, i, ignoreNewLine, si');
      err := None;
      rest := lines;
    }
  }

  /** The last piece of the input, when it has no line break: `processLine` on
      it, after which no line is left. */
  method EndInput(state: Scanner, data: string, si: nat,
                  ghost lines: seq<string>, ghost expected: Result<XtnGo.ScanState>)
    returns (err: Option<ParseError>)
    requires si <= |data| && NoBreak(data, si, |data|)
    requires lines == XtnGo.SplitLines(data[si..])
    requires state.Valid() && !XtnGo.RunPanics(state.State(), lines)
    requires expected == XtnGo.Run(state.State(), lines)
    modifies state
    ensures err.None? ==> state.Valid() && expected == Ok(state.State())
    ensures err.Some? ==> expected == Err(err.value)
  {
    if si < |data| {
      LastLine(data, si);
      RunStep(state.State(), lines);
      err := state.ProcessLine(data[si..]);
    } else {
      err := None;
    }
  }

  /** `UnmarshalToMap` with an `*Object`: each carriage return, and each line feed
      not directly after one, ends a line (the break stays on the line); what
      follows the last break is the last line; then `complete`. The result is
      that of `XtnGo.LoadSpec`. */
  method UnmarshalToMap(data: string) returns (r: Result<Node>)
    requires !XtnGo.RunPanics(XtnGo.Initial(), XtnGo.SplitLines(data))
    ensures r == XtnGo.LoadSpec(data)
    ensures r.Ok? ==> r.value.Object? && UniqueDeep(r.value)
  {
    var state := new Scanner();
    var si := 0;
    var ignoreNewLine := false;
    var i := 0;
    ghost var lines := XtnGo.SplitLines(data);
    ghost var expected := XtnGo.Run(state.State(), lines);
    assert data[0..] == data;
    while i < |data|
      invariant 0 <= si <= i <= |data|
      invariant ignoreNewLine ==> si == i
      invariant NoBreak(data, si, i)
      invariant lines == XtnGo.SplitLines(Pending(data, si, ignoreNewLine))
      invariant state.Valid() && !XtnGo.RunPanics(state.State(), lines)
      invariant expected == XtnGo.Run(state.State(), lines)
    {
      var err;
      err, si, ignoreNewLine, lines := Advance(state, data, si, i, ignoreNewLine, lines, expected);
      if err.Some? {
        return Err(err.value);
      }
      i := i + 1;
    }
    var err := EndInput(state, data, si, lines, expected);
    if err.Some? {
      return Err(err.value);
    }
    r := state.Complete();
  }
}
