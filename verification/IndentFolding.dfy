/** Folds of the deeper-indented lines after a line ending in ':', found with one monotone stack. */
module IndentFolding {
  import opened Wrappers
  import opened EditorText
  import opened BracketFolding

  // ----- One line -----

  /** A character that is neither whitespace nor a byte order mark. */
  predicate IsContent(c: char) {
    !IsWhitespace(c) && c != BYTE_ORDER_MARK
  }

  /** The column after c when the indent has reached column col. */
  function NextColumn(c: char, col: nat, tabSize: nat): nat {
    if c == '\t' && tabSize > 0 then col + (tabSize - col % tabSize) else col + 1
  }

  function Times(q: nat, tabSize: nat): nat {
    q * tabSize
  }

  ghost predicate IsTabStop(col: nat, tabSize: nat) {
    exists q: nat :: col == Times(q, tabSize)
  }

  lemma {:induction false} TimesGrows(q: nat, p: nat, tabSize: nat)
    requires q <= p
    ensures Times(q, tabSize) <= Times(p, tabSize)
    decreases p - q
  {
    if q >= p {
    } else {
      TimesGrows(q, p - 1, tabSize);
      assert Times(p, tabSize) == Times(p - 1, tabSize) + tabSize;
    }
  }

  /** A space leads one column on, and a tab to the next tab stop, the multiples of the tab size. */
  lemma TabStops(col: nat, tabSize: nat)
    ensures NextColumn(' ', col, tabSize) == col + 1 && NextColumn('\t', col, 0) == col + 1
    ensures var next := NextColumn('\t', col, tabSize);
            tabSize > 0 ==>
              && next > col && IsTabStop(next, tabSize)
              && forall stop: nat :: col < stop && IsTabStop(stop, tabSize) ==> next <= stop
  {
    if tabSize > 0 {
      var next, q := NextColumn('\t', col, tabSize), col / tabSize;
      assert col == Times(q, tabSize) + col % tabSize && Times(q + 1, tabSize) == Times(q, tabSize) + tabSize;
      assert next == Times(q + 1, tabSize);
      forall stop: nat | col < stop && IsTabStop(stop, tabSize) ensures next <= stop {
        var p: nat :| stop == Times(p, tabSize);
        TimesGrows(if p <= q then p else q + 1, if p <= q then q else p, tabSize);
      }
    }
  }

  /** The columns of leading spaces and tabs from offset i on, starting at column col. */
  function IndentFrom(line: string, i: nat, col: nat, tabSize: nat): nat
    requires i <= |line|
    decreases |line| - i
  {
    if i < |line| && (line[i] == ' ' || line[i] == '\t')
    then IndentFrom(line, i + 1, NextColumn(line[i], col, tabSize), tabSize)
    else col
  }

  function Indent(line: string, tabSize: nat): nat {
    IndentFrom(line, 0, 0, tabSize)
  }

  /** Offset i holds the last content character among the first n. */
  ghost predicate IsLastContent(line: string, n: nat, i: nat) {
    i < n <= |line| && IsContent(line[i]) && forall j :: i < j < n ==> !IsContent(line[j])
  }

  /** A line without content. */
  ghost predicate IsBlankLine(line: string) {
    forall i :: 0 <= i < |line| ==> !IsContent(line[i])
  }

  ghost predicate EndsInColon(line: string) {
    exists i: nat :: IsLastContent(line, |line|, i) && line[i] == ':'
  }

  datatype Shape = Shape(indent: nat, colon: bool)

  ghost function ShapeOf(line: string, tabSize: nat): Option<Shape> {
    if IsBlankLine(line) then None else Some(Shape(Indent(line, tabSize), EndsInColon(line)))
  }

  method ScanLine(line: string, tabSize: nat) returns (r: Option<Shape>)
    ensures r == ShapeOf(line, tabSize)
  {
    var indent: nat := 0;
    var inIndent := true;
    var last: Option<char> := None;
    for i := 0 to |line|
      invariant Indent(line, tabSize) == if inIndent then IndentFrom(line, i, indent, tabSize) else indent
      invariant last.None? ==> forall j :: 0 <= j < i ==> !IsContent(line[j])
      invariant last.Some? ==> exists j: nat :: IsLastContent(line, i, j) && last.value == line[j]
    {
      var c := line[i];
      if inIndent {
        if c == ' ' {
          indent := indent + 1;
        } else if c == '\t' && tabSize > 0 {
          indent := indent + (tabSize - indent % tabSize);
        } else if c == '\t' {
          indent := indent + 1;
        } else {
          inIndent := false;
        }
      }
      if IsContent(c) {
        last := Some(c);
        assert IsLastContent(line, i + 1, i);
      } else if last.Some? {
        ghost var j: nat :| IsLastContent(line, i, j) && last.value == line[j];
        assert IsLastContent(line, i + 1, j);
      }
    }
    assert forall i: nat, j: nat :: IsLastContent(line, |line|, i) && IsLastContent(line, |line|, j) ==> i == j;
    r := match last case None => None case Some(c) => Some(Shape(indent, c == ':'));
  }

  // ----- The naive rule -----

  ghost function Shapes(lines: seq<string>, tabSize: nat): seq<Option<Shape>> {
    seq(|lines|, i requires 0 <= i < |lines| => ShapeOf(lines[i], tabSize))
  }

  /** Every line after s up to line e is blank or indented deeper than line s. */
  ghost predicate RunsTo(shapes: seq<Option<Shape>>, s: nat, e: nat)
    requires s < |shapes| && shapes[s].Some? && e < |shapes|
  {
    forall l :: s < l <= e ==> shapes[l].None? || shapes[l].value.indent > shapes[s].value.indent
  }

  /** Line e is the last line with content in the run of blank or deeper lines after line s. */
  ghost predicate IsRun(shapes: seq<Option<Shape>>, s: nat, e: nat) {
    && s < e < |shapes|
    && shapes[s].Some?
    && shapes[e].Some?
    && RunsTo(shapes, s, e)
    && forall l :: e < l < |shapes| && shapes[l].Some? ==> !RunsTo(shapes, s, l)
  }

  /** A line ending in ':' folds over its run. */
  ghost predicate IsIndentFold(shapes: seq<Option<Shape>>, s: nat, e: nat) {
    IsRun(shapes, s, e) && shapes[s].value.colon
  }

  // ----- The monotone stack -----

  /** line last is the last of the first n lines with content, or 0 when there is none. */
  ghost predicate IsLastContentLine(shapes: seq<Option<Shape>>, n: nat, last: nat)
    requires n <= |shapes|
  {
    && (last < n || last == 0)
    && (forall l :: last < l < n ==> shapes[l].None?)
    && (last < n && shapes[last].None? ==> last == 0)
  }

  /** Line s ends in ':' and its run has not ended by line n. */
  ghost predicate IsOpen(shapes: seq<Option<Shape>>, n: nat, s: nat)
    requires n <= |shapes|
  {
    s < n && shapes[s].Some? && shapes[s].value.colon && RunsTo(shapes, s, n - 1)
  }

  datatype OpenLine = OpenLine(start: nat, indent: nat)

  /** The stack holds the open lines, with strictly increasing indents from bottom to top. */
  ghost predicate StackOk(shapes: seq<Option<Shape>>, n: nat, stack: seq<OpenLine>)
    requires n <= |shapes|
  {
    && (forall i :: 0 <= i < |stack| ==>
          IsOpen(shapes, n, stack[i].start) && shapes[stack[i].start].value.indent == stack[i].indent)
    && (forall i, j :: 0 <= i < j < |stack| ==> stack[i].start < stack[j].start && stack[i].indent < stack[j].indent)
  }

  ghost predicate OnStack(stack: seq<OpenLine>, s: nat) {
    exists i :: 0 <= i < |stack| && stack[i].start == s
  }

  ghost predicate StartsNone(folds: seq<Fold>, s: nat) {
    forall e: nat :: Fold(s, e) !in folds
  }

  /** The folds list what the rule gives line s, once. */
  ghost predicate Settled(shapes: seq<Option<Shape>>, folds: seq<Fold>, s: nat) {
    forall e: nat :: IsIndentFold(shapes, s, e) <==> Fold(s, e) in folds
  }

  ghost predicate DistinctStarts(folds: seq<Fold>) {
    forall i, j :: 0 <= i < j < |folds| ==> folds[i].startLine != folds[j].startLine
  }

  /** Lines still on the stack have no fold yet; every other line before n has its own. */
  ghost predicate Progress(shapes: seq<Option<Shape>>, n: nat, stack: seq<OpenLine>, folds: seq<Fold>)
    requires n <= |shapes|
  {
    && (forall s: nat :: OnStack(stack, s) ==> StartsNone(folds, s))
    && (forall s: nat :: s < n && !OnStack(stack, s) ==> Settled(shapes, folds, s))
    && (forall i :: 0 <= i < |folds| ==> folds[i].startLine < n)
    && DistinctStarts(folds)
  }

  function CloseFold(start: nat, end: nat): seq<Fold> {
    if end > start then [Fold(start, end)] else []
  }

  /** Where the run of an open line ends at line n, or with the text, its fold is the rule's. */
  lemma ClosingIsTheRule(shapes: seq<Option<Shape>>, n: nat, last: nat, s: nat)
    requires n <= |shapes| && IsOpen(shapes, n, s) && IsLastContentLine(shapes, n, last)
    requires n < |shapes| ==> shapes[n].Some? && shapes[n].value.indent <= shapes[s].value.indent
    ensures forall e: nat :: IsIndentFold(shapes, s, e) <==> Fold(s, e) in CloseFold(s, last)
  {
    forall l: nat | n <= l < |shapes| ensures !RunsTo(shapes, s, l) {
      assert s < n <= l;
    }
    forall e: nat ensures IsIndentFold(shapes, s, e) <==> Fold(s, e) in CloseFold(s, last) {
      if IsIndentFold(shapes, s, e) {
        assert e < n;
        if e < last {
          assert RunsTo(shapes, s, last);
        }
      }
    }
  }

  /** Closing a stacked line settles it and disturbs no other. */
  lemma CloseLine(shapes: seq<Option<Shape>>, n: nat, stack: seq<OpenLine>, rest: seq<OpenLine>, s: nat,
                  folds: seq<Fold>, last: nat)
    requires n <= |shapes| && Progress(shapes, n, stack, folds)
    requires forall x: nat :: OnStack(stack, x) <==> (OnStack(rest, x) || x == s)
    requires !OnStack(rest, s)
    requires IsOpen(shapes, n, s) && IsLastContentLine(shapes, n, last)
    requires n < |shapes| ==> shapes[n].Some? && shapes[n].value.indent <= shapes[s].value.indent
    ensures Progress(shapes, n, rest, folds + CloseFold(s, last))
  {
    var folds' := folds + CloseFold(s, last);
    ClosingIsTheRule(shapes, n, last, s);
    assert StartsNone(folds, s);
    forall x: nat | x < n && !OnStack(rest, x) ensures Settled(shapes, folds', x) {
      if x != s {
        assert Settled(shapes, folds, x);
        assert forall e: nat :: Fold(x, e) in folds' <==> Fold(x, e) in folds;
      } else {
        assert forall e: nat :: Fold(x, e) in folds' <==> Fold(x, e) in CloseFold(s, last);
      }
    }
    forall x: nat | OnStack(rest, x) ensures StartsNone(folds', x) {
      assert x != s && StartsNone(folds, x);
    }
    forall i | 0 <= i < |folds| ensures folds[i].startLine != s {
      assert Fold(s, folds[i].endLine) !in folds;
    }
  }

  /** Taking the top, or the bottom, off the stack leaves exactly the other lines on it. */
  lemma StackWithout(shapes: seq<Option<Shape>>, n: nat, stack: seq<OpenLine>, at: nat)
    requires n <= |shapes| && StackOk(shapes, n, stack) && at < |stack|
    ensures var rest := stack[..at] + stack[at + 1..];
            && StackOk(shapes, n, rest)
            && (forall x: nat :: OnStack(stack, x) <==> (OnStack(rest, x) || x == stack[at].start))
            && !OnStack(rest, stack[at].start)
  {
    StackWithoutOk(shapes, n, stack, at);
    StackWithoutLines(stack, at);
  }

  lemma StackWithoutOk(shapes: seq<Option<Shape>>, n: nat, stack: seq<OpenLine>, at: nat)
    requires n <= |shapes| && StackOk(shapes, n, stack) && at < |stack|
    ensures StackOk(shapes, n, stack[..at] + stack[at + 1..])
    ensures forall i :: 0 <= i < |stack| && i != at ==> stack[i].start != stack[at].start
  {
    var rest := stack[..at] + stack[at + 1..];
    assert forall i :: 0 <= i < |rest| ==> rest[i] == stack[if i < at then i else i + 1];
  }

  lemma StackWithoutLines(stack: seq<OpenLine>, at: nat)
    requires at < |stack| && forall i :: 0 <= i < |stack| && i != at ==> stack[i].start != stack[at].start
    ensures var rest := stack[..at] + stack[at + 1..];
            && (forall x: nat :: OnStack(stack, x) <==> (OnStack(rest, x) || x == stack[at].start))
            && !OnStack(rest, stack[at].start)
  {
    var rest := stack[..at] + stack[at + 1..];
    forall i | 0 <= i < |stack| && i != at ensures OnStack(rest, stack[i].start) {
      assert rest[if i < at then i else i - 1] == stack[i];
    }
    forall i | 0 <= i < |rest| ensures OnStack(stack, rest[i].start) && rest[i].start != stack[at].start {
      assert rest[i] == stack[if i < at then i else i + 1];
    }
  }

  /** A blank line changes no run. */
  lemma AdvanceBlank(shapes: seq<Option<Shape>>, n: nat, stack: seq<OpenLine>, folds: seq<Fold>)
    requires n < |shapes| && shapes[n].None?
    requires StackOk(shapes, n, stack) && Progress(shapes, n, stack, folds)
    ensures StackOk(shapes, n + 1, stack) && Progress(shapes, n + 1, stack, folds)
  {
  }

  /** A line deeper than the top of the stack is part of every open run. */
  lemma RunsGoOn(shapes: seq<Option<Shape>>, n: nat, stack: seq<OpenLine>)
    requires n < |shapes| && StackOk(shapes, n, stack)
    requires shapes[n].Some? && (stack != [] ==> shapes[n].value.indent > stack[|stack| - 1].indent)
    ensures StackOk(shapes, n + 1, stack)
    ensures forall i :: 0 <= i < |stack| ==> stack[i].start < n && stack[i].indent < shapes[n].value.indent
  {
    forall i | 0 <= i < |stack|
      ensures IsOpen(shapes, n + 1, stack[i].start) && stack[i].indent < shapes[n].value.indent
    {
      assert i < |stack| - 1 ==> stack[i].indent < stack[|stack| - 1].indent;
    }
  }

  function Pushed(stack: seq<OpenLine>, n: nat, shape: Shape): seq<OpenLine> {
    if shape.colon then stack + [OpenLine(n, shape.indent)] else stack
  }

  lemma OnPushed(stack: seq<OpenLine>, n: nat, shape: Shape, x: nat)
    ensures OnStack(Pushed(stack, n, shape), x) <==> (OnStack(stack, x) || (shape.colon && x == n))
  {
    var stack' := Pushed(stack, n, shape);
    if i :| 0 <= i < |stack| && stack[i].start == x {
      assert stack'[i].start == x;
    }
    if shape.colon {
      assert stack'[|stack|].start == n;
    }
  }

  /** Once the runs a line ends are closed, it takes its own place on the stack if it ends in ':'. */
  lemma AdvanceContent(shapes: seq<Option<Shape>>, n: nat, stack: seq<OpenLine>, folds: seq<Fold>)
    requires n < |shapes| && shapes[n].Some?
    requires StackOk(shapes, n, stack) && Progress(shapes, n, stack, folds)
    requires stack != [] ==> shapes[n].value.indent > stack[|stack| - 1].indent
    ensures var stack' := Pushed(stack, n, shapes[n].value);
            StackOk(shapes, n + 1, stack') && Progress(shapes, n + 1, stack', folds)
  {
    var stack' := Pushed(stack, n, shapes[n].value);
    RunsGoOn(shapes, n, stack);
    assert StartsNone(folds, n);
    forall x: nat ensures OnStack(stack', x) <==> (OnStack(stack, x) || (shapes[n].value.colon && x == n)) {
      OnPushed(stack, n, shapes[n].value, x);
    }
  }

  /** Closes the runs that a line with this indent ends, from the top of the stack. */
  method CloseRuns(ghost shapes: seq<Option<Shape>>, ghost n: nat, indent: nat, lastContent: nat,
                   open: seq<OpenLine>, folds: seq<Fold>)
    returns (open': seq<OpenLine>, folds': seq<Fold>)
    requires n < |shapes| && shapes[n].Some? && shapes[n].value.indent == indent
    requires IsLastContentLine(shapes, n, lastContent)
    requires StackOk(shapes, n, open) && Progress(shapes, n, open, folds)
    ensures StackOk(shapes, n, open') && Progress(shapes, n, open', folds')
    ensures open' != [] ==> indent > open'[|open'| - 1].indent
  {
    open', folds' := open, folds;
    while open' != [] && indent <= open'[|open'| - 1].indent
      invariant StackOk(shapes, n, open')
      invariant Progress(shapes, n, open', folds')
      decreases |open'|
    {
      var start, rest := open'[|open'| - 1].start, open'[..|open'| - 1];
      StackWithout(shapes, n, open', |open'| - 1);
      assert open'[..|open'| - 1] + open'[|open'|..] == rest;
      CloseLine(shapes, n, open', rest, start, folds', lastContent);
      open', folds' := rest, folds' + CloseFold(start, lastContent);
    }
  }

  /** Closes what is still open at the end of the text, from the bottom of the stack. */
  method CloseAll(ghost shapes: seq<Option<Shape>>, lastContent: nat, open: seq<OpenLine>, folds: seq<Fold>)
    returns (folds': seq<Fold>)
    requires IsLastContentLine(shapes, |shapes|, lastContent)
    requires StackOk(shapes, |shapes|, open) && Progress(shapes, |shapes|, open, folds)
    ensures Progress(shapes, |shapes|, [], folds')
  {
    folds' := folds;
    for i := 0 to |open|
      invariant StackOk(shapes, |shapes|, open[i..])
      invariant Progress(shapes, |shapes|, open[i..], folds')
    {
      StackWithout(shapes, |shapes|, open[i..], 0);
      assert open[i..][..0] + open[i..][1..] == open[i + 1..];
      CloseLine(shapes, |shapes|, open[i..], open[i + 1..], open[i].start, folds', lastContent);
      folds' := folds' + CloseFold(open[i].start, lastContent);
    }
    assert open[|open|..] == [];
  }

  method IndentFolds(lines: seq<string>, tabSize: nat) returns (folds: seq<Fold>)
    ensures forall s: nat :: Settled(Shapes(lines, tabSize), folds, s)
    ensures DistinctStarts(folds)
  {
    ghost var shapes := Shapes(lines, tabSize);
    folds := [];
    var open: seq<OpenLine> := [];
    var lastContent := 0;
    ProgressBegins(shapes);
    for n := 0 to |lines|
      invariant IsLastContentLine(shapes, n, lastContent)
      invariant StackOk(shapes, n, open)
      invariant Progress(shapes, n, open, folds)
    {
      var shape := ScanLine(lines[n], tabSize);
      LastContentMoves(shapes, n, lastContent);
      if shape.None? {
        AdvanceBlank(shapes, n, open, folds);
        continue;
      }
      open, folds := CloseRuns(shapes, n, shape.value.indent, lastContent, open, folds);
      AdvanceContent(shapes, n, open, folds);
      open := Pushed(open, n, shape.value);
      lastContent := n;
    }
    folds := CloseAll(shapes, lastContent, open, folds);
    EverySettled(shapes, folds);
  }

  lemma ProgressBegins(shapes: seq<Option<Shape>>)
    ensures IsLastContentLine(shapes, 0, 0) && StackOk(shapes, 0, []) && Progress(shapes, 0, [], [])
  {
  }

  lemma LastContentMoves(shapes: seq<Option<Shape>>, n: nat, last: nat)
    requires n < |shapes| && IsLastContentLine(shapes, n, last)
    ensures IsLastContentLine(shapes, n + 1, if shapes[n].None? then last else n)
  {
  }

  lemma EverySettled(shapes: seq<Option<Shape>>, folds: seq<Fold>)
    requires Progress(shapes, |shapes|, [], folds)
    ensures forall s: nat :: Settled(shapes, folds, s)
  {
    forall s: nat ensures Settled(shapes, folds, s) {
      if s < |shapes| {
        assert !OnStack([], s);
      } else {
        assert forall e: nat :: Fold(s, e) !in folds;
      }
    }
  }
}
