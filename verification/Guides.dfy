/** Indent guides for a viewport: the folds of its lines, recomputed without looking below a horizon. */
module Guides {
  import opened Wrappers
  import opened EditorText
  import opened Brackets
  import opened BracketFolding
  import opened IndentFolding

  datatype Guide = Guide(startLine: nat, endLine: nat, indentLevel: nat, leadingSpaces: nat)

  const SCAN_BACK_LIMIT := 500

  // ----- One line -----

  ghost predicate IsAllWhitespace(line: string) {
    forall i :: 0 <= i < |line| ==> IsWhitespace(line[i])
  }

  /** Everything from offset n on is whitespace, and the character before it is not. */
  ghost predicate IsTrimmed(line: string, n: nat) {
    && n <= |line|
    && (forall i :: n <= i < |line| ==> IsWhitespace(line[i]))
    && (n > 0 ==> !IsWhitespace(line[n - 1]))
  }

  ghost predicate IsTail(line: string, n: nat) {
    n <= |line| && forall i :: n <= i < |line| ==> line[i] == '\n' || line[i] == '\r'
  }

  /** What follows offset n is the line break, all of it: CRLF, LF or nothing. */
  predicate EndsBefore(line: string, n: nat) {
    && n <= |line| && '\n' !in line[..n]
    && (line[n..] == "" || line[n..] == "\r\n" || (line[n..] == "\n" && (n > 0 ==> line[n - 1] != '\r')))
  }

  /** Without the line break, LF or CRLF. */
  method ContentLen(line: string) returns (len: nat)
    requires IsOneLine(line)
    ensures EndsBefore(line, len) && IsTail(line, len)
  {
    len := |line|;
    if len >= 2 && line[len - 1] == '\n' && line[len - 2] == '\r' {
      len := len - 2;
    }
    if len >= 1 && line[len - 1] == '\n' {
      len := len - 1;
    }
  }

  method IsBlank(line: string, len: nat) returns (blank: bool)
    requires IsTail(line, len)
    ensures blank <==> IsAllWhitespace(line)
  {
    var i := 0;
    while i < len && IsWhitespace(line[i])
      invariant i <= len
      invariant forall j :: 0 <= j < i ==> IsWhitespace(line[j])
    {
      i := i + 1;
    }
    blank := i == len;
  }

  /** Cutting a line at an offset that ends no indent keeps its indent. */
  lemma {:induction false} IndentOfPrefix(line: string, len: nat, i: nat, col: nat, tabSize: nat)
    requires i <= len <= |line|
    requires len < |line| && line[len] in {' ', '\t'} ==> exists j :: i <= j < len && line[j] !in {' ', '\t'}
    ensures IndentFrom(line[..len], i, col, tabSize) == IndentFrom(line, i, col, tabSize)
    decreases len - i
  {
    if i < len && (line[i] == ' ' || line[i] == '\t') {
      IndentOfPrefix(line, len, i + 1, NextColumn(line[i], col, tabSize), tabSize);
    }
  }

  method LeadingColumns(line: string, len: nat, tabSize: nat) returns (cols: nat)
    requires IsTail(line, len) || (IsTrimmed(line, len) && len > 0)
    ensures cols == Indent(line, tabSize)
  {
    cols := 0;
    var i := 0;
    while i < len && (line[i] == ' ' || line[i] == '\t')
      invariant i <= len
      invariant Indent(line[..len], tabSize) == IndentFrom(line[..len], i, cols, tabSize)
    {
      if line[i] == '\t' && tabSize > 0 {
        cols := cols + (tabSize - cols % tabSize);
      } else {
        cols := cols + 1;
      }
      i := i + 1;
    }
    if IsTrimmed(line, len) && len > 0 {
      assert line[len - 1] !in {' ', '\t'};
    }
    IndentOfPrefix(line, len, 0, 0, tabSize);
  }

  // ----- What a guide is -----

  /** The line as the guides see it: only whitespace is blank. */
  ghost function GuideShape(line: string, tabSize: nat): Option<Shape> {
    if IsAllWhitespace(line) then None
    else Some(Shape(Indent(line, tabSize), exists n: nat :: IsTrimmed(line, n) && n > 0 && line[n - 1] == ':'))
  }

  ghost function GuideShapes(lines: seq<string>, tabSize: nat): seq<Option<Shape>> {
    seq(|lines|, l requires 0 <= l < |lines| => GuideShape(lines[l], tabSize))
  }

  /** The exclusive end of the run after line l as far as the horizon shows it: the horizon itself when the
      run is still open there, l + 1 when there is no run. */
  ghost predicate IsRunEnd(shapes: seq<Option<Shape>>, l: nat, horizon: nat, end: nat)
    requires l < horizon <= |shapes| && shapes[l].Some?
  {
    if horizon < |shapes| && RunsTo(shapes, l, horizon - 1) then end == horizon
    else if exists e: nat :: IsRun(shapes, l, e) then end > 0 && IsRun(shapes, l, end - 1)
    else end == l + 1
  }

  /** A line before the end of the block, and before the horizon, that is no deeper than its head. */
  ghost predicate WouldPass(shapes: seq<Option<Shape>>, l: nat, horizon: nat, end: nat)
    requires l < |shapes| && shapes[l].Some? && horizon <= |shapes|
  {
    exists c :: l < c < end - 1 && c < horizon && shapes[c].Some? && shapes[c].value.indent <= shapes[l].value.indent
  }

  method RunEnd(ghost shapes: seq<Option<Shape>>, lines: seq<string>, l: nat, horizon: nat, lead: nat, tabSize: nat)
    returns (end: nat)
    requires AreLines(lines) && shapes == GuideShapes(lines, tabSize)
    requires l < horizon <= |lines| && shapes[l].Some? && shapes[l].value.indent == lead
    requires horizon == |lines| || l + 1 < horizon
    ensures IsRunEnd(shapes, l, horizon, end)
  {
    var scan := l + 1;
    var lastValid := l;
    while scan < horizon
      invariant l < scan <= horizon
      invariant l <= lastValid < scan
      invariant RunsTo(shapes, l, scan - 1)
      invariant lastValid > l ==> shapes[lastValid].Some?
      invariant forall x :: lastValid < x < scan ==> shapes[x].None?
    {
      assert shapes[scan] == GuideShape(lines[scan], tabSize);
      var nlLen := ContentLen(lines[scan]);
      var blank := IsBlank(lines[scan], nlLen);
      if blank {
        scan := scan + 1;
        continue;
      }
      var cols := LeadingColumns(lines[scan], nlLen, tabSize);
      if cols <= lead {
        break;
      }
      lastValid := scan;
      scan := scan + 1;
    }
    if scan < horizon {
      assert !RunsTo(shapes, l, scan);
    }
    RunEndFromScan(shapes, l, horizon, scan, lastValid);
    end := if scan == horizon && horizon < |lines| then horizon else lastValid + 1;
  }

  /** Where the scan stopped decides the end of the run. */
  lemma RunEndFromScan(shapes: seq<Option<Shape>>, l: nat, horizon: nat, scan: nat, lastValid: nat)
    requires l < scan <= horizon <= |shapes| && l <= lastValid < scan && shapes[l].Some?
    requires RunsTo(shapes, l, scan - 1)
    requires lastValid > l ==> shapes[lastValid].Some?
    requires forall x :: lastValid < x < scan ==> shapes[x].None?
    requires scan < horizon ==> !RunsTo(shapes, l, scan)
    requires horizon == |shapes| || l + 1 < horizon
    ensures IsRunEnd(shapes, l, horizon, if scan == horizon && horizon < |shapes| then horizon else lastValid + 1)
  {
    if scan < horizon || horizon == |shapes| {
      LastValidEndsRun(shapes, l, scan, lastValid);
      assert scan < horizon ==> !RunsTo(shapes, l, horizon - 1);
    }
  }

  lemma LastValidEndsRun(shapes: seq<Option<Shape>>, l: nat, scan: nat, lastValid: nat)
    requires l < scan <= |shapes| && l <= lastValid < scan && shapes[l].Some?
    requires RunsTo(shapes, l, scan - 1)
    requires lastValid > l ==> shapes[lastValid].Some?
    requires forall x :: lastValid < x < scan ==> shapes[x].None?
    requires scan < |shapes| ==> !RunsTo(shapes, l, scan)
    ensures forall e: nat :: IsRun(shapes, l, e) <==> e == lastValid && lastValid > l
    ensures forall x :: scan <= x < |shapes| ==> !RunsTo(shapes, l, x)
  {
    assert forall x :: scan <= x < |shapes| ==> !RunsTo(shapes, l, x);
    assert lastValid > l ==> RunsTo(shapes, l, lastValid) && IsRun(shapes, l, lastValid);
    forall e: nat | IsRun(shapes, l, e) ensures e == lastValid && lastValid > l {
      assert e < scan;
    }
  }

  // ----- The viewport -----

  /** The offset in the line of its last character that is not whitespace. */
  ghost predicate IsHead(line: string, n: nat) {
    IsTrimmed(line, n) && n > 0 && line[n - 1] in {'{', '(', '[', ':'}
  }

  /** The line on which the bracket at p closes, when that is above the horizon. */
  ghost function ClosesOn(t: string, p: nat, horizon: nat): Option<nat>
    requires p < |t|
  {
    match MatchOf(t, p)
    case Some(q) => if p < q < |t| && LineOf(t, q) < horizon then Some(LineOf(t, q)) else None
    case None => None
  }

  /** The line that closes the bracket line l ends in, when it is above the horizon. */
  ghost function HeadCloses(t: string, l: nat, n: nat, horizon: nat): Option<nat>
    requires l < LineCount(t) && IsHead(Line(t, l), n)
  {
    HeadOffset(t, l, n);
    if Line(t, l)[n - 1] == ':' then None else ClosesOn(t, LineStart(t, l) + n - 1, horizon)
  }

  /** The exclusive end line l's block asks for: that of its bracket pair when the pair closes on a later
      line above the horizon, else that of its run. */
  ghost predicate IsBlockEnd(shapes: seq<Option<Shape>>, closing: Option<nat>, l: nat, horizon: nat, end: nat)
    requires l < horizon <= |shapes| && shapes[l].Some?
  {
    if closing.Some? && closing.value > l then end == closing.value + 1 else IsRunEnd(shapes, l, horizon, end)
  }

  function IndentLevel(columns: nat, tabSize: nat): nat {
    if tabSize == 0 then 0 else columns / tabSize
  }

  /** The whole tab sizes that the columns make up. */
  lemma IndentLevels(columns: nat, tabSize: nat)
    requires tabSize > 0
    ensures var level := IndentLevel(columns, tabSize);
            Times(level, tabSize) <= columns < Times(level + 1, tabSize)
  {
    assert Times(columns / tabSize + 1, tabSize) == Times(columns / tabSize, tabSize) + tabSize;
  }

  /** The guide of line l, if the viewport draws one. */
  ghost predicate IsGuideOf(t: string, tabSize: nat, l: nat, horizon: nat, g: Guide)
    requires l < horizon <= LineCount(t)
  {
    var shapes := GuideShapes(Lines(t), tabSize);
    && g.startLine == l
    && shapes[l].Some?
    && (exists n: nat :: IsHead(Line(t, l), n)
                         && IsBlockEnd(shapes, HeadCloses(t, l, n, horizon), l, horizon, g.endLine))
    && g.endLine > l + 1
    && !WouldPass(shapes, l, horizon, g.endLine)
    && g.leadingSpaces == shapes[l].value.indent
    && g.indentLevel == IndentLevel(g.leadingSpaces, tabSize)
  }

  method TrimmedLen(line: string) returns (len: nat)
    requires IsOneLine(line)
    ensures IsTrimmed(line, len)
  {
    len := ContentLen(line);
    assert forall i :: len <= i < |line| ==> IsWhitespace(line[i]);
    while len > 0 && IsWhitespace(line[len - 1])
      invariant len <= |line|
      invariant forall i :: len <= i < |line| ==> IsWhitespace(line[i])
    {
      len := len - 1;
    }
  }

  /** The limited search sees exactly the matches above the horizon. */
  method FindClosingLine(t: string, p: nat, horizon: nat) returns (r: Option<nat>)
    requires p < |t|
    ensures r == ClosesOn(t, p, horizon)
  {
    r := None;
    match Classify(t[p]) {
      case Opener(k) =>
        LimitedMatch(t, k, p, horizon);
        var m := FindForward(t, k, p, LineStart(t, horizon));
        if m.Some? {
          r := Some(LineOf(t, m.value));
        }
      case Closer(k) => CloserClosesNothing(t, k, p);
      case Other => CloserClosesNothing(t, Curly, p);
    }
  }

  lemma CloserClosesNothing(t: string, k: Kind, p: nat)
    requires p < |t| && forall k' :: t[p] != OpenChar(k')
    ensures MatchOf(t, p).Some? ==> MatchOf(t, p).value < p
  {
    if MatchOf(t, p).Some? {
      assert Linked(t, p, MatchOf(t, p).value);
    }
  }

  method BlockEnd(ghost shapes: seq<Option<Shape>>, lines: seq<string>, closing: Option<nat>, l: nat, horizon: nat,
                  lead: nat, tabSize: nat)
    returns (end: nat)
    requires AreLines(lines) && shapes == GuideShapes(lines, tabSize)
    requires l < horizon <= |lines| && shapes[l].Some? && shapes[l].value.indent == lead
    requires horizon == |lines| || l + 1 < horizon
    ensures IsBlockEnd(shapes, closing, l, horizon, end)
  {
    end := l + 1;
    if closing.Some? {
      end := closing.value + 1;
    }
    if end <= l + 1 {
      end := RunEnd(shapes, lines, l, horizon, lead, tabSize);
    }
  }

  lemma HeadOffset(t: string, l: nat, n: nat)
    requires l < LineCount(t) && IsHead(Line(t, l), n)
    ensures var p := LineStart(t, l) + n - 1; p < |t| && t[p] == Line(t, l)[n - 1] && LineOf(t, p) == l
  {
    var p := LineStart(t, l) + n - 1;
    LineStartOnLine(t, l);
    NextBreakLines(t, LineStart(t, l));
  }

  /** An opener's match lies after it, and above the horizon exactly when the limited search reaches it. */
  lemma LimitedMatch(t: string, k: Kind, p: nat, horizon: nat)
    requires p < |t| && t[p] == OpenChar(k)
    ensures MatchOf(t, p).Some? ==>
              var q := MatchOf(t, p).value;
              && p < q < |t|
              && LineOf(t, p) <= LineOf(t, q)
              && (q < LineStart(t, horizon) <==> LineOf(t, q) < horizon)
  {
    if MatchOf(t, p).Some? {
      var q := MatchOf(t, p).value;
      assert Linked(t, p, q);
      LineOfMonotone(t, p, q);
      BeforeLineStart(t, q, horizon);
    }
  }

  method PassesOverContent(ghost shapes: seq<Option<Shape>>, lines: seq<string>, l: nat, horizon: nat, end: nat,
                           lead: nat, tabSize: nat)
    returns (pass: bool)
    requires AreLines(lines) && shapes == GuideShapes(lines, tabSize)
    requires l < |lines| && shapes[l].Some? && shapes[l].value.indent == lead && horizon <= |lines|
    ensures pass <==> WouldPass(shapes, l, horizon, end)
  {
    pass := false;
    var check := l + 1;
    while check < end - 1 && check < horizon
      invariant l < check
      invariant forall c :: l < c < check && c < horizon && shapes[c].Some? ==> shapes[c].value.indent > lead
    {
      assert shapes[check] == GuideShape(lines[check], tabSize);
      var clLen := ContentLen(lines[check]);
      var blank := IsBlank(lines[check], clLen);
      if !blank {
        var cols := LeadingColumns(lines[check], clLen, tabSize);
        if cols <= lead {
          return true;
        }
      }
      check := check + 1;
    }
  }

  ghost predicate ByStartLine(blocks: seq<Guide>) {
    forall i, j :: 0 <= i < j < |blocks| ==> blocks[i].startLine < blocks[j].startLine
  }

  /** A line with a head has the one guide its block end asks for, unless that block is empty or would pass
      over content. */
  lemma GuideOfHead(t: string, tabSize: nat, l: nat, horizon: nat, n: nat, end: nat, g: Guide)
    requires l < horizon <= LineCount(t) && IsHead(Line(t, l), n)
    requires var shapes := GuideShapes(Lines(t), tabSize);
             shapes[l].Some? && IsBlockEnd(shapes, HeadCloses(t, l, n, horizon), l, horizon, end)
    ensures var shapes := GuideShapes(Lines(t), tabSize);
            var lead := shapes[l].value.indent;
            IsGuideOf(t, tabSize, l, horizon, g) <==>
            && end > l + 1
            && !WouldPass(shapes, l, horizon, end)
            && g == Guide(l, end, IndentLevel(lead, tabSize), lead)
  {
    var shapes := GuideShapes(Lines(t), tabSize);
    TrimmedUnique(Line(t, l), n);
    BlockEndUnique(shapes, HeadCloses(t, l, n, horizon), l, horizon, end);
  }

  /** The guide of one line, if it has one. */
  method GuideOf(t: string, lines: seq<string>, l: nat, horizon: nat, tabSize: nat) returns (r: Option<Guide>)
    requires lines == Lines(t) && l < horizon <= |lines|
    requires horizon == |lines| || l + 1 < horizon
    ensures forall g :: IsGuideOf(t, tabSize, l, horizon, g) <==> r == Some(g)
  {
    ghost var shapes := GuideShapes(lines, tabSize);
    var line := lines[l];
    LinesAreLines(t);
    assert shapes[l] == GuideShape(line, tabSize);
    var n := TrimmedLen(line);
    TrimmedUnique(line, n);
    if n == 0 || line[n - 1] !in {'{', '(', '[', ':'} {
      return None;
    }
    var lead := LeadingColumns(line, n, tabSize);
    HeadOffset(t, l, n);
    var closing: Option<nat> := None;
    if line[n - 1] != ':' {
      closing := FindClosingLine(t, LineStart(t, l) + n - 1, horizon);
    }
    assert closing == HeadCloses(t, l, n, horizon);
    var end := BlockEnd(shapes, lines, closing, l, horizon, lead, tabSize);
    forall g { GuideOfHead(t, tabSize, l, horizon, n, end, g); }
    if end <= l + 1 {
      return None;
    }
    var pass := PassesOverContent(shapes, lines, l, horizon, end, lead, tabSize);
    if pass {
      return None;
    }
    r := Some(Guide(l, end, IndentLevel(lead, tabSize), lead));
  }

  lemma TrimmedUnique(line: string, n: nat)
    requires IsTrimmed(line, n)
    ensures forall m: nat :: IsTrimmed(line, m) ==> m == n
    ensures IsAllWhitespace(line) <==> n == 0
  {
    forall m: nat | IsTrimmed(line, m) ensures m == n {
      assert n > 0 ==> !IsWhitespace(line[n - 1]);
      assert m > 0 ==> !IsWhitespace(line[m - 1]);
    }
  }

  lemma BlockEndUnique(shapes: seq<Option<Shape>>, closing: Option<nat>, l: nat, horizon: nat, end: nat)
    requires l < horizon <= |shapes| && shapes[l].Some?
    requires IsBlockEnd(shapes, closing, l, horizon, end)
    ensures forall end': nat :: IsBlockEnd(shapes, closing, l, horizon, end') <==> end' == end
  {
    forall end': nat | IsRunEnd(shapes, l, horizon, end) && IsRunEnd(shapes, l, horizon, end') ensures end' == end {
      RunUnique(shapes, l, end - 1, end' - 1);
    }
  }

  lemma RunUnique(shapes: seq<Option<Shape>>, s: nat, e: int, e': int)
    ensures e >= 0 && e' >= 0 && IsRun(shapes, s, e) && IsRun(shapes, s, e') ==> e == e'
  {
  }

  function Min(a: nat, b: nat): nat {
    if a < b then a else b
  }

  function FirstLine(t: string, firstVisible: nat): nat {
    Min(firstVisible, LineCount(t) - 1)
  }

  function LastLine(t: string, lastVisible: nat): nat {
    Min(lastVisible, LineCount(t) - 1)
  }

  function ScanStart(t: string, firstVisible: nat): nat {
    FirstLine(t, firstVisible) - Min(FirstLine(t, firstVisible), SCAN_BACK_LIMIT)
  }

  /** Nothing from this line on is looked at. */
  function Horizon(t: string, lastVisible: nat): nat {
    Min(LastLine(t, lastVisible) + 2, LineCount(t))
  }

  /** blocks are the guides of the lines from first up to l, top to bottom. */
  ghost predicate AreGuides(t: string, tabSize: nat, horizon: nat, first: nat, l: nat, blocks: seq<Guide>)
    requires l <= horizon <= LineCount(t)
  {
    && (forall g :: g in blocks <==> first <= g.startLine < l && IsGuideOf(t, tabSize, g.startLine, horizon, g))
    && ByStartLine(blocks)
  }

  lemma AreGuidesNone(t: string, tabSize: nat, horizon: nat, first: nat, l: nat, blocks: seq<Guide>)
    requires first <= l < horizon <= LineCount(t)
    requires AreGuides(t, tabSize, horizon, first, l, blocks)
    requires forall g :: !IsGuideOf(t, tabSize, l, horizon, g)
    ensures AreGuides(t, tabSize, horizon, first, l + 1, blocks)
  {
    forall g: Guide
      ensures g in blocks <==> first <= g.startLine < l + 1 && IsGuideOf(t, tabSize, g.startLine, horizon, g)
    {
      assert g.startLine == l ==> !IsGuideOf(t, tabSize, l, horizon, g);
    }
  }

  lemma AreGuidesSome(t: string, tabSize: nat, horizon: nat, first: nat, l: nat, blocks: seq<Guide>, r: Guide)
    requires first <= l < horizon <= LineCount(t)
    requires AreGuides(t, tabSize, horizon, first, l, blocks)
    requires forall g :: IsGuideOf(t, tabSize, l, horizon, g) <==> r == g
    ensures AreGuides(t, tabSize, horizon, first, l + 1, blocks + [r])
  {
    assert IsGuideOf(t, tabSize, l, horizon, r);
    assert forall i :: 0 <= i < |blocks| ==> blocks[i] in blocks;
    forall g: Guide
      ensures g in blocks + [r] <==> first <= g.startLine < l + 1 && IsGuideOf(t, tabSize, g.startLine, horizon, g)
    {
      assert g in blocks + [r] <==> g in blocks || r == g;
      assert g.startLine == l ==> (IsGuideOf(t, tabSize, l, horizon, g) <==> r == g);
    }
  }

  method ComputeViewport(t: string, firstVisible: nat, lastVisible: nat, tabSize: nat) returns (blocks: seq<Guide>)
    ensures AreGuides(t, tabSize, Horizon(t, lastVisible), ScanStart(t, firstVisible),
                      LastLine(t, lastVisible) + 1, blocks)
    ensures var end := LineCount(t) - 1;
            forall g: Guide :: g in blocks <==>
              && g.startLine <= Min(lastVisible, end) && Min(firstVisible, end) <= g.startLine + 500
              && IsGuideOf(t, tabSize, g.startLine, Min(Min(lastVisible, end) + 2, LineCount(t)), g)
  {
    var lines := Lines(t);
    var first, last, horizon := ScanStart(t, firstVisible), LastLine(t, lastVisible), Horizon(t, lastVisible);
    blocks := [];
    var l := first;
    while l <= last
      invariant AreGuides(t, tabSize, horizon, first, Min(l, last + 1), blocks)
      invariant first <= l && (l <= last + 1 || l == first)
    {
      var g := GuideOf(t, lines, l, horizon, tabSize);
      if g.Some? {
        AreGuidesSome(t, tabSize, horizon, first, l, blocks, g.value);
        blocks := blocks + [g.value];
      } else {
        AreGuidesNone(t, tabSize, horizon, first, l, blocks);
      }
      l := l + 1;
    }
  }
}
