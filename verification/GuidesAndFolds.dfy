/** The guides of lines ending in ':' against their indent folds, byte order marks included. */
module GuidesAndFolds {
  import opened Wrappers
  import opened EditorText
  import opened IndentFolding
  import opened Guides

  // ----- One line -----

  /** No line's last character that is not whitespace is a byte order mark. */
  ghost predicate NoTrailingMark(line: string) {
    forall n: nat :: IsTrimmed(line, n) && n > 0 ==> line[n - 1] != BYTE_ORDER_MARK
  }

  lemma {:induction false} TrimmedExists(line: string, len: nat)
    requires len <= |line| && forall i :: len <= i < |line| ==> IsWhitespace(line[i])
    ensures exists n: nat :: IsTrimmed(line, n)
  {
    if len > 0 && IsWhitespace(line[len - 1]) {
      TrimmedExists(line, len - 1);
    } else {
      assert IsTrimmed(line, len);
    }
  }

  /** Such a line looks the same to the folds and to the guides. */
  lemma SameShape(line: string, tabSize: nat)
    requires NoTrailingMark(line)
    ensures ShapeOf(line, tabSize) == GuideShape(line, tabSize)
  {
    TrimmedExists(line, |line|);
    var n: nat :| IsTrimmed(line, n);
    TrimmedUnique(line, n);
    if n > 0 {
      assert IsContent(line[n - 1]);
      assert IsLastContent(line, |line|, n - 1);
      assert forall i: nat :: IsLastContent(line, |line|, i) ==> i == n - 1;
    }
  }

  /** A byte order mark at the end of a line does no harm where there is other content, not ending in ':'. */
  ghost predicate MarkHarmless(line: string) {
    NoTrailingMark(line) || (!IsBlankLine(line) && !EndsInColon(line))
  }

  /** The folds and the guides see the same line exactly where a mark at its end does no harm. */
  lemma SameShapeExactly(line: string, tabSize: nat)
    ensures ShapeOf(line, tabSize) == GuideShape(line, tabSize) <==> MarkHarmless(line)
  {
    if NoTrailingMark(line) {
      SameShape(line, tabSize);
    } else {
      var n: nat :| IsTrimmed(line, n) && n > 0 && line[n - 1] == BYTE_ORDER_MARK;
      TrimmedUnique(line, n);
    }
  }

  /** A mark after the colon hides it from the guides; a line of a mark alone is blank to the folds only. */
  lemma MarksThatHarm(tabSize: nat)
    ensures ShapeOf("a:\U{FEFF}", tabSize) == Some(Shape(0, true))
    ensures GuideShape("a:\U{FEFF}", tabSize) == Some(Shape(0, false))
    ensures ShapeOf("\U{FEFF}", tabSize).None? && GuideShape("\U{FEFF}", tabSize).Some?
  {
    var line, mark := "a:\U{FEFF}", "\U{FEFF}";
    assert IsContent(line[1]) && !IsContent(line[2]) && IsLastContent(line, 3, 1);
    assert IsTrimmed(line, 3);
    TrimmedUnique(line, 3);
    assert !IsWhitespace(mark[0]);
  }

  lemma ShapesAgree(t: string, tabSize: nat)
    requires forall i :: 0 <= i < LineCount(t) ==> MarkHarmless(Line(t, i))
    ensures Shapes(Lines(t), tabSize) == GuideShapes(Lines(t), tabSize)
  {
    forall i | 0 <= i < LineCount(t)
      ensures ShapeOf(Lines(t)[i], tabSize) == GuideShape(Lines(t)[i], tabSize)
    {
      SameShapeExactly(Line(t, i), tabSize);
    }
  }

  lemma ColonIsHead(line: string) returns (n: nat)
    requires NoTrailingMark(line) && EndsInColon(line)
    ensures IsHead(line, n) && line[n - 1] == ':'
  {
    TrimmedExists(line, |line|);
    n :| IsTrimmed(line, n);
    var i: nat :| IsLastContent(line, |line|, i) && line[i] == ':';
    assert n > 0 && IsContent(line[n - 1]);
  }

  // ----- Runs with and without the marks -----

  /** The guides see what the folds see, and lines of marks alone besides. */
  ghost predicate SeesMore(folds: seq<Option<Shape>>, guides: seq<Option<Shape>>) {
    && |guides| == |folds|
    && forall x :: 0 <= x < |folds| && folds[x].Some? ==>
         guides[x].Some? && guides[x].value.indent == folds[x].value.indent
  }

  lemma GuidesSeeMore(lines: seq<string>, tabSize: nat)
    ensures SeesMore(Shapes(lines, tabSize), GuideShapes(lines, tabSize))
  {
  }

  /** Line x is blank to the folds and not to the guides. */
  predicate IsMarkLine(folds: seq<Option<Shape>>, guides: seq<Option<Shape>>, x: nat) {
    x < |folds| && x < |guides| && folds[x].None? && guides[x].Some?
  }

  /** A line of marks inside the run that is no deeper than its head. */
  predicate MarkBreaks(folds: seq<Option<Shape>>, guides: seq<Option<Shape>>, l: nat, end: nat)
    requires l < |guides| && guides[l].Some?
  {
    exists x: nat :: l < x < end && IsMarkLine(folds, guides, x) && guides[x].value.indent <= guides[l].value.indent
  }

  /** The first line after the run that the guides see is one of marks, and deeper than its head. */
  predicate MarkExtends(folds: seq<Option<Shape>>, guides: seq<Option<Shape>>, l: nat, end: nat)
    requires l < |guides| && guides[l].Some?
  {
    exists x: nat :: x < |folds| && end <= x && IsMarkLine(folds, guides, x)
      && guides[x].value.indent > guides[l].value.indent && NoneFrom(guides, end, x)
  }

  predicate NoneFrom(guides: seq<Option<Shape>>, from: nat, to: nat) {
    forall y :: from <= y < to && y < |guides| ==> guides[y].None?
  }

  ghost predicate IsClipped(shapes: seq<Option<Shape>>, l: nat, horizon: nat)
    requires l < horizon <= |shapes| && shapes[l].Some?
  {
    horizon < |shapes| && RunsTo(shapes, l, horizon - 1)
  }

  lemma SomeRunEnd(shapes: seq<Option<Shape>>, l: nat, horizon: nat)
    requires l < horizon <= |shapes| && shapes[l].Some?
    ensures exists e: nat :: IsRunEnd(shapes, l, horizon, e)
  {
    if horizon < |shapes| && RunsTo(shapes, l, horizon - 1) {
      assert IsRunEnd(shapes, l, horizon, horizon);
    } else if e: nat :| IsRun(shapes, l, e) {
      assert IsRunEnd(shapes, l, horizon, e + 1);
    } else {
      assert IsRunEnd(shapes, l, horizon, l + 1);
    }
  }

  /** A block that follows a run passes over no content that is not deeper than its head. */
  lemma NothingPassed(shapes: seq<Option<Shape>>, l: nat, horizon: nat, e: nat)
    requires l < horizon <= |shapes| && shapes[l].Some? && IsRunEnd(shapes, l, horizon, e)
    ensures !WouldPass(shapes, l, horizon, e)
  {
    if !(horizon < |shapes| && RunsTo(shapes, l, horizon - 1)) && exists x: nat :: IsRun(shapes, l, x) {
      assert RunsTo(shapes, l, e - 1);
    }
  }

  lemma {:induction false} RunThere(shapes: seq<Option<Shape>>, l: nat, x: nat)
    requires l < x < |shapes| && shapes[l].Some? && shapes[x].Some? && RunsTo(shapes, l, x)
    ensures exists e: nat :: x <= e && IsRun(shapes, l, e)
    decreases |shapes| - x
  {
    if y: nat :| x < y < |shapes| && shapes[y].Some? && RunsTo(shapes, l, y) {
      RunThere(shapes, l, y);
    } else {
      assert IsRun(shapes, l, x);
    }
  }

  lemma {:induction false} FirstSeen(shapes: seq<Option<Shape>>, from: nat, to: nat) returns (y: nat)
    requires from <= to < |shapes| && shapes[to].Some?
    ensures from <= y <= to && shapes[y].Some? && NoneFrom(shapes, from, y)
    decreases |shapes| - from
  {
    if shapes[from].Some? {
      y := from;
    } else {
      y := FirstSeen(shapes, from + 1, to);
    }
  }

  lemma GuideRunsToo(folds: seq<Option<Shape>>, guides: seq<Option<Shape>>, l: nat, x: nat)
    requires SeesMore(folds, guides) && l < x < |folds| && folds[l].Some?
    ensures RunsTo(guides, l, x) ==> RunsTo(folds, l, x)
    ensures RunsTo(folds, l, x) && !MarkBreaks(folds, guides, l, x + 1) ==> RunsTo(guides, l, x)
  {
    forall y | l < y <= x && guides[y].Some? && RunsTo(folds, l, x) && !MarkBreaks(folds, guides, l, x + 1)
      ensures guides[y].value.indent > guides[l].value.indent
    {
      assert IsMarkLine(folds, guides, y) ==> guides[y].value.indent > guides[l].value.indent;
    }
  }

  lemma ClippedAlike(folds: seq<Option<Shape>>, guides: seq<Option<Shape>>, l: nat, horizon: nat)
    requires SeesMore(folds, guides) && l + 1 < horizon < |folds| && folds[l].Some?
    ensures IsClipped(guides, l, horizon) ==> IsClipped(folds, l, horizon)
    ensures IsClipped(folds, l, horizon) && !MarkBreaks(folds, guides, l, horizon) ==> IsClipped(guides, l, horizon)
  {
    GuideRunsToo(folds, guides, l, horizon - 1);
  }

  /** A broken run ends earlier. */
  lemma BrokenEndsEarlier(folds: seq<Option<Shape>>, guides: seq<Option<Shape>>, l: nat, horizon: nat, e: nat, e': nat)
    requires SeesMore(folds, guides) && l < horizon <= |folds| && folds[l].Some?
    requires horizon == |folds| || l + 1 < horizon
    requires IsRunEnd(folds, l, horizon, e) && IsRunEnd(guides, l, horizon, e') && MarkBreaks(folds, guides, l, e)
    ensures e' < e
  {
    var x: nat :| l < x < e && IsMarkLine(folds, guides, x) && guides[x].value.indent <= guides[l].value.indent;
    assert forall y :: x <= y < |guides| ==> !RunsTo(guides, l, y);
    if horizon < |folds| {
      ClippedAlike(folds, guides, l, horizon);
    }
  }

  /** A run that neither a mark breaks nor one extends ends where the folds see it end. */
  lemma UnharmedEndsAlike(folds: seq<Option<Shape>>, guides: seq<Option<Shape>>, l: nat, e: nat, e': nat)
    requires SeesMore(folds, guides) && l < |folds| && folds[l].Some?
    requires IsRunEnd(folds, l, |folds|, e) && IsRunEnd(guides, l, |folds|, e')
    requires !MarkBreaks(folds, guides, l, e) && !MarkExtends(folds, guides, l, e)
    ensures e' == e
  {
    forall z | e <= z < |guides| && guides[z].Some? ensures !RunsTo(guides, l, z) {
      var y := FirstSeen(guides, e, z);
      if RunsTo(guides, l, z) {
        assert RunsTo(guides, l, y);
        assert !IsMarkLine(folds, guides, y);
        GuideRunsToo(folds, guides, l, y);
        RunThere(folds, l, y);
      }
    }
    assert forall z: nat :: IsRun(guides, l, z) ==> z < e;
    if e > l + 1 {
      GuideRunsToo(folds, guides, l, e - 1);
      assert IsRun(guides, l, e - 1);
      RunUnique(guides, l, e - 1, e' - 1);
    }
  }

  lemma RunEndAfter(shapes: seq<Option<Shape>>, l: nat, horizon: nat, e: nat)
    requires l < horizon <= |shapes| && shapes[l].Some? && IsRunEnd(shapes, l, horizon, e)
    ensures e > l
  {
  }

  /** The run reaches the line of marks that extends it. */
  lemma RunsToMark(folds: seq<Option<Shape>>, guides: seq<Option<Shape>>, l: nat, e: nat, x: nat)
    requires SeesMore(folds, guides) && l < |folds| && folds[l].Some? && IsRunEnd(folds, l, |folds|, e)
    requires !MarkBreaks(folds, guides, l, e) && e <= x < |folds| && IsMarkLine(folds, guides, x)
    requires guides[x].value.indent > guides[l].value.indent && NoneFrom(guides, e, x)
    ensures l < x && RunsTo(guides, l, x)
  {
    RunEndAfter(folds, l, |folds|, e);
    if e > l + 1 {
      GuideRunsToo(folds, guides, l, e - 1);
    }
    forall y | l < y <= x && guides[y].Some? ensures guides[y].value.indent > guides[l].value.indent {
      assert y < e || y == x;
    }
  }

  /** An extended run ends later. */
  lemma ExtendedEndsLater(folds: seq<Option<Shape>>, guides: seq<Option<Shape>>, l: nat, e: nat, e': nat)
    requires SeesMore(folds, guides) && l < |folds| && folds[l].Some?
    requires IsRunEnd(folds, l, |folds|, e) && IsRunEnd(guides, l, |folds|, e')
    requires !MarkBreaks(folds, guides, l, e) && MarkExtends(folds, guides, l, e)
    ensures e' > e
  {
    var x: nat :| x < |folds| && e <= x && IsMarkLine(folds, guides, x)
      && guides[x].value.indent > guides[l].value.indent && NoneFrom(guides, e, x);
    RunsToMark(folds, guides, l, e, x);
    RunThere(guides, l, x);
  }

  /** Away from a clip the horizon plays no part. */
  lemma UnclippedEnds(shapes: seq<Option<Shape>>, l: nat, horizon: nat, e: nat)
    requires l < horizon <= |shapes| && shapes[l].Some? && !IsClipped(shapes, l, horizon)
    ensures IsRunEnd(shapes, l, horizon, e) <==> IsRunEnd(shapes, l, |shapes|, e)
  {
  }

  /** Whether marks make the guides see another end of the run after line l than the folds do, which see it end at e:
      one breaks it, or, unless it is still open at the horizon, one extends it. */
  ghost predicate MarksHarm(folds: seq<Option<Shape>>, guides: seq<Option<Shape>>, l: nat, horizon: nat, e: nat)
    requires SeesMore(folds, guides) && l < horizon <= |folds| && folds[l].Some?
  {
    MarkBreaks(folds, guides, l, e) || (!IsClipped(folds, l, horizon) && MarkExtends(folds, guides, l, e))
  }

  lemma EndsAlikeExactly(folds: seq<Option<Shape>>, guides: seq<Option<Shape>>, l: nat, horizon: nat, e: nat, e': nat)
    requires SeesMore(folds, guides) && l < horizon <= |folds| && folds[l].Some?
    requires horizon == |folds| || l + 1 < horizon
    requires IsRunEnd(folds, l, horizon, e) && IsRunEnd(guides, l, horizon, e')
    ensures e' == e <==> !MarksHarm(folds, guides, l, horizon, e)
  {
    if MarkBreaks(folds, guides, l, e) {
      BrokenEndsEarlier(folds, guides, l, horizon, e, e');
    } else if IsClipped(folds, l, horizon) {
      ClippedAlike(folds, guides, l, horizon);
    } else {
      if horizon < |folds| {
        ClippedAlike(folds, guides, l, horizon);
      }
      UnclippedEnds(folds, l, horizon, e);
      UnclippedEnds(guides, l, horizon, e');
      if MarkExtends(folds, guides, l, e) {
        ExtendedEndsLater(folds, guides, l, e, e');
      } else {
        UnharmedEndsAlike(folds, guides, l, e, e');
      }
    }
  }

  // ----- The guide of a line ending in ':' -----

  ghost predicate HasGuideTo(t: string, tabSize: nat, l: nat, horizon: nat, end: nat)
    requires l < horizon <= LineCount(t)
  {
    exists g :: IsGuideOf(t, tabSize, l, horizon, g) && g.endLine == end
  }

  /** The indent fold clipped at the horizon: its end is the horizon when the run is still open there, else one past
      the end of the fold. */
  ghost predicate IsClippedFold(folds: seq<Option<Shape>>, l: nat, horizon: nat, end: nat)
    requires l < horizon <= |folds| && folds[l].Some?
  {
    if IsClipped(folds, l, horizon) then end == horizon else end > 0 && IsIndentFold(folds, l, end - 1)
  }

  lemma ClippedFoldEnd(folds: seq<Option<Shape>>, l: nat, horizon: nat, e: nat, end: nat)
    requires l < horizon <= |folds| && folds[l].Some? && folds[l].value.colon
    requires (horizon == |folds| || l + 1 < horizon) && IsRunEnd(folds, l, horizon, e)
    ensures IsClippedFold(folds, l, horizon, end) <==> end == e && e > l + 1
  {
    BlockEndUnique(folds, None, l, horizon, e);
    assert IsBlockEnd(folds, None, l, horizon, end) <==> end == e;
  }

  /** Where no mark hides the colon the guide ends with the run the guides see. */
  lemma ColonGuideEnd(t: string, tabSize: nat, l: nat, horizon: nat, e: nat, end: nat)
    requires l < horizon <= LineCount(t) && NoTrailingMark(Line(t, l)) && EndsInColon(Line(t, l))
    requires GuideShapes(Lines(t), tabSize)[l].Some? && IsRunEnd(GuideShapes(Lines(t), tabSize), l, horizon, e)
    ensures HasGuideTo(t, tabSize, l, horizon, end) <==> end == e && e > l + 1
  {
    var guides := GuideShapes(Lines(t), tabSize);
    var n := ColonIsHead(Line(t, l));
    NothingPassed(guides, l, horizon, e);
    var lead := guides[l].value.indent;
    var g := Guide(l, e, IndentLevel(lead, tabSize), lead);
    forall g' { GuideOfHead(t, tabSize, l, horizon, n, e, g'); }
    if e > l + 1 {
      assert IsGuideOf(t, tabSize, l, horizon, g);
    }
  }

  /** A mark behind the colon leaves the line without a guide. */
  lemma HiddenColonNoGuide(t: string, tabSize: nat, l: nat, horizon: nat, end: nat)
    requires l < horizon <= LineCount(t) && !NoTrailingMark(Line(t, l))
    ensures !HasGuideTo(t, tabSize, l, horizon, end)
  {
    var n: nat :| IsTrimmed(Line(t, l), n) && n > 0 && Line(t, l)[n - 1] == BYTE_ORDER_MARK;
    TrimmedUnique(Line(t, l), n);
  }

  /** For a line that ends in ':' to the folds, whose run they see end at e: the guide is the clipped fold, with the
      same end and there exactly if the fold is, if and only if no mark hides the colon and no line of marks breaks or
      extends the run; or a mark hides the colon and there is no fold either. */
  lemma ColonGuideExactly(t: string, tabSize: nat, l: nat, horizon: nat, e: nat)
    requires l < horizon <= LineCount(t) && (horizon == LineCount(t) || l + 1 < horizon)
    requires EndsInColon(Line(t, l)) && IsRunEnd(Shapes(Lines(t), tabSize), l, horizon, e)
    ensures var folds, guides := Shapes(Lines(t), tabSize), GuideShapes(Lines(t), tabSize);
            SeesMore(folds, guides)
            && ((forall end: nat :: HasGuideTo(t, tabSize, l, horizon, end) <==> IsClippedFold(folds, l, horizon, end))
                <==> if NoTrailingMark(Line(t, l)) then !MarksHarm(folds, guides, l, horizon, e) else e == l + 1)
  {
    var folds, guides := Shapes(Lines(t), tabSize), GuideShapes(Lines(t), tabSize);
    GuidesSeeMore(Lines(t), tabSize);
    SomeRunEnd(guides, l, horizon);
    var e': nat :| IsRunEnd(guides, l, horizon, e');
    forall end: nat ensures IsClippedFold(folds, l, horizon, end) <==> end == e && e > l + 1 {
      ClippedFoldEnd(folds, l, horizon, e, end);
    }
    if NoTrailingMark(Line(t, l)) {
      EndsAlikeExactly(folds, guides, l, horizon, e, e');
      forall end: nat ensures HasGuideTo(t, tabSize, l, horizon, end) <==> end == e' && e' > l + 1 {
        ColonGuideEnd(t, tabSize, l, horizon, e', end);
      }
      RunEndAfter(folds, l, horizon, e);
      RunEndAfter(guides, l, horizon, e');
      var later := if e > e' then e else e';
      assert e != e' ==> HasGuideTo(t, tabSize, l, horizon, later) != IsClippedFold(folds, l, horizon, later);
    } else {
      RunEndAfter(folds, l, horizon, e);
      forall end: nat ensures !HasGuideTo(t, tabSize, l, horizon, end) {
        HiddenColonNoGuide(t, tabSize, l, horizon, end);
      }
      assert e > l + 1 ==> IsClippedFold(folds, l, horizon, e);
    }
  }

  /** In particular, in a text whose marks are harmless the guide is the clipped fold for every such line. */
  lemma ColonGuideIsClippedFold(t: string, tabSize: nat, l: nat, horizon: nat, end: nat)
    requires forall i :: 0 <= i < LineCount(t) ==> MarkHarmless(Line(t, i))
    requires l < horizon <= LineCount(t) && (horizon == LineCount(t) || l + 1 < horizon)
    requires EndsInColon(Line(t, l))
    ensures Shapes(Lines(t), tabSize)[l].Some?
    ensures HasGuideTo(t, tabSize, l, horizon, end) <==> IsClippedFold(Shapes(Lines(t), tabSize), l, horizon, end)
  {
    var shapes := Shapes(Lines(t), tabSize);
    ShapesAgree(t, tabSize);
    SomeRunEnd(shapes, l, horizon);
    var e: nat :| IsRunEnd(shapes, l, horizon, e);
    ClippedFoldEnd(shapes, l, horizon, e, end);
    ColonGuideEnd(t, tabSize, l, horizon, e, end);
  }
}
