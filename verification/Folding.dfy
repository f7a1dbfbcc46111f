/** The fold ranges of a document: per line the smallest of its bracket folds and its indent fold. */
module Folding {
  import opened EditorText
  import opened Brackets
  import opened BracketFolding
  import opened IndentFolding

  /** Line l starts a bracket pair that closes on the later line e, or a run of deeper lines ending at e. */
  ghost predicate IsCandidate(t: string, tabSize: nat, l: nat, e: nat) {
    || (exists p: nat, q: nat :: IsPairFold(t, p, q) && Fold(l, e) == Fold(LineOf(t, p), LineOf(t, q)))
    || IsIndentFold(Shapes(Lines(t), tabSize), l, e)
  }

  /** The fold of its line is the smallest candidate. */
  ghost predicate IsFoldOf(t: string, tabSize: nat, f: Fold) {
    && IsCandidate(t, tabSize, f.startLine, f.endLine)
    && forall e: nat :: IsCandidate(t, tabSize, f.startLine, e) ==> f.endLine <= e
  }

  // ----- The map from lines to ends -----

  /** ends gives each start in fs its smallest end, and no other line an end. */
  ghost predicate IsMinimum(ends: map<nat, nat>, fs: seq<Fold>) {
    && (forall i :: 0 <= i < |fs| ==> fs[i].startLine in ends && ends[fs[i].startLine] <= fs[i].endLine)
    && (forall l :: l in ends ==> Fold(l, ends[l]) in fs)
  }

  lemma MinimumStep(ends: map<nat, nat>, fs: seq<Fold>, f: Fold, ends': map<nat, nat>)
    requires IsMinimum(ends, fs)
    requires ends' == if f.startLine in ends && ends[f.startLine] <= f.endLine then ends
                      else ends[f.startLine := f.endLine]
    ensures IsMinimum(ends', fs + [f])
  {
    var fs' := fs + [f];
    assert fs'[|fs|] == f;
    forall l | l in ends' ensures Fold(l, ends'[l]) in fs' {
      if l != f.startLine || ends' == ends {
        assert Fold(l, ends[l]) in fs;
      }
    }
  }

  ghost predicate StrictlyByStart(folds: seq<Fold>) {
    forall i, j :: 0 <= i < j < |folds| ==> folds[i].startLine < folds[j].startLine
  }

  function InsertByStart(folds: seq<Fold>, f: Fold): (r: seq<Fold>)
    ensures |r| == |folds| + 1
    ensures forall g :: g in r <==> g in folds || g == f
  {
    if folds == [] || f.startLine < folds[0].startLine then [f] + folds else [folds[0]] + InsertByStart(folds[1..], f)
  }

  lemma {:induction false} InsertKeepsOrder(folds: seq<Fold>, f: Fold)
    requires StrictlyByStart(folds) && forall i :: 0 <= i < |folds| ==> folds[i].startLine != f.startLine
    ensures StrictlyByStart(InsertByStart(folds, f))
  {
    if folds != [] && folds[0].startLine <= f.startLine {
      InsertKeepsOrder(folds[1..], f);
      var rest := InsertByStart(folds[1..], f);
      forall i | 0 <= i < |rest| ensures folds[0].startLine < rest[i].startLine {
        assert rest[i] in folds[1..] || rest[i] == f;
      }
    }
  }

  /** Takes the pairs of the map in whatever order it yields them and sorts them by start line. */
  method SortedEntries(ends: map<nat, nat>) returns (folds: seq<Fold>)
    ensures StrictlyByStart(folds)
    ensures forall f :: f in folds <==> f.startLine in ends && ends[f.startLine] == f.endLine
  {
    folds := [];
    var left := ends.Keys;
    while left != {}
      invariant left <= ends.Keys
      invariant StrictlyByStart(folds)
      invariant forall f :: f in folds <==>
        f.startLine in ends && f.startLine !in left && ends[f.startLine] == f.endLine
      decreases |left|
    {
      var l :| l in left;
      assert forall i :: 0 <= i < |folds| ==> folds[i] in folds;
      InsertKeepsOrder(folds, Fold(l, ends[l]));
      folds := InsertByStart(folds, Fold(l, ends[l]));
      left := left - {l};
    }
  }

  // ----- The whole pass -----

  /** The two passes together list exactly the candidates. */
  lemma PassesListCandidates(t: string, tabSize: nat, brackets: seq<Fold>, indents: seq<Fold>)
    requires brackets == PairFolds(t, |t|)
    requires forall s: nat :: Settled(Shapes(Lines(t), tabSize), indents, s)
    ensures forall f :: f in brackets + indents <==> IsCandidate(t, tabSize, f.startLine, f.endLine)
  {
    PairFoldsMeaning(t, |t|);
    forall f ensures f in brackets + indents <==> IsCandidate(t, tabSize, f.startLine, f.endLine) {
      assert f == Fold(f.startLine, f.endLine);
      assert Settled(Shapes(Lines(t), tabSize), indents, f.startLine);
    }
  }

  lemma CandidateBounds(t: string, tabSize: nat, l: nat, e: nat)
    requires IsCandidate(t, tabSize, l, e)
    ensures l < e < LineCount(t)
  {
    if p: nat, q: nat :| IsPairFold(t, p, q) && Fold(l, e) == Fold(LineOf(t, p), LineOf(t, q)) {
      LineOfMonotone(t, q, |t|);
    }
  }

  /** Closers come in line order, so the first end a line gets is its smallest. */
  lemma EarlierIsSmaller(brackets: seq<Fold>, i: nat, ends: map<nat, nat>)
    requires i < |brackets| && brackets[i].startLine in ends
    requires IsMinimum(ends, brackets[..i])
    requires forall j, k :: 0 <= j < k < |brackets| ==> brackets[j].endLine <= brackets[k].endLine
    ensures ends[brackets[i].startLine] <= brackets[i].endLine
  {
    var l := brackets[i].startLine;
    var j :| 0 <= j < i && brackets[..i][j] == Fold(l, ends[l]);
    assert brackets[j].endLine <= brackets[i].endLine;
  }

  lemma MinimumIsTheFold(t: string, tabSize: nat, ends: map<nat, nat>, all: seq<Fold>)
    requires IsMinimum(ends, all)
    requires forall f :: f in all <==> IsCandidate(t, tabSize, f.startLine, f.endLine)
    ensures forall f :: IsFoldOf(t, tabSize, f) <==> f.startLine in ends && ends[f.startLine] == f.endLine
  {
    forall f ensures IsFoldOf(t, tabSize, f) <==> f.startLine in ends && ends[f.startLine] == f.endLine {
      if f.startLine in ends {
        var least := Fold(f.startLine, ends[f.startLine]);
        assert least in all && IsCandidate(t, tabSize, f.startLine, least.endLine);
        forall e: nat | IsCandidate(t, tabSize, f.startLine, e) ensures least.endLine <= e {
          assert Fold(f.startLine, e) in all;
        }
      } else {
        assert f !in all;
      }
    }
  }

  /** The bracket folds give a line the first end listed for it. */
  method FirstEnds(brackets: seq<Fold>) returns (ends: map<nat, nat>)
    requires forall i, j :: 0 <= i < j < |brackets| ==> brackets[i].endLine <= brackets[j].endLine
    ensures IsMinimum(ends, brackets)
  {
    ends := map[];
    for i := 0 to |brackets|
      invariant IsMinimum(ends, brackets[..i])
    {
      var f := brackets[i];
      ghost var before := ends;
      if f.startLine !in ends {
        ends := ends[f.startLine := f.endLine];
      } else {
        EarlierIsSmaller(brackets, i, ends);
      }
      MinimumStep(before, brackets[..i], f, ends);
      assert brackets[..i + 1] == brackets[..i] + [f];
    }
    assert brackets[..|brackets|] == brackets;
  }

  /** An indent fold takes the line over when it is the smaller of the two. */
  method SmallerEnds(ends: map<nat, nat>, ghost brackets: seq<Fold>, indents: seq<Fold>) returns (ends': map<nat, nat>)
    requires IsMinimum(ends, brackets)
    ensures IsMinimum(ends', brackets + indents)
  {
    ends' := ends;
    assert brackets + indents[..0] == brackets;
    for i := 0 to |indents|
      invariant IsMinimum(ends', brackets + indents[..i])
    {
      var f := indents[i];
      ghost var before := ends';
      if f.startLine in ends' {
        var end := ends'[f.startLine];
        ends' := ends'[f.startLine := if end <= f.endLine then end else f.endLine];
      } else {
        ends' := ends'[f.startLine := f.endLine];
      }
      MinimumStep(before, brackets + indents[..i], f, ends');
      assert brackets + indents[..i + 1] == brackets + indents[..i] + [f];
    }
    assert indents[..|indents|] == indents;
  }

  method ComputeAll(t: string, tabSize: nat) returns (folds: seq<Fold>)
    ensures forall f :: f in folds <==> IsFoldOf(t, tabSize, f)
    ensures StrictlyByStart(folds)
    ensures forall f :: f in folds ==> f.startLine < f.endLine < LineCount(t)
  {
    var brackets := BracketFolds(t);
    PairFoldsMeaning(t, |t|);
    var ends := FirstEnds(brackets);
    var indents := IndentFolds(Lines(t), tabSize);
    ends := SmallerEnds(ends, brackets, indents);
    PassesListCandidates(t, tabSize, brackets, indents);
    MinimumIsTheFold(t, tabSize, ends, brackets + indents);
    folds := SortedEntries(ends);
    forall f | f in folds ensures f.startLine < f.endLine < LineCount(t) {
      CandidateBounds(t, tabSize, f.startLine, f.endLine);
    }
  }

  /** Every line with a candidate folds, and no farther than that candidate. */
  lemma {:induction false} EveryCandidateFolds(t: string, tabSize: nat, l: nat, e: nat)
    requires IsCandidate(t, tabSize, l, e)
    ensures exists e': nat :: e' <= e && IsFoldOf(t, tabSize, Fold(l, e'))
    decreases e
  {
    if e': nat :| e' < e && IsCandidate(t, tabSize, l, e') {
      EveryCandidateFolds(t, tabSize, l, e');
    } else {
      assert IsFoldOf(t, tabSize, Fold(l, e));
    }
  }
}
