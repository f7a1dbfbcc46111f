/** The single pass that folds brackets of all three kinds with one stack each. */
module BracketFolding {
  import opened Wrappers
  import opened EditorText
  import opened Brackets

  datatype Fold = Fold(startLine: nat, endLine: nat)

  /** The fold a bracket pair gives: none when both ends share a line. */
  ghost predicate IsPairFold(t: string, p: nat, q: nat) {
    p < q < |t| && Linked(t, p, q) && LineOf(t, p) < LineOf(t, q)
  }

  ghost function FoldClosedAt(t: string, q: nat): seq<Fold>
    requires q < |t|
  {
    match MatchOf(t, q)
    case Some(p) => if p < q && LineOf(t, p) < LineOf(t, q) then [Fold(LineOf(t, p), LineOf(t, q))] else []
    case None => []
  }

  /** One fold for each closer among the first n characters that closes an opener on an earlier line,
      in the order of the closers. */
  ghost function PairFolds(t: string, n: nat): seq<Fold>
    requires n <= |t|
  {
    if n == 0 then [] else PairFolds(t, n - 1) + FoldClosedAt(t, n - 1)
  }

  /** The opener at p has not been closed by the first n characters. */
  ghost predicate Unclosed(t: string, k: Kind, n: nat, p: nat)
    requires n <= |t|
  {
    p < n && t[p] == OpenChar(k) && StaysAbove(t, k, p, n)
  }

  /** The offsets the pass would stack for kind k after n characters. */
  ghost function Openers(t: string, k: Kind, n: nat): (s: seq<nat>)
    requires n <= |t|
    ensures forall i :: 0 <= i < |s| ==> s[i] < n
  {
    if n == 0 then []
    else
      var s := Openers(t, k, n - 1);
      if t[n - 1] == OpenChar(k) then s + [n - 1]
      else if t[n - 1] == CloseChar(k) && s != [] then s[..|s| - 1]
      else s
  }

  ghost function LinesOf(t: string, ps: seq<nat>): seq<nat>
    requires forall i :: 0 <= i < |ps| ==> ps[i] <= |t|
  {
    seq(|ps|, i requires 0 <= i < |ps| => LineOf(t, ps[i]))
  }

  /** Each stacked opener sits one level above the one below it. */
  lemma {:induction false} StackLevel(t: string, k: Kind, n: nat, i: nat)
    requires n <= |t| && i < |Openers(t, k, n)|
    ensures Balance(t, k, Openers(t, k, n)[i]) == Balance(t, k, n) - (|Openers(t, k, n)| - i)
  {
    if n > 0 && Openers(t, k, n)[i] < n - 1 {
      StackLevel(t, k, n - 1, i);
    }
  }

  /** What is stacked is unclosed. */
  lemma {:induction false} StackSound(t: string, k: Kind, n: nat, i: nat)
    requires n <= |t| && i < |Openers(t, k, n)|
    ensures Unclosed(t, k, n, Openers(t, k, n)[i])
  {
    var p := Openers(t, k, n)[i];
    StackLevel(t, k, n, i);
    if p < n - 1 {
      StackSound(t, k, n - 1, i);
      assert Unclosed(t, k, n - 1, p);
    }
  }

  /** What is stacked at index i and stays unclosed stays there. */
  lemma StaysStacked(t: string, k: Kind, n: nat, i: nat)
    requires 0 < n <= |t| && i < |Openers(t, k, n - 1)| && Unclosed(t, k, n, Openers(t, k, n - 1)[i])
    requires Openers(t, k, n - 1)[i] < n - 1
    ensures i < |Openers(t, k, n)| && Openers(t, k, n)[i] == Openers(t, k, n - 1)[i]
  {
    StackLevel(t, k, n - 1, i);
    assert Balance(t, k, n) > Balance(t, k, Openers(t, k, n - 1)[i]);
  }

  /** What is unclosed is stacked. */
  lemma {:induction false} StackComplete(t: string, k: Kind, n: nat, p: nat)
    requires n <= |t| && Unclosed(t, k, n, p)
    ensures p in Openers(t, k, n)
  {
    if p < n - 1 {
      assert Unclosed(t, k, n - 1, p);
      StackComplete(t, k, n - 1, p);
      var s := Openers(t, k, n - 1);
      var i :| 0 <= i < |s| && s[i] == p;
      StaysStacked(t, k, n, i);
    }
  }

  lemma NothingToClose(t: string, k: Kind, q: nat)
    requires q < |t| && t[q] == CloseChar(k) && Openers(t, k, q) == []
    ensures MatchOf(t, q).None?
  {
    assert forall p: nat :: Linked(t, q, p) ==> Unclosed(t, k, q, p);
    forall p: nat | Unclosed(t, k, q, p) ensures p in Openers(t, k, q) { StackComplete(t, k, q, p); }
  }

  /** A closer closes the top of its own kind's stack, and nothing when that stack is empty. */
  lemma CloserTakesTop(t: string, k: Kind, q: nat)
    requires q < |t| && t[q] == CloseChar(k)
    ensures MatchOf(t, q) == if Openers(t, k, q) == [] then None else Some(Openers(t, k, q)[|Openers(t, k, q)| - 1])
  {
    var s := Openers(t, k, q);
    if s != [] {
      var p := s[|s| - 1];
      StackLevel(t, k, q, |s| - 1);
      StackSound(t, k, q, |s| - 1);
      assert Matches(t, k, p, q);
      assert Linked(t, q, p);
    } else {
      NothingToClose(t, k, q);
    }
  }

  /** The kinds in the order of the pass's stacks. */
  function KindIndex(k: Kind): nat {
    match k case Curly => 0 case Square => 1 case Round => 2
  }

  /** The lines the three stacks hold after n characters. */
  ghost function Stacks(t: string, n: nat): seq<seq<nat>>
    requires n <= |t|
  {
    [LinesOf(t, Openers(t, Curly, n)), LinesOf(t, Openers(t, Square, n)), LinesOf(t, Openers(t, Round, n))]
  }

  /** How one more character changes the stack of kind k. */
  lemma StackStep(t: string, k: Kind, n: nat)
    requires n < |t|
    ensures var s := Stacks(t, n)[KindIndex(k)];
            Stacks(t, n + 1)[KindIndex(k)] ==
            if t[n] == OpenChar(k) then s + [LineOf(t, n)]
            else if t[n] == CloseChar(k) && s != [] then s[..|s| - 1]
            else s
  {
  }

  /** What one character does to the stacks. */
  ghost function StepStacks(open: seq<seq<nat>>, line: nat, c: char): seq<seq<nat>>
    requires |open| == 3
  {
    match Classify(c)
    case Other => open
    case Opener(k) => open[KindIndex(k) := open[KindIndex(k)] + [line]]
    case Closer(k) =>
      var s := open[KindIndex(k)];
      if s == [] then open else open[KindIndex(k) := s[..|s| - 1]]
  }

  /** A closer on this line folds back to the line on top of the stack. */
  function TopFold(stack: seq<nat>, line: nat): seq<Fold> {
    if stack != [] && stack[|stack| - 1] < line then [Fold(stack[|stack| - 1], line)] else []
  }

  /** The fold one character ends, read off the stacks. */
  ghost function StepFold(open: seq<seq<nat>>, line: nat, c: char): seq<Fold>
    requires |open| == 3
  {
    match Classify(c)
    case Other => []
    case Opener(_) => []
    case Closer(k) => TopFold(open[KindIndex(k)], line)
  }

  /** A bracket moves its own kind's stack and no other. */
  lemma StacksStep(t: string, n: nat)
    requires n < |t|
    ensures Stacks(t, n + 1) == StepStacks(Stacks(t, n), LineOf(t, n), t[n])
  {
    StackStep(t, Curly, n);
    StackStep(t, Square, n);
    StackStep(t, Round, n);
  }

  /** Only a closer ends a fold. */
  lemma NoBracketNoFold(t: string, q: nat)
    requires q < |t|
    requires forall k :: t[q] != CloseChar(k)
    ensures FoldClosedAt(t, q) == []
  {
    match MatchOf(t, q) {
      case None =>
      case Some(p) => assert Linked(t, q, p);
    }
  }

  /** A closer folds back to the line on top of its own kind's stack. */
  lemma CloserFold(t: string, k: Kind, q: nat)
    requires q < |t| && t[q] == CloseChar(k)
    ensures FoldClosedAt(t, q) == TopFold(LinesOf(t, Openers(t, k, q)), LineOf(t, q))
  {
    CloserTakesTop(t, k, q);
  }

  /** The fold a character ends is the one the stacks show. */
  lemma FoldStep(t: string, n: nat)
    requires n < |t|
    ensures FoldClosedAt(t, n) == StepFold(Stacks(t, n), LineOf(t, n), t[n])
  {
    if Classify(t[n]).Closer? {
      var k := Classify(t[n]).kind;
      var open := Stacks(t, n);
      CloserFold(t, k, n);
      assert open[KindIndex(k)] == LinesOf(t, Openers(t, k, n)) by {
        match k case Curly => case Square => case Round =>
      }
    } else {
      NoBracketNoFold(t, n);
    }
  }

  method BracketFolds(t: string) returns (folds: seq<Fold>)
    ensures folds == PairFolds(t, |t|)
  {
    folds := [];
    var open: seq<seq<nat>> := [[], [], []];
    var line := 0;
    for n := 0 to |t|
      invariant line == LineOf(t, n)
      invariant open == Stacks(t, n)
      invariant folds == PairFolds(t, n)
    {
      StacksStep(t, n);
      FoldStep(t, n);
      match Classify(t[n]) {
        case Other =>
          if t[n] == '\n' {
            line := line + 1;
          }
        case Opener(k) =>
          open := open[KindIndex(k) := open[KindIndex(k)] + [line]];
        case Closer(k) =>
          var stack := open[KindIndex(k)];
          if stack != [] {
            var start := stack[|stack| - 1];
            open := open[KindIndex(k) := stack[..|stack| - 1]];
            if start < line {
              folds := folds + [Fold(start, line)];
            }
          }
      }
    }
  }

  /** f is the fold of a pair whose ends lie on different lines, closed by the first n characters. */
  ghost predicate ClosesBefore(t: string, n: nat, f: Fold) {
    exists p: nat, q: nat :: IsPairFold(t, p, q) && q < n && f == Fold(LineOf(t, p), LineOf(t, q))
  }

  lemma ClosedLast(t: string, n: nat, f: Fold)
    requires n < |t|
    ensures f in FoldClosedAt(t, n) <==>
            exists p: nat :: IsPairFold(t, p, n) && f == Fold(LineOf(t, p), LineOf(t, n))
  {
    if f in FoldClosedAt(t, n) {
      var p := MatchOf(t, n).value;
      assert Linked(t, n, p);
      assert IsPairFold(t, p, n);
    }
    if p: nat :| IsPairFold(t, p, n) && f == Fold(LineOf(t, p), LineOf(t, n)) {
      assert Linked(t, n, p);
    }
  }

  lemma {:induction false} FoldListed(t: string, n: nat, f: Fold)
    requires n <= |t|
    ensures f in PairFolds(t, n) <==> ClosesBefore(t, n, f)
  {
    if n == 0 {
    } else {
      FoldListed(t, n - 1, f);
      ClosedLast(t, n - 1, f);
      assert f in PairFolds(t, n) <==> f in PairFolds(t, n - 1) || f in FoldClosedAt(t, n - 1);
      CloserMore(t, n - 1, f);
    }
  }

  lemma CloserMore(t: string, n: nat, f: Fold)
    requires n < |t|
    ensures ClosesBefore(t, n + 1, f) <==>
            ClosesBefore(t, n, f) || exists p: nat :: IsPairFold(t, p, n) && f == Fold(LineOf(t, p), LineOf(t, n))
  {
    if p: nat, q: nat :| IsPairFold(t, p, q) && q < n + 1 && f == Fold(LineOf(t, p), LineOf(t, q)) {
      assert q < n ==> ClosesBefore(t, n, f);
    }
  }

  /** Folds in the order of their end lines, and more of them that end no earlier. */
  lemma OrderGoesOn(a: seq<Fold>, b: seq<Fold>, line: nat)
    requires forall i, j :: 0 <= i < j < |a| ==> a[i].endLine <= a[j].endLine
    requires forall f :: f in a ==> f.endLine <= line
    requires |b| <= 1 && forall f :: f in b ==> f.endLine == line
    ensures forall i, j :: 0 <= i < j < |a + b| ==> (a + b)[i].endLine <= (a + b)[j].endLine
  {
    forall i, j | 0 <= i < j < |a + b| ensures (a + b)[i].endLine <= (a + b)[j].endLine {
      assert i < |a| && a[i] in a;
      assert j >= |a| ==> b[j - |a|] in b;
    }
  }

  lemma {:induction false} EndLinesInOrder(t: string, n: nat)
    requires n <= |t|
    ensures forall i, j :: 0 <= i < j < |PairFolds(t, n)| ==> PairFolds(t, n)[i].endLine <= PairFolds(t, n)[j].endLine
  {
    if n == 0 {
    } else {
      EndLinesInOrder(t, n - 1);
      forall f | f in PairFolds(t, n - 1) ensures f.endLine <= LineOf(t, n - 1) {
        FoldListed(t, n - 1, f);
        var p: nat, q: nat :| IsPairFold(t, p, q) && q < n - 1 && f == Fold(LineOf(t, p), LineOf(t, q));
        LineOfMonotone(t, q, n - 1);
      }
      OrderGoesOn(PairFolds(t, n - 1), FoldClosedAt(t, n - 1), LineOf(t, n - 1));
    }
  }

  /** What the pass lists: exactly the pairs whose ends lie on different lines, in the order of their closers. */
  lemma PairFoldsMeaning(t: string, n: nat)
    requires n <= |t|
    ensures forall f :: f in PairFolds(t, n) <==> ClosesBefore(t, n, f)
    ensures forall i, j :: 0 <= i < j < |PairFolds(t, n)| ==> PairFolds(t, n)[i].endLine <= PairFolds(t, n)[j].endLine
  {
    forall f ensures f in PairFolds(t, n) <==> ClosesBefore(t, n, f) {
      FoldListed(t, n, f);
    }
    EndLinesInOrder(t, n);
  }
}
