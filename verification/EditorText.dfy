/** The editor's text: a sequence of Unicode scalar values whose lines break at LF alone. */
module EditorText {

  /** The White_Space property of the Unicode character database. */
  predicate IsWhitespace(c: char) {
    || '\U{9}' <= c <= '\U{D}'
    || c == ' '
    || c == '\U{85}'
    || c == '\U{A0}'
    || c == '\U{1680}'
    || '\U{2000}' <= c <= '\U{200A}'
    || c == '\U{2028}'
    || c == '\U{2029}'
    || c == '\U{202F}'
    || c == '\U{205F}'
    || c == '\U{3000}'
  }

  const BYTE_ORDER_MARK: char := '\U{FEFF}'

  /** The line the character at offset p lies on (for p == |t|, the last line). */
  function LineOf(t: string, p: nat): nat
    requires p <= |t|
  {
    if p == 0 then 0 else LineOf(t, p - 1) + (if t[p - 1] == '\n' then 1 else 0)
  }

  function LineCount(t: string): nat {
    LineOf(t, |t|) + 1
  }

  /** The offset just after the first LF at or after p, or the end of the text. */
  function NextBreak(t: string, p: nat): nat
    requires p <= |t|
    ensures p <= NextBreak(t, p) <= |t|
    decreases |t| - p
  {
    if p == |t| then p
    else if t[p] == '\n' then p + 1
    else NextBreak(t, p + 1)
  }

  /** The offset at which line l starts; lines past the last one start at the end of the text. */
  function LineStart(t: string, l: nat): nat
    ensures LineStart(t, l) <= |t|
  {
    if l == 0 then 0 else NextBreak(t, LineStart(t, l - 1))
  }

  /** Line l with the LF that ends it, if any. */
  function Line(t: string, l: nat): string {
    t[LineStart(t, l)..LineStart(t, l + 1)]
  }

  /** The lines of the text in order. */
  function Lines(t: string): seq<string> {
    seq(LineCount(t), l requires l >= 0 => Line(t, l))
  }

  lemma {:induction false} LineOfMonotone(t: string, p: nat, q: nat)
    requires p <= q <= |t|
    ensures LineOf(t, p) <= LineOf(t, q)
  {
    if p >= q {
    } else {
      LineOfMonotone(t, p, q - 1);
    }
  }

  /** Up to its next break the text stays on one line. */
  lemma {:induction false} NextBreakLines(t: string, p: nat)
    requires p <= |t|
    ensures forall q :: p <= q < NextBreak(t, p) ==> LineOf(t, q) == LineOf(t, p)
    ensures forall q :: p <= q < NextBreak(t, p) - 1 ==> t[q] != '\n'
    ensures if NextBreak(t, p) > p && t[NextBreak(t, p) - 1] == '\n'
            then LineOf(t, NextBreak(t, p)) == LineOf(t, p) + 1
            else NextBreak(t, p) == |t| && LineOf(t, |t|) == LineOf(t, p)
    decreases |t| - p
  {
    if p < |t| && t[p] != '\n' {
      NextBreakLines(t, p + 1);
      assert LineOf(t, p + 1) == LineOf(t, p);
    }
  }

  /** A line starts on itself, and lines that do not exist start at the end of the text. */
  lemma {:induction false} LineStartOnLine(t: string, l: nat)
    ensures l < LineCount(t) ==> LineOf(t, LineStart(t, l)) == l
    ensures l >= LineCount(t) ==> LineStart(t, l) == |t|
  {
    if l == 0 {
    } else {
      var p := LineStart(t, l - 1);
      LineStartOnLine(t, l - 1);
      NextBreakLines(t, p);
      LineOfMonotone(t, NextBreak(t, p), |t|);
    }
  }

  /** A character is before the start of a line exactly when it lies on an earlier line. */
  lemma {:induction false} BeforeLineStart(t: string, p: nat, l: nat)
    requires p < |t|
    ensures p < LineStart(t, l) <==> LineOf(t, p) < l
  {
    if l == 0 {
    } else {
      var s := LineStart(t, l - 1);
      BeforeLineStart(t, p, l - 1);
      LineStartOnLine(t, l - 1);
      NextBreakLines(t, s);
      if s <= p {
        if p < NextBreak(t, s) {
          assert LineOf(t, p) == LineOf(t, s);
          LineOfMonotone(t, p, |t|);
        } else {
          LineOfMonotone(t, NextBreak(t, s), p);
        }
      }
    }
  }

  /** Only the last character can be LF. */
  predicate IsOneLine(line: string) {
    forall i :: 0 <= i < |line| - 1 ==> line[i] != '\n'
  }

  lemma LinesBreakOnce(t: string, l: nat)
    ensures IsOneLine(Line(t, l))
  {
    NextBreakLines(t, LineStart(t, l));
  }

  /** Each of these is one line. */
  ghost predicate AreLines(lines: seq<string>) {
    forall l :: 0 <= l < |lines| ==> IsOneLine(lines[l])
  }

  lemma LinesAreLines(t: string)
    ensures AreLines(Lines(t))
  {
    forall l: nat | l < LineCount(t) ensures IsOneLine(Lines(t)[l]) {
      LinesBreakOnce(t, l);
    }
  }
}
