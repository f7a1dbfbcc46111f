/** Bracket matching by counting depth, in both directions. */
module Brackets {
  import opened Wrappers

  datatype Kind = Curly | Square | Round

  function OpenChar(k: Kind): char {
    match k case Curly => '{' case Square => '[' case Round => '('
  }

  function CloseChar(k: Kind): char {
    match k case Curly => '}' case Square => ']' case Round => ')'
  }

  datatype Bracket = Opener(kind: Kind) | Closer(kind: Kind) | Other

  function Classify(c: char): (b: Bracket)
    ensures forall k :: b == Opener(k) <==> c == OpenChar(k)
    ensures forall k :: b == Closer(k) <==> c == CloseChar(k)
  {
    match c
    case '{' => Opener(Curly)
    case '}' => Closer(Curly)
    case '[' => Opener(Square)
    case ']' => Closer(Square)
    case '(' => Opener(Round)
    case ')' => Closer(Round)
    case _ => Other
  }

  function Delta(k: Kind, c: char): int {
    if c == OpenChar(k) then 1 else if c == CloseChar(k) then -1 else 0
  }

  /** Openers minus closers of kind k among the first p characters. */
  function Balance(t: string, k: Kind, p: nat): int
    requires p <= |t|
  {
    if p == 0 then 0 else Balance(t, k, p - 1) + Delta(k, t[p - 1])
  }

  /** From p up to offset q the balance of kind k never returns to what it was before p. */
  ghost predicate StaysAbove(t: string, k: Kind, p: nat, q: nat)
    requires p <= q <= |t|
  {
    forall i :: p < i <= q ==> Balance(t, k, i) > Balance(t, k, p)
  }

  /** The closer at q closes the opener at p: the first time the balance returns to its value before p. */
  ghost predicate Matches(t: string, k: Kind, p: nat, q: nat) {
    && p < q < |t|
    && t[p] == OpenChar(k)
    && t[q] == CloseChar(k)
    && Balance(t, k, q + 1) == Balance(t, k, p)
    && StaysAbove(t, k, p, q)
  }

  /** The brackets at p and q are each other's match. */
  ghost predicate Linked(t: string, p: nat, q: nat) {
    exists k :: Matches(t, k, p, q) || Matches(t, k, q, p)
  }

  /** Partners are an opener and the closer that goes with it, the opener in front. */
  lemma PartnersFit(t: string, p: nat, q: nat)
    requires Linked(t, p, q)
    ensures p < |t| && q < |t| && p != q
    ensures var open, close := if p < q then t[p] else t[q], if p < q then t[q] else t[p];
            (open == '(' && close == ')') || (open == '[' && close == ']') || (open == '{' && close == '}')
  {
  }

  /** Pairs of one kind never cross: they are apart, or one lies within the other. */
  lemma PairsNest(t: string, k: Kind, p: nat, q: nat, p': nat, q': nat)
    requires Matches(t, k, p, q) && Matches(t, k, p', q') && p < p'
    ensures q < p' || q' < q
  {
    if p' < q {
      assert Balance(t, k, p') > Balance(t, k, p) == Balance(t, k, q + 1);
    }
  }

  /** A bracket has at most one match. */
  lemma LinkedUnique(t: string, p: nat, q: nat, q': nat)
    requires Linked(t, p, q) && Linked(t, p, q')
    ensures q == q'
  {
    var k :| Matches(t, k, p, q) || Matches(t, k, q, p);
    var k' :| Matches(t, k', p, q') || Matches(t, k', q', p);
    assert k == k';
  }

  /** The match of the bracket at p, if it has one. */
  ghost function MatchOf(t: string, p: nat): (r: Option<nat>)
    ensures forall q: nat :: Linked(t, p, q) <==> r == Some(q)
  {
    if q: nat :| Linked(t, p, q) then
      assert forall q': nat :: Linked(t, p, q') ==> q' == q by {
        forall q': nat | Linked(t, p, q') ensures q' == q { LinkedUnique(t, p, q, q'); }
      }
      Some(q)
    else None
  }

  /** The depth counter over the characters after an opener. */
  method FindForward(t: string, k: Kind, p: nat, limit: nat) returns (r: Option<nat>)
    requires p < |t| && t[p] == OpenChar(k)
    ensures r == if MatchOf(t, p).Some? && MatchOf(t, p).value < limit then MatchOf(t, p) else None
  {
    var depth := 1;
    var idx := p + 1;
    while idx < |t| && idx < limit
      invariant p < idx <= |t|
      invariant depth == Balance(t, k, idx) - Balance(t, k, p)
      invariant StaysAbove(t, k, p, idx)
    {
      if t[idx] == OpenChar(k) {
        depth := depth + 1;
      } else if t[idx] == CloseChar(k) {
        depth := depth - 1;
        if depth == 0 {
          assert Matches(t, k, p, idx);
          assert Linked(t, p, idx);
          return Some(idx);
        }
      }
      idx := idx + 1;
    }
    assert forall q: nat :: Linked(t, p, q) ==> Matches(t, k, p, q);
    r := None;
  }

  /** The depth counter over the characters before a closer, walking back. */
  method FindBackward(t: string, k: Kind, q: nat) returns (r: Option<nat>)
    requires q < |t| && t[q] == CloseChar(k)
    ensures r == MatchOf(t, q)
  {
    var depth := 1;
    var idx := q;
    while idx > 0
      invariant 0 <= idx <= q
      invariant depth == Balance(t, k, idx) - Balance(t, k, q + 1)
      invariant forall i :: idx <= i <= q ==> Balance(t, k, i) > Balance(t, k, q + 1)
    {
      idx := idx - 1;
      if t[idx] == CloseChar(k) {
        depth := depth + 1;
      } else if t[idx] == OpenChar(k) {
        depth := depth - 1;
        if depth == 0 {
          assert Matches(t, k, idx, q);
          assert Linked(t, q, idx);
          return Some(idx);
        }
      }
    }
    assert forall p: nat :: Linked(t, q, p) ==> Matches(t, k, p, q);
    r := None;
  }

  method FindMatchingBracket(t: string, target: nat) returns (r: Option<nat>)
    ensures r == MatchOf(t, target)
  {
    if target >= |t| {
      return None;
    }
    match Classify(t[target]) {
      case Other => return None;
      case Opener(k) =>
        r := FindForward(t, k, target, |t|);
      case Closer(k) =>
        r := FindBackward(t, k, target);
    }
  }

  /** The search is an involution: the forward and the backward depth count agree. */
  lemma MatchingIsAnInvolution(t: string, p: nat, q: nat)
    ensures MatchOf(t, p) == Some(q) <==> MatchOf(t, q) == Some(p)
    ensures MatchOf(t, p) == Some(q) ==> p != q
  {
    assert Linked(t, p, q) <==> Linked(t, q, p);
  }

  /** Two texts that agree on the brackets of kind k. */
  ghost predicate SameBrackets(k: Kind, t: string, u: string) {
    && |t| == |u|
    && forall i :: 0 <= i < |t| ==> Delta(k, t[i]) == Delta(k, u[i])
  }

  lemma {:induction false} SameBalance(k: Kind, t: string, u: string, p: nat)
    requires SameBrackets(k, t, u) && p <= |t|
    ensures Balance(t, k, p) == Balance(u, k, p)
  {
    if p == 0 {
    } else {
      SameBalance(k, t, u, p - 1);
    }
  }

  /** Stray or interleaved brackets of the other kinds, and any other text, change no pair of kind k. */
  lemma OtherKindsChangeNothing(k: Kind, t: string, u: string, p: nat, q: nat)
    requires SameBrackets(k, t, u)
    ensures Matches(t, k, p, q) <==> Matches(u, k, p, q)
  {
    forall i: nat | i <= |t| ensures Balance(t, k, i) == Balance(u, k, i) { SameBalance(k, t, u, i); }
    if p < q < |t| {
      assert Delta(k, t[p]) == Delta(k, u[p]) && Delta(k, t[q]) == Delta(k, u[q]);
    }
  }
}
