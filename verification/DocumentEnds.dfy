/** Which documents can be written to an end: those that do not contain themselves. */
module DocumentEnds {
  import opened YamlGraph

  /** Something was cut off at the depth of the unfolding. */
  predicate IsCut(t: Tree) {
    t.Cut? || (t.Tree? && exists i :: 0 <= i < |t.children| && IsCut(t.children[i]))
  }

  /** What a node stands for has an end. */
  ghost predicate Finite(h: Heap, n: Ref) {
    exists depth: nat :: !IsCut(Unfold(h, n, depth))
  }

  /** What these nodes contain is among them, and below them. */
  ghost predicate GoesDown(h: Heap, s: set<Ref>, rank: Ref -> nat) {
    && (forall n :: n in s ==> n in h)
    && forall n, i :: n in s && 0 <= i < |h[n].content| ==>
         Resolve(h, h[n].content[i]) in s && rank(Resolve(h, h[n].content[i])) < rank(n)
  }

  lemma ResolvedStandsForTheSame(h: Heap, n: Ref, depth: nat)
    requires WellFormed(h) && n in h
    ensures Unfold(h, Resolve(h, n), depth) == Unfold(h, n, depth)
  {
    ResolvesInside(h, n);
  }

  lemma {:induction false} RankedIsWhole(h: Heap, s: set<Ref>, rank: Ref -> nat, n: Ref, depth: nat)
    requires GoesDown(h, s, rank) && Resolve(h, n) in s && rank(Resolve(h, n)) < depth
    ensures !IsCut(Unfold(h, n, depth))
    decreases depth
  {
    var r := Resolve(h, n);
    var t := Unfold(h, n, depth);
    forall i | 0 <= i < |t.children| ensures !IsCut(t.children[i]) {
      assert t.children[i] == Unfold(h, h[r].content[i], depth - 1);
      RankedIsWhole(h, s, rank, h[r].content[i], depth - 1);
    }
  }

  /** The children of what is whole at some depth are whole one step less deep. */
  lemma ChildIsWhole(h: Heap, r: Ref, i: nat, depth: nat)
    requires WellFormed(h) && r in h && Resolve(h, r) == r && i < |h[r].content| && !IsCut(Unfold(h, r, depth))
    ensures depth > 0 && !IsCut(Unfold(h, Resolve(h, h[r].content[i]), depth - 1))
  {
    assert !Unfold(h, r, depth).Cut?;
    assert Unfold(h, r, depth).children[i] == Unfold(h, h[r].content[i], depth - 1);
    ResolvedStandsForTheSame(h, h[r].content[i], depth - 1);
  }

  /** The least depth at which all of it is seen. */
  ghost predicate IsDepth(h: Heap, n: Ref, depth: nat) {
    !IsCut(Unfold(h, n, depth)) && forall less: nat :: less < depth ==> IsCut(Unfold(h, n, less))
  }

  ghost function DepthOf(h: Heap, n: Ref): nat {
    if depth: nat :| IsDepth(h, n, depth) then depth else 0
  }

  lemma {:induction false} DepthExists(h: Heap, n: Ref, depth: nat)
    requires !IsCut(Unfold(h, n, depth))
    ensures IsDepth(h, n, DepthOf(h, n)) && DepthOf(h, n) <= depth
    decreases depth
  {
    if less: nat :| less < depth && !IsCut(Unfold(h, n, less)) {
      DepthExists(h, n, less);
    } else {
      assert IsDepth(h, n, depth);
    }
  }

  lemma FiniteChild(h: Heap, r: Ref, i: nat)
    requires WellFormed(h) && r in h && Resolve(h, r) == r && i < |h[r].content| && Finite(h, r)
    ensures var c := Resolve(h, h[r].content[i]);
            c in h && Resolve(h, c) == c && Finite(h, c) && DepthOf(h, c) < DepthOf(h, r)
  {
    var depth: nat :| !IsCut(Unfold(h, r, depth));
    DepthExists(h, r, depth);
    ResolvesInside(h, h[r].content[i]);
    ChildIsWhole(h, r, i, DepthOf(h, r));
    DepthExists(h, Resolve(h, h[r].content[i]), DepthOf(h, r) - 1);
  }

  /** What a node stands for has an end if and only if nothing it contains contains itself, aliases followed. */
  lemma FiniteExactly(h: Heap, n: Ref)
    requires WellFormed(h) && n in h
    ensures Finite(h, n) <==> exists s: set<Ref>, rank: Ref -> nat :: Resolve(h, n) in s && GoesDown(h, s, rank)
  {
    ResolvesInside(h, n);
    if Finite(h, n) {
      var depth: nat :| !IsCut(Unfold(h, n, depth));
      ResolvedStandsForTheSame(h, n, depth);
      var s := set r | r in h && Resolve(h, r) == r && Finite(h, r);
      var rank: Ref -> nat := r => DepthOf(h, r);
      forall r, i | r in s && 0 <= i < |h[r].content|
        ensures Resolve(h, h[r].content[i]) in s && rank(Resolve(h, h[r].content[i])) < rank(r)
      {
        FiniteChild(h, r, i);
      }
      assert GoesDown(h, s, rank);
    }
    if s: set<Ref>, rank: Ref -> nat :| Resolve(h, n) in s && GoesDown(h, s, rank) {
      RankedIsWhole(h, s, rank, n, rank(Resolve(h, n)) + 1);
    }
  }
}
