/** The merged mapping written out piece by piece, drained as it is written. */
module ProfileEncoding {
  import opened YamlGraph
  import opened AliasInlining

  const ENCODE_SLICE_LENGTH := 4096

  /** A piece of the output: a whole pair, a key whose list follows, or a slice of that list. Text is left out: a piece
      carries what its nodes stand for, down to some depth. */
  datatype Piece = Pair(key: Tree, value: Tree) | Key(key: Tree) | Slice(items: seq<Tree>)

  /** What a reader makes of the pieces: one pair a key, the slices after a key being one list. */
  function Reading(out: seq<Piece>): seq<(Tree, Tree)> {
    if out == [] then []
    else
      var before := Reading(out[..|out| - 1]);
      match out[|out| - 1]
      case Pair(key, value) => before + [(key, value)]
      case Key(key) => before + [(key, List([]))]
      case Slice(items) =>
        if before == [] then []
        else
          var last := before[|before| - 1];
          before[|before| - 1 := (last.0, if last.1.Tree? then List(last.1.children + items) else last.1)]
  }

  function List(items: seq<Tree>): Tree {
    Tree(SequenceNode, "!!seq", "", items)
  }

  lemma ReadingMore(out: seq<Piece>, piece: Piece)
    ensures (out + [piece])[..|out + [piece]| - 1] == out
  {
  }

  // ----- The document -----

  /** The nodes of a document without aliases and without cycles; children may have been cleared. */
  ghost predicate Tidy(h: Heap, doc: set<Ref>, rank: Ref -> nat) {
    && NIL !in h
    && (forall n :: n in doc ==> n in h && h[n].kind != AliasNode)
    && (forall n, i :: n in doc && 0 <= i < |h[n].content| && h[n].content[i] != NIL ==>
          h[n].content[i] in doc && rank(h[n].content[i]) < rank(n))
  }

  ghost predicate Whole(h: Heap, doc: set<Ref>) {
    forall n :: n in doc && n in h ==> forall i :: 0 <= i < |h[n].content| ==> h[n].content[i] != NIL
  }

  lemma {:induction false} ReachesDown(h: Heap, doc: set<Ref>, rank: Ref -> nat, from: Ref, to: Ref, steps: nat)
    requires Tidy(h, doc, rank) && from in doc && ReachesIn(h, from, to, steps)
    ensures to in doc && (if steps == 0 then to == from else rank(to) < rank(from))
    decreases steps
  {
    if steps == 0 {
    } else {
      var i :| 0 <= i < |h[from].content| && ReachesIn(h, h[from].content[i], to, steps - 1);
      ReachesDown(h, doc, rank, h[from].content[i], to, steps - 1);
    }
  }

  lemma NothingReachesUp(h: Heap, doc: set<Ref>, rank: Ref -> nat, n: Ref, g: Ref)
    requires Tidy(h, doc, rank) && n in doc && rank(n) <= rank(g) && n != g
    ensures !Reaches(h, n, g)
  {
    if Reaches(h, n, g) {
      var steps: nat :| ReachesIn(h, n, g, steps);
      ReachesDown(h, doc, rank, n, g, steps);
    }
  }

  lemma ChildReaches(h: Heap, n: Ref, c: Ref, g: Ref)
    requires n in h && c in h[n].content && Reaches(h, c, g)
    ensures Reaches(h, n, g)
  {
    var steps: nat :| ReachesIn(h, c, g, steps);
    var i :| 0 <= i < |h[n].content| && h[n].content[i] == c;
    assert ReachesIn(h, n, g, steps + 1);
  }

  ghost predicate Avoids(h: Heap, n: Ref, gone: set<Ref>) {
    forall g :: g in gone ==> !Reaches(h, n, g)
  }

  lemma ChildAvoids(h: Heap, n: Ref, c: Ref, gone: set<Ref>)
    requires n in h && c in h[n].content && Avoids(h, n, gone)
    ensures Avoids(h, c, gone)
  {
    forall g | g in gone ensures !Reaches(h, c, g) {
      if Reaches(h, c, g) {
        ChildReaches(h, n, c, g);
      }
    }
  }

  lemma ReachesItself(h: Heap, n: Ref)
    requires n in h
    ensures Reaches(h, n, n)
  {
    assert ReachesIn(h, n, n, 0);
  }

  /** h' is h but for the nodes in gone. */
  ghost predicate ChangedOnly(h: Heap, h': Heap, gone: set<Ref>) {
    h'.Keys == h.Keys && forall x :: x in h && x !in gone ==> h'[x] == h[x]
  }

  lemma SameChildren(h: Heap, h': Heap, n: Ref, depth: nat)
    requires n in h && n in h' && h'[n] == h[n] && h[n].kind != AliasNode && depth > 0
    requires forall i :: 0 <= i < |h[n].content| ==>
      Unfold(h', h[n].content[i], depth - 1) == Unfold(h, h[n].content[i], depth - 1)
    ensures Unfold(h', n, depth) == Unfold(h, n, depth)
  {
    assert Unfold(h', n, depth).children == Unfold(h, n, depth).children;
  }

  /** Nodes that reach none of the changed ones stand for what they stood for. */
  lemma {:induction false} UnfoldsElsewhere(h: Heap, h': Heap, doc: set<Ref>, rank: Ref -> nat, gone: set<Ref>,
                                            n: Ref, depth: nat)
    requires Tidy(h, doc, rank) && n in doc && ChangedOnly(h, h', gone) && Avoids(h, n, gone)
    ensures Unfold(h', n, depth) == Unfold(h, n, depth)
    decreases depth
  {
    ReachesItself(h, n);
    assert h'[n] == h[n] && h[n].kind != AliasNode;
    if depth > 0 {
      forall i | 0 <= i < |h[n].content|
        ensures Unfold(h', h[n].content[i], depth - 1) == Unfold(h, h[n].content[i], depth - 1)
      {
        var c := h[n].content[i];
        if c != NIL {
          ChildAvoids(h, n, c, gone);
          UnfoldsElsewhere(h, h', doc, rank, gone, c, depth - 1);
        }
      }
      SameChildren(h, h', n, depth);
    }
  }

  // ----- What is left after each pair -----

  function PairCount(h: Heap, m: Ref): nat {
    if m in h then |h[m].content| / 2 else 0
  }

  predicate IsLong(h: Heap, n: Ref) {
    n in h && h[n].kind == SequenceNode && |h[n].content| > ENCODE_SLICE_LENGTH
  }

  function Nils(n: nat): (s: seq<Ref>)
    ensures |s| == n && forall i :: 0 <= i < n ==> s[i] == NIL
  {
    seq(n, _ => NIL)
  }

  /** The first n children of a node cleared. */
  function Cleared(h: Heap, v: Ref, n: nat): Heap
    requires v in h && n <= |h[v].content|
  {
    h[v := h[v].(content := Nils(n) + h[v].content[n..])]
  }

  /** The value of pair k taken out of the mapping. */
  function WithoutValue(h: Heap, m: Ref, k: nat): Heap
    requires m in h && 2 * k + 1 < |h[m].content|
  {
    h[m := h[m].(content := h[m].content[2 * k + 1 := NIL])]
  }

  /** The nodes after the first k pairs were written: their values are taken out, and the long lists among them are
      cleared. */
  function HeapAt(h: Heap, m: Ref, k: nat): (g: Heap)
    requires m in h && k <= PairCount(h, m)
    ensures m in g && |g[m].content| == |h[m].content|
  {
    if k == 0 then h else Written(HeapAt(h, m, k - 1), m, k - 1)
  }

  /** The step from one pair to the next. */
  function Written(g: Heap, m: Ref, k: nat): (g': Heap)
    requires m in g && 2 * k + 1 < |g[m].content|
    ensures m in g' && |g'[m].content| == |g[m].content|
  {
    var v := g[m].content[2 * k + 1];
    var g1 := WithoutValue(g, m, k);
    if IsLong(g1, v) then Cleared(g1, v, |g1[v].content|) else g1
  }

  /** What pair k is written as. */
  function Emitted(g: Heap, key: Ref, value: Ref, depth: nat): (Tree, Tree)
    requires depth > 0
  {
    (Unfold(g, key, depth),
     if IsLong(g, value) then List(Items(g, value, |g[value].content|, depth - 1)) else Unfold(g, value, depth))
  }

  function Items(g: Heap, v: Ref, n: nat, depth: nat): seq<Tree>
    requires v in g && n <= |g[v].content|
  {
    seq(n, i requires 0 <= i < n => Unfold(g, g[v].content[i], depth))
  }

  function EmittedAt(h: Heap, m: Ref, k: nat, depth: nat): (Tree, Tree)
    requires m in h && k < PairCount(h, m) && depth > 0
  {
    Emitted(HeapAt(h, m, k), h[m].content[2 * k], h[m].content[2 * k + 1], depth)
  }

  /** What pair k stands for in the document. */
  function Meant(h: Heap, m: Ref, k: nat, depth: nat): (Tree, Tree)
    requires m in h && k < PairCount(h, m)
  {
    (Unfold(h, h[m].content[2 * k], depth), Unfold(h, h[m].content[2 * k + 1], depth))
  }

  // ----- Draining -----

  /** g is h with some children cleared. */
  ghost predicate Drained(h: Heap, g: Heap) {
    && g.Keys == h.Keys
    && forall n :: n in h ==> NodeDrained(h[n], g[n])
  }

  ghost predicate NodeDrained(n: Node, n': Node) {
    && n' == n.(content := n'.content) && |n'.content| == |n.content|
    && forall i :: 0 <= i < |n.content| ==> n'.content[i] == n.content[i] || n'.content[i] == NIL
  }

  lemma DrainedTwice(h: Heap, g: Heap, g': Heap)
    requires Drained(h, g) && Drained(g, g')
    ensures Drained(h, g')
  {
    forall n | n in h ensures NodeDrained(h[n], g'[n]) {
      assert NodeDrained(h[n], g[n]) && NodeDrained(g[n], g'[n]);
    }
  }

  lemma StaysTidy(h: Heap, g: Heap, doc: set<Ref>, rank: Ref -> nat)
    requires Tidy(h, doc, rank) && Drained(h, g)
    ensures Tidy(g, doc, rank)
  {
    assert forall n :: n in h ==> NodeDrained(h[n], g[n]);
  }

  lemma WrittenDrains(g: Heap, m: Ref, k: nat)
    requires m in g && 2 * k + 1 < |g[m].content|
    ensures Drained(g, Written(g, m, k))
  {
  }

  /** After k pairs: their values are taken out of the mapping, and the rest of it is as it was. */
  ghost predicate MappingAt(h: Heap, g: Heap, m: Ref, k: nat)
    requires m in h && m in g
  {
    && |g[m].content| == |h[m].content|
    && forall j :: 0 <= j < |h[m].content| ==>
         g[m].content[j] == if j < 2 * k && j % 2 == 1 then NIL else h[m].content[j]
  }

  lemma WrittenMapping(h: Heap, g: Heap, m: Ref, k: nat)
    requires m in h && m in g && MappingAt(h, g, m, k) && 2 * k + 1 < |h[m].content| && h[m].content[2 * k + 1] != m
    ensures MappingAt(h, Written(g, m, k), m, k + 1)
  {
  }

  /** n is a long list among the values of the first k pairs. */
  ghost predicate WrittenLong(h: Heap, m: Ref, k: nat, n: Ref)
    requires m in h
  {
    IsLong(h, n) && exists i: nat :: i < k && 2 * i + 1 < |h[m].content| && h[m].content[2 * i + 1] == n
  }

  predicate ClearedIn(g: Heap, v: Ref) {
    v in g && |g[v].content| > 0 && g[v].content[0] == NIL
  }

  /** The long lists written so far are cleared, and nothing else but the mapping has changed. */
  ghost predicate ListsAt(h: Heap, g: Heap, m: Ref, k: nat)
    requires m in h && g.Keys == h.Keys
  {
    forall n :: n in h && n != m ==> if WrittenLong(h, m, k, n) then ClearedIn(g, n) else g[n] == h[n]
  }

  /** What holds of the nodes after k pairs. */
  ghost predicate AfterPairs(h: Heap, g: Heap, m: Ref, k: nat, doc: set<Ref>, rank: Ref -> nat) {
    && m in h && m in doc && Drained(h, g) && Tidy(g, doc, rank) && MappingAt(h, g, m, k) && ListsAt(h, g, m, k)
  }

  lemma WrittenLists(h: Heap, g: Heap, m: Ref, k: nat)
    requires m in h && Drained(h, g) && MappingAt(h, g, m, k) && ListsAt(h, g, m, k) && 2 * k + 1 < |h[m].content|
    requires h[m].content[2 * k + 1] != m
    ensures Written(g, m, k).Keys == h.Keys && ListsAt(h, Written(g, m, k), m, k + 1)
  {
    var g', v := Written(g, m, k), h[m].content[2 * k + 1];
    assert g[m].content[2 * k + 1] == v;
    forall n | n in h && n != m
      ensures if WrittenLong(h, m, k + 1, n) then ClearedIn(g', n) else g'[n] == h[n]
    {
      assert NodeDrained(h[n], g[n]);
      assert n != v ==> WrittenLong(h, m, k + 1, n) == WrittenLong(h, m, k, n) && g'[n] == g[n];
    }
  }

  lemma PairWritten(h: Heap, g: Heap, m: Ref, k: nat, doc: set<Ref>, rank: Ref -> nat)
    requires AfterPairs(h, g, m, k, doc, rank) && 2 * k + 1 < |h[m].content|
    ensures AfterPairs(h, Written(g, m, k), m, k + 1, doc, rank)
  {
    assert g[m].content[2 * k + 1] == h[m].content[2 * k + 1];
    WrittenDrains(g, m, k);
    WrittenMapping(h, g, m, k);
    WrittenLists(h, g, m, k);
    DrainedTwice(h, g, Written(g, m, k));
    StaysTidy(g, Written(g, m, k), doc, rank);
  }

  lemma OnePairMore(h: Heap, g: Heap, m: Ref, k: nat, doc: set<Ref>, rank: Ref -> nat)
    requires m in h && k < PairCount(h, m) && g == HeapAt(h, m, k) && AfterPairs(h, g, m, k, doc, rank)
    ensures AfterPairs(h, HeapAt(h, m, k + 1), m, k + 1, doc, rank)
  {
    PairWritten(h, g, m, k, doc, rank);
  }

  lemma NoPairWritten(h: Heap, m: Ref, doc: set<Ref>, rank: Ref -> nat)
    requires Tidy(h, doc, rank) && m in doc
    ensures AfterPairs(h, h, m, 0, doc, rank)
  {
  }

  lemma {:induction false} HeapAtDrains(h: Heap, m: Ref, k: nat, doc: set<Ref>, rank: Ref -> nat)
    requires Tidy(h, doc, rank) && m in doc && k <= PairCount(h, m)
    ensures AfterPairs(h, HeapAt(h, m, k), m, k, doc, rank)
    decreases k
  {
    if k == 0 {
      NoPairWritten(h, m, doc, rank);
    } else {
      HeapAtDrains(h, m, k - 1, doc, rank);
      OnePairMore(h, HeapAt(h, m, k - 1), m, k - 1, doc, rank);
    }
  }

  // ----- Writing -----

  function SliceTrees(g: Heap, v: Ref, start: nat, stop: nat, depth: nat): seq<Tree>
    requires v in g && start <= stop <= |g[v].content|
  {
    seq(stop - start, i requires 0 <= i < stop - start => Unfold(g, g[v].content[start + i], depth))
  }

  /** A slice is what those items stood for before the slices in front of it were cleared. */
  lemma SliceAsWhole(g: Heap, v: Ref, start: nat, stop: nat, depth: nat, doc: set<Ref>, rank: Ref -> nat)
    requires Tidy(g, doc, rank) && v in doc && start <= stop <= |g[v].content|
    ensures Items(g, v, start, depth) + SliceTrees(Cleared(g, v, start), v, start, stop, depth)
         == Items(g, v, stop, depth)
  {
    var g' := Cleared(g, v, start);
    forall i | start <= i < stop ensures Unfold(g', g'[v].content[i], depth) == Unfold(g, g[v].content[i], depth) {
      var c := g[v].content[i];
      assert g'[v].content[i] == c;
      if c != NIL {
        NothingReachesUp(g, doc, rank, c, v);
        UnfoldsElsewhere(g, g', doc, rank, {v}, c, depth);
      }
    }
  }

  lemma ClearedFurther(g: Heap, v: Ref, start: nat, stop: nat)
    requires v in g && start <= stop <= |g[v].content|
    ensures Cleared(Cleared(g, v, start), v, stop) == Cleared(g, v, stop)
  {
    var a, b := Cleared(Cleared(g, v, start), v, stop)[v].content, Cleared(g, v, stop)[v].content;
    assert a == b;
  }

  lemma ClearedNothing(g: Heap, v: Ref)
    requires v in g
    ensures Cleared(g, v, 0) == g
  {
    assert Nils(0) + g[v].content[0..] == g[v].content;
  }

  lemma SliceRead(out: seq<Piece>, before: seq<(Tree, Tree)>, key: Tree, done: seq<Tree>, items: seq<Tree>)
    requires Reading(out) == before + [(key, List(done))]
    ensures Reading(out + [Slice(items)]) == before + [(key, List(done + items))]
  {
    ReadingMore(out, Slice(items));
  }

  /** No slice is empty or longer than the limit, so no call of the encoder keeps more items than that. */
  predicate SlicesFit(out: seq<Piece>) {
    forall i :: 0 <= i < |out| && out[i].Slice? ==> 1 <= |out[i].items| <= ENCODE_SLICE_LENGTH
  }

  /** A long list goes out in slices: together they are the list, each item once and in order. */
  method EncodeSlices(store: NodeStore, v: Ref, depth: nat, out: seq<Piece>, ghost before: seq<(Tree, Tree)>,
                      ghost key: Tree, ghost doc: set<Ref>, ghost rank: Ref -> nat)
    returns (out': seq<Piece>)
    requires Tidy(store.nodes, doc, rank) && v in doc
    requires Reading(out) == before + [(key, List([]))] && SlicesFit(out)
    modifies store`nodes
    ensures SlicesFit(out')
    ensures store.nodes == Cleared(old(store.nodes), v, |old(store.nodes)[v].content|)
    ensures Reading(out') == before + [(key, List(Items(old(store.nodes), v, |old(store.nodes)[v].content|, depth)))]
  {
    ghost var g := store.nodes;
    var length := |store.nodes[v].content|;
    out' := out;
    var start := 0;
    ClearedNothing(g, v);
    assert Items(g, v, 0, depth) == [];
    while start < length
      invariant 0 <= start <= length == |g[v].content| && store.nodes == Cleared(g, v, start)
      invariant Reading(out') == before + [(key, List(Items(g, v, start, depth)))] && SlicesFit(out')
    {
      var stop := if start + ENCODE_SLICE_LENGTH < length then start + ENCODE_SLICE_LENGTH else length;
      var items := SliceTrees(store.nodes, v, start, stop, depth);
      SliceAsWhole(g, v, start, stop, depth, doc, rank);
      SliceRead(out', before, key, Items(g, v, start, depth), items);
      ClearedFurther(g, v, start, stop);
      out' := out' + [Slice(items)];
      store.nodes := Cleared(store.nodes, v, stop);
      start := stop;
    }
  }

  /** What the first k pairs are written as. */
  function AllEmitted(h: Heap, m: Ref, k: nat, depth: nat): seq<(Tree, Tree)>
    requires m in h && k <= PairCount(h, m) && depth > 0
  {
    if k == 0 then [] else AllEmitted(h, m, k - 1, depth) + [EmittedAt(h, m, k - 1, depth)]
  }

  /** Taking a value out of the mapping is not seen by who prints its key or the value. */
  lemma TakenOutUnseen(g: Heap, m: Ref, k: nat, key: Ref, value: Ref, depth: nat, doc: set<Ref>, rank: Ref -> nat)
    requires Tidy(g, doc, rank) && m in doc && 2 * k + 1 < |g[m].content| && depth > 0
    requires key in doc && value in doc && rank(key) < rank(m) && rank(value) < rank(m)
    ensures var g' := WithoutValue(g, m, k);
            && Unfold(g', key, depth) == Unfold(g, key, depth) && Unfold(g', value, depth) == Unfold(g, value, depth)
            && g'[value] == g[value] && Tidy(g', doc, rank)
            && Items(g', value, |g[value].content|, depth - 1) == Items(g, value, |g[value].content|, depth - 1)
  {
    var g' := WithoutValue(g, m, k);
    NothingReachesUp(g, doc, rank, key, m);
    NothingReachesUp(g, doc, rank, value, m);
    UnfoldsElsewhere(g, g', doc, rank, {m}, key, depth);
    UnfoldsElsewhere(g, g', doc, rank, {m}, value, depth);
    forall i | 0 <= i < |g[value].content|
      ensures Unfold(g', g'[value].content[i], depth - 1) == Unfold(g, g[value].content[i], depth - 1)
    {
      var c := g[value].content[i];
      if c != NIL {
        NothingReachesUp(g, doc, rank, c, m);
        UnfoldsElsewhere(g, g', doc, rank, {m}, c, depth - 1);
      }
    }
  }

  method EncodePair(store: NodeStore, m: Ref, k: nat, depth: nat, out: seq<Piece>,
                    ghost doc: set<Ref>, ghost rank: Ref -> nat)
    returns (out': seq<Piece>)
    requires depth > 0 && Tidy(store.nodes, doc, rank) && m in doc && 2 * k + 1 < |store.nodes[m].content|
    requires store.nodes[m].content[2 * k] != NIL && store.nodes[m].content[2 * k + 1] != NIL
    requires SlicesFit(out)
    modifies store`nodes
    ensures SlicesFit(out')
    ensures store.nodes == Written(old(store.nodes), m, k)
    ensures var g := old(store.nodes);
            Reading(out') == Reading(out) + [Emitted(g, g[m].content[2 * k], g[m].content[2 * k + 1], depth)]
  {
    ghost var g := store.nodes;
    var key, value := store.nodes[m].content[2 * k], store.nodes[m].content[2 * k + 1];
    store.nodes := WithoutValue(store.nodes, m, k);
    TakenOutUnseen(g, m, k, key, value, depth, doc, rank);
    if store.nodes[value].kind != SequenceNode || |store.nodes[value].content| <= ENCODE_SLICE_LENGTH {
      var piece := Pair(Unfold(store.nodes, key, depth), Unfold(store.nodes, value, depth));
      ReadingMore(out, piece);
      out' := out + [piece];
    } else {
      var piece := Key(Unfold(store.nodes, key, depth));
      ReadingMore(out, piece);
      out' := EncodeSlices(store, value, depth - 1, out + [piece], Reading(out), piece.key, doc, rank);
    }
  }

  lemma PairThere(h: Heap, m: Ref, k: nat, doc: set<Ref>, rank: Ref -> nat)
    requires Tidy(h, doc, rank) && Whole(h, doc) && m in doc && k < PairCount(h, m)
    ensures var g := HeapAt(h, m, k);
            && Tidy(g, doc, rank) && m in g && |g[m].content| == |h[m].content|
            && g[m].content[2 * k] == h[m].content[2 * k] != NIL
            && g[m].content[2 * k + 1] == h[m].content[2 * k + 1] != NIL
  {
    HeapAtDrains(h, m, k, doc, rank);
  }

  lemma EmittedMore(h: Heap, m: Ref, k: nat, depth: nat)
    requires m in h && k < PairCount(h, m) && depth > 0
    ensures AllEmitted(h, m, k + 1, depth) == AllEmitted(h, m, k, depth) + [EmittedAt(h, m, k, depth)]
  {
  }

  /** The mapping written out: each pair once and in order, as it reads when its turn comes. */
  method EncodeConfigMapping(store: NodeStore, m: Ref, depth: nat, ghost doc: set<Ref>, ghost rank: Ref -> nat)
    returns (out: seq<Piece>)
    requires depth > 0 && Whole(store.nodes, doc) && Tidy(store.nodes, doc, rank) && m in doc
    modifies store`nodes
    ensures store.nodes == HeapAt(old(store.nodes), m, PairCount(old(store.nodes), m))
    ensures Reading(out) == AllEmitted(old(store.nodes), m, PairCount(old(store.nodes), m), depth)
    ensures SlicesFit(out)
  {
    ghost var h := store.nodes;
    out := [];
    var k := 0;
    while 2 * k + 1 < |store.nodes[m].content|
      invariant k <= PairCount(h, m) && store.nodes == HeapAt(h, m, k)
      invariant Reading(out) == AllEmitted(h, m, k, depth) && SlicesFit(out)
      decreases |h[m].content| - 2 * k
    {
      PairThere(h, m, k, doc, rank);
      out := EncodePair(store, m, k, depth, out, doc, rank);
      EmittedMore(h, m, k, depth);
      k := k + 1;
    }
    assert k == PairCount(h, m);
  }

  // ----- When that is what was meant -----

  /** The mapping and the long lists among the values of the first k pairs. */
  ghost function Gone(h: Heap, m: Ref, k: nat): set<Ref>
    requires m in h
  {
    set n | n in h && (n == m || WrittenLong(h, m, k, n))
  }

  /** No long list is in reach of a later pair. */
  ghost predicate SharesNoList(h: Heap, m: Ref)
    requires m in h
  {
    forall i: nat, j: nat :: i < j < PairCount(h, m) && IsLong(h, h[m].content[2 * i + 1]) ==>
      && !Reaches(h, h[m].content[2 * j], h[m].content[2 * i + 1])
      && !Reaches(h, h[m].content[2 * j + 1], h[m].content[2 * i + 1])
  }

  /** Long lists have no tag of their own. */
  ghost predicate PlainLists(h: Heap, m: Ref)
    requires m in h
  {
    forall k: nat :: k < PairCount(h, m) && IsLong(h, h[m].content[2 * k + 1]) ==>
      h[h[m].content[2 * k + 1]].tag == "!!seq" && h[h[m].content[2 * k + 1]].value == ""
  }

  lemma PairAvoids(h: Heap, m: Ref, k: nat, n: Ref, doc: set<Ref>, rank: Ref -> nat)
    requires Tidy(h, doc, rank) && m in doc && k < PairCount(h, m) && SharesNoList(h, m)
    requires n == h[m].content[2 * k] || n == h[m].content[2 * k + 1]
    requires n in doc && rank(n) < rank(m)
    ensures Avoids(h, n, Gone(h, m, k))
  {
    forall g | g in Gone(h, m, k) ensures !Reaches(h, n, g) {
      if g == m {
        NothingReachesUp(h, doc, rank, n, m);
      } else {
        var i: nat :| i < k && 2 * i + 1 < |h[m].content| && h[m].content[2 * i + 1] == g;
      }
    }
  }

  lemma PairIntact(h: Heap, m: Ref, k: nat, depth: nat, doc: set<Ref>, rank: Ref -> nat)
    requires Tidy(h, doc, rank) && Whole(h, doc) && m in doc && k < PairCount(h, m) && depth > 0
    requires SharesNoList(h, m) && PlainLists(h, m)
    ensures EmittedAt(h, m, k, depth) == Meant(h, m, k, depth)
  {
    var g, key, value := HeapAt(h, m, k), h[m].content[2 * k], h[m].content[2 * k + 1];
    assert key in doc && rank(key) < rank(m) && value in doc && rank(value) < rank(m);
    HeapAtDrains(h, m, k, doc, rank);
    PairAvoids(h, m, k, key, doc, rank);
    PairAvoids(h, m, k, value, doc, rank);
    UnfoldsElsewhere(h, g, doc, rank, Gone(h, m, k), key, depth);
    UnfoldsElsewhere(h, g, doc, rank, Gone(h, m, k), value, depth);
    ReachesItself(h, value);
    assert g[value] == h[value];
    if IsLong(h, value) {
      assert Unfold(g, value, depth).children == Items(g, value, |g[value].content|, depth - 1);
    }
  }

  /** Where a child was cleared on the way, the unfolding shows it at some depth. */
  lemma {:induction false} LossShows(h: Heap, g: Heap, doc: set<Ref>, rank: Ref -> nat, from: Ref, v: Ref, steps: nat)
    requires Tidy(h, doc, rank) && Whole(h, doc) && Drained(h, g) && from in doc && ReachesIn(h, from, v, steps)
    requires v in h && |h[v].content| > 0 && g[v].content[0] == NIL
    ensures Unfold(g, from, steps + 1) != Unfold(h, from, steps + 1)
    decreases steps
  {
    assert NodeDrained(h[from], g[from]);
    var i := 0;
    if steps > 0 {
      i :| 0 <= i < |h[from].content| && ReachesIn(h, h[from].content[i], v, steps - 1);
      if g[from].content[i] != NIL {
        LossShows(h, g, doc, rank, h[from].content[i], v, steps - 1);
      }
    }
    var c := h[from].content[i];
    assert Unfold(h, c, steps) != Missing;
    assert Unfold(g, g[from].content[i], steps) != Unfold(h, c, steps);
    assert Unfold(g, from, steps + 1).children[i] == Unfold(g, g[from].content[i], steps);
    assert Unfold(h, from, steps + 1).children[i] == Unfold(h, c, steps);
  }

  /** A long list in reach of a later pair is missing from what that pair is written as. */
  lemma SharedListIsLost(h: Heap, m: Ref, i: nat, j: nat, doc: set<Ref>, rank: Ref -> nat)
    requires Tidy(h, doc, rank) && Whole(h, doc) && m in doc && i < j < PairCount(h, m)
    requires IsLong(h, h[m].content[2 * i + 1])
    requires Reaches(h, h[m].content[2 * j], h[m].content[2 * i + 1])
          || Reaches(h, h[m].content[2 * j + 1], h[m].content[2 * i + 1])
    ensures exists depth: nat :: depth > 0 && EmittedAt(h, m, j, depth) != Meant(h, m, j, depth)
  {
    HeapAtDrains(h, m, j, doc, rank);
    assert WrittenLong(h, m, j, h[m].content[2 * i + 1]);
    var key, value := h[m].content[2 * j], h[m].content[2 * j + 1];
    var depth := LostAt(h, HeapAt(h, m, j), key, value, h[m].content[2 * i + 1], doc, rank);
    assert EmittedAt(h, m, j, depth) != Meant(h, m, j, depth);
  }

  lemma LostAt(h: Heap, g: Heap, key: Ref, value: Ref, v: Ref, doc: set<Ref>, rank: Ref -> nat) returns (depth: nat)
    requires Tidy(h, doc, rank) && Whole(h, doc) && Drained(h, g) && key in doc && value in doc
    requires v in h && |h[v].content| > 0 && ClearedIn(g, v)
    requires Reaches(h, key, v) || Reaches(h, value, v)
    ensures depth > 0 && Emitted(g, key, value, depth) != (Unfold(h, key, depth), Unfold(h, value, depth))
  {
    var from := if Reaches(h, key, v) then key else value;
    var steps: nat :| ReachesIn(h, from, v, steps);
    LossShows(h, g, doc, rank, from, v, steps);
    depth := steps + 1;
    if Emitted(g, key, value, depth) == (Unfold(h, key, depth), Unfold(h, value, depth)) {
      EmittedTellsUnfolding(h, g, key, value, depth, doc);
    }
  }

  lemma EmittedTellsUnfolding(h: Heap, g: Heap, key: Ref, value: Ref, depth: nat, doc: set<Ref>)
    requires Drained(h, g) && value in h && h[value].kind != AliasNode && depth > 0
    requires Emitted(g, key, value, depth) == (Unfold(h, key, depth), Unfold(h, value, depth))
    ensures Unfold(g, key, depth) == Unfold(h, key, depth) && Unfold(g, value, depth) == Unfold(h, value, depth)
  {
    assert NodeDrained(h[value], g[value]);
    if IsLong(g, value) {
      assert Unfold(g, value, depth).children == Items(g, value, |g[value].content|, depth - 1);
    }
  }

  lemma TagIsLost(h: Heap, m: Ref, k: nat, doc: set<Ref>, rank: Ref -> nat)
    requires Tidy(h, doc, rank) && m in doc && k < PairCount(h, m) && IsLong(h, h[m].content[2 * k + 1])
    requires h[h[m].content[2 * k + 1]].tag != "!!seq" || h[h[m].content[2 * k + 1]].value != ""
    ensures EmittedAt(h, m, k, 1) != Meant(h, m, k, 1)
  {
    var v := h[m].content[2 * k + 1];
    HeapAtDrains(h, m, k, doc, rank);
    assert NodeDrained(h[v], HeapAt(h, m, k)[v]);
  }

  /** Each key goes out once with the whole of its value, every item of a long list once and in order, if and only if no
      long list is shared with a later pair and none has a tag of its own. */
  lemma WrittenAsMeant(h: Heap, m: Ref, doc: set<Ref>, rank: Ref -> nat)
    requires Tidy(h, doc, rank) && Whole(h, doc) && m in doc
    ensures (forall k: nat, depth: nat :: k < PairCount(h, m) && depth > 0 ==>
               EmittedAt(h, m, k, depth) == Meant(h, m, k, depth))
            <==> SharesNoList(h, m) && PlainLists(h, m)
  {
    if SharesNoList(h, m) && PlainLists(h, m) {
      forall k: nat, depth: nat | k < PairCount(h, m) && depth > 0
        ensures EmittedAt(h, m, k, depth) == Meant(h, m, k, depth)
      {
        PairIntact(h, m, k, depth, doc, rank);
      }
    } else if !SharesNoList(h, m) {
      var i: nat, j: nat :| i < j < PairCount(h, m) && IsLong(h, h[m].content[2 * i + 1])
        && (|| Reaches(h, h[m].content[2 * j], h[m].content[2 * i + 1])
            || Reaches(h, h[m].content[2 * j + 1], h[m].content[2 * i + 1]));
      SharedListIsLost(h, m, i, j, doc, rank);
    } else {
      var k: nat :| k < PairCount(h, m) && IsLong(h, h[m].content[2 * k + 1])
        && (h[h[m].content[2 * k + 1]].tag != "!!seq" || h[h[m].content[2 * k + 1]].value != "");
      TagIsLost(h, m, k, doc, rank);
    }
  }

  /** A document whose aliases were inlined is such a document, unless it contains itself. */
  lemma InlinedIsTidy(h: Heap, root: Ref, rank: Ref -> nat) returns (doc: set<Ref>)
    requires WellFormed(h) && root in h && h[root].kind != AliasNode
    requires forall n :: Reaches(h, root, n) ==> Clean(h, n)
    requires forall n, c :: Reaches(h, root, n) && n in h && c in h[n].content ==> rank(c) < rank(n)
    ensures Tidy(h, doc, rank) && Whole(h, doc) && root in doc
  {
    doc := set n | n in h && h[n].kind != AliasNode && Reaches(h, root, n);
    ReachesItself(h, root);
    forall n, i | n in doc && 0 <= i < |h[n].content|
      ensures h[n].content[i] in doc && rank(h[n].content[i]) < rank(n)
    {
      assert Clean(h, n) && !IsAlias(h, h[n].content[i]);
      ReachesFurther(h, root, n, i);
    }
  }

  lemma ReachesFurther(h: Heap, from: Ref, n: Ref, i: nat)
    requires Reaches(h, from, n) && n in h && i < |h[n].content| && h[n].content[i] in h
    ensures Reaches(h, from, h[n].content[i])
  {
    var steps: nat :| ReachesIn(h, from, n, steps);
    OneStepMore(h, from, n, i, steps);
  }

  lemma {:induction false} OneStepMore(h: Heap, from: Ref, n: Ref, i: nat, steps: nat)
    requires ReachesIn(h, from, n, steps) && n in h && i < |h[n].content| && h[n].content[i] in h
    ensures ReachesIn(h, from, h[n].content[i], steps + 1)
    decreases steps
  {
    if steps == 0 {
      assert ReachesIn(h, h[n].content[i], h[n].content[i], 0);
    } else {
      var j :| 0 <= j < |h[from].content| && ReachesIn(h, h[from].content[j], n, steps - 1);
      OneStepMore(h, h[from].content[j], n, i, steps - 1);
    }
  }

  /** Two keys of the one list, as an alias leaves them, with one item more than a slice holds. */
  lemma AliasedLongListIsShared(list: seq<Ref>)
    requires |list| == ENCODE_SLICE_LENGTH + 1 && forall i :: 0 <= i < |list| ==> list[i] == 5
    ensures !SharesNoList(map[1 := Node(MappingNode, "!!map", "", "", [2, 3, 4, 3], NIL),
                              2 := Node(ScalarNode, "!!str", "a", "", [], NIL),
                              3 := Node(SequenceNode, "!!seq", "", "", list, NIL),
                              4 := Node(ScalarNode, "!!str", "b", "", [], NIL),
                              5 := Node(ScalarNode, "!!str", "c", "", [], NIL)], 1)
  {
    var h := map[1 := Node(MappingNode, "!!map", "", "", [2, 3, 4, 3], NIL),
                 2 := Node(ScalarNode, "!!str", "a", "", [], NIL),
                 3 := Node(SequenceNode, "!!seq", "", "", list, NIL),
                 4 := Node(ScalarNode, "!!str", "b", "", [], NIL),
                 5 := Node(ScalarNode, "!!str", "c", "", [], NIL)];
    ReachesItself(h, 3);
    assert IsLong(h, h[1].content[2 * 0 + 1]) && h[1].content[2 * 1 + 1] == 3;
  }
}
