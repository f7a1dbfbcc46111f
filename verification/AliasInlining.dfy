/** Every alias written out in full: the walk that replaces aliases by their nodes and drops the anchors. */
module AliasInlining {
  import opened YamlGraph

  // ----- What a step of the walk may change -----

  ghost predicate EntryInlined(h: Heap, c: Ref, c': Ref) {
    c' == c || c' == Resolve(h, c)
  }

  ghost predicate NodeInlined(h: Heap, n: Node, n': Node) {
    && n'.kind == n.kind && n'.tag == n.tag && n'.value == n.value && n'.alias == n.alias
    && (n'.anchor == n.anchor || n'.anchor == "")
    && |n'.content| == |n.content|
    && (forall i :: 0 <= i < |n.content| ==> EntryInlined(h, n.content[i], n'.content[i]))
  }

  /** h' is h with some anchors dropped and some aliases replaced by their nodes. */
  ghost predicate Inlined(h: Heap, h': Heap) {
    && h'.Keys == h.Keys
    && (forall n :: n in h ==> NodeInlined(h, h[n], h'[n]))
  }

  lemma SameResolution(h: Heap, h': Heap, n: Ref)
    requires Inlined(h, h')
    ensures Resolve(h', n) == Resolve(h, n)
  {
    if n in h {
      assert NodeInlined(h, h[n], h'[n]);
    }
  }

  lemma StaysWellFormed(h: Heap, h': Heap)
    requires WellFormed(h) && Inlined(h, h')
    ensures WellFormed(h')
  {
    assert forall n :: n in h ==> NodeInlined(h, h[n], h'[n]);
    forall n, i | n in h' && 0 <= i < |h'[n].content| ensures h'[n].content[i] in h' {
      assert EntryInlined(h, h[n].content[i], h'[n].content[i]);
      ResolvesInside(h, h[n].content[i]);
    }
  }

  lemma InlinedTwice(h: Heap, h': Heap, h'': Heap)
    requires WellFormed(h) && Inlined(h, h') && Inlined(h', h'')
    ensures Inlined(h, h'')
  {
    forall n | n in h ensures NodeInlined(h, h[n], h''[n]) {
      assert NodeInlined(h, h[n], h'[n]) && NodeInlined(h', h'[n], h''[n]);
      forall i | 0 <= i < |h[n].content| ensures EntryInlined(h, h[n].content[i], h''[n].content[i]) {
        var c := h[n].content[i];
        assert EntryInlined(h, c, h'[n].content[i]) && EntryInlined(h', h'[n].content[i], h''[n].content[i]);
        SameResolution(h, h', h'[n].content[i]);
        ResolvesInside(h, c);
      }
    }
  }

  /** No such change touches what any node stands for. */
  lemma {:induction false} InliningKeepsMeaning(h: Heap, h': Heap, n: Ref, depth: nat)
    requires WellFormed(h) && Inlined(h, h')
    ensures Unfold(h', n, depth) == Unfold(h, n, depth)
    decreases depth
  {
    SameResolution(h, h', n);
    var r := Resolve(h, n);
    if r in h && depth > 0 {
      assert NodeInlined(h, h[r], h'[r]);
      forall i | 0 <= i < |h[r].content|
        ensures Unfold(h', h'[r].content[i], depth - 1) == Unfold(h, h[r].content[i], depth - 1)
      {
        var c := h[r].content[i];
        assert EntryInlined(h, c, h'[r].content[i]);
        InliningKeepsMeaning(h, h', h'[r].content[i], depth - 1);
        ResolvedAlike(h, c, depth - 1);
      }
      assert Unfold(h', n, depth).children == Unfold(h, n, depth).children;
    }
  }

  lemma ResolvedAlike(h: Heap, c: Ref, depth: nat)
    requires WellFormed(h)
    ensures Unfold(h, Resolve(h, c), depth) == Unfold(h, c, depth)
  {
    if c in h {
      ResolvesInside(h, c);
    }
    assert Resolve(h, Resolve(h, c)) == Resolve(h, c);
  }

  // ----- The walk -----

  /** A node the walk is through with: no anchor, and no alias among its children. */
  ghost predicate Clean(h: Heap, n: Ref) {
    && n in h && h[n].anchor == ""
    && forall i :: 0 <= i < |h[n].content| ==> !IsAlias(h, h[n].content[i])
  }

  /** The children, aliases followed, that a node leads the walk to. */
  ghost predicate LeadsTo(h: Heap, n: Ref, c: Ref) {
    n in h && exists i :: 0 <= i < |h[n].content| && c == Resolve(h, h[n].content[i])
  }

  /** Every cycle passes through an anchored node: between anchors the structure is finite. */
  ghost predicate CyclesAnchored(h: Heap, rank: map<Ref, nat>) {
    && rank.Keys == h.Keys
    && forall n, c {:trigger LeadsTo(h, n, c)} :: LeadsTo(h, n, c) && c in h && h[c].anchor == "" ==> rank[c] < rank[n]
  }

  function Anchored(h: Heap): set<Ref> {
    set n | n in h && h[n].anchor != ""
  }

  /** The walk has dropped the anchors of the visited nodes and no others. */
  ghost predicate Marked(h: Heap, h': Heap, visited: set<Ref>) {
    && visited <= Anchored(h)
    && forall n :: n in h && n in h' ==> h'[n].anchor == (if n in visited then "" else h[n].anchor)
  }

  /** Finished nodes are clean, and lead only to nodes that are finished or visited. */
  ghost predicate Finished(h: Heap, done: set<Ref>, visited: set<Ref>) {
    forall n :: n in done ==> Clean(h, n) && forall i :: 0 <= i < |h[n].content| ==> h[n].content[i] in done + visited
  }

  lemma StaysFinished(h: Heap, h': Heap, done: set<Ref>, visited: set<Ref>, visited': set<Ref>)
    requires Inlined(h, h') && Finished(h, done, visited) && visited <= visited'
    ensures Finished(h', done, visited')
  {
    forall n | n in done
      ensures Clean(h', n) && forall i :: 0 <= i < |h'[n].content| ==> h'[n].content[i] in done + visited'
    {
      assert Clean(h, n) && NodeInlined(h, h[n], h'[n]);
      forall i | 0 <= i < |h'[n].content|
        ensures !IsAlias(h', h'[n].content[i]) && h'[n].content[i] in done + visited'
      {
        assert EntryInlined(h, h[n].content[i], h'[n].content[i]);
        SameResolution(h, h', h[n].content[i]);
        assert h'[n].content[i] == h[n].content[i];
        if h[n].content[i] in h {
          assert NodeInlined(h, h[h[n].content[i]], h'[h[n].content[i]]);
        }
      }
    }
  }

  /** The state of a walk that began on h. */
  ghost predicate Walking(h: Heap, h': Heap, visited: set<Ref>) {
    WellFormed(h) && Inlined(h, h') && Marked(h, h', visited)
  }

  /** How much of the walk is ahead of a node: the anchors still to be dropped elsewhere. */
  ghost function AnchorsAhead(h: Heap, visited: set<Ref>, node: Ref): nat {
    |Anchored(h) - visited - {node}|
  }

  ghost function DepthAhead(rank: map<Ref, nat>, visited: set<Ref>, node: Ref): nat {
    if node in visited || node !in rank then 0 else rank[node] + 1
  }

  lemma SmallerSet(a: set<Ref>, b: set<Ref>)
    requires a <= b
    ensures |a| <= |b| && (a != b ==> |a| < |b|)
  {
    assert b == a + (b - a);
    assert |b| == |a| + |b - a|;
  }

  /** A child of the node at hand has less ahead of it. */
  lemma WalkGoesDown(h: Heap, rank: map<Ref, nat>, visited: set<Ref>, node: Ref, visited': set<Ref>, child: Ref)
    requires CyclesAnchored(h, rank) && LeadsTo(h, node, child) && child in h && node !in visited
    requires visited <= visited' && (h[node].anchor != "" ==> node in visited')
    ensures AnchorsAhead(h, visited', child) <= AnchorsAhead(h, visited, node)
    ensures AnchorsAhead(h, visited', child) == AnchorsAhead(h, visited, node) ==>
              DepthAhead(rank, visited', child) < DepthAhead(rank, visited, node)
  {
    var a, b := Anchored(h) - visited' - {child}, Anchored(h) - visited - {node};
    SmallerSet(a, b);
    if child !in visited' && h[child].anchor != "" {
      assert child in b && child !in a;
    }
  }

  lemma ChildOfOriginal(h: Heap, h': Heap, node: Ref, i: nat)
    requires WellFormed(h) && Inlined(h, h') && node in h' && i < |h'[node].content|
    ensures LeadsTo(h, node, Resolve(h', h'[node].content[i]))
  {
    assert NodeInlined(h, h[node], h'[node]);
    assert EntryInlined(h, h[node].content[i], h'[node].content[i]);
    SameResolution(h, h', h'[node].content[i]);
    ResolvesInside(h, h[node].content[i]);
  }

  function WithEntry(h: Heap, node: Ref, i: nat, child: Ref): Heap
    requires node in h && i < |h[node].content|
  {
    h[node := h[node].(content := h[node].content[i := child])]
  }

  lemma EntryStep(h: Heap, node: Ref, i: nat)
    requires node in h && i < |h[node].content|
    ensures Inlined(h, WithEntry(h, node, i, Resolve(h, h[node].content[i])))
  {
    var h' := WithEntry(h, node, i, Resolve(h, h[node].content[i]));
    forall n | n in h ensures NodeInlined(h, h[n], h'[n]) {
      forall j | 0 <= j < |h[n].content| ensures EntryInlined(h, h[n].content[j], h'[n].content[j]) {
      }
    }
  }

  lemma EntryStepKeepsMarks(h: Heap, h': Heap, visited: set<Ref>, node: Ref, i: nat)
    requires Walking(h, h', visited) && node in h' && i < |h'[node].content|
    ensures Walking(h, WithEntry(h', node, i, Resolve(h', h'[node].content[i])), visited)
  {
    EntryStep(h', node, i);
    InlinedTwice(h, h', WithEntry(h', node, i, Resolve(h', h'[node].content[i])));
  }

  lemma InlinedNothing(h: Heap)
    ensures Inlined(h, h)
  {
  }

  /** The first i children are no aliases and have been reached. */
  ghost predicate WalkedChildren(h: Heap, node: Ref, i: nat, reached: set<Ref>) {
    && node in h && i <= |h[node].content|
    && forall j :: 0 <= j < i ==> !IsAlias(h, h[node].content[j]) && h[node].content[j] in reached
  }

  lemma WalkedStays(h: Heap, h': Heap, node: Ref, i: nat, reached: set<Ref>, reached': set<Ref>)
    requires WalkedChildren(h, node, i, reached) && Inlined(h, h') && reached <= reached'
    ensures WalkedChildren(h', node, i, reached')
  {
    assert NodeInlined(h, h[node], h'[node]);
    forall j | 0 <= j < i ensures !IsAlias(h', h'[node].content[j]) && h'[node].content[j] in reached' {
      EntryStays(h, h', node, j);
    }
  }

  /** A child that is no alias is not replaced any more. */
  lemma EntryStays(h: Heap, h': Heap, node: Ref, j: nat)
    requires Inlined(h, h') && node in h && j < |h[node].content| && !IsAlias(h, h[node].content[j])
    ensures |h'[node].content| == |h[node].content| && h'[node].content[j] == h[node].content[j]
    ensures !IsAlias(h', h'[node].content[j])
  {
    var c := h[node].content[j];
    assert NodeInlined(h, h[node], h'[node]);
    assert EntryInlined(h, c, h'[node].content[j]);
    if c in h {
      assert NodeInlined(h, h[c], h'[c]);
    }
  }

  lemma WalkedOneMore(h: Heap, h': Heap, node: Ref, i: nat, child: Ref, reached: set<Ref>)
    requires WalkedChildren(h', node, i, reached) && Inlined(h, h') && child in reached
    requires node in h && i < |h[node].content| && h[node].content[i] == child && !IsAlias(h, child)
    ensures WalkedChildren(h', node, i + 1, reached)
  {
    EntryStays(h, h', node, i);
  }

  lemma FinishNode(h: Heap, done: set<Ref>, visited: set<Ref>, node: Ref)
    requires Finished(h, done, visited) && node in h && h[node].anchor == ""
    requires WalkedChildren(h, node, |h[node].content|, done + visited)
    ensures Finished(h, done + {node}, visited)
  {
  }

  lemma {:induction false} FinishedLeadsOn(h: Heap, done: set<Ref>, visited: set<Ref>, from: Ref, to: Ref, steps: nat)
    requires Finished(h, done, visited) && visited <= done && from in done && ReachesIn(h, from, to, steps)
    ensures to in done
    decreases steps
  {
    if steps == 0 {
    } else {
      var i :| 0 <= i < |h[from].content| && ReachesIn(h, h[from].content[i], to, steps - 1);
      FinishedLeadsOn(h, done, visited, h[from].content[i], to, steps - 1);
    }
  }

  method DropAnchor(store: NodeStore, node: Ref, visited: set<Ref>, ghost h: Heap) returns (visited': set<Ref>)
    requires Walking(h, store.nodes, visited) && node in store.nodes
    modifies store`nodes
    ensures Walking(h, store.nodes, visited') && Inlined(old(store.nodes), store.nodes)
    ensures visited' == if old(store.nodes)[node].anchor != "" then visited + {node} else visited
    ensures store.nodes[node].anchor == ""
  {
    visited' := visited;
    if store.nodes[node].anchor != "" {
      visited' := visited + {node};
      store.nodes := store.nodes[node := store.nodes[node].(anchor := "")];
    }
    StaysWellFormed(h, old(store.nodes));
    InlinedTwice(h, old(store.nodes), store.nodes);
  }

  method InlineChild(store: NodeStore, node: Ref, i: nat, visited: set<Ref>, ghost h: Heap) returns (child: Ref)
    requires Walking(h, store.nodes, visited) && node in store.nodes && i < |store.nodes[node].content|
    modifies store`nodes
    ensures Walking(h, store.nodes, visited) && Inlined(old(store.nodes), store.nodes)
    ensures store.nodes[node].content[i] == child && child in store.nodes && store.nodes[child].kind != AliasNode
    ensures LeadsTo(h, node, child)
  {
    StaysWellFormed(h, store.nodes);
    child := ResolveAlias(store.nodes, store.nodes[node].content[i]);
    ResolvesInside(store.nodes, store.nodes[node].content[i]);
    ChildOfOriginal(h, store.nodes, node, i);
    EntryStep(store.nodes, node, i);
    EntryStepKeepsMarks(h, store.nodes, visited, node, i);
    store.nodes := WithEntry(store.nodes, node, i, child);
  }

  /** The walk of a node's children, i of which are walked, since visited0 and done0 were. */
  ghost predicate InWalk(h: Heap, h0: Heap, h': Heap, node: Ref, i: nat, visited0: set<Ref>, done0: set<Ref>,
                         visited: set<Ref>, done: set<Ref>) {
    && Walking(h, h', visited) && Inlined(h0, h') && node in h' && h'[node].anchor == ""
    && Finished(h', done, visited) && WalkedChildren(h', node, i, done + visited)
    && visited0 <= visited && done0 <= done && visited - visited0 <= done
  }

  lemma ChildInlined(h: Heap, h0: Heap, was: Heap, now: Heap, node: Ref, i: nat, visited0: set<Ref>,
                     done0: set<Ref>, visited: set<Ref>, done: set<Ref>)
    requires InWalk(h, h0, was, node, i, visited0, done0, visited, done)
    requires Walking(h, now, visited) && Inlined(was, now)
    ensures InWalk(h, h0, now, node, i, visited0, done0, visited, done)
  {
    StaysFinished(was, now, done, visited, visited);
    WalkedStays(was, now, node, i, done + visited, done + visited);
    InlinedTwice(h0, was, now);
    assert NodeInlined(was, was[node], now[node]);
  }

  lemma ChildWalked(h: Heap, h0: Heap, was: Heap, now: Heap, node: Ref, i: nat, child: Ref, visited0: set<Ref>,
                    done0: set<Ref>, visited: set<Ref>, done: set<Ref>, visited': set<Ref>, done': set<Ref>)
    requires InWalk(h, h0, was, node, i, visited0, done0, visited, done)
    requires i < |was[node].content| && was[node].content[i] == child && !IsAlias(was, child)
    requires Walking(h, now, visited') && Inlined(was, now) && Finished(now, done', visited')
    requires visited <= visited' && done <= done' && visited' - visited <= done' && child in done' + visited'
    ensures InWalk(h, h0, now, node, i + 1, visited0, done0, visited', done')
  {
    WalkedStays(was, now, node, i, done + visited, done' + visited');
    WalkedOneMore(was, now, node, i, child, done' + visited');
    InlinedTwice(h0, was, now);
    assert NodeInlined(was, was[node], now[node]);
  }

  /** Walks from a node: afterwards it is finished, and so is every node visited on the way. */
  method Walk(store: NodeStore, node: Ref, visited: set<Ref>,
              ghost h: Heap, ghost rank: map<Ref, nat>, ghost done: set<Ref>)
    returns (visited': set<Ref>, ghost done': set<Ref>)
    requires Walking(h, store.nodes, visited) && CyclesAnchored(h, rank) && Finished(store.nodes, done, visited)
    requires node in store.nodes
    modifies store`nodes
    ensures Walking(h, store.nodes, visited') && Inlined(old(store.nodes), store.nodes)
    ensures Finished(store.nodes, done', visited')
    ensures visited <= visited' && done <= done' && visited' - visited <= done' && node in done' + visited'
    decreases AnchorsAhead(h, visited, node), DepthAhead(rank, visited, node)
  {
    visited', done' := visited, done;
    InlinedNothing(store.nodes);
    StaysWellFormed(h, store.nodes);
    if node in visited {
      return;
    }
    visited' := DropAnchor(store, node, visited, h);
    StaysFinished(old(store.nodes), store.nodes, done, visited, visited');
    ghost var visited0 := visited';
    var i := 0;
    ghost var h0 := old(store.nodes);
    while i < |store.nodes[node].content|
      invariant InWalk(h, h0, store.nodes, node, i, visited0, done, visited', done')
      decreases |h0[node].content| - i
    {
      assert NodeInlined(h0, h0[node], store.nodes[node]);
      ghost var was := store.nodes;
      var child := InlineChild(store, node, i, visited', h);
      ChildInlined(h, h0, was, store.nodes, node, i, visited0, done, visited', done');
      WalkGoesDown(h, rank, visited, node, visited', child);
      ghost var visited1, done1 := visited', done';
      was := store.nodes;
      visited', done' := Walk(store, child, visited', h, rank, done');
      ChildWalked(h, h0, was, store.nodes, node, i, child, visited0, done, visited1, done1, visited', done');
      i := i + 1;
    }
    FinishNode(store.nodes, done', visited', node);
    done' := done' + {node};
  }

  /** The walk ends on every graph whose cycles all pass through anchored nodes, shared nodes and self-references
      included; it leaves no anchor and no alias in reach of the root, and no node changes its meaning. */
  method InlineAliases(store: NodeStore, root: Ref)
    requires WellFormed(store.nodes) && root in store.nodes
    requires exists rank :: CyclesAnchored(store.nodes, rank)
    modifies store`nodes
    ensures Inlined(old(store.nodes), store.nodes) && WellFormed(store.nodes)
    ensures forall n :: Reaches(store.nodes, root, n) ==> Clean(store.nodes, n)
    ensures forall n, depth: nat :: Unfold(store.nodes, n, depth) == Unfold(old(store.nodes), n, depth)
  {
    ghost var h := store.nodes;
    ghost var rank :| CyclesAnchored(h, rank);
    InlinedNothing(h);
    var visited;
    ghost var done;
    visited, done := Walk(store, root, {}, h, rank, {});
    StaysWellFormed(h, store.nodes);
    forall n | Reaches(store.nodes, root, n) ensures Clean(store.nodes, n) {
      var steps: nat :| ReachesIn(store.nodes, root, n, steps);
      FinishedLeadsOn(store.nodes, done, visited, root, n, steps);
    }
    forall n, depth: nat ensures Unfold(store.nodes, n, depth) == Unfold(h, n, depth) {
      InliningKeepsMeaning(h, store.nodes, n, depth);
    }
  }
}
