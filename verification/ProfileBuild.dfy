/** A profile built from end to end: merged into the overlay, its aliases inlined, and written out. */
module ProfileBuild {
  import opened YamlGraph
  import opened AliasInlining
  import opened MappingLookup
  import opened MappingSet
  import opened SectionMerge
  import opened MergeOrder
  import opened ProfileMerge
  import opened ProfileEncoding

  /** What the pairs of a mapping stand for. */
  function PairsMeant(h: Heap, m: Ref, depth: nat): seq<(Tree, Tree)>
    requires m in h
  {
    seq(PairCount(h, m), k requires 0 <= k < PairCount(h, m) => Meant(h, m, k, depth))
  }

  // ----- The document node -----

  lemma DocumentIsAcyclic(h: Heap, document: Ref, root: Ref, order: Ref -> nat) returns (order': Ref -> nat)
    requires WellFormed(h) && root in h && h[root].kind != AliasNode && document !in h && Acyclic(h, order)
    ensures Acyclic(h[document := Node(DocumentNode, "", "", "", [root], NIL)], order')
  {
    order' := n => if n == document then order(root) + 1 else order(n);
    ResolvedInside(h);
    var h' := h[document := Node(DocumentNode, "", "", "", [root], NIL)];
    forall n, i | n in h' && 0 <= i < |h'[n].content| ensures order'(Resolve(h', h'[n].content[i])) < order'(n) {
      if n in h {
        assert Resolve(h', h[n].content[i]) == Resolve(h, h[n].content[i]);
      }
    }
  }

  /** Nodes of a closed part stand for what they stand for, whatever else is there. */
  lemma {:induction false} UnfoldsWithin(h: Heap, h': Heap, doc: set<Ref>, n: Ref, depth: nat)
    requires forall x :: x in doc ==> x in h && x in h' && h'[x] == h[x]
    requires forall x, i :: x in doc && 0 <= i < |h[x].content| ==> h[x].content[i] in doc
    requires forall x :: x in doc && IsAlias(h, x) ==> h[x].alias in doc
    requires n in doc
    ensures Unfold(h', n, depth) == Unfold(h, n, depth)
    decreases depth
  {
    var r := Resolve(h, n);
    assert r in doc && Resolve(h', n) == r;
    if depth == 0 {
    } else {
      forall i | 0 <= i < |h[r].content|
        ensures Unfold(h', h[r].content[i], depth - 1) == Unfold(h, h[r].content[i], depth - 1)
      {
        UnfoldsWithin(h, h', doc, h[r].content[i], depth - 1);
      }
      assert Unfold(h', n, depth).children == Unfold(h, n, depth).children;
    }
  }

  lemma DocumentUnseen(h: Heap, document: Ref, root: Ref, n: Ref, depth: nat)
    requires WellFormed(h) && document !in h && n in h
    ensures Unfold(h[document := Node(DocumentNode, "", "", "", [root], NIL)], n, depth) == Unfold(h, n, depth)
  {
    UnfoldsWithin(h, h[document := Node(DocumentNode, "", "", "", [root], NIL)], h.Keys, n, depth);
  }

  // ----- After the walk -----

  ghost function RankMap(h: Heap, order: Ref -> nat): map<Ref, nat> {
    map n | n in h :: order(n)
  }

  lemma AcyclicIsAnchored(h: Heap, order: Ref -> nat)
    requires Acyclic(h, order)
    ensures CyclesAnchored(h, RankMap(h, order))
  {
  }

  lemma RootIsReached(h: Heap, h': Heap, document: Ref, root: Ref, n: Ref)
    requires Inlined(h, h') && document in h && h[document].content == [root] && root in h && h[root].kind != AliasNode
    requires Reaches(h', root, n)
    ensures Reaches(h', document, n)
  {
    assert NodeInlined(h, h[document], h'[document]);
    assert EntryInlined(h, h[document].content[0], h'[document].content[0]);
    assert root in h'[document].content;
    ChildReaches(h', document, root, n);
  }

  lemma InlinedGoesDown(h: Heap, h': Heap, n: Ref, c: Ref, order: Ref -> nat)
    requires WellFormed(h) && Acyclic(h, order) && Inlined(h, h') && n in h' && c in h'[n].content && Clean(h', n)
    ensures order(c) < order(n)
  {
    var i :| 0 <= i < |h'[n].content| && h'[n].content[i] == c;
    assert NodeInlined(h, h[n], h'[n]);
    assert EntryInlined(h, h[n].content[i], c);
    assert !IsAlias(h', c);
    ResolvesInside(h, h[n].content[i]);
    assert NodeInlined(h, h[c], h'[c]);
  }

  lemma WalkLeavesTidy(h: Heap, h': Heap, document: Ref, root: Ref, order: Ref -> nat) returns (doc: set<Ref>)
    requires WellFormed(h) && WellFormed(h') && Acyclic(h, order) && Inlined(h, h')
    requires document in h && h[document].content == [root] && root in h && h[root].kind != AliasNode
    requires forall n :: Reaches(h', document, n) ==> Clean(h', n)
    ensures Tidy(h', doc, order) && Whole(h', doc) && root in doc
  {
    assert NodeInlined(h, h[root], h'[root]);
    forall n | Reaches(h', root, n) ensures Clean(h', n) {
      RootIsReached(h, h', document, root, n);
    }
    forall n, c | Reaches(h', root, n) && n in h' && c in h'[n].content ensures order(c) < order(n) {
      InlinedGoesDown(h, h', n, c, order);
    }
    doc := InlinedIsTidy(h', root, order);
  }

  /** The pairs of the root mean what they meant. */
  lemma PairsStayMeant(h: Heap, h': Heap, root: Ref, depth: nat)
    requires WellFormed(h) && Inlined(h, h') && root in h
    ensures PairsMeant(h', root, depth) == PairsMeant(h, root, depth)
  {
    assert NodeInlined(h, h[root], h'[root]);
    forall j | 0 <= j < |h[root].content|
      ensures Unfold(h', h'[root].content[j], depth) == Unfold(h, h[root].content[j], depth)
    {
      assert EntryInlined(h, h[root].content[j], h'[root].content[j]);
      InliningKeepsMeaning(h, h', h'[root].content[j], depth);
      ResolvedAlike(h, h[root].content[j], depth);
    }
  }

  lemma {:induction false} EmittedIsMeant(h: Heap, root: Ref, k: nat, depth: nat)
    requires root in h && k <= PairCount(h, root) && depth > 0
    requires forall j: nat :: j < PairCount(h, root) ==> EmittedAt(h, root, j, depth) == Meant(h, root, j, depth)
    ensures AllEmitted(h, root, k, depth) == PairsMeant(h, root, depth)[..k]
    decreases k
  {
    if k == 0 {
    } else {
      EmittedIsMeant(h, root, k - 1, depth);
      assert PairsMeant(h, root, depth)[..k] == PairsMeant(h, root, depth)[..k - 1] + [Meant(h, root, k - 1, depth)];
    }
  }

  /** Where no long list is shared and none has a tag, what is written are the pairs as they are meant. */
  lemma WrittenArePairs(h: Heap, root: Ref, doc: set<Ref>, rank: Ref -> nat, depth: nat)
    requires Tidy(h, doc, rank) && Whole(h, doc) && root in doc && depth > 0
    requires SharesNoList(h, root) && PlainLists(h, root)
    ensures AllEmitted(h, root, PairCount(h, root), depth) == PairsMeant(h, root, depth)
  {
    WrittenAsMeant(h, root, doc, rank);
    EmittedIsMeant(h, root, PairCount(h, root), depth);
  }

  // ----- From end to end -----

  /** Inlines the aliases of a document and writes its mapping. inlined is the graph the walk left. */
  method WriteDocument(store: NodeStore, document: Ref, root: Ref, depth: nat, ghost order: Ref -> nat)
    returns (out: seq<Piece>, ghost inlined: Heap)
    requires WellFormed(store.nodes) && Acyclic(store.nodes, order) && depth > 0
    requires document in store.nodes && store.nodes[document].content == [root]
    requires root in store.nodes && store.nodes[root].kind != AliasNode
    modifies store`nodes
    ensures Inlined(old(store.nodes), inlined) && root in inlined
    ensures SharesNoList(inlined, root) && PlainLists(inlined, root) ==>
      Reading(out) == PairsMeant(old(store.nodes), root, depth)
  {
    ghost var h := store.nodes;
    AcyclicIsAnchored(h, order);
    InlineAliases(store, document);
    inlined := store.nodes;
    ghost var doc := WalkLeavesTidy(h, inlined, document, root, order);
    out := EncodeConfigMapping(store, root, depth, doc, order);
    if SharesNoList(inlined, root) && PlainLists(inlined, root) {
      WrittenArePairs(inlined, root, doc, order, depth);
      PairsStayMeant(h, inlined, root, depth);
    }
  }

  /** A pair of this name stands for this value. */
  ghost predicate HasPair(pairs: seq<(Tree, Tree)>, key: string, value: Tree) {
    exists k :: 0 <= k < |pairs| && pairs[k].0.Tree? && pairs[k].0.kind == ScalarNode && pairs[k].0.value == key
                && pairs[k].1 == value
  }

  lemma OwnPairIsMeant(h: Heap, m: Ref, key: string, depth: nat)
    requires m in h && OwnPair(h, m, key).Some? && depth > 0
    ensures HasPair(PairsMeant(h, m, depth), key, Unfold(h, OwnPair(h, m, key).value, depth))
  {
    var at := FindKey(h, h[m].content, key, 0);
    var pairs := PairsMeant(h, m, depth);
    assert 2 * (at / 2) == at && at / 2 < PairCount(h, m);
    assert pairs[at / 2] == Meant(h, m, at / 2, depth);
  }

  /** A section of the profile is a pair of the merged mapping, with the value it had in the profile. */
  lemma SectionIsMeant(h: Heap, g: Heap, h': Heap, doc: set<Ref>, profile: Ref, root: Ref, put: map<string, Ref>,
                       key: string, depth: nat)
    requires IsTop(h, root) && IsProfile(h, doc, profile, root) && depth > 0
    requires IsMerge(h, g, h', profile, root, put)
    requires key in SECTIONS && Lookup(h, profile, key).Some? && !Hijacked(h, h[root].content, key)
    ensures HasPair(PairsMeant(h', root, depth), key, Unfold(h, Lookup(h, profile, key).value, depth))
  {
    KeysDiffer(SECTIONS);
    NamesAlike(h, g, root, h[root].content, key, 0);
    assert OwnPairPut(g, h', root, put, key);
    OwnPairIsMeant(h', root, key, depth);
    ProfileValue(h, doc, profile, root, key);
    UnfoldsWithin(h, h', doc, Lookup(h, profile, key).value, depth);
  }

  lemma SectionsAreMeant(h: Heap, g: Heap, h': Heap, doc: set<Ref>, profile: Ref, root: Ref, put: map<string, Ref>,
                         depth: nat)
    requires IsTop(h, root) && IsProfile(h, doc, profile, root) && depth > 0
    requires IsMerge(h, g, h', profile, root, put)
    ensures SectionsWritten(h, profile, root, PairsMeant(h', root, depth), depth)
  {
    forall key | key in SECTIONS && Lookup(h, profile, key).Some? && !Hijacked(h, h[root].content, key)
      ensures HasPair(PairsMeant(h', root, depth), key, Unfold(h, Lookup(h, profile, key).value, depth))
    {
      SectionIsMeant(h, g, h', doc, profile, root, put, key, depth);
    }
  }

  /** Among these pairs is each section the profile has, as it stands in the profile, unless its key is first met in the
      overlay as the text of a merge key. */
  ghost predicate SectionsWritten(h: Heap, profile: Ref, root: Ref, pairs: seq<(Tree, Tree)>, depth: nat)
    requires profile in h && root in h
  {
    forall key :: key in SECTIONS && Lookup(h, profile, key).Some? && !Hijacked(h, h[root].content, key) ==>
      HasPair(pairs, key, Unfold(h, Lookup(h, profile, key).value, depth))
  }

  /** Writes a merged mapping as a document of its own. */
  method WriteMerged(store: NodeStore, root: Ref, depth: nat, ghost order: Ref -> nat)
    returns (out: seq<Piece>, ghost inlined: Heap)
    requires store.Valid() && IsMapping(store.nodes, root) && Acyclic(store.nodes, order) && depth > 0
    modifies store
    ensures root in inlined
    ensures SharesNoList(inlined, root) && PlainLists(inlined, root) ==>
      Reading(out) == PairsMeant(old(store.nodes), root, depth)
  {
    ghost var merged := store.nodes;
    var document := store.New(Node(DocumentNode, "", "", "", [root], NIL));
    ghost var order' := DocumentIsAcyclic(merged, document, root, order);
    out, inlined := WriteDocument(store, document, root, depth, order');
    PairsUnseen(merged, document, root, depth);
  }

  /** Builds a profile: merges, inlines, writes. merged is the graph after the merge, inlined the one the walk left.
      If no long list is shared between keys and none has a tag of its own, what is written reads as the pairs of the
      merged mapping; among them is each section the profile has, with what it stood for in the profile, unless its
      key is first met in the overlay as the text of a merge key. */
  method BuildProfile(store: NodeStore, profile: Ref, root: Ref, depth: nat, ghost doc: set<Ref>,
                      ghost rank: Ref -> nat)
    returns (ok: bool, out: seq<Piece>, ghost g: Heap, ghost put: map<string, Ref>, ghost merged: Heap,
             ghost inlined: Heap)
    requires store.Valid() && IsTop(store.nodes, root) && IsProfile(store.nodes, doc, profile, root)
    requires DocumentsAcyclic(store.nodes, doc, root, rank) && depth > 0
    modifies store
    ensures ok <==> !RulesClash(old(store.nodes), AddedRules(old(store.nodes), profile, root),
                                Lookup(old(store.nodes), profile, RULES))
    ensures ok ==> IsMerge(old(store.nodes), g, merged, profile, root, put) && root in inlined
    ensures ok && NoneHijacked(old(store.nodes), root, put) ==> RulesMerged(old(store.nodes), merged, profile, root)
    ensures ok && SharesNoList(inlined, root) && PlainLists(inlined, root) ==>
      && Reading(out) == PairsMeant(merged, root, depth)
      && SectionsWritten(old(store.nodes), profile, root, Reading(out), depth)
  {
    ghost var h := store.nodes;
    out, inlined := [], h;
    AcyclicGoesDown(h, rank);
    RankedMergesEnd(h, doc, profile, root, rank);
    ok, g, put := MergeMappings(store, profile, root, doc, rank);
    merged := store.nodes;
    if ok {
      ghost var order: Ref -> nat :| Acyclic(merged, order);
      out, inlined := WriteMerged(store, root, depth, order);
      SectionsAreMeant(h, g, merged, doc, profile, root, put, depth);
    }
  }

  lemma PairsUnseen(h: Heap, document: Ref, root: Ref, depth: nat)
    requires WellFormed(h) && document !in h && root in h
    ensures PairsMeant(h[document := Node(DocumentNode, "", "", "", [root], NIL)], root, depth) ==
            PairsMeant(h, root, depth)
  {
    forall j | 0 <= j < |h[root].content| {
      DocumentUnseen(h, document, root, h[root].content[j], depth);
    }
  }
}
