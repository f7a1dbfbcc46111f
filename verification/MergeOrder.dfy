/** When the look-ups of a merge end, and that a merge makes no document contain itself. */
module MergeOrder {
  import opened YamlGraph
  import opened MappingLookup
  import opened LookupEnds
  import opened MappingSet
  import opened SectionMerge

  // ----- When the look-ups end -----

  /** All that the merge looks up: the sections and the rules of the profile, and the overlay's rules once the sections
      are in. */
  ghost predicate LookupsEnd(h: Heap, profile: Ref, root: Ref)
    requires profile in h && root in h
  {
    && (forall key :: key in SECTIONS + [RULES] ==> Ends(h, profile, key))
    && Ends(Replaced(h, root, Taken(h, profile, SECTIONS)), root, RULES)
  }

  /** Whatever merges itself: where the profile has all its sections and both have rules, nothing merged is read. */
  lemma OwnPairsEnd(h: Heap, doc: set<Ref>, profile: Ref, root: Ref)
    requires IsTop(h, root) && IsProfile(h, doc, profile, root)
    requires forall key :: key in SECTIONS + [RULES] ==> OwnPair(h, profile, key).Some?
    requires OwnPair(h, root, RULES).Some?
    ensures LookupsEnd(h, profile, root)
  {
    forall key | key in SECTIONS + [RULES] ensures Ends(h, profile, key) {
      OwnPairEnds(h, profile, key);
    }
    var put := Taken(h, profile, SECTIONS);
    TakenInside(h, doc, profile, root, SECTIONS);
    ReplacedOwnPair(h, root, put, RULES);
    OwnPairEnds(Replaced(h, root, put), root, RULES);
  }

  lemma {:induction false} MergeValuesHas(h: Heap, content: seq<Ref>, i: nat, j: nat)
    requires i < j < |content| && j % 2 == 1 && i % 2 == 0 && IsMergeKey(h, content[j - 1])
    ensures content[j] in MergeValues(h, content, i)
    decreases |content| - i
  {
    if j == i + 1 {
    } else {
      MergeValuesHas(h, content, i + 2, j);
    }
  }

  lemma {:induction false} AllCandidatesHas(h: Heap, sources: seq<Ref>, s: Ref, x: Ref)
    requires s in sources && x in Candidates(h, s)
    ensures x in AllCandidates(h, sources)
    decreases |sources|
  {
    if s == sources[0] {
    } else {
      AllCandidatesHas(h, sources[1..], s, x);
    }
  }

  lemma MergedHas(h: Heap, m: Ref, j: nat, x: Ref)
    requires m in h && 0 < j < |h[m].content| && j % 2 == 1 && IsMergeKey(h, h[m].content[j - 1])
    requires x in Candidates(h, h[m].content[j])
    ensures x in Merged(h, m)
  {
    MergeValuesHas(h, h[m].content, 0, j);
    AllCandidatesHas(h, MergeValues(h, h[m].content, 0), h[m].content[j], x);
  }

  /** What the overlay merges with the profile's values in place: what it merged, or something of the profile. */
  lemma ReplacedMerges(h: Heap, doc: set<Ref>, profile: Ref, root: Ref, put: map<string, Ref>, x: Ref)
    requires IsTop(h, root) && IsProfile(h, doc, profile, root) && ValuesIn(h, put)
    requires (forall key :: key in put ==> put[key] in doc) && x in Merged(Replaced(h, root, put), root)
    ensures x in Merged(h, root) || (x in doc && Resolve(h, x) in doc)
  {
    var r := Replaced(h, root, put);
    ReplacedIsSound(h, root, put);
    var j := MergedFrom(r, root, x);
    var content := h[root].content;
    var value := PutAt(h, content, put, j);
    assert r[root].content[j] == value && r[root].content[j - 1] == PutAt(h, content, put, j - 1) == content[j - 1];
    NodesAlike(h, r, root, content[j - 1]);
    CandidatesAlike(h, r, root, value);
    if value == content[j] {
      MergedHas(h, root, j, x);
    } else {
      assert value in doc;
      CandidatesOfProfile(h, doc, profile, root, value, x);
    }
  }

  /** With the profile below the overlay's mapping, ranks that go down still do. */
  lemma ReplacedGoesDown(h: Heap, doc: set<Ref>, profile: Ref, root: Ref, put: map<string, Ref>, rank: Ref -> nat)
    requires IsTop(h, root) && IsProfile(h, doc, profile, root) && ValuesIn(h, put)
    requires (forall key :: key in put ==> put[key] in doc) && forall n :: n in doc ==> rank(n) < rank(root)
    requires MergesGoDown(h, Mappings(h, h.Keys), rank)
    ensures var r := Replaced(h, root, put); MergesGoDown(r, Mappings(r, r.Keys), rank)
  {
    var r := Replaced(h, root, put);
    ReplacedIsSound(h, root, put);
    forall m, c | m in r && Merges(r, m, c) ensures rank(c) < rank(m) {
      var x :| x in Merged(r, m) && c == Resolve(r, x);
      MergedInside(r, m);
      NodesAlike(h, r, root, x);
      NodesAlike(h, r, root, m);
      NodesAlike(h, r, root, c);
      if m == root {
        ReplacedMerges(h, doc, profile, root, put, x);
      } else {
        OtherNodeAlike(h, r, root, m, "");
      }
      assert x in Merged(h, m) ==> Merges(h, m, c);
    }
  }

  lemma AllMappingsClosed(h: Heap)
    requires WellFormed(h)
    ensures MergeClosed(h, Mappings(h, h.Keys))
  {
  }

  /** Where no mapping merges itself, and no part of the profile merges the overlay's mapping, all look-ups end. */
  lemma RankedMergesEnd(h: Heap, doc: set<Ref>, profile: Ref, root: Ref, rank: Ref -> nat)
    requires IsTop(h, root) && IsProfile(h, doc, profile, root)
    requires MergesGoDown(h, Mappings(h, h.Keys), rank) && forall n :: n in doc ==> rank(n) < rank(root)
    ensures LookupsEnd(h, profile, root)
  {
    AllMappingsClosed(h);
    forall key | key in SECTIONS + [RULES] ensures Ends(h, profile, key) {
      RankedEnds(h, Mappings(h, h.Keys), rank, profile, key);
    }
    var put := Taken(h, profile, SECTIONS);
    var r := Replaced(h, root, put);
    TakenInside(h, doc, profile, root, SECTIONS);
    ReplacedIsSound(h, root, put);
    ReplacedGoesDown(h, doc, profile, root, put, rank);
    AllMappingsClosed(r);
    RankedEnds(r, Mappings(r, r.Keys), rank, root, RULES);
  }

  // ----- Documents that do not contain themselves -----

  lemma ResolvedInside(h: Heap)
    requires WellFormed(h)
    ensures forall n, i :: n in h && 0 <= i < |h[n].content| ==> Resolve(h, h[n].content[i]) in h
  {
    forall n, i | n in h && 0 <= i < |h[n].content| ensures Resolve(h, h[n].content[i]) in h {
      ResolvesInside(h, h[n].content[i]);
    }
  }

  /** Something merged is below what merges it. */
  lemma AcyclicGoesDown(h: Heap, order: Ref -> nat)
    requires WellFormed(h) && Acyclic(h, order)
    ensures MergesGoDown(h, Mappings(h, h.Keys), order)
  {
    forall m, c | m in h && Merges(h, m, c) ensures order(c) < order(m) {
      var x :| x in Merged(h, m) && c == Resolve(h, x);
      var j := MergedFrom(h, m, x);
      var r := Resolve(h, h[m].content[j]);
      ResolvesInside(h, h[m].content[j]);
      assert order(r) < order(m);
      if h[r].kind == SequenceNode {
        var i :| 0 <= i < |h[r].content| && h[r].content[i] == x;
      } else {
        assert x == r && Resolve(h, r) == r;
      }
    }
  }

  /** What a mapping reads is below it. */
  lemma ReadsBelow(h: Heap, m: Ref, key: string, order: Ref -> nat)
    requires WellFormed(h) && IsMapping(h, m) && Acyclic(h, order) && Lookup(h, m, key).Some?
    ensures var value := Lookup(h, m, key).value; value in h && order(Resolve(h, value)) < order(m)
  {
    AcyclicGoesDown(h, order);
    var s := set n | n in h && IsMapping(h, n) && order(n) <= order(m);
    var c := ReadFromSomewhere(h, s, m, key);
    GivenInside(h, c, key, Lookup(h, m, key).value);
  }

  /** Every value that is put is below the mapping. */
  ghost predicate PutBelow(h: Heap, root: Ref, put: map<string, Ref>, order: Ref -> nat) {
    forall key :: key in put ==> put[key] in h && order(Resolve(h, put[key])) < order(root)
  }

  /** Room for new nodes right below the overlay's mapping. */
  function Raised(h: Heap, root: Ref, order: Ref -> nat): Ref -> nat {
    n => if n in h then 2 * order(n) + 1 else 2 * order(root)
  }

  lemma RaisedKeepsOrder(h: Heap, root: Ref, order: Ref -> nat)
    requires WellFormed(h) && Acyclic(h, order)
    ensures Acyclic(h, Raised(h, root, order))
  {
    ResolvedInside(h);
  }

  lemma ReplacedIsAcyclic(h: Heap, root: Ref, put: map<string, Ref>, order: Ref -> nat)
    requires WellFormed(h) && IsMapping(h, root) && Acyclic(h, order) && ValuesIn(h, put)
    requires PutBelow(h, root, put, order)
    ensures Acyclic(Replaced(h, root, put), order)
  {
    var r := Replaced(h, root, put);
    ReplacedIsSound(h, root, put);
    forall n, i | n in r && 0 <= i < |r[n].content| ensures order(Resolve(r, r[n].content[i])) < order(n) {
      if n == root {
        assert r[n].content[i] == PutAt(h, h[root].content, put, i);
      }
      NodesAlike(h, r, root, r[n].content[i]);
    }
  }

  /** Setting keys of the overlay's mapping to what is below it makes no document contain itself. */
  lemma PutIsAcyclic(h: Heap, h': Heap, root: Ref, put: map<string, Ref>, order: Ref -> nat)
    requires WellFormed(h) && WellFormed(h') && IsPut(h, h', root, put) && Acyclic(h, order)
    requires PutBelow(h, root, put, order)
    ensures Acyclic(h', Raised(h, root, order))
  {
    var order' := Raised(h, root, order);
    ResolvedInside(h);
    forall n, i | n in h' && 0 <= i < |h'[n].content| ensures order'(Resolve(h', h'[n].content[i])) < order'(n) {
      if n == root {
        RootEntryBelow(h, h', root, put, order, i);
      } else {
        assert n in h && h'[n] == h[n];
        NodesAlike(h, h', root, h[n].content[i]);
      }
    }
  }

  lemma RootEntryBelow(h: Heap, h': Heap, root: Ref, put: map<string, Ref>, order: Ref -> nat, i: nat)
    requires WellFormed(h) && WellFormed(h') && IsPut(h, h', root, put) && Acyclic(h, order)
    requires PutBelow(h, root, put, order) && i < |h'[root].content|
    ensures var order' := Raised(h, root, order); order'(Resolve(h', h'[root].content[i])) < order'(root)
  {
    var content, content' := h[root].content, h'[root].content;
    assert SlotPut(h, h', content, content', put, i);
    var c := content'[i];
    if c in h {
      NodesAlike(h, h', root, c);
      ResolvesInside(h, c);
      if !(i < |content| && c == content[i]) {
        var key :| key in put && put[key] == c;
      }
    } else {
      assert Resolve(h', c) == c;
    }
  }
}
