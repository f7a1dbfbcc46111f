/** Keys of a profile taken over into the overlay's mapping, and what every key then reads as. */
module SectionMerge {
  import opened Wrappers
  import opened YamlGraph
  import opened MappingLookup
  import opened MappingSet

  const SECTIONS := ["proxies", "proxy-groups", "sub-rules"]
  const RULES := "rules"

  // ----- Two documents -----

  /** A mapping of pairs, as parsed. */
  ghost predicate IsTop(h: Heap, root: Ref) {
    WellFormed(h) && IsMapping(h, root) && |h[root].content| % 2 == 0
  }

  /** The nodes of the profile: a document of its own, of which the overlay's mapping has no part. */
  ghost predicate IsProfile(h: Heap, doc: set<Ref>, profile: Ref, root: Ref) {
    && IsMapping(h, profile) && profile in doc && root !in doc && root in h
    && (forall n :: n in doc ==> n in h)
    && (forall n, i :: n in doc && 0 <= i < |h[n].content| ==> h[n].content[i] in doc)
    && (forall n :: n in doc && IsAlias(h, n) ==> h[n].alias in doc)
    && (forall j :: 0 <= j < |h[root].content| ==> h[root].content[j] !in doc)
  }

  /** The mappings among these nodes. */
  ghost function Mappings(h: Heap, nodes: set<Ref>): set<Ref> {
    set n | n in nodes && IsMapping(h, n)
  }

  lemma MergeValueAt(h: Heap, content: seq<Ref>, s: Ref) returns (j: nat)
    requires s in MergeValues(h, content, 0)
    ensures 0 < j < |content| && j % 2 == 1 && IsMergeKey(h, content[j - 1]) && content[j] == s
  {
    MergeValuesOf(h, content, 0, s);
    j :| 0 < j < |content| && j % 2 != 0 % 2 && IsMergeKey(h, content[j - 1]) && content[j] == s;
  }

  lemma MergedFrom(h: Heap, m: Ref, x: Ref) returns (j: nat)
    requires WellFormed(h) && m in h && x in Merged(h, m)
    ensures 0 < j < |h[m].content| && j % 2 == 1 && IsMergeKey(h, h[m].content[j - 1])
    ensures h[m].content[j] in h && x in Candidates(h, h[m].content[j]) && x in h
  {
    var content := h[m].content;
    CandidateOf(h, MergeValues(h, content, 0), x);
    var s :| s in MergeValues(h, content, 0) && x in Candidates(h, s);
    j := MergeValueAt(h, content, s);
    CandidatesInside(h, s);
  }

  lemma CandidatesOfProfile(h: Heap, doc: set<Ref>, profile: Ref, root: Ref, value: Ref, x: Ref)
    requires WellFormed(h) && IsProfile(h, doc, profile, root) && value in doc && x in Candidates(h, value)
    ensures x in doc && Resolve(h, x) in doc
  {
    var s := Resolve(h, value);
    assert s in doc;
  }

  lemma ProfileMergesItself(h: Heap, doc: set<Ref>, profile: Ref, root: Ref)
    requires WellFormed(h) && IsProfile(h, doc, profile, root)
    ensures MergeClosed(h, Mappings(h, doc)) && profile in Mappings(h, doc)
  {
    var s := Mappings(h, doc);
    forall m, c | m in s && Merges(h, m, c) ensures c in s {
      var x :| x in Merged(h, m) && c == Resolve(h, x);
      var j := MergedFrom(h, m, x);
      CandidatesOfProfile(h, doc, profile, root, h[m].content[j], x);
    }
  }

  /** What the profile gives is of the profile. */
  lemma ProfileValue(h: Heap, doc: set<Ref>, profile: Ref, root: Ref, key: string)
    requires WellFormed(h) && IsProfile(h, doc, profile, root) && Lookup(h, profile, key).Some?
    ensures Lookup(h, profile, key).value in doc
  {
    ProfileMergesItself(h, doc, profile, root);
    var c := ReadFromSomewhere(h, Mappings(h, doc), profile, key);
    GivenInside(h, c, key, Lookup(h, profile, key).value);
  }

  lemma ProfileReadsAsBefore(h: Heap, h': Heap, doc: set<Ref>, profile: Ref, root: Ref, key: string)
    requires WellFormed(h) && OnlyChanges(h, h', root) && IsProfile(h, doc, profile, root)
    ensures ReadsAlike(h, h', profile, key)
  {
    ProfileMergesItself(h, doc, profile, root);
    ReadsElsewhere(h, h', root, Mappings(h, doc), profile, key);
  }

  // ----- Taking keys over -----

  /** What the profile gives for the keys that are taken over. */
  ghost function Taken(h: Heap, profile: Ref, keys: seq<string>): map<string, Ref>
    requires profile in h
  {
    map key | key in keys && Lookup(h, profile, key).Some? :: Lookup(h, profile, key).value
  }

  /** What is taken over is of the profile. */
  lemma TakenInside(h: Heap, doc: set<Ref>, profile: Ref, root: Ref, keys: seq<string>)
    requires WellFormed(h) && IsProfile(h, doc, profile, root)
    ensures ValuesIn(h, Taken(h, profile, keys))
    ensures forall key :: key in Taken(h, profile, keys) ==> Taken(h, profile, keys)[key] in doc
  {
    forall key | key in Taken(h, profile, keys) ensures Taken(h, profile, keys)[key] in doc {
      ProfileValue(h, doc, profile, root, key);
    }
  }

  /** No key that is put is first met as the text of a merge key. */
  ghost predicate NoneHijacked(h: Heap, root: Ref, put: map<string, Ref>)
    requires root in h
  {
    forall key :: key in put ==> !Hijacked(h, h[root].content, key)
  }

  /** Takes one key over, if the profile has it. */
  method TakeKey(store: NodeStore, profile: Ref, root: Ref, key: string, ghost h: Heap, ghost doc: set<Ref>,
                 ghost taken: seq<string>)
    requires store.Valid() && IsTop(h, root) && IsProfile(h, doc, profile, root) && key !in taken
    requires IsPut(h, store.nodes, root, Taken(h, profile, taken)) && Ends(h, profile, key)
    modifies store
    ensures store.Valid() && IsPut(h, store.nodes, root, Taken(h, profile, taken + [key]))
  {
    ghost var h' := store.nodes;
    ProfileReadsAsBefore(h, h', doc, profile, root, key);
    ghost var fuel: nat :| ReadWithin(h', profile, key, fuel).Some?;
    var value := MappingValue(store.nodes, profile, key, fuel);
    TakenOneMore(h, profile, taken, key);
    if value.Some? {
      ProfileValue(h, doc, profile, root, key);
      SetMappingValue(store, root, key, value.value);
      SetPuts(h, h', store.nodes, root, Taken(h, profile, taken), key, value.value);
    }
  }

  lemma TakenOneMore(h: Heap, profile: Ref, taken: seq<string>, key: string)
    requires profile in h && key !in taken
    ensures key !in Taken(h, profile, taken)
    ensures Taken(h, profile, taken + [key]) ==
            match Lookup(h, profile, key)
            case Some(value) => Taken(h, profile, taken)[key := value]
            case None => Taken(h, profile, taken)
  {
  }

  lemma OneKeyMore(keys: seq<string>, k: nat)
    requires k < |keys| && forall i, j :: 0 <= i < j < |keys| ==> keys[i] != keys[j]
    ensures keys[k] !in keys[..k] && keys[..k] + [keys[k]] == keys[..k + 1]
  {
  }

  /** Takes keys over, one after the other. */
  method TakeKeys(store: NodeStore, profile: Ref, root: Ref, keys: seq<string>, ghost doc: set<Ref>)
    requires store.Valid() && IsTop(store.nodes, root) && IsProfile(store.nodes, doc, profile, root)
    requires forall i, j :: 0 <= i < j < |keys| ==> keys[i] != keys[j]
    requires forall key :: key in keys ==> Ends(store.nodes, profile, key)
    modifies store
    ensures store.Valid() && IsPut(old(store.nodes), store.nodes, root, Taken(old(store.nodes), profile, keys))
  {
    ghost var h := store.nodes;
    NothingPut(h, root);
    assert Taken(h, profile, keys[..0]) == map[];
    for k := 0 to |keys|
      invariant store.Valid() && IsPut(h, store.nodes, root, Taken(h, profile, keys[..k]))
    {
      OneKeyMore(keys, k);
      assert keys[k] in keys;
      TakeKey(store, profile, root, keys[k], h, doc, keys[..k]);
    }
    assert keys[..|keys|] == keys;
  }

  lemma KeysDiffer(keys: seq<string>)
    requires keys == SECTIONS
    ensures forall i, j :: 0 <= i < j < |keys| ==> keys[i] != keys[j]
    ensures RULES !in keys
  {
    assert "proxies"[4] == 'i' && "proxy-groups"[4] == 'y' && "sub-rules"[0] == 's' && RULES[0] == 'r';
  }

  // ----- What the keys then read as -----

  /** A section the profile has reads as in the profile after the merge if and only if its key is not first met as the
      text of a merge key; or it is, and the sections that took the places of merge values give the node back. */
  lemma SectionReadsExactly(h: Heap, h': Heap, profile: Ref, root: Ref, put: map<string, Ref>, key: string)
    requires WellFormed(h) && profile in h && IsPut(h, h', root, put) && ValuesIn(h, put)
    requires key in put && Lookup(h, profile, key) == Some(put[key])
    ensures Lookup(h', root, key) == Lookup(h, profile, key) <==>
            !Hijacked(h, h[root].content, key) || Lookup(Replaced(h, root, put), root, key) == Some(put[key])
  {
    PutReads(h, h', root, put, key);
  }

  /** This node is the first that these candidates give. */
  ghost predicate FirstGiven(h: Heap, refs: seq<Ref>, key: string, value: Ref) {
    exists fuel: nat :: ReadFirst(h, refs, key, fuel) == Some(Some(value))
  }

  /** The mapping is not among what it merges with these values put. */
  ghost predicate MergesElsewhere(h: Heap, root: Ref, put: map<string, Ref>)
    requires root in h
  {
    exists s: set<Ref> :: MergeClosed(h, s) && root !in s && MergesOnly(h, root, put, s)
  }

  /** In the two documents alone: a section first met as the text of a merge key survives if and only if the overlay has
      no pair of that key and what it merges, with the profile's sections in their places, gives that very node. */
  lemma HijackedSectionSurvivesExactly(h: Heap, h': Heap, doc: set<Ref>, profile: Ref, root: Ref,
                                       put: map<string, Ref>, key: string)
    requires WellFormed(h) && IsProfile(h, doc, profile, root) && IsPut(h, h', root, put) && ValuesIn(h, put)
    requires key in put && Lookup(h, profile, key) == Some(put[key]) && Hijacked(h, h[root].content, key)
    requires MergesElsewhere(h, root, put)
    ensures Lookup(h', root, key) == Lookup(h, profile, key) <==>
            OwnPair(h, root, key).None? && FirstGiven(h, Merged(Replaced(h, root, put), root), key, put[key])
  {
    var r, value := Replaced(h, root, put), put[key];
    PutReads(h, h', root, put, key);
    ReplacedOwnPair(h, root, put, key);
    ProfileValue(h, doc, profile, root, key);
    if OwnPair(h, root, key).Some? {
      GivenInside(h, root, key, OwnPair(h, root, key).value);
      OwnPairEnds(r, root, key);
    } else {
      LookupIsFirst(r, root, key, value);
      FirstGivenAlike(h, root, put, key, value);
    }
  }

  lemma LookupIsFirst(h: Heap, m: Ref, key: string, value: Ref)
    requires m in h && OwnPair(h, m, key).None?
    ensures Lookup(h, m, key) == Some(value) <==> FirstGiven(h, Merged(h, m), key, value)
  {
    if Lookup(h, m, key) == Some(value) {
      var fuel: nat :| ReadWithin(h, m, key, fuel).Some?;
      ReadIsLookup(h, m, key, fuel);
      assert ReadFirst(h, Merged(h, m), key, fuel - 1) == Some(Some(value));
    }
    if FirstGiven(h, Merged(h, m), key, value) {
      var fuel: nat :| ReadFirst(h, Merged(h, m), key, fuel) == Some(Some(value));
      ReadIsLookup(h, m, key, fuel + 1);
    }
  }

  lemma FirstGivenAlike(h: Heap, root: Ref, put: map<string, Ref>, key: string, value: Ref)
    requires WellFormed(h) && IsMapping(h, root) && ValuesIn(h, put) && MergesElsewhere(h, root, put)
    ensures var r := Replaced(h, root, put);
            FirstGiven(r, Merged(r, root), key, value) <==> FirstGiven(h, Merged(r, root), key, value)
  {
    var r := Replaced(h, root, put);
    var refs := Merged(r, root);
    ReplacedIsSound(h, root, put);
    MergedInside(r, root);
    var s: set<Ref> :| MergeClosed(h, s) && root !in s && MergesOnly(h, root, put, s);
    forall c | c in s ensures SameToReader(h, r, c, key) {
      OtherNodeAlike(h, r, root, c, key);
    }
    forall x | x in refs
      ensures Resolve(r, x) == Resolve(h, x) && IsMapping(r, Resolve(h, x)) == IsMapping(h, Resolve(h, x))
    {
      NodesAlike(h, r, root, x);
    }
    forall fuel: nat ensures ReadFirst(r, refs, key, fuel) == ReadFirst(h, refs, key, fuel) {
      ReadsFirstAlike(h, r, s, refs, key, fuel);
    }
  }

  /** Where no key that is put is first met as the text of a merge key, those keys read as put and everything else as
      before. */
  lemma MergedReads(h: Heap, h': Heap, root: Ref, put: map<string, Ref>, key: string)
    requires WellFormed(h) && IsPut(h, h', root, put) && ValuesIn(h, put) && NoneHijacked(h, root, put)
    ensures if key in put then Ends(h', root, key) && Lookup(h', root, key) == Some(put[key])
            else ReadsAlike(h, h', root, key)
  {
    NothingReplaced(h, root, put);
    PutReads(h, h', root, put, key);
  }

  /** Whatever other keys do, a key that is not first met as the text of a merge key reads as put, and one that is not
      put and the mapping itself has reads as before. */
  lemma OwnPairReads(h: Heap, h': Heap, root: Ref, put: map<string, Ref>, key: string)
    requires IsPut(h, h', root, put)
    ensures key in put && !Hijacked(h, h[root].content, key) ==> Lookup(h', root, key) == Some(put[key])
    ensures key !in put && OwnPair(h, root, key).Some? ==> ReadsAlike(h, h', root, key)
  {
    assert OwnPairPut(h, h', root, put, key);
    if key in put && !Hijacked(h, h[root].content, key) {
      OwnPairEnds(h', root, key);
    } else if key !in put && OwnPair(h, root, key).Some? {
      OwnPairEnds(h, root, key);
      OwnPairEnds(h', root, key);
    }
  }

  /** Two parsed documents side by side. */
  lemma TwoDocuments(a: Heap, b: Heap, profile: Ref, root: Ref)
    requires WellFormed(a) && WellFormed(b) && a.Keys !! b.Keys && IsMapping(a, profile) && root in b
    ensures WellFormed(a + b) && IsProfile(a + b, a.Keys, profile, root)
  {
  }

  predicate Has(h: Heap, n: Ref, node: Node) {
    n in h && h[n] == node
  }

  /** The profile `<<: &b {proxies: []}` with `sub-rules: {<<: *b}`. */
  predicate SurvivingProfile(h: Heap) {
    && Has(h, 1, Node(MappingNode, "!!map", "", "", [2, 3, 4, 5], NIL))
    && Has(h, 2, Node(ScalarNode, "!!merge", "<<", "", [], NIL))
    && Has(h, 3, Node(MappingNode, "!!map", "", "b", [6, 7], NIL))
    && Has(h, 4, Node(ScalarNode, "!!str", "sub-rules", "", [], NIL))
    && Has(h, 5, Node(MappingNode, "!!map", "", "", [8, 9], NIL))
    && Has(h, 6, Node(ScalarNode, "!!str", "proxies", "", [], NIL))
    && Has(h, 7, Node(SequenceNode, "!!seq", "", "", [], NIL))
    && Has(h, 8, Node(ScalarNode, "!!merge", "<<", "", [], NIL))
    && Has(h, 9, Node(AliasNode, "", "b", "", [], 3))
  }

  /** An overlay of two merge keys of the texts "proxies" and "sub-rules". */
  predicate SurvivingOverlay(h: Heap, content: seq<Ref>) {
    && Has(h, 20, Node(MappingNode, "!!map", "", "", content, NIL))
    && Has(h, 21, Node(ScalarNode, "!!merge", "proxies", "", [], NIL))
    && Has(h, 22, Node(MappingNode, "!!map", "", "", [], NIL))
    && Has(h, 23, Node(ScalarNode, "!!merge", "sub-rules", "", [], NIL))
    && Has(h, 24, Node(MappingNode, "!!map", "", "", [], NIL))
  }

  lemma SurvivingProfileClosed(h: Heap)
    requires SurvivingProfile(h)
    ensures forall n, i :: 1 <= n <= 9 && 0 <= i < |h[n].content| ==> h[n].content[i] in h
  {
  }

  lemma SurvivingOverlayClosed(h: Heap)
    requires SurvivingOverlay(h, [21, 22, 23, 24])
    ensures forall n, i :: 20 <= n <= 24 && 0 <= i < |h[n].content| ==> h[n].content[i] in h
  {
  }

  lemma SurvivingDocuments(h: Heap)
    requires SurvivingProfile(h) && SurvivingOverlay(h, [21, 22, 23, 24])
    requires h.Keys == {1, 2, 3, 4, 5, 6, 7, 8, 9} + {20, 21, 22, 23, 24}
    ensures WellFormed(h)
  {
    SurvivingProfileClosed(h);
    SurvivingOverlayClosed(h);
    forall n | n in h ensures 1 <= n <= 9 || 20 <= n <= 24 {
    }
  }

  lemma SurvivingProfileIsProfile(h: Heap)
    requires SurvivingProfile(h) && SurvivingOverlay(h, [21, 22, 23, 24])
    ensures IsProfile(h, {1, 2, 3, 4, 5, 6, 7, 8, 9}, 1, 20)
  {
  }

  /** What the profile gives there. */
  lemma SurvivingValues(h: Heap)
    requires SurvivingProfile(h) && SurvivingOverlay(h, [21, 22, 23, 24])
    ensures Lookup(h, 1, "proxies") == Some(7) && Lookup(h, 1, "sub-rules") == Some(5)
  {
    MergeThenPair(h, 1, "proxies");
    OnePairRead(h, 3, 6, 7, "proxies");
    assert "proxies"[0] == 'p' && "sub-rules"[0] == 's';
    assert Candidates(h, 3) == [3];
    ReadThrough(h, 1, "proxies");
    MergeThenPair(h, 1, "sub-rules");
    OwnPairEnds(h, 1, "sub-rules");
  }

  /** A merge key and a pair. */
  lemma MergeThenPair(h: Heap, m: Ref, key: string)
    requires m in h && |h[m].content| == 4 && IsMergeKey(h, h[m].content[0]) && IsName(h, h[m].content[2])
    requires !IsMergeKey(h, h[m].content[2])
    ensures OwnPair(h, m, key) == if h[h[m].content[2]].value == key then Some(h[m].content[3]) else None
    ensures Merged(h, m) == Candidates(h, h[m].content[1])
  {
    var content := h[m].content;
    assert FindKey(h, content, key, 4) == 4;
    assert FindKey(h, content, key, 0) == FindKey(h, content, key, 2);
    assert MergeValues(h, content, 4) == [] && MergeValues(h, content, 2) == [];
    assert MergeValues(h, content, 0) == [content[1]];
    assert [content[1]][1..] == [] && AllCandidates(h, []) == [];
    assert AllCandidates(h, [content[1]]) == Candidates(h, content[1]);
  }

  /** Two merge keys, the first of which gives nothing, and the second something merged deeper. */
  lemma TwoMergeKeys(h: Heap, m: Ref, key: string)
    requires m in h && |h[m].content| == 4 && IsMergeKey(h, h[m].content[0]) && IsMergeKey(h, h[m].content[2])
    requires Candidates(h, h[m].content[1]) == []
    ensures OwnPair(h, m, key).None? && Merged(h, m) == Candidates(h, h[m].content[3])
  {
    var content := h[m].content;
    assert FindKey(h, content, key, 4) == 4;
    assert FindKey(h, content, key, 0) == FindKey(h, content, key, 2);
    assert MergeValues(h, content, 4) == [] && MergeValues(h, content, 2) == [content[3]];
    assert MergeValues(h, content, 0) == [content[1], content[3]];
    assert [content[1], content[3]][1..] == [content[3]] && [content[3]][1..] == [] && AllCandidates(h, []) == [];
    assert AllCandidates(h, [content[3]]) == Candidates(h, content[3]);
  }

  /** Both sections go to a merge key there, and the sub-rules put in one place give the proxies back. */
  lemma HijackedSectionSurvives(h: Heap, h1: Heap, h2: Heap)
    requires SurvivingProfile(h) && SurvivingOverlay(h, [21, 22, 23, 24])
    requires h.Keys == {1, 2, 3, 4, 5, 6, 7, 8, 9} + {20, 21, 22, 23, 24}
    requires h1 == h[20 := Node(MappingNode, "!!map", "", "", [21, 7, 23, 24], NIL)]
    requires h2 == h[20 := Node(MappingNode, "!!map", "", "", [21, 7, 23, 5], NIL)]
    ensures WellFormed(h) && IsProfile(h, {1, 2, 3, 4, 5, 6, 7, 8, 9}, 1, 20)
    ensures Hijacked(h, h[20].content, "proxies") && Hijacked(h, h[20].content, "sub-rules")
    ensures IsSet(h, h1, 20, "proxies", 7) && IsSet(h1, h2, 20, "sub-rules", 5)
    ensures Lookup(h, 1, "proxies") == Some(7) && Lookup(h, 1, "sub-rules") == Some(5)
    ensures Lookup(h2, 20, "proxies") == Some(7)
  {
    SurvivingDocuments(h);
    SurvivingProfileIsProfile(h);
    SurvivingValues(h);
    SurvivingSets(h, h1, h2);
    SurvivorIsRead(h2);
  }

  lemma ReadTwoDeep(h: Heap, m: Ref, x: Ref, y: Ref, key: string)
    requires m in h && OwnPair(h, m, key).None? && Merged(h, m) == [x] && IsMapping(h, Resolve(h, x))
    requires OwnPair(h, Resolve(h, x), key).None? && Merged(h, Resolve(h, x)) == [y] && IsMapping(h, Resolve(h, y))
    requires OwnPair(h, Resolve(h, y), key).Some?
    ensures Lookup(h, m, key) == OwnPair(h, Resolve(h, y), key)
  {
    var r := Some(OwnPair(h, Resolve(h, y), key));
    assert ReadWithin(h, Resolve(h, y), key, 1) == r;
    assert ReadWithin(h, Resolve(h, x), key, 2) == ReadFirst(h, [y], key, 1) == r;
    assert ReadWithin(h, m, key, 3) == ReadFirst(h, [x], key, 2) == r;
    ReadIsLookup(h, m, key, 3);
  }

  lemma SurvivorIsRead(h2: Heap)
    requires SurvivingProfile(h2) && SurvivingOverlay(h2, [21, 7, 23, 5])
    ensures Lookup(h2, 20, "proxies") == Some(7)
  {
    TwoMergeKeys(h2, 20, "proxies");
    OnePairRead(h2, 5, 8, 9, "proxies");
    OnePairRead(h2, 3, 6, 7, "proxies");
    assert Candidates(h2, 5) == [5] && Candidates(h2, 9) == [3];
    ReadTwoDeep(h2, 20, 5, 3, "proxies");
  }

  lemma SurvivingSets(h: Heap, h1: Heap, h2: Heap)
    requires SurvivingProfile(h) && SurvivingOverlay(h, [21, 22, 23, 24])
    requires h1 == h[20 := Node(MappingNode, "!!map", "", "", [21, 7, 23, 24], NIL)]
    requires h2 == h[20 := Node(MappingNode, "!!map", "", "", [21, 7, 23, 5], NIL)]
    ensures Hijacked(h, h[20].content, "proxies") && Hijacked(h, h[20].content, "sub-rules")
    ensures IsSet(h, h1, 20, "proxies", 7) && IsSet(h1, h2, 20, "sub-rules", 5)
  {
    var content, content' := [21, 22, 23, 24], [21, 7, 23, 24];
    assert "proxies"[0] == 'p' && "sub-rules"[0] == 's';
    assert content[0 + 1 := 7] == content' && content'[2 + 1 := 5] == [21, 7, 23, 5];
    assert FindName(h, content, "proxies", 0) == 0;
    assert FindName(h, content, "sub-rules", 0) == FindName(h, content, "sub-rules", 2) == 2;
    assert FindName(h1, content', "sub-rules", 0) == FindName(h1, content', "sub-rules", 2) == 2;
  }
}
