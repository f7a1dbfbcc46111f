/** The profile's large sections merged into the overlay the host sends. */
module ProfileMerge {
  import opened Wrappers
  import opened YamlGraph
  import opened MappingLookup
  import opened MappingSet
  import opened SectionMerge
  import opened MergeOrder

  predicate IsNull(h: Heap, n: Ref) {
    n in h && h[n].kind == ScalarNode && h[n].tag == "!!null"
  }

  predicate IsSequence(h: Heap, n: Ref) {
    n in h && h[n].kind == SequenceNode
  }

  /** The list a node stands for, if it stands for one; null stands for none. */
  function Items(h: Heap, n: Ref): Option<seq<Ref>> {
    var r := Resolve(h, n);
    if IsNull(h, r) then Some([]) else if IsSequence(h, r) then Some(h[r].content) else None
  }

  function AddedItems(h: Heap, added: Option<Ref>): Option<seq<Ref>> {
    if added.None? then Some([]) else Items(h, added.value)
  }

  datatype RulesResult = NoRules | Rules(list: Ref) | NotAList

  /** h' is h with at most some new nodes. */
  ghost predicate OnlyGrows(h: Heap, h': Heap) {
    forall n :: n in h ==> n in h' && h'[n] == h[n]
  }

  /** Two rule values that cannot be put together: the profile has rules, the overlay adds some, and one of the two is
      no list. */
  ghost predicate RulesClash(h: Heap, added: Option<Ref>, profile: Option<Ref>) {
    && profile.Some? && AddedItems(h, added) != Some([]) && !IsNull(h, Resolve(h, profile.value))
    && (AddedItems(h, added).None? || Items(h, profile.value).None?)
  }

  /** list stands for the added rules in front of the profile's; what is no list is kept if the other side is empty. */
  ghost predicate AreAppended(h: Heap, h': Heap, added: Option<Ref>, profile: Ref, list: Ref) {
    var front, back := AddedItems(h, added), Items(h, profile);
    && (front.Some? && back.Some? ==> Items(h', list) == Some(front.value + back.value))
    && (front == Some([]) ==> list == Resolve(h, profile))
    && (front.None? ==> added.Some? && list == Resolve(h, added.value))
  }

  /** The items of both lists. */
  ghost predicate IsNewList(h: Heap, added: Option<Ref>, profile: Option<Ref>, content: seq<Ref>) {
    && added.Some? && profile.Some?
    && IsSequence(h, Resolve(h, added.value)) && IsSequence(h, Resolve(h, profile.value))
    && content == h[Resolve(h, added.value)].content + h[Resolve(h, profile.value)].content
  }

  /** Where the list comes from: it is that of one side, or a new one of the items of both, the only new node. */
  ghost predicate ListsFrom(h: Heap, h': Heap, added: Option<Ref>, profile: Option<Ref>, r: RulesResult) {
    && (forall n :: n in h' && n !in h ==>
          h'[n].kind == SequenceNode && r == Rules(n) && IsNewList(h, added, profile, h'[n].content))
    && (r.Rules? ==> profile.Some? && r.list in h')
    && (r.Rules? && r.list in h ==>
          r.list == Resolve(h, profile.value) || (added.Some? && r.list == Resolve(h, added.value)))
  }

  method AppendRules(store: NodeStore, added: Option<Ref>, profile: Option<Ref>) returns (r: RulesResult)
    requires store.Valid()
    requires added.Some? ==> added.value in store.nodes
    requires profile.Some? ==> profile.value in store.nodes
    modifies store
    ensures store.Valid() && OnlyGrows(old(store.nodes), store.nodes)
    ensures r == NoRules <==> profile.None?
    ensures r == NotAList <==> RulesClash(old(store.nodes), added, profile)
    ensures r.Rules? ==> AreAppended(old(store.nodes), store.nodes, added, profile.value, r.list)
    ensures r.Rules? ==> r.list in store.nodes
    ensures ListsFrom(old(store.nodes), store.nodes, added, profile, r)
  {
    var h := store.nodes;
    if profile.None? {
      return NoRules;
    }
    assert forall list: seq<Ref> :: list + [] == list && [] + list == list;
    ResolvesInside(h, profile.value);
    var back := ResolveAlias(h, profile.value);
    if added.None? {
      return Rules(back);
    }
    ResolvesInside(h, added.value);
    var front := ResolveAlias(h, added.value);
    if IsNull(h, front) || (IsSequence(h, front) && |h[front].content| == 0) {
      return Rules(back);
    }
    if IsNull(h, back) {
      return Rules(front);
    }
    if !IsSequence(h, front) || !IsSequence(h, back) {
      return NotAList;
    }
    var list := store.New(Node(SequenceNode, "!!seq", "", "", h[front].content + h[back].content, NIL));
    r := Rules(list);
  }

  /** The top mapping of a parsed document; an empty document stands for an empty mapping. */
  method DocumentMapping(store: NodeStore, document: Ref) returns (r: Option<Ref>)
    requires store.Valid() && document in store.nodes && store.nodes[document].kind != AliasNode
    modifies store
    ensures store.Valid() && OnlyGrows(old(store.nodes), store.nodes)
    ensures var h := old(store.nodes);
            var node := if h[document].kind == DocumentNode && h[document].content != []
                        then Resolve(h, h[document].content[0]) else document;
            && (IsMapping(h, node) ==> r == Some(node) && store.nodes == h)
            && (!IsMapping(h, node) && r.Some? ==>
                  r.value !in h && IsMapping(store.nodes, r.value) && store.nodes[r.value].content == [])
            && (r.None? <==> IsSequence(h, node) || (h[node].kind == ScalarNode && !IsNull(h, node)))
  {
    var h := store.nodes;
    var node := document;
    if h[node].kind == DocumentNode && |h[node].content| > 0 {
      ResolvesInside(h, h[node].content[0]);
      node := ResolveAlias(h, h[node].content[0]);
    }
    if h[node].kind == MappingNode {
      return Some(node);
    }
    if h[node].kind == ZeroNode || h[node].kind == DocumentNode || IsNull(h, node) {
      var empty := store.New(Node(MappingNode, "!!map", "", "", [], NIL));
      return Some(empty);
    }
    r := None;
  }

  // ----- The rules -----

  lemma ItemsStay(h: Heap, h': Heap, m: Ref, n: Ref)
    requires WellFormed(h) && OnlyChanges(h, h', m) && n in h
    ensures Items(h', n) == Items(h, n) && Resolve(h', n) == Resolve(h, n)
    ensures IsNull(h', Resolve(h', n)) == IsNull(h, Resolve(h, n))
  {
    NodesAlike(h, h', m, n);
    ResolvesInside(h, n);
  }

  lemma ReadInside(h: Heap, m: Ref, key: string)
    requires WellFormed(h) && IsMapping(h, m) && Lookup(h, m, key).Some?
    ensures Lookup(h, m, key).value in h
  {
    AllMappingsClosed(h);
    var c := ReadFromSomewhere(h, Mappings(h, h.Keys), m, key);
    GivenInside(h, c, key, Lookup(h, m, key).value);
  }

  /** The rules the overlay adds, as they read once the sections are in. */
  ghost function AddedRules(h: Heap, profile: Ref, root: Ref): Option<Ref>
    requires profile in h && root in h
  {
    Lookup(Replaced(h, root, Taken(h, profile, SECTIONS)), root, RULES)
  }

  /** The rules that the two sides bring, and whether they clash, can be told before the sections are taken over. */
  lemma RulesOfBoth(h: Heap, h1: Heap, doc: set<Ref>, profile: Ref, root: Ref)
    requires IsTop(h, root) && IsProfile(h, doc, profile, root) && LookupsEnd(h, profile, root)
    requires IsPut(h, h1, root, Taken(h, profile, SECTIONS))
    ensures Ends(h1, root, RULES) && Lookup(h1, root, RULES) == AddedRules(h, profile, root)
    ensures profile in h1 && Ends(h1, profile, RULES) && Lookup(h1, profile, RULES) == Lookup(h, profile, RULES)
    ensures var added, theirs := AddedRules(h, profile, root), Lookup(h, profile, RULES);
            && (added.Some? ==> added.value in h) && (theirs.Some? ==> theirs.value in h)
            && RulesClash(h1, added, theirs) == RulesClash(h, added, theirs)
  {
    var put := Taken(h, profile, SECTIONS);
    var added, theirs := AddedRules(h, profile, root), Lookup(h, profile, RULES);
    KeysDiffer(SECTIONS);
    TakenInside(h, doc, profile, root, SECTIONS);
    PutReads(h, h1, root, put, RULES);
    ProfileReadsAsBefore(h, h1, doc, profile, root, RULES);
    ReplacedIsSound(h, root, put);
    if added.Some? {
      ReadInside(Replaced(h, root, put), root, RULES);
      ItemsStay(h, h1, root, added.value);
    }
    if theirs.Some? {
      ReadInside(h, profile, RULES);
      ItemsStay(h, h1, root, theirs.value);
    }
  }

  // ----- The list of rules is new -----

  /** The two documents, and the list of rules if a new one was made. */
  ghost function Grown(h: Heap, h1: Heap, h2: Heap): Heap {
    h + map n | n in h2 && n !in h1 :: h2[n]
  }

  /** What AppendRules made of the two documents with the sections in, said of the documents themselves. */
  lemma NewListInside(h: Heap, h1: Heap, h2: Heap, root: Ref, put: map<string, Ref>, added: Option<Ref>,
                      theirs: Option<Ref>, rules: RulesResult)
    requires WellFormed(h) && IsPut(h, h1, root, put) && ListsFrom(h1, h2, added, theirs, rules)
    requires (added.Some? ==> added.value in h) && (theirs.Some? ==> theirs.value in h)
    ensures forall n :: n in h2 && n !in h1 ==> IsNewList(h, added, theirs, h2[n].content)
    ensures forall n, i :: n in h2 && n !in h1 && 0 <= i < |h2[n].content| ==> h2[n].content[i] in h
  {
    if added.Some? && theirs.Some? {
      NodesAlike(h, h1, root, added.value);
      NodesAlike(h, h1, root, theirs.value);
      ResolvesInside(h, added.value);
      ResolvesInside(h, theirs.value);
    }
    forall n, i | n in h2 && n !in h1 && 0 <= i < |h2[n].content| ensures h2[n].content[i] in h {
      var a, b := Resolve(h, added.value), Resolve(h, theirs.value);
      var k := |h[a].content|;
      assert h2[n].content[i] == if i < k then h[a].content[i] else h[b].content[i - k];
    }
  }

  lemma GrownIsSound(h: Heap, h1: Heap, h2: Heap, root: Ref, put: map<string, Ref>)
    requires WellFormed(h) && WellFormed(h2) && IsPut(h, h1, root, put) && OnlyGrows(h1, h2)
    requires forall n :: n in h2 && n !in h1 ==> h2[n].kind == SequenceNode
    requires forall n, i :: n in h2 && n !in h1 && 0 <= i < |h2[n].content| ==> h2[n].content[i] in h
    ensures var g := Grown(h, h1, h2); WellFormed(g) && OnlyGrows(h, g) && OnlyChanges(h, g, root)
    ensures OnlyChanges(Grown(h, h1, h2), h2, root) && OnlyChanges(h1, h2, root)
  {
  }

  /** The sections are put in the grown documents as they were in the two alone. */
  lemma GrownIsPut(h: Heap, h1: Heap, h2: Heap, root: Ref, put: map<string, Ref>)
    requires WellFormed(h) && WellFormed(h1) && WellFormed(h2) && IsPut(h, h1, root, put) && OnlyGrows(h1, h2)
    requires forall n :: n in h2 && n !in h1 ==> h2[n].kind == SequenceNode
    requires forall n, i :: n in h2 && n !in h1 && 0 <= i < |h2[n].content| ==> h2[n].content[i] in h
    ensures IsPut(Grown(h, h1, h2), h2, root, put)
  {
    var g := Grown(h, h1, h2);
    var content, content' := h[root].content, h1[root].content;
    GrownIsSound(h, h1, h2, root, put);
    forall j | 0 <= j < |content'| ensures SlotPut(g, h2, content, content', put, j) {
      assert SlotPut(h, h1, content, content', put, j);
      GrownSlot(h, g, h1, h2, root, put, j);
    }
    forall key ensures OwnPairPut(g, h2, root, put, key) {
      assert OwnPairPut(h, h1, root, put, key);
      GrownOwnPair(h, g, h1, h2, root, put, key);
    }
  }

  lemma GrownOwnPair(h: Heap, g: Heap, h1: Heap, h2: Heap, root: Ref, put: map<string, Ref>, key: string)
    requires WellFormed(h) && WellFormed(h1) && OnlyChanges(h, g, root) && OnlyChanges(h1, h2, root)
    requires g[root] == h[root] && h2[root] == h1[root] && OwnPairPut(h, h1, root, put, key)
    ensures OwnPairPut(g, h2, root, put, key)
  {
    var content := h[root].content;
    PairsAlike(h, g, root, content, key, 0);
    PairsAlike(h1, h2, root, h1[root].content, key, 0);
    NamesAlike(h, g, root, content, key, 0);
  }

  lemma GrownSlot(h: Heap, g: Heap, h1: Heap, h2: Heap, root: Ref, put: map<string, Ref>, j: nat)
    requires WellFormed(h) && WellFormed(h1) && OnlyChanges(h, g, root) && OnlyChanges(h1, h2, root)
    requires root in h && root in h1 && g.Keys * h1.Keys <= h.Keys
    requires var content, content' := h[root].content, h1[root].content;
             |content| <= |content'| && j < |content'| && SlotPut(h, h1, content, content', put, j)
    ensures SlotPut(g, h2, h[root].content, h1[root].content, put, j)
  {
    var content, content' := h[root].content, h1[root].content;
    NodesAlike(h1, h2, root, content'[j]);
    if 0 < j <= |content| {
      NodesAlike(h, g, root, content[j - 1]);
      if j < |content| && IsMergeKey(h, content[j - 1]) {
        NamesAlike(h, g, root, content, h[content[j - 1]].value, 0);
      }
    }
  }

  // ----- The whole merge -----

  /** The keys the merge sets, with their values: the profile's sections, and the list of rules if the profile has
      rules. */
  ghost predicate MergePuts(h: Heap, profile: Ref, put: map<string, Ref>)
    requires profile in h
  {
    forall key :: (key in put <==> key in Taken(h, profile, SECTIONS + [RULES]))
                  && (key in put && key != RULES ==> Lookup(h, profile, key) == Some(put[key]))
  }

  /** h' is h after the merge: g is h with the list of rules, if that is a new one, and in g these keys are set. */
  ghost predicate IsMerge(h: Heap, g: Heap, h': Heap, profile: Ref, root: Ref, put: map<string, Ref>)
    requires profile in h && root in h
  {
    && WellFormed(g) && OnlyGrows(h, g) && ValuesIn(g, put) && IsPut(g, h', root, put) && MergePuts(h, profile, put)
    && (RULES in put ==> AreAppended(h, g, AddedRules(h, profile, root), Lookup(h, profile, RULES).value, put[RULES]))
  }

  lemma GrownReadsAlike(h: Heap, g: Heap, m: Ref, key: string)
    requires WellFormed(h) && OnlyGrows(h, g) && IsMapping(h, m)
    ensures ReadsAlike(h, g, m, key)
  {
    PairsAlike(h, g, m, h[m].content, key, 0);
    ValuesInside(h, h[m].content);
    AllCandidatesAlike(h, g, m, MergeValues(h, h[m].content, 0));
    ReadsAsBefore(h, g, m, m, key);
  }

  /** What a key reads as after the merge, whatever is first met as the text of a merge key. */
  ghost predicate KeyReads(h: Heap, g: Heap, h': Heap, root: Ref, put: map<string, Ref>, key: string)
    requires root in h && root in g && root in h'
  {
    if key in put && !Hijacked(h, h[root].content, key)
    then Ends(h', root, key) && Lookup(h', root, key) == Some(put[key])
    else ReadsAlike(Replaced(g, root, put), h', root, key)
  }

  lemma KeysRead(h: Heap, g: Heap, h': Heap, profile: Ref, root: Ref, put: map<string, Ref>, key: string)
    requires IsTop(h, root) && profile in h && IsMerge(h, g, h', profile, root, put)
    ensures KeyReads(h, g, h', root, put, key)
  {
    NamesAlike(h, g, root, h[root].content, key, 0);
    PutReads(g, h', root, put, key);
  }

  /** Unless the rules too are first met as the text of a merge key, what took the places of merge values are sections,
      so that what a key then reads as can be told from the two documents. */
  lemma RulesElsewhere(h: Heap, g: Heap, h': Heap, doc: set<Ref>, profile: Ref, root: Ref, put: map<string, Ref>,
                       key: string)
    requires IsTop(h, root) && IsProfile(h, doc, profile, root) && IsMerge(h, g, h', profile, root, put)
    requires RULES !in put || !Hijacked(h, h[root].content, RULES)
    ensures ReadsAlike(Replaced(h, root, Taken(h, profile, SECTIONS)), Replaced(g, root, put), root, key)
  {
    var sections := Taken(h, profile, SECTIONS);
    var content := h[root].content;
    var r, r' := Replaced(h, root, sections), Replaced(g, root, put);
    TakenInside(h, doc, profile, root, SECTIONS);
    ReplacedIsSound(h, root, sections);
    forall j | 0 <= j < |content| ensures r'[root].content[j] == r[root].content[j] {
      SamePlaces(h, g, profile, root, put, j);
    }
    assert r'[root].content == r[root].content;
    GrownReadsAlike(r, r', root, key);
  }

  lemma SamePlaces(h: Heap, g: Heap, profile: Ref, root: Ref, put: map<string, Ref>, j: nat)
    requires IsTop(h, root) && profile in h && OnlyGrows(h, g) && MergePuts(h, profile, put) && j < |h[root].content|
    requires RULES !in put || !Hijacked(h, h[root].content, RULES)
    ensures PutAt(g, h[root].content, put, j) == PutAt(h, h[root].content, Taken(h, profile, SECTIONS), j)
  {
    var content := h[root].content;
    KeysDiffer(SECTIONS);
    if j % 2 == 1 && IsMergeKey(h, content[j - 1]) {
      var key := h[content[j - 1]].value;
      NamesAlike(h, g, root, content, key, 0);
      assert key != RULES ==> (key in put <==> key in Taken(h, profile, SECTIONS));
      assert FindName(h, content, key, 0) == j - 1 ==> Hijacked(h, content, key);
    }
  }

  /** After the whole merge too a section reads as in the profile if and only if its key is not first met as the text of
      a merge key, or the sections that took the places of merge values give the node back; both can be told from the
      two documents, unless the rules took such a place as well. */
  lemma MergedSectionExactly(h: Heap, g: Heap, h': Heap, doc: set<Ref>, profile: Ref, root: Ref,
                             put: map<string, Ref>, key: string)
    requires IsTop(h, root) && IsProfile(h, doc, profile, root) && IsMerge(h, g, h', profile, root, put)
    requires key in SECTIONS && Lookup(h, profile, key).Some?
    requires RULES !in put || !Hijacked(h, h[root].content, RULES)
    ensures Lookup(h', root, key) == Lookup(h, profile, key) <==>
            !Hijacked(h, h[root].content, key)
            || Lookup(Replaced(h, root, Taken(h, profile, SECTIONS)), root, key) == Lookup(h, profile, key)
  {
    KeysDiffer(SECTIONS);
    KeysRead(h, g, h', profile, root, put, key);
    RulesElsewhere(h, g, h', doc, profile, root, put, key);
  }

  /** The rules read after the merge. */
  ghost predicate RulesMerged(h: Heap, h': Heap, profile: Ref, root: Ref)
    requires profile in h && root in h && root in h'
  {
    var theirs, r := Lookup(h, profile, RULES), Lookup(h', root, RULES);
    if theirs.None? then ReadsAlike(h, h', root, RULES)
    else r.Some? && AreAppended(h, h', Lookup(h, root, RULES), theirs.value, r.value)
  }

  /** What every other key reads as where nothing is hijacked. */
  ghost predicate ReadsMerged(h: Heap, h': Heap, profile: Ref, root: Ref, key: string)
    requires profile in h && root in h && root in h'
  {
    if key in SECTIONS && Lookup(h, profile, key).Some? then Lookup(h', root, key) == Lookup(h, profile, key)
    else ReadsAlike(h, h', root, key)
  }

  lemma NotReplaced(h: Heap, g: Heap, profile: Ref, root: Ref, put: map<string, Ref>)
    requires IsTop(h, root) && profile in h && OnlyGrows(h, g) && MergePuts(h, profile, put)
    requires NoneHijacked(h, root, put)
    ensures Replaced(g, root, put) == g && Replaced(h, root, Taken(h, profile, SECTIONS)) == h
  {
    forall key | key in put ensures !Hijacked(g, g[root].content, key) {
      NamesAlike(h, g, root, h[root].content, key, 0);
    }
    NothingReplaced(g, root, put);
    assert forall key :: key in Taken(h, profile, SECTIONS) ==> key in put;
    NothingReplaced(h, root, Taken(h, profile, SECTIONS));
  }

  /** Where no key that is set is first met as the text of a merge key, each section reads as in the profile if the
      profile has it, the rules are the overlay's followed by the profile's, and every other key reads as in the
      overlay, through merge keys too. */
  lemma CleanMerge(h: Heap, g: Heap, h': Heap, profile: Ref, root: Ref, put: map<string, Ref>, key: string)
    requires IsTop(h, root) && IsMapping(h, profile) && IsMerge(h, g, h', profile, root, put)
    requires NoneHijacked(h, root, put)
    ensures key != RULES ==> ReadsMerged(h, h', profile, root, key)
    ensures key == RULES ==> RulesMerged(h, h', profile, root)
  {
    NotReplaced(h, g, profile, root, put);
    KeysRead(h, g, h', profile, root, put, key);
    GrownReadsAlike(h, g, root, key);
    if key == RULES && RULES in put {
      ItemsStay(g, h', root, put[RULES]);
    }
  }

  // ----- Documents that do not contain themselves -----

  ghost predicate DocumentsAcyclic(h: Heap, doc: set<Ref>, root: Ref, order: Ref -> nat) {
    Acyclic(h, order) && forall n :: n in doc ==> order(n) < order(root)
  }

  /** Both sides' rules are below the overlay's mapping. */
  lemma RulesBelow(h: Heap, doc: set<Ref>, profile: Ref, root: Ref, order: Ref -> nat)
    requires IsTop(h, root) && IsProfile(h, doc, profile, root) && DocumentsAcyclic(h, doc, root, order)
    ensures var added := AddedRules(h, profile, root);
            added.Some? ==> added.value in h && order(Resolve(h, added.value)) < order(root)
    ensures var theirs := Lookup(h, profile, RULES);
            theirs.Some? ==> theirs.value in h && order(Resolve(h, theirs.value)) < order(root)
    ensures PutBelow(h, root, Taken(h, profile, SECTIONS), order)
  {
    var sections := Taken(h, profile, SECTIONS);
    var r := Replaced(h, root, sections);
    TakenInside(h, doc, profile, root, SECTIONS);
    ReplacedIsSound(h, root, sections);
    ReplacedIsAcyclic(h, root, sections, order);
    if Lookup(r, root, RULES).Some? {
      ReadsBelow(r, root, RULES, order);
    }
    if Lookup(h, profile, RULES).Some? {
      ProfileValue(h, doc, profile, root, RULES);
    }
  }

  /** Room for the list of rules right below the overlay's mapping. */
  lemma GrownIsAcyclic(h: Heap, g: Heap, root: Ref, added: Option<Ref>, theirs: Option<Ref>, order: Ref -> nat)
    requires WellFormed(h) && WellFormed(g) && IsMapping(h, root) && OnlyGrows(h, g) && Acyclic(h, order)
    requires forall n :: n in g && n !in h ==> IsNewList(h, added, theirs, g[n].content)
    requires added.Some? ==> added.value in h && order(Resolve(h, added.value)) < order(root)
    requires theirs.Some? ==> theirs.value in h && order(Resolve(h, theirs.value)) < order(root)
    ensures Acyclic(g, Raised(h, root, order))
  {
    var order' := Raised(h, root, order);
    ResolvedInside(h);
    forall n, i | n in g && 0 <= i < |g[n].content| ensures order'(Resolve(g, g[n].content[i])) < order'(n) {
      var c := g[n].content[i];
      if n in h {
        assert c in h && Resolve(g, c) == Resolve(h, c);
      } else {
        var a, b := Resolve(h, added.value), Resolve(h, theirs.value);
        var k := |h[a].content|;
        assert c == if i < k then h[a].content[i] else h[b].content[i - k];
        assert c in h && Resolve(g, c) == Resolve(h, c);
      }
    }
  }

  /** What is put stays below the overlay's mapping; so does a list of rules. */
  lemma GrownPutBelow(h: Heap, g: Heap, root: Ref, put: map<string, Ref>, order: Ref -> nat)
    requires WellFormed(h) && IsMapping(h, root) && OnlyGrows(h, g)
    requires forall n :: n in g && n !in h ==> g[n].kind == SequenceNode
    requires ValuesIn(g, put)
    requires forall key :: key in put && put[key] in h ==> order(Resolve(h, put[key])) < order(root)
    ensures PutBelow(g, root, put, Raised(h, root, order))
  {
    var order' := Raised(h, root, order);
    forall key | key in put ensures order'(Resolve(g, put[key])) < order'(root) {
      if put[key] in h {
        ResolvesInside(h, put[key]);
      } else {
        assert Resolve(g, put[key]) == put[key];
      }
    }
  }

  ghost predicate StaysAcyclic(h: Heap, h': Heap, doc: set<Ref>, root: Ref, order: Ref -> nat) {
    DocumentsAcyclic(h, doc, root, order) ==> exists order': Ref -> nat :: Acyclic(h', order')
  }

  lemma MergeIsAcyclic(h: Heap, g: Heap, h': Heap, doc: set<Ref>, profile: Ref, root: Ref, put: map<string, Ref>,
                       order: Ref -> nat)
    requires IsTop(h, root) && IsProfile(h, doc, profile, root) && IsMerge(h, g, h', profile, root, put)
    requires WellFormed(h') && MadeFrom(h, g, profile, root, put)
    ensures StaysAcyclic(h, h', doc, root, order)
  {
    if DocumentsAcyclic(h, doc, root, order) {
      var added, theirs := AddedRules(h, profile, root), Lookup(h, profile, RULES);
      RulesBelow(h, doc, profile, root, order);
      GrownIsAcyclic(h, g, root, added, theirs, order);
      forall key | key in put && put[key] in h ensures order(Resolve(h, put[key])) < order(root) {
        if key != RULES {
          assert put[key] == Taken(h, profile, SECTIONS)[key];
        } else {
          ResolvesInside(h, theirs.value);
        }
      }
      GrownPutBelow(h, g, root, put, order);
      PutIsAcyclic(g, h', root, put, Raised(h, root, order));
    }
  }

  /** The list of rules is that of one side, or a new one of the items of both. */
  ghost predicate MadeFrom(h: Heap, g: Heap, profile: Ref, root: Ref, put: map<string, Ref>)
    requires profile in h && root in h
  {
    var added, theirs := AddedRules(h, profile, root), Lookup(h, profile, RULES);
    && (added.Some? ==> added.value in h) && (theirs.Some? ==> theirs.value in h)
    && (forall n :: n in g && n !in h ==> g[n].kind == SequenceNode && IsNewList(h, added, theirs, g[n].content))
    && (RULES in put && put[RULES] in h ==> IsOneSide(h, added, theirs, put[RULES]))
  }

  predicate IsOneSide(h: Heap, added: Option<Ref>, theirs: Option<Ref>, list: Ref) {
    && theirs.Some?
    && (list == Resolve(h, theirs.value) || (added.Some? && list == Resolve(h, added.value)))
  }

  // ----- The merge itself -----

  /** The state once the rules of both sides were put together. */
  ghost predicate RulesMade(h: Heap, h1: Heap, h2: Heap, profile: Ref, root: Ref, rules: RulesResult)
    requires profile in h && root in h
  {
    var added, theirs := AddedRules(h, profile, root), Lookup(h, profile, RULES);
    && WellFormed(h1) && WellFormed(h2) && IsPut(h, h1, root, Taken(h, profile, SECTIONS)) && OnlyGrows(h1, h2)
    && (added.Some? ==> added.value in h) && (theirs.Some? ==> theirs.value in h)
    && ListsFrom(h1, h2, added, theirs, rules)
    && (rules.Rules? ==> AreAppended(h1, h2, added, theirs.value, rules.list))
  }

  lemma GrownIsPutToo(h: Heap, h1: Heap, h2: Heap, profile: Ref, root: Ref, rules: RulesResult)
    requires WellFormed(h) && profile in h && root in h && RulesMade(h, h1, h2, profile, root, rules)
    ensures var g := Grown(h, h1, h2);
            && WellFormed(g) && OnlyGrows(h, g) && OnlyChanges(g, h2, root)
            && IsPut(g, h2, root, Taken(h, profile, SECTIONS))
    ensures forall n :: n in h2 && n !in h1 ==>
              IsNewList(h, AddedRules(h, profile, root), Lookup(h, profile, RULES), h2[n].content)
  {
    var put := Taken(h, profile, SECTIONS);
    NewListInside(h, h1, h2, root, put, AddedRules(h, profile, root), Lookup(h, profile, RULES), rules);
    GrownIsSound(h, h1, h2, root, put);
    GrownIsPut(h, h1, h2, root, put);
  }

  /** Seen from the two documents: the list stands for the rules of both. */
  lemma ListInGrown(h: Heap, h1: Heap, h2: Heap, profile: Ref, root: Ref, rules: RulesResult)
    requires WellFormed(h) && profile in h && root in h && RulesMade(h, h1, h2, profile, root, rules) && rules.Rules?
    ensures var g, added, theirs := Grown(h, h1, h2), AddedRules(h, profile, root), Lookup(h, profile, RULES);
            && rules.list in g && theirs.Some? && AreAppended(h, g, added, theirs.value, rules.list)
            && (rules.list in h ==> IsOneSide(h, added, theirs, rules.list))
  {
    var g, added, theirs := Grown(h, h1, h2), AddedRules(h, profile, root), Lookup(h, profile, RULES);
    GrownIsPutToo(h, h1, h2, profile, root, rules);
    ItemsStay(h, h1, root, theirs.value);
    ResolvesInside(h, theirs.value);
    if added.Some? {
      ItemsStay(h, h1, root, added.value);
      ResolvesInside(h, added.value);
    }
    ItemsStay(g, h2, root, rules.list);
  }

  lemma SectionsAndRules(h: Heap, profile: Ref)
    requires profile in h
    ensures var sections, all := Taken(h, profile, SECTIONS), Taken(h, profile, SECTIONS + [RULES]);
            RULES !in sections && forall key :: key in all <==> key in sections || (key == RULES && RULES in all)
    ensures RULES in Taken(h, profile, SECTIONS + [RULES]) <==> Lookup(h, profile, RULES).Some?
  {
    KeysDiffer(SECTIONS);
    assert (SECTIONS + [RULES])[|SECTIONS|] == RULES;
  }

  /** The merge is done when the list, if there is one, was put in. */
  lemma MergeDone(h: Heap, h1: Heap, h2: Heap, h3: Heap, doc: set<Ref>, profile: Ref, root: Ref, rules: RulesResult,
                  put: map<string, Ref>)
    requires IsTop(h, root) && IsProfile(h, doc, profile, root) && RulesMade(h, h1, h2, profile, root, rules)
    requires (rules == NoRules <==> Lookup(h, profile, RULES).None?) && rules != NotAList
    requires match rules
             case Rules(list) => IsSet(h2, h3, root, RULES, list) && put == Taken(h, profile, SECTIONS)[RULES := list]
             case _ => h3 == h2 && put == Taken(h, profile, SECTIONS)
    ensures IsMerge(h, Grown(h, h1, h2), h3, profile, root, put)
    ensures MadeFrom(h, Grown(h, h1, h2), profile, root, put)
  {
    var g, sections := Grown(h, h1, h2), Taken(h, profile, SECTIONS);
    SectionsAndRules(h, profile);
    TakenInside(h, doc, profile, root, SECTIONS);
    GrownIsPutToo(h, h1, h2, profile, root, rules);
    if rules.Rules? {
      ListInGrown(h, h1, h2, profile, root, rules);
      SetPuts(g, h2, h3, root, sections, RULES, rules.list);
    }
    assert ValuesIn(g, put);
    assert MergePuts(h, profile, put);
  }

  /** The merge of a profile into an overlay, on their top mappings. It asks only that its look-ups end. It fails
      exactly on rules that cannot be put together; otherwise every key reads as it was put, unless its text is first
      met as that of a merge key, and else as if nothing had happened but that the values of such keys took the places
      of merge values. Where there is no such key the sections are the profile's, the rules the overlay's followed by
      the profile's, and everything else the overlay's, through merge keys too. No node but the overlay's top mapping
      is changed. g is the two documents with the list of rules, and put what was set. */
  method MergeMappings(store: NodeStore, profile: Ref, root: Ref, ghost doc: set<Ref>, ghost order: Ref -> nat)
    returns (ok: bool, ghost g: Heap, ghost put: map<string, Ref>)
    requires store.Valid() && IsTop(store.nodes, root) && IsProfile(store.nodes, doc, profile, root)
    requires LookupsEnd(store.nodes, profile, root)
    modifies store
    ensures store.Valid() && OnlyChanges(old(store.nodes), store.nodes, root)
    ensures ok <==> !RulesClash(old(store.nodes), AddedRules(old(store.nodes), profile, root),
                                Lookup(old(store.nodes), profile, RULES))
    ensures ok ==> IsMerge(old(store.nodes), g, store.nodes, profile, root, put)
    ensures ok ==> forall key :: KeyReads(old(store.nodes), g, store.nodes, root, put, key)
    ensures ok && NoneHijacked(old(store.nodes), root, put) ==>
      && RulesMerged(old(store.nodes), store.nodes, profile, root)
      && forall key :: key != RULES ==> ReadsMerged(old(store.nodes), store.nodes, profile, root, key)
    ensures ok ==> StaysAcyclic(old(store.nodes), store.nodes, doc, root, order)
  {
    ghost var h := store.nodes;
    KeysDiffer(SECTIONS);
    assert forall key :: key in SECTIONS ==> key in SECTIONS + [RULES];
    TakeKeys(store, profile, root, SECTIONS, doc);
    ghost var h1 := store.nodes;
    RulesOfBoth(h, h1, doc, profile, root);
    ghost var fuel: nat :| ReadWithin(h1, root, RULES, fuel).Some?;
    var added := MappingValue(store.nodes, root, RULES, fuel);
    ghost var fuel': nat :| ReadWithin(h1, profile, RULES, fuel').Some?;
    var theirs := MappingValue(store.nodes, profile, RULES, fuel');
    var rules := AppendRules(store, added, theirs);
    ghost var h2 := store.nodes;
    ok := rules != NotAList;
    g, put := Grown(h, h1, h2), Taken(h, profile, SECTIONS);
    if rules.Rules? {
      put := put[RULES := rules.list];
      SetMappingValue(store, root, RULES, rules.list);
    }
    if ok {
      MergeDone(h, h1, h2, store.nodes, doc, profile, root, rules, put);
      MergeReads(h, g, store.nodes, doc, profile, root, put, order);
    }
  }

  lemma MergeReads(h: Heap, g: Heap, h': Heap, doc: set<Ref>, profile: Ref, root: Ref, put: map<string, Ref>,
                   order: Ref -> nat)
    requires IsTop(h, root) && IsProfile(h, doc, profile, root) && IsMerge(h, g, h', profile, root, put)
    requires WellFormed(h') && MadeFrom(h, g, profile, root, put)
    ensures OnlyChanges(h, h', root) && StaysAcyclic(h, h', doc, root, order)
    ensures forall key :: KeyReads(h, g, h', root, put, key)
    ensures NoneHijacked(h, root, put) ==>
      && RulesMerged(h, h', profile, root)
      && forall key :: key != RULES ==> ReadsMerged(h, h', profile, root, key)
  {
    MergeIsAcyclic(h, g, h', doc, profile, root, put, order);
    forall key ensures KeyReads(h, g, h', root, put, key) {
      KeysRead(h, g, h', profile, root, put, key);
    }
    if NoneHijacked(h, root, put) {
      CleanMerge(h, g, h', profile, root, put, RULES);
      forall key | key != RULES ensures ReadsMerged(h, h', profile, root, key) {
        CleanMerge(h, g, h', profile, root, put, key);
      }
    }
  }
}
