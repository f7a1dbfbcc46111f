/** Setting keys of a YAML mapping, and what every key then reads as. */
module MappingSet {
  import opened Wrappers
  import opened YamlGraph
  import opened MappingLookup

  // ----- Setting a key -----

  /** The position from i on of the first pair whose name is a scalar of this text, whatever its tag. */
  function FindName(h: Heap, content: seq<Ref>, key: string, i: nat): (at: nat)
    ensures i <= at
    ensures at % 2 == i % 2
    ensures at + 1 < |content| ==> IsName(h, content[at]) && h[content[at]].value == key
    ensures forall j :: i <= j < at && j + 1 < |content| && j % 2 == i % 2 ==>
              !(IsName(h, content[j]) && h[content[j]].value == key)
    decreases |content| - i
  {
    if i + 1 >= |content| || (IsName(h, content[i]) && h[content[i]].value == key) then i
    else FindName(h, content, key, i + 2)
  }

  /** The first name of this text is a merge key, which setting takes for the key and reading does not. */
  predicate Hijacked(h: Heap, content: seq<Ref>, key: string) {
    HijackedFrom(h, content, key, 0)
  }

  predicate HijackedFrom(h: Heap, content: seq<Ref>, key: string, i: nat) {
    var at := FindName(h, content, key, i);
    at + 1 < |content| && IsMergeKey(h, content[at])
  }

  /** h' is h with the key set: in the first pair of this name, or in a new pair at the end. */
  ghost predicate IsSet(h: Heap, h': Heap, m: Ref, key: string, value: Ref) {
    && m in h
    && var content := h[m].content;
       var at := FindName(h, content, key, 0);
       if at + 1 < |content| then h' == h[m := h[m].(content := content[at + 1 := value])]
       else exists name :: name !in h && name != NIL && h' == WithPair(h, m, name, key, value)
  }

  function WithPair(h: Heap, m: Ref, name: Ref, key: string, value: Ref): Heap
    requires m in h
  {
    h[name := Node(ScalarNode, "!!str", key, "", [], NIL)][m := h[m].(content := h[m].content + [name, value])]
  }

  lemma SetContentKeepsWellFormed(h: Heap, m: Ref, content: seq<Ref>)
    requires WellFormed(h) && m in h && forall i :: 0 <= i < |content| ==> content[i] in h
    ensures WellFormed(h[m := h[m].(content := content)])
  {
  }

  method SetMappingValue(store: NodeStore, mapping: Ref, key: string, value: Ref)
    requires store.Valid() && IsMapping(store.nodes, mapping) && value in store.nodes
    modifies store
    ensures store.Valid() && IsSet(old(store.nodes), store.nodes, mapping, key, value)
  {
    var h := store.nodes;
    var content := h[mapping].content;
    var i := 0;
    while i + 1 < |content|
      invariant i % 2 == 0 && store.nodes == h && store.Valid()
      invariant FindName(h, content, key, 0) == FindName(h, content, key, i)
    {
      var name := content[i];
      if h[name].kind == ScalarNode && h[name].value == key {
        SetContentKeepsWellFormed(h, mapping, content[i + 1 := value]);
        store.nodes := h[mapping := h[mapping].(content := content[i + 1 := value])];
        return;
      }
      i := i + 2;
    }
    var name := store.New(Node(ScalarNode, "!!str", key, "", [], NIL));
    SetContentKeepsWellFormed(store.nodes, mapping, content + [name, value]);
    store.nodes := store.nodes[mapping := h[mapping].(content := content + [name, value])];
  }

  // ----- What setting a key does to reading -----

  /** Only the mapping m differs, and nothing else but new nodes is there. */
  ghost predicate OnlyChanges(h: Heap, h': Heap, m: Ref) {
    && IsMapping(h, m) && IsMapping(h', m)
    && forall n :: n in h && n != m ==> n in h' && h'[n] == h[n]
  }

  lemma NodesAlike(h: Heap, h': Heap, m: Ref, n: Ref)
    requires OnlyChanges(h, h', m) && n in h
    ensures Resolve(h', n) == Resolve(h, n) && IsMergeKey(h', n) == IsMergeKey(h, n)
    ensures IsMapping(h', n) == IsMapping(h, n)
    ensures forall key :: IsKey(h', n, key) == IsKey(h, n, key)
  {
  }

  lemma CandidatesAlike(h: Heap, h': Heap, m: Ref, s: Ref)
    requires WellFormed(h) && OnlyChanges(h, h', m) && s in h
    ensures Candidates(h', s) == Candidates(h, s)
  {
    NodesAlike(h, h', m, s);
    ResolvesInside(h, s);
  }

  lemma {:induction false} AllCandidatesAlike(h: Heap, h': Heap, m: Ref, sources: seq<Ref>)
    requires WellFormed(h) && OnlyChanges(h, h', m) && forall k :: 0 <= k < |sources| ==> sources[k] in h
    ensures AllCandidates(h', sources) == AllCandidates(h, sources)
    decreases |sources|
  {
    if sources == [] {
    } else {
      CandidatesAlike(h, h', m, sources[0]);
      AllCandidatesAlike(h, h', m, sources[1..]);
    }
  }

  lemma {:induction false} PairsAlike(h: Heap, h': Heap, m: Ref, content: seq<Ref>, key: string, i: nat)
    requires OnlyChanges(h, h', m) && forall j :: 0 <= j < |content| ==> content[j] in h
    ensures FindKey(h', content, key, i) == FindKey(h, content, key, i)
    ensures MergeValues(h', content, i) == MergeValues(h, content, i)
    decreases |content| - i
  {
    if i + 1 >= |content| {
    } else {
      NodesAlike(h, h', m, content[i]);
      PairsAlike(h, h', m, content, key, i + 2);
    }
  }

  lemma {:induction false} NamesAlike(h: Heap, h': Heap, m: Ref, content: seq<Ref>, key: string, i: nat)
    requires OnlyChanges(h, h', m) && forall j :: 0 <= j < |content| ==> content[j] in h
    ensures FindName(h', content, key, i) == FindName(h, content, key, i)
    ensures HijackedFrom(h', content, key, i) == HijackedFrom(h, content, key, i)
    decreases |content| - i
  {
    if i + 1 >= |content| {
    } else {
      NodesAlike(h, h', m, content[i]);
      NamesAlike(h, h', m, content, key, i + 2);
    }
  }

  /** Every other mapping gives and merges what it did. */
  lemma OtherNodeAlike(h: Heap, h': Heap, m: Ref, c: Ref, key: string)
    requires WellFormed(h) && OnlyChanges(h, h', m) && c in h && c != m
    ensures SameToReader(h, h', c, key)
  {
    PairsAlike(h, h', m, h[c].content, key, 0);
    ValuesInside(h, h[c].content);
    AllCandidatesAlike(h, h', m, MergeValues(h, h[c].content, 0));
    MergedInside(h, c);
    forall x | x in Merged(h, c)
      ensures Resolve(h', x) == Resolve(h, x) && IsMapping(h', Resolve(h, x)) == IsMapping(h, Resolve(h, x))
    {
      NodesAlike(h, h', m, x);
      NodesAlike(h, h', m, Resolve(h, x));
    }
  }

  /** A mapping that does not merge the changed one, at any depth, reads as before. */
  lemma ReadsElsewhere(h: Heap, h': Heap, m: Ref, s: set<Ref>, c: Ref, key: string)
    requires WellFormed(h) && OnlyChanges(h, h', m) && MergeClosed(h, s) && m !in s && c in s
    ensures ReadsAlike(h, h', c, key)
  {
    forall x | x in s ensures SameToReader(h, h', x, key) {
      OtherNodeAlike(h, h', m, x, key);
    }
    PartReadsAlike(h, h', s, c, key);
  }

  /** If the changed mapping gives and merges what it did, everything reads as before. */
  lemma ReadsAsBefore(h: Heap, h': Heap, m: Ref, c: Ref, key: string)
    requires WellFormed(h) && OnlyChanges(h, h', m) && IsMapping(h, c)
    requires OwnPair(h', m, key) == OwnPair(h, m, key) && Merged(h', m) == Merged(h, m)
    ensures ReadsAlike(h, h', c, key)
  {
    var s := set x | x in h && IsMapping(h, x);
    forall x | x in s ensures SameToReader(h, h', x, key) {
      if x != m {
        OtherNodeAlike(h, h', m, x, key);
      } else {
        MergedInside(h, m);
        forall y | y in Merged(h, m)
          ensures Resolve(h', y) == Resolve(h, y) && IsMapping(h', Resolve(h, y)) == IsMapping(h, Resolve(h, y))
        {
          NodesAlike(h, h', m, y);
          NodesAlike(h, h', m, Resolve(h, y));
        }
      }
    }
    PartReadsAlike(h, h', s, c, key);
  }

  // ----- The own pairs after a key was set -----

  lemma {:induction false} NoKeyBeforeName(h: Heap, content: seq<Ref>, key: string, i: nat)
    ensures FindName(h, content, key, i) <= FindKey(h, content, key, i)
    decreases |content| - i
  {
    if i + 1 >= |content| {
    } else {
      NoKeyBeforeName(h, content, key, i + 2);
    }
  }

  /** Another value at an odd position is seen by who reads that pair alone. */
  lemma {:induction false} OtherPairs(h: Heap, content: seq<Ref>, at: nat, value: Ref, key: string, i: nat)
    requires at + 1 < |content| && at % 2 == 0 && i % 2 == 0
    ensures FindKey(h, content[at + 1 := value], key, i) == FindKey(h, content, key, i)
    decreases |content| - i
  {
    if i + 1 >= |content| {
    } else {
      OtherPairs(h, content, at, value, key, i + 2);
    }
  }

  lemma {:induction false} OtherMerges(h: Heap, content: seq<Ref>, at: nat, value: Ref, i: nat)
    requires at + 1 < |content| && at % 2 == 0 && i % 2 == 0 && !IsMergeKey(h, content[at])
    ensures MergeValues(h, content[at + 1 := value], i) == MergeValues(h, content, i)
    decreases |content| - i
  {
    if i + 1 >= |content| {
    } else {
      OtherMerges(h, content, at, value, i + 2);
    }
  }

  lemma {:induction false} FindMore(h: Heap, content: seq<Ref>, name: Ref, value: Ref, key: string, i: nat)
    requires |content| % 2 == 0 && i % 2 == 0 && i <= |content|
    requires IsName(h, name) && h[name].tag != "!!merge"
    ensures var at, at' := FindKey(h, content, key, i), FindKey(h, content + [name, value], key, i);
            if at < |content| then at' == at
            else if h[name].value == key then at' == |content| else at' >= |content| + 2
    decreases |content| - i
  {
    if i + 1 >= |content| {
    } else {
      FindMore(h, content, name, value, key, i + 2);
    }
  }

  lemma PairMore(h: Heap, content: seq<Ref>, name: Ref, value: Ref, key: string)
    requires |content| % 2 == 0 && IsName(h, name) && h[name].tag != "!!merge"
    ensures PairIn(h, content + [name, value], key) ==
            if PairIn(h, content, key).None? && h[name].value == key then Some(value) else PairIn(h, content, key)
  {
    FindMore(h, content, name, value, key, 0);
  }

  lemma {:induction false} MergesMore(h: Heap, content: seq<Ref>, name: Ref, value: Ref, i: nat)
    requires |content| % 2 == 0 && i % 2 == 0 && i <= |content| && !IsMergeKey(h, name)
    ensures MergeValues(h, content + [name, value], i) == MergeValues(h, content, i)
    decreases |content| - i
  {
    if i + 1 >= |content| {
      assert MergeValues(h, content + [name, value], i + 2) == [];
    } else {
      MergesMore(h, content, name, value, i + 2);
    }
  }

  lemma ReplacedPairs(h: Heap, h': Heap, m: Ref, at: nat, value: Ref, key: string, other: string)
    requires WellFormed(h) && IsMapping(h, m) && at == FindName(h, h[m].content, key, 0) && at + 1 < |h[m].content|
    requires h' == h[m := h[m].(content := h[m].content[at + 1 := value])] && value in h
    ensures OnlyChanges(h, h', m)
    ensures FindKey(h', h'[m].content, other, 0) == FindKey(h, h[m].content, other, 0)
    ensures MergeValues(h', h'[m].content, 0) == MergeValues(h, h[m].content[at + 1 := value], 0)
  {
    OtherPairs(h, h[m].content, at, value, other, 0);
    PairsAlike(h, h', m, h[m].content[at + 1 := value], other, 0);
  }

  lemma AppendedPairs(h: Heap, h': Heap, m: Ref, name: Ref, key: string, value: Ref, other: string)
    requires WellFormed(h) && IsMapping(h, m) && |h[m].content| % 2 == 0
    requires FindName(h, h[m].content, key, 0) + 1 >= |h[m].content|
    requires name !in h && h' == WithPair(h, m, name, key, value)
    ensures OnlyChanges(h, h', m)
    ensures OwnPair(h', m, other) == if other == key then Some(value) else OwnPair(h, m, other)
    ensures MergeValues(h', h'[m].content, 0) == MergeValues(h, h[m].content, 0)
  {
    var content := h[m].content;
    assert h'[m].content == content + [name, value];
    NoKeyBeforeName(h, content, key, 0);
    PairsAlike(h, h', m, content, other, 0);
    PairMore(h', content, name, value, other);
    MergesMore(h', content, name, value, 0);
  }

  lemma {:induction false} FirstNameIsKey(h: Heap, content: seq<Ref>, key: string, i: nat)
    requires var at := FindName(h, content, key, i); at + 1 < |content| && !IsMergeKey(h, content[at])
    ensures FindKey(h, content, key, i) == FindName(h, content, key, i)
    decreases |content| - i
  {
    if i + 1 >= |content| {
    } else {
      if !(IsName(h, content[i]) && h[content[i]].value == key) {
        FirstNameIsKey(h, content, key, i + 2);
      }
    }
  }

  /** Setting a key sets its own pair, unless its text is first met as a merge key, and no other key's. */
  lemma SetOwnPair(h: Heap, h': Heap, m: Ref, key: string, value: Ref, other: string)
    requires WellFormed(h) && IsMapping(h, m) && |h[m].content| % 2 == 0 && value in h && IsSet(h, h', m, key, value)
    ensures OnlyChanges(h, h', m)
    ensures OwnPair(h', m, other) ==
            if other == key && !Hijacked(h, h[m].content, key) then Some(value) else OwnPair(h, m, other)
  {
    var at := FindName(h, h[m].content, key, 0);
    if at + 1 < |h[m].content| {
      ReplacedPairs(h, h', m, at, value, key, other);
      if !Hijacked(h, h[m].content, key) {
        FirstNameIsKey(h, h[m].content, key, 0);
      }
    } else {
      var name :| name !in h && name != NIL && h' == WithPair(h, m, name, key, value);
      AppendedPairs(h, h', m, name, key, value, other);
    }
  }

  // ----- Setting keys, one after the other -----

  /** The value at an odd position once these were set: those of keys first met as merge keys take their places. */
  function PutAt(h: Heap, content: seq<Ref>, put: map<string, Ref>, j: nat): Ref
    requires j < |content|
  {
    if j % 2 == 1 && IsMergeKey(h, content[j - 1]) && h[content[j - 1]].value in put
       && FindName(h, content, h[content[j - 1]].value, 0) == j - 1
    then put[h[content[j - 1]].value] else content[j]
  }

  /** The mapping with nothing but those merge values replaced. */
  function Replaced(h: Heap, m: Ref, put: map<string, Ref>): (h': Heap)
    requires m in h
    ensures h'.Keys == h.Keys
  {
    var content := h[m].content;
    h[m := h[m].(content := seq(|content|, j requires 0 <= j < |content| => PutAt(h, content, put, j)))]
  }

  /** The names stay in their order and more of them are new and no merge keys; the values of merge keys are replaced,
      and every value is an old one in its place or one that was put. */
  ghost predicate SlotPut(h: Heap, h': Heap, content: seq<Ref>, content': seq<Ref>, put: map<string, Ref>, j: nat)
    requires |content| <= |content'| && j < |content'|
  {
    if j % 2 == 0 then
      if j < |content| then content[j] in h && content'[j] == content[j]
      else content'[j] !in h && !IsMergeKey(h', content'[j])
    else
      && ((j < |content| && content'[j] == content[j]) || content'[j] in put.Values)
      && (j < |content| && IsMergeKey(h, content[j - 1]) ==> content'[j] == PutAt(h, content, put, j))
  }

  ghost predicate PairsPut(h: Heap, h': Heap, content: seq<Ref>, content': seq<Ref>, put: map<string, Ref>) {
    && |content| % 2 == 0 && |content'| % 2 == 0 && |content| <= |content'|
    && forall j :: 0 <= j < |content'| ==> SlotPut(h, h', content, content', put, j)
  }

  /** The own pair of a key once these were set: unless its text is first met as a merge key, the value. */
  ghost predicate OwnPairPut(h: Heap, h': Heap, m: Ref, put: map<string, Ref>, key: string)
    requires m in h && m in h'
  {
    OwnPair(h', m, key) ==
      if key in put && !Hijacked(h, h[m].content, key) then Some(put[key]) else OwnPair(h, m, key)
  }

  /** h' is h with these keys set in the mapping m. */
  ghost predicate IsPut(h: Heap, h': Heap, m: Ref, put: map<string, Ref>) {
    && OnlyChanges(h, h', m) && (forall n :: n in h' && n !in h ==> h'[n].kind == ScalarNode && h'[n].content == [])
    && PairsPut(h, h', h[m].content, h'[m].content, put)
    && forall key :: OwnPairPut(h, h', m, put, key)
  }

  lemma NothingPut(h: Heap, m: Ref)
    requires WellFormed(h) && IsMapping(h, m) && |h[m].content| % 2 == 0
    ensures IsPut(h, h, m, map[])
  {
  }

  lemma {:induction false} NamesStay(h: Heap, h': Heap, m: Ref, content: seq<Ref>, content': seq<Ref>,
                                     put: map<string, Ref>, key: string, i: nat)
    requires OnlyChanges(h, h', m) && PairsPut(h, h', content, content', put) && i % 2 == 0
    ensures var at, at' := FindName(h, content, key, i), FindName(h', content', key, i);
            if at + 1 < |content| then at' == at else at' >= |content|
    decreases |content| - i
  {
    if i + 1 >= |content| {
    } else {
      assert SlotPut(h, h', content, content', put, i);
      NodesAlike(h, h', m, content[i]);
      if !(IsName(h, content[i]) && h[content[i]].value == key) {
        NamesStay(h, h', m, content, content', put, key, i + 2);
      }
    }
  }

  /** Which keys are first met as merge keys does not change. */
  lemma SameHijacks(h: Heap, h': Heap, m: Ref, put: map<string, Ref>, key: string)
    requires IsPut(h, h', m, put)
    ensures Hijacked(h', h'[m].content, key) == Hijacked(h, h[m].content, key)
    ensures var at, at' := FindName(h, h[m].content, key, 0), FindName(h', h'[m].content, key, 0);
            if at + 1 < |h[m].content| then at' == at else at' >= |h[m].content|
  {
    NamesStay(h, h', m, h[m].content, h'[m].content, put, key, 0);
    var at, at' := FindName(h, h[m].content, key, 0), FindName(h', h'[m].content, key, 0);
    if at' + 1 < |h'[m].content| {
      assert SlotPut(h, h', h[m].content, h'[m].content, put, at');
    }
    if at + 1 < |h[m].content| {
      NodesAlike(h, h', m, h[m].content[at]);
    }
  }

  /** A position that another key leaves alone. */
  lemma SlotStaysPut(h: Heap, h': Heap, h'': Heap, content: seq<Ref>, content': seq<Ref>, content'': seq<Ref>,
                     put: map<string, Ref>, key: string, value: Ref, j: nat)
    requires |content| <= |content'| <= |content''| && j < |content'| && SlotPut(h, h', content, content', put, j)
    requires key !in put && content''[j] == content'[j] && (j < |content| ==> j != FindName(h, content, key, 0) + 1)
    requires j % 2 == 0 ==> IsMergeKey(h'', content'[j]) == IsMergeKey(h', content'[j])
    ensures SlotPut(h, h'', content, content'', put[key := value], j)
  {
    if j % 2 == 1 && !(j < |content| && content'[j] == content[j]) {
      var k :| k in put && put[k] == content'[j];
      assert put[key := value][k] == content'[j];
    }
  }

  /** The value goes to the first pair of this text. */
  lemma PairReplaced(h: Heap, h': Heap, h'': Heap, content: seq<Ref>, content': seq<Ref>, put: map<string, Ref>,
                     key: string, value: Ref, at': nat)
    requires PairsPut(h, h', content, content', put) && key !in put && at' % 2 == 0 && at' + 1 < |content'|
    requires var at := FindName(h, content, key, 0); if at + 1 < |content| then at' == at else at' >= |content|
    requires forall j :: 0 <= j < |content'| ==> IsMergeKey(h'', content'[j]) == IsMergeKey(h', content'[j])
    ensures PairsPut(h, h'', content, content'[at' + 1 := value], put[key := value])
  {
    var content'', more := content'[at' + 1 := value], put[key := value];
    forall j | 0 <= j < |content''| ensures SlotPut(h, h'', content, content'', more, j) {
      assert SlotPut(h, h', content, content', put, j);
      if j == at' + 1 {
        assert more[key] == value;
      } else {
        SlotStaysPut(h, h', h'', content, content', content'', put, key, value, j);
      }
    }
  }

  lemma PairAppended(h: Heap, h': Heap, h'': Heap, content: seq<Ref>, content': seq<Ref>, put: map<string, Ref>,
                     name: Ref, key: string, value: Ref)
    requires PairsPut(h, h', content, content', put) && key !in put && name !in h && !IsMergeKey(h'', name)
    requires FindName(h, content, key, 0) + 1 >= |content|
    requires forall j :: 0 <= j < |content'| ==> IsMergeKey(h'', content'[j]) == IsMergeKey(h', content'[j])
    ensures PairsPut(h, h'', content, content' + [name, value], put[key := value])
  {
    var content'', more := content' + [name, value], put[key := value];
    forall j | 0 <= j < |content''| ensures SlotPut(h, h'', content, content'', more, j) {
      if j < |content'| {
        assert SlotPut(h, h', content, content', put, j);
        SlotStaysPut(h, h', h'', content, content', content'', put, key, value, j);
      } else {
        assert more[key] == value;
      }
    }
  }

  lemma SameMergeKeys(h: Heap, h': Heap, m: Ref, content: seq<Ref>)
    requires OnlyChanges(h, h', m) && forall j :: 0 <= j < |content| ==> content[j] in h
    ensures forall j :: 0 <= j < |content| ==> IsMergeKey(h', content[j]) == IsMergeKey(h, content[j])
  {
    forall j | 0 <= j < |content| ensures IsMergeKey(h', content[j]) == IsMergeKey(h, content[j]) {
      NodesAlike(h, h', m, content[j]);
    }
  }

  lemma SetOnlyChanges(h: Heap, h': Heap, m: Ref, key: string, value: Ref)
    requires WellFormed(h) && IsMapping(h, m) && IsSet(h, h', m, key, value)
    ensures OnlyChanges(h, h', m)
    ensures forall n :: n in h' && n !in h ==> h'[n].kind == ScalarNode && h'[n].content == []
  {
    var at := FindName(h, h[m].content, key, 0);
    if at + 1 >= |h[m].content| {
      var name :| name !in h && name != NIL && h' == WithPair(h, m, name, key, value);
    }
  }

  lemma PairsPutOneMore(h: Heap, h': Heap, h'': Heap, m: Ref, put: map<string, Ref>, key: string, value: Ref)
    requires WellFormed(h') && IsPut(h, h', m, put) && key !in put && IsSet(h', h'', m, key, value)
    ensures OnlyChanges(h', h'', m) && PairsPut(h, h'', h[m].content, h''[m].content, put[key := value])
  {
    var content, content' := h[m].content, h'[m].content;
    var at' := FindName(h', content', key, 0);
    SameHijacks(h, h', m, put, key);
    SetOnlyChanges(h', h'', m, key, value);
    SameMergeKeys(h', h'', m, content');
    if at' + 1 < |content'| {
      PairReplaced(h, h', h'', content, content', put, key, value, at');
    } else {
      var name :| name !in h' && name != NIL && h'' == WithPair(h', m, name, key, value);
      PairAppended(h, h', h'', content, content', put, name, key, value);
    }
  }

  lemma OwnPairPutOneMore(h: Heap, h': Heap, h'': Heap, m: Ref, put: map<string, Ref>, key: string, value: Ref,
                          other: string)
    requires WellFormed(h') && IsPut(h, h', m, put) && value in h' && IsSet(h', h'', m, key, value)
    ensures m in h'' && OwnPairPut(h, h'', m, put[key := value], other)
  {
    SameHijacks(h, h', m, put, key);
    SetOwnPair(h', h'', m, key, value, other);
    assert OwnPairPut(h, h', m, put, other);
  }

  /** Setting one key more. */
  lemma SetPuts(h: Heap, h': Heap, h'': Heap, m: Ref, put: map<string, Ref>, key: string, value: Ref)
    requires WellFormed(h') && IsPut(h, h', m, put) && key !in put
    requires value in h' && IsSet(h', h'', m, key, value)
    ensures IsPut(h, h'', m, put[key := value])
  {
    var more := put[key := value];
    PairsPutOneMore(h, h', h'', m, put, key, value);
    SetOnlyChanges(h', h'', m, key, value);
    forall other ensures OwnPairPut(h, h'', m, more, other) {
      OwnPairPutOneMore(h, h', h'', m, put, key, value, other);
    }
  }

  // ----- What every key then reads as -----

  lemma {:induction false} NoMoreMerges(h: Heap, content: seq<Ref>, i: nat)
    requires i % 2 == 0 && forall j :: i <= j < |content| && j % 2 == 0 ==> !IsMergeKey(h, content[j])
    ensures MergeValues(h, content, i) == []
    decreases |content| - i
  {
    if i + 1 >= |content| {
    } else {
      NoMoreMerges(h, content, i + 2);
    }
  }

  lemma {:induction false} MergeValuesPut(h: Heap, h': Heap, m: Ref, content: seq<Ref>, content': seq<Ref>,
                                          put: map<string, Ref>, replaced: seq<Ref>, i: nat)
    requires OnlyChanges(h, h', m) && PairsPut(h, h', content, content', put) && i % 2 == 0
    requires |replaced| == |content| && forall j :: 0 <= j < |content| ==> replaced[j] == PutAt(h, content, put, j)
    ensures MergeValues(h', content', i) == MergeValues(h, replaced, i)
    decreases |content| - i
  {
    if i + 1 >= |content| {
      forall j | i <= j < |content'| && j % 2 == 0 ensures !IsMergeKey(h', content'[j]) {
        assert SlotPut(h, h', content, content', put, j);
      }
      NoMoreMerges(h', content', i);
    } else {
      assert SlotPut(h, h', content, content', put, i) && SlotPut(h, h', content, content', put, i + 1);
      NodesAlike(h, h', m, content[i]);
      MergeValuesPut(h, h', m, content, content', put, replaced, i + 2);
    }
  }

  lemma {:induction false} ReplacedKeys(h: Heap, content: seq<Ref>, put: map<string, Ref>, replaced: seq<Ref>,
                                        key: string, i: nat)
    requires |replaced| == |content| && forall j :: 0 <= j < |content| ==> replaced[j] == PutAt(h, content, put, j)
    requires i % 2 == 0
    ensures FindKey(h, replaced, key, i) == FindKey(h, content, key, i)
    decreases |content| - i
  {
    if i + 1 >= |content| {
    } else {
      ReplacedKeys(h, content, put, replaced, key, i + 2);
    }
  }

  ghost predicate ValuesIn(h: Heap, put: map<string, Ref>) {
    forall key :: key in put ==> put[key] in h
  }

  lemma ReplacedIsSound(h: Heap, m: Ref, put: map<string, Ref>)
    requires WellFormed(h) && IsMapping(h, m) && ValuesIn(h, put)
    ensures WellFormed(Replaced(h, m, put)) && OnlyChanges(h, Replaced(h, m, put), m)
    ensures OnlyChanges(Replaced(h, m, put), h, m)
  {
    var content := h[m].content;
    var replaced := Replaced(h, m, put)[m].content;
    assert forall j :: 0 <= j < |content| ==> replaced[j] == PutAt(h, content, put, j);
    SetContentKeepsWellFormed(h, m, replaced);
  }

  lemma ReplacedOwnPair(h: Heap, m: Ref, put: map<string, Ref>, key: string)
    requires WellFormed(h) && IsMapping(h, m) && ValuesIn(h, put)
    ensures OwnPair(Replaced(h, m, put), m, key) == OwnPair(h, m, key)
  {
    var r := Replaced(h, m, put);
    ReplacedIsSound(h, m, put);
    ReplacedKeys(h, h[m].content, put, r[m].content, key, 0);
    PairsAlike(h, r, m, r[m].content, key, 0);
  }

  lemma PutMerged(h: Heap, h': Heap, m: Ref, put: map<string, Ref>)
    requires WellFormed(h) && IsPut(h, h', m, put) && ValuesIn(h, put)
    ensures Merged(h', m) == Merged(Replaced(h, m, put), m)
  {
    var r := Replaced(h, m, put);
    ReplacedIsSound(h, m, put);
    MergeValuesPut(h, h', m, h[m].content, h'[m].content, put, r[m].content, 0);
    PairsAlike(h, r, m, r[m].content, "", 0);
    ValuesInside(r, r[m].content);
    AllCandidatesAlike(r, h', m, MergeValues(r, r[m].content, 0));
  }

  /** A key that was set reads as set unless its text is first met as a merge key. That and every other key reads as if
      nothing had happened but that the values of such keys took the places of merge values. */
  lemma PutReads(h: Heap, h': Heap, m: Ref, put: map<string, Ref>, key: string)
    requires WellFormed(h) && IsPut(h, h', m, put) && ValuesIn(h, put)
    ensures if key in put && !Hijacked(h, h[m].content, key)
            then Ends(h', m, key) && Lookup(h', m, key) == Some(put[key])
            else ReadsAlike(Replaced(h, m, put), h', m, key)
  {
    assert OwnPairPut(h, h', m, put, key);
    if key in put && !Hijacked(h, h[m].content, key) {
      OwnPairEnds(h', m, key);
    } else {
      ReplacedIsSound(h, m, put);
      ReplacedOwnPair(h, m, put, key);
      PutMerged(h, h', m, put);
      ReadsAsBefore(Replaced(h, m, put), h', m, m, key);
    }
  }

  /** Where no key that is set is first met as a merge key, nothing is replaced. */
  lemma NothingReplaced(h: Heap, m: Ref, put: map<string, Ref>)
    requires m in h && forall key :: key in put ==> !Hijacked(h, h[m].content, key)
    ensures Replaced(h, m, put) == h
  {
    var content := h[m].content;
    forall j | 0 <= j < |content| ensures PutAt(h, content, put, j) == content[j] {
      assert j % 2 == 1 && IsMergeKey(h, content[j - 1]) && FindName(h, content, h[content[j - 1]].value, 0) == j - 1
             ==> Hijacked(h, content, h[content[j - 1]].value);
    }
    assert Replaced(h, m, put)[m].content == content;
  }

  // ----- Setting one key -----

  lemma OneSet(h: Heap, h': Heap, m: Ref, key: string, value: Ref)
    requires WellFormed(h) && IsMapping(h, m) && |h[m].content| % 2 == 0 && value in h && IsSet(h, h', m, key, value)
    ensures IsPut(h, h', m, map[key := value])
  {
    NothingPut(h, m);
    SetPuts(h, h, h', m, map[], key, value);
    assert map[][key := value] == map[key := value];
  }

  /** A key that was set reads as set, unless its text is first met as a merge key. */
  lemma SetReadsBack(h: Heap, h': Heap, m: Ref, key: string, value: Ref)
    requires WellFormed(h) && IsMapping(h, m) && |h[m].content| % 2 == 0 && value in h && IsSet(h, h', m, key, value)
    requires !Hijacked(h, h[m].content, key)
    ensures m in h' && Ends(h', m, key) && Lookup(h', m, key) == Some(value)
  {
    OneSet(h, h', m, key, value);
    PutReads(h, h', m, map[key := value], key);
  }

  /** What every other key then reads as, and the key itself if it was first met as a merge key: the same as if the
      value had done nothing but take the place of that merge key's. */
  lemma OthersAfterSet(h: Heap, h': Heap, m: Ref, key: string, value: Ref, other: string)
    requires WellFormed(h) && IsMapping(h, m) && |h[m].content| % 2 == 0 && value in h && IsSet(h, h', m, key, value)
    requires other != key || Hijacked(h, h[m].content, key)
    ensures ReadsAlike(Replaced(h, m, map[key := value]), h', m, other)
  {
    OneSet(h, h', m, key, value);
    PutReads(h, h', m, map[key := value], other);
  }

  /** So every other key reads as before, unless it is read through merge keys and the value took the place of one. */
  lemma SetKeepsOthers(h: Heap, h': Heap, m: Ref, key: string, value: Ref, other: string)
    requires WellFormed(h) && IsMapping(h, m) && |h[m].content| % 2 == 0 && value in h && IsSet(h, h', m, key, value)
    requires other != key && (!Hijacked(h, h[m].content, key) || OwnPair(h, m, other).Some?)
    ensures ReadsAlike(h, h', m, other)
  {
    OneSet(h, h', m, key, value);
    if OwnPair(h, m, other).Some? {
      assert OwnPairPut(h, h', m, map[key := value], other);
      OwnPairEnds(h, m, other);
      OwnPairEnds(h', m, other);
    } else {
      NothingReplaced(h, m, map[key := value]);
      PutReads(h, h', m, map[key := value], other);
    }
  }

  /** The mappings that m merges once the key was set are among these. */
  ghost predicate MergesOnly(h: Heap, m: Ref, put: map<string, Ref>, s: set<Ref>)
    requires m in h
  {
    var r := Replaced(h, m, put);
    forall x :: x in Merged(r, m) && IsMapping(r, Resolve(r, x)) ==> Resolve(r, x) in s
  }

  /** A value of another document, which nothing the mapping merges gives the key yet, is read back after it was set if
      and only if the first name of that text is no merge key. */
  lemma SetReadsBackExactly(h: Heap, h': Heap, m: Ref, key: string, value: Ref, s: set<Ref>)
    requires WellFormed(h) && IsMapping(h, m) && |h[m].content| % 2 == 0 && value in h && IsSet(h, h', m, key, value)
    requires MergeClosed(h, s) && MergesOnly(h, m, map[key := value], s)
    requires forall c :: c in s && c != m ==> !Gives(h, c, key, value)
    requires forall j :: 0 <= j < |h[m].content| ==> h[m].content[j] != value
    ensures m in h' && (Lookup(h', m, key) == Some(value) <==> !Hijacked(h, h[m].content, key))
  {
    OneSet(h, h', m, key, value);
    if !Hijacked(h, h[m].content, key) {
      SetReadsBack(h, h', m, key, value);
    } else if Lookup(h', m, key) == Some(value) {
      OthersAfterSet(h, h', m, key, value, key);
      var r := Replaced(h, m, map[key := value]);
      ReplacedIsClosed(h, m, map[key := value], s);
      ReplacedOwnPair(h, m, map[key := value], key);
      var c := ReadFromSomewhere(r, s + {m}, m, key);
      if c == m {
        GivenInside(h, m, key, value);
      } else {
        OtherNodeAlike(h, r, m, c, key);
        assert Gives(h, c, key, value);
      }
    }
  }

  lemma ReplacedIsClosed(h: Heap, m: Ref, put: map<string, Ref>, s: set<Ref>)
    requires WellFormed(h) && IsMapping(h, m) && ValuesIn(h, put) && MergeClosed(h, s) && MergesOnly(h, m, put, s)
    ensures MergeClosed(Replaced(h, m, put), s + {m}) && OnlyChanges(h, Replaced(h, m, put), m)
  {
    var r := Replaced(h, m, put);
    ReplacedIsSound(h, m, put);
    forall a, c | a in s + {m} && Merges(r, a, c) ensures c in s + {m} {
      var x :| x in Merged(r, a) && c == Resolve(r, x);
      if a != m {
        OtherNodeAlike(h, r, m, a, "");
        assert Merges(h, a, c);
      }
    }
  }

  // ----- A section that is lost -----

  lemma OnePairRead(h: Heap, m: Ref, name: Ref, value: Ref, key: string)
    requires m in h && h[m].content == [name, value]
    ensures IsMergeKey(h, name) ==> OwnPair(h, m, key).None? && Merged(h, m) == Candidates(h, value)
    ensures IsKey(h, name, key) ==> OwnPair(h, m, key) == Some(value)
  {
    assert MergeValues(h, [name, value], 2) == [];
    if IsMergeKey(h, name) {
      assert MergeValues(h, [name, value], 0) == [value];
      assert [value][1..] == [] && AllCandidates(h, []) == [];
      assert AllCandidates(h, [value]) == Candidates(h, value);
    }
  }

  /** A mapping without the key that merges nothing, or another one first, which has it. */
  lemma ReadThrough(h: Heap, m: Ref, key: string)
    requires m in h && OwnPair(h, m, key).None?
    ensures Merged(h, m) == [] ==> Ends(h, m, key) && Lookup(h, m, key).None?
    ensures Merged(h, m) != [] && IsMapping(h, Resolve(h, Merged(h, m)[0])) ==>
              var c := Resolve(h, Merged(h, m)[0]);
              OwnPair(h, c, key).Some? ==> Ends(h, m, key) && Lookup(h, m, key) == OwnPair(h, c, key)
  {
    if Merged(h, m) == [] {
      assert ReadWithin(h, m, key, 1) == Some(None);
      ReadIsLookup(h, m, key, 1);
    } else if IsMapping(h, Resolve(h, Merged(h, m)[0])) {
      var c := Resolve(h, Merged(h, m)[0]);
      if OwnPair(h, c, key).Some? {
        assert ReadWithin(h, c, key, 1) == Some(OwnPair(h, c, key));
        assert ReadWithin(h, m, key, 2) == ReadFirst(h, Merged(h, m), key, 1) == Some(OwnPair(h, c, key));
        ReadIsLookup(h, m, key, 2);
      }
    }
  }

  /** An overlay whose first pair is a merge key of the text "proxies". */
  function LosingOverlay(): Heap {
    map[1 := Node(MappingNode, "!!map", "", "", [2, 3], NIL),
        2 := Node(ScalarNode, "!!merge", "proxies", "", [], NIL),
        3 := Node(MappingNode, "!!map", "", "", [5, 5], NIL),
        4 := Node(SequenceNode, "!!seq", "", "", [], NIL),
        5 := Node(ScalarNode, "!!str", "dns", "", [], NIL)]
  }

  lemma SectionGoesToMergeKey(h: Heap, h': Heap)
    requires h == LosingOverlay() && h' == h[1 := Node(MappingNode, "!!map", "", "", [2, 4], NIL)]
    ensures WellFormed(h) && Hijacked(h, [2, 3], "proxies") && IsSet(h, h', 1, "proxies", 4)
  {
    assert [2, 3][0 + 1 := 4] == [2, 4];
  }

  /** The section set there is lost, and with it the key that merge key gave. */
  lemma HijackedSectionIsLost(h: Heap, h': Heap)
    requires h == LosingOverlay() && h' == h[1 := Node(MappingNode, "!!map", "", "", [2, 4], NIL)]
    ensures WellFormed(h) && Hijacked(h, [2, 3], "proxies") && IsSet(h, h', 1, "proxies", 4)
    ensures Ends(h', 1, "proxies") && Lookup(h', 1, "proxies").None?
    ensures Lookup(h, 1, "dns") == Some(5) && Lookup(h', 1, "dns").None?
  {
    SectionGoesToMergeKey(h, h');
    OnePairRead(h, 1, 2, 3, "dns");
    OnePairRead(h, 3, 5, 5, "dns");
    ReadThrough(h, 1, "dns");
    OnePairRead(h', 1, 2, 4, "dns");
    ReadThrough(h', 1, "dns");
    OnePairRead(h', 1, 2, 4, "proxies");
    ReadThrough(h', 1, "proxies");
  }
}
