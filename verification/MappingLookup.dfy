/** What reading a key of a YAML mapping means, merge keys included. A mapping that merges itself may keep the program
    reading forever, so what is read is said by the number of nested look-ups it takes. */
module MappingLookup {
  import opened Wrappers
  import opened YamlGraph

  // ----- What reading a key of a mapping means -----

  predicate IsName(h: Heap, n: Ref) {
    n in h && h[n].kind == ScalarNode
  }

  predicate IsMergeKey(h: Heap, n: Ref) {
    IsName(h, n) && h[n].tag == "!!merge"
  }

  predicate IsKey(h: Heap, n: Ref, key: string) {
    IsName(h, n) && h[n].tag != "!!merge" && h[n].value == key
  }

  predicate IsMapping(h: Heap, n: Ref) {
    n in h && h[n].kind == MappingNode
  }

  /** The position from i on of the first pair whose name is the key, |content| or one less if there is none. */
  function FindKey(h: Heap, content: seq<Ref>, key: string, i: nat): (at: nat)
    ensures i <= at
    ensures at % 2 == i % 2
    ensures at + 1 < |content| ==> IsKey(h, content[at], key)
    ensures forall j :: i <= j < at && j + 1 < |content| && j % 2 == i % 2 ==> !IsKey(h, content[j], key)
    decreases |content| - i
  {
    if i + 1 >= |content| || IsKey(h, content[i], key) then i else FindKey(h, content, key, i + 2)
  }

  function PairIn(h: Heap, content: seq<Ref>, key: string): Option<Ref> {
    var at := FindKey(h, content, key, 0);
    if at + 1 < |content| then Some(content[at + 1]) else None
  }

  /** The value of the mapping's own first pair of this name. */
  function OwnPair(h: Heap, m: Ref, key: string): Option<Ref>
    requires m in h
  {
    PairIn(h, h[m].content, key)
  }

  /** The values of the merge keys from i on. */
  function MergeValues(h: Heap, content: seq<Ref>, i: nat): seq<Ref>
    decreases |content| - i
  {
    if i + 1 >= |content| then []
    else (if IsMergeKey(h, content[i]) then [content[i + 1]] else []) + MergeValues(h, content, i + 2)
  }

  /** The nodes a merge value names: itself, or the items of a sequence. */
  function Candidates(h: Heap, source: Ref): seq<Ref> {
    var s := Resolve(h, source);
    if s in h && h[s].kind == SequenceNode then h[s].content else [s]
  }

  function AllCandidates(h: Heap, sources: seq<Ref>): seq<Ref> {
    if sources == [] then [] else Candidates(h, sources[0]) + AllCandidates(h, sources[1..])
  }

  /** The nodes a mapping merges, in their order. */
  function Merged(h: Heap, m: Ref): seq<Ref>
    requires m in h
  {
    AllCandidates(h, MergeValues(h, h[m].content, 0))
  }

  /** The value of a key: that of the mapping's first pair of this name, else the first that its merged mappings give.
      None if that takes more than so many nested look-ups. */
  function ReadWithin(h: Heap, m: Ref, key: string, fuel: nat): Option<Option<Ref>>
    requires m in h
    decreases fuel, 0
  {
    if fuel == 0 then None
    else if OwnPair(h, m, key).Some? then Some(OwnPair(h, m, key))
    else ReadFirst(h, Merged(h, m), key, fuel - 1)
  }

  function ReadFirst(h: Heap, refs: seq<Ref>, key: string, fuel: nat): Option<Option<Ref>>
    decreases fuel, 1 + |refs|
  {
    if refs == [] then Some(None)
    else if !IsMapping(h, Resolve(h, refs[0])) then ReadFirst(h, refs[1..], key, fuel)
    else
      var r := ReadWithin(h, Resolve(h, refs[0]), key, fuel);
      if r == Some(None) then ReadFirst(h, refs[1..], key, fuel) else r
  }

  /** The look-up comes to an end. */
  ghost predicate Ends(h: Heap, m: Ref, key: string)
    requires m in h
  {
    exists fuel: nat :: ReadWithin(h, m, key, fuel).Some?
  }

  /** What the look-up gives if it ends. */
  ghost function Lookup(h: Heap, m: Ref, key: string): Option<Ref>
    requires m in h
  {
    if Ends(h, m, key) then
      var fuel: nat :| ReadWithin(h, m, key, fuel).Some?;
      ReadWithin(h, m, key, fuel).value
    else None
  }

  lemma {:induction false} MoreFuel(h: Heap, m: Ref, key: string, fuel: nat, more: nat)
    requires m in h && fuel <= more && ReadWithin(h, m, key, fuel).Some?
    ensures ReadWithin(h, m, key, more) == ReadWithin(h, m, key, fuel)
    decreases fuel, 0
  {
    if OwnPair(h, m, key).Some? {
    } else {
      MoreFuelFirst(h, Merged(h, m), key, fuel - 1, more - 1);
    }
  }

  lemma {:induction false} MoreFuelFirst(h: Heap, refs: seq<Ref>, key: string, fuel: nat, more: nat)
    requires fuel <= more && ReadFirst(h, refs, key, fuel).Some?
    ensures ReadFirst(h, refs, key, more) == ReadFirst(h, refs, key, fuel)
    decreases fuel, 1 + |refs|
  {
    if refs == [] {
    } else {
      var c := Resolve(h, refs[0]);
      if IsMapping(h, c) {
        MoreFuel(h, c, key, fuel, more);
      }
      if !IsMapping(h, c) || ReadWithin(h, c, key, fuel) == Some(None) {
        MoreFuelFirst(h, refs[1..], key, fuel, more);
      }
    }
  }

  /** Whatever number of look-ups suffices, what is read is the same. */
  lemma ReadIsLookup(h: Heap, m: Ref, key: string, fuel: nat)
    requires m in h && ReadWithin(h, m, key, fuel).Some?
    ensures Ends(h, m, key) && Lookup(h, m, key) == ReadWithin(h, m, key, fuel).value
  {
    var other: nat :| ReadWithin(h, m, key, other).Some?
      && Lookup(h, m, key) == ReadWithin(h, m, key, other).value;
    MoreFuel(h, m, key, fuel, if fuel > other then fuel else other);
    MoreFuel(h, m, key, other, if fuel > other then fuel else other);
  }

  /** A key of the mapping's own is always found, whatever it merges. */
  lemma OwnPairEnds(h: Heap, m: Ref, key: string)
    requires m in h && OwnPair(h, m, key).Some?
    ensures Ends(h, m, key) && Lookup(h, m, key) == OwnPair(h, m, key)
  {
    assert ReadWithin(h, m, key, 1) == Some(OwnPair(h, m, key));
    ReadIsLookup(h, m, key, 1);
  }

  // ----- The look-up as the program does it -----

  lemma {:induction false} MergeValuesOf(h: Heap, content: seq<Ref>, i: nat, s: Ref)
    requires s in MergeValues(h, content, i)
    ensures exists j :: i < j < |content| && j % 2 != i % 2 && IsMergeKey(h, content[j - 1]) && content[j] == s
    decreases |content| - i
  {
    if i + 1 >= |content| {
    } else {
      if s in MergeValues(h, content, i + 2) {
        MergeValuesOf(h, content, i + 2, s);
      } else {
        assert content[i + 1] == s;
      }
    }
  }

  lemma ValuesInside(h: Heap, content: seq<Ref>)
    requires forall j :: 0 <= j < |content| ==> content[j] in h
    ensures forall k :: 0 <= k < |MergeValues(h, content, 0)| ==> MergeValues(h, content, 0)[k] in h
  {
    forall s | s in MergeValues(h, content, 0) ensures s in h {
      MergeValuesOf(h, content, 0, s);
    }
  }

  lemma CandidatesInside(h: Heap, source: Ref)
    requires WellFormed(h) && source in h
    ensures forall i :: 0 <= i < |Candidates(h, source)| ==> Candidates(h, source)[i] in h
  {
  }

  lemma {:induction false} CandidateOf(h: Heap, sources: seq<Ref>, x: Ref)
    requires x in AllCandidates(h, sources)
    ensures exists s :: s in sources && x in Candidates(h, s)
  {
    if sources == [] {
    } else {
      if x in Candidates(h, sources[0]) {
        assert sources[0] in sources;
      } else {
        CandidateOf(h, sources[1..], x);
      }
    }
  }

  lemma MergedInside(h: Heap, m: Ref)
    requires WellFormed(h) && m in h
    ensures forall x :: x in Merged(h, m) ==> x in h && Resolve(h, x) in h
  {
    var sources := MergeValues(h, h[m].content, 0);
    ValuesInside(h, h[m].content);
    forall x | x in Merged(h, m) ensures x in h && Resolve(h, x) in h {
      CandidateOf(h, sources, x);
      var s :| s in sources && x in Candidates(h, s);
      CandidatesInside(h, s);
      ResolvesInside(h, x);
    }
  }

  /** The value of the first pair of this name, and the values of the merge keys met before it. */
  method PairValue(h: Heap, mapping: Ref, key: string) returns (r: Option<Ref>, sources: seq<Ref>)
    requires WellFormed(h) && mapping in h
    ensures r == OwnPair(h, mapping, key)
    ensures r.None? ==> sources == MergeValues(h, h[mapping].content, 0)
  {
    var content := h[mapping].content;
    sources := [];
    var i := 0;
    while i + 1 < |content|
      invariant 0 <= i && i % 2 == 0
      invariant FindKey(h, content, key, 0) == FindKey(h, content, key, i)
      invariant MergeValues(h, content, 0) == sources + MergeValues(h, content, i)
    {
      var name := content[i];
      assert name in h;
      if h[name].kind == ScalarNode {
        if h[name].tag == "!!merge" {
          sources := sources + [content[i + 1]];
        } else if h[name].value == key {
          return Some(content[i + 1]), sources;
        }
      }
      i := i + 2;
    }
    r := None;
  }

  /** One candidate more. */
  lemma NextCandidate(h: Heap, refs: seq<Ref>, i: nat, rest: seq<Ref>, key: string, fuel: nat)
    requires i < |refs|
    ensures var c, next := Resolve(h, refs[i]), ReadFirst(h, refs[i + 1..] + rest, key, fuel);
            ReadFirst(h, refs[i..] + rest, key, fuel) ==
              if !IsMapping(h, c) || ReadWithin(h, c, key, fuel) == Some(None) then next
              else ReadWithin(h, c, key, fuel)
  {
    assert (refs[i..] + rest)[1..] == refs[i + 1..] + rest;
  }

  lemma NextSource(h: Heap, sources: seq<Ref>, k: nat)
    requires k < |sources|
    ensures AllCandidates(h, sources[k..]) == Candidates(h, sources[k])[0..] + AllCandidates(h, sources[k + 1..])
  {
    assert sources[k..][1..] == sources[k + 1..];
  }

  lemma ReadUnfolds(h: Heap, m: Ref, key: string, fuel: nat)
    requires WellFormed(h) && m in h && ReadWithin(h, m, key, fuel).Some?
    ensures Lookup(h, m, key) == ReadWithin(h, m, key, fuel).value
    ensures OwnPair(h, m, key).Some? ==> Lookup(h, m, key) == OwnPair(h, m, key) && OwnPair(h, m, key).value in h
    ensures OwnPair(h, m, key).None? ==>
              fuel > 0 && Some(Lookup(h, m, key)) == ReadFirst(h, Merged(h, m), key, fuel - 1)
  {
    ReadIsLookup(h, m, key, fuel);
    assert OwnPair(h, m, key).Some? ==> OwnPair(h, m, key).value in h[m].content;
  }

  /** Reads a key: the mapping's pairs first, and then its merged mappings. It needs nothing but that this ends. */
  method MappingValue(h: Heap, mapping: Ref, key: string, ghost fuel: nat) returns (r: Option<Ref>)
    requires WellFormed(h) && IsMapping(h, mapping) && ReadWithin(h, mapping, key, fuel).Some?
    ensures Some(r) == ReadWithin(h, mapping, key, fuel) && r == Lookup(h, mapping, key)
    ensures r.Some? ==> r.value in h
    decreases fuel, 0
  {
    ReadUnfolds(h, mapping, key, fuel);
    var sources;
    r, sources := PairValue(h, mapping, key);
    if r.None? {
      ValuesInside(h, h[mapping].content);
      r := SourcesValue(h, sources, key, fuel - 1);
    }
  }

  method SourcesValue(h: Heap, sources: seq<Ref>, key: string, ghost fuel: nat) returns (r: Option<Ref>)
    requires WellFormed(h) && forall k :: 0 <= k < |sources| ==> sources[k] in h
    requires ReadFirst(h, AllCandidates(h, sources), key, fuel).Some?
    ensures Some(r) == ReadFirst(h, AllCandidates(h, sources), key, fuel)
    ensures r.Some? ==> r.value in h
    decreases fuel, 2
  {
    ghost var answer := ReadFirst(h, AllCandidates(h, sources), key, fuel);
    assert sources[0..] == sources;
    for k := 0 to |sources|
      invariant answer == ReadFirst(h, AllCandidates(h, sources[k..]), key, fuel)
    {
      NextSource(h, sources, k);
      CandidatesInside(h, sources[k]);
      var source := ResolveAlias(h, sources[k]);
      var candidates := if h[source].kind == SequenceNode then h[source].content else [source];
      r := CandidatesValue(h, candidates, key, fuel, AllCandidates(h, sources[k + 1..]));
      if r.Some? {
        return;
      }
    }
    r := None;
  }

  /** The first value that these candidates give, the rest coming after them. */
  method CandidatesValue(h: Heap, candidates: seq<Ref>, key: string, ghost fuel: nat, ghost rest: seq<Ref>)
    returns (r: Option<Ref>)
    requires WellFormed(h) && forall i :: 0 <= i < |candidates| ==> candidates[i] in h
    requires ReadFirst(h, candidates[0..] + rest, key, fuel).Some?
    ensures ReadFirst(h, candidates[0..] + rest, key, fuel) ==
            if r.Some? then Some(r) else ReadFirst(h, rest, key, fuel)
    ensures r.Some? ==> r.value in h
    decreases fuel, 1
  {
    for i := 0 to |candidates|
      invariant ReadFirst(h, candidates[0..] + rest, key, fuel) == ReadFirst(h, candidates[i..] + rest, key, fuel)
    {
      NextCandidate(h, candidates, i, rest, key, fuel);
      ResolvesInside(h, candidates[i]);
      var candidate := ResolveAlias(h, candidates[i]);
      if h[candidate].kind == MappingNode {
        r := MappingValue(h, candidate, key, fuel);
        if r.Some? {
          return;
        }
      }
    }
    assert candidates[|candidates|..] + rest == rest;
    r := None;
  }

  // ----- Mappings that read alike -----

  /** c is a mapping that m merges. */
  ghost predicate Merges(h: Heap, m: Ref, c: Ref) {
    IsMapping(h, m) && IsMapping(h, c) && exists x :: x in Merged(h, m) && c == Resolve(h, x)
  }

  /** What these mappings merge is among them. */
  ghost predicate MergeClosed(h: Heap, s: set<Ref>) {
    (forall m :: m in s ==> IsMapping(h, m)) && forall m, c :: m in s && Merges(h, m, c) ==> c in s
  }

  /** m itself gives and merges the same in both. */
  ghost predicate SameToReader(h: Heap, h': Heap, m: Ref, key: string) {
    && m in h && m in h' && OwnPair(h', m, key) == OwnPair(h, m, key) && Merged(h', m) == Merged(h, m)
    && forall x :: x in Merged(h, m) ==>
         Resolve(h', x) == Resolve(h, x) && IsMapping(h', Resolve(h, x)) == IsMapping(h, Resolve(h, x))
  }

  ghost predicate SameToReaders(h: Heap, h': Heap, s: set<Ref>, key: string) {
    MergeClosed(h, s) && forall m :: m in s ==> SameToReader(h, h', m, key)
  }

  /** Reading ends in both or in neither, with the same result. */
  ghost predicate ReadsAlike(h: Heap, h': Heap, m: Ref, key: string) {
    m in h && m in h' && Ends(h', m, key) == Ends(h, m, key) && Lookup(h', m, key) == Lookup(h, m, key)
  }

  lemma {:induction false} ReadsAlikeWithin(h: Heap, h': Heap, s: set<Ref>, m: Ref, key: string, fuel: nat)
    requires SameToReaders(h, h', s, key) && m in s
    ensures m in h && m in h' && ReadWithin(h', m, key, fuel) == ReadWithin(h, m, key, fuel)
    decreases fuel, 0
  {
    assert SameToReader(h, h', m, key);
    if fuel == 0 || OwnPair(h, m, key).Some? {
    } else {
      forall x | x in Merged(h, m) && IsMapping(h, Resolve(h, x)) ensures Resolve(h, x) in s {
        assert Merges(h, m, Resolve(h, x));
      }
      ReadsFirstAlike(h, h', s, Merged(h, m), key, fuel - 1);
    }
  }

  lemma {:induction false} ReadsFirstAlike(h: Heap, h': Heap, s: set<Ref>, refs: seq<Ref>, key: string, fuel: nat)
    requires SameToReaders(h, h', s, key)
    requires forall x :: x in refs ==>
               Resolve(h', x) == Resolve(h, x) && IsMapping(h', Resolve(h, x)) == IsMapping(h, Resolve(h, x))
    requires forall x :: x in refs && IsMapping(h, Resolve(h, x)) ==> Resolve(h, x) in s
    ensures ReadFirst(h', refs, key, fuel) == ReadFirst(h, refs, key, fuel)
    decreases fuel, 1 + |refs|
  {
    if refs == [] {
    } else {
      var c := Resolve(h, refs[0]);
      assert refs[0] in refs;
      if IsMapping(h, c) {
        ReadsAlikeWithin(h, h', s, c, key, fuel);
      }
      assert forall x :: x in refs[1..] ==> x in refs;
      ReadsFirstAlike(h, h', s, refs[1..], key, fuel);
    }
  }

  /** Mappings that give and merge the same, and all that they merge, read alike. */
  lemma PartReadsAlike(h: Heap, h': Heap, s: set<Ref>, m: Ref, key: string)
    requires SameToReaders(h, h', s, key) && m in s
    ensures ReadsAlike(h, h', m, key)
  {
    forall fuel: nat ensures m in h && m in h' && ReadWithin(h', m, key, fuel) == ReadWithin(h, m, key, fuel) {
      ReadsAlikeWithin(h, h', s, m, key, fuel);
    }
    if fuel: nat :| ReadWithin(h, m, key, fuel).Some? {
      ReadIsLookup(h, m, key, fuel);
      ReadIsLookup(h', m, key, fuel);
    }
  }

  // ----- Where a value comes from -----

  /** c itself has a pair that gives the key this value. */
  ghost predicate Gives(h: Heap, c: Ref, key: string, value: Ref) {
    c in h && OwnPair(h, c, key) == Some(value)
  }

  lemma {:induction false} ReadFromSomewhereWithin(h: Heap, s: set<Ref>, m: Ref, key: string, fuel: nat, value: Ref)
    requires MergeClosed(h, s) && m in s && m in h && ReadWithin(h, m, key, fuel) == Some(Some(value))
    ensures exists c :: c in s && Gives(h, c, key, value)
    decreases fuel, 0
  {
    if OwnPair(h, m, key).Some? {
      assert Gives(h, m, key, value);
    } else {
      forall x | x in Merged(h, m) && IsMapping(h, Resolve(h, x)) ensures Resolve(h, x) in s {
        assert Merges(h, m, Resolve(h, x));
      }
      FirstFromSomewhere(h, s, Merged(h, m), key, fuel - 1, value);
    }
  }

  lemma {:induction false} FirstFromSomewhere(h: Heap, s: set<Ref>, refs: seq<Ref>, key: string, fuel: nat, value: Ref)
    requires MergeClosed(h, s) && ReadFirst(h, refs, key, fuel) == Some(Some(value))
    requires forall x :: x in refs && IsMapping(h, Resolve(h, x)) ==> Resolve(h, x) in s
    ensures exists c :: c in s && Gives(h, c, key, value)
    decreases fuel, 1 + |refs|
  {
    var c := Resolve(h, refs[0]);
    assert refs[0] in refs;
    if IsMapping(h, c) && ReadWithin(h, c, key, fuel) == Some(Some(value)) {
      ReadFromSomewhereWithin(h, s, c, key, fuel, value);
    } else {
      assert forall x :: x in refs[1..] ==> x in refs;
      FirstFromSomewhere(h, s, refs[1..], key, fuel, value);
    }
  }

  /** What is read is the value of a pair of the mapping or of one it merges, at some depth. */
  lemma ReadFromSomewhere(h: Heap, s: set<Ref>, m: Ref, key: string) returns (c: Ref)
    requires MergeClosed(h, s) && m in s && m in h && Lookup(h, m, key).Some?
    ensures c in s && Gives(h, c, key, Lookup(h, m, key).value)
  {
    var fuel: nat :| ReadWithin(h, m, key, fuel).Some?;
    ReadIsLookup(h, m, key, fuel);
    ReadFromSomewhereWithin(h, s, m, key, fuel, Lookup(h, m, key).value);
    c :| c in s && Gives(h, c, key, Lookup(h, m, key).value);
  }

  lemma GivenInside(h: Heap, c: Ref, key: string, value: Ref)
    requires WellFormed(h) && Gives(h, c, key, value)
    ensures value in h && value in h[c].content
  {
  }
}
