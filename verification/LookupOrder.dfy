/** Whose value a key of a mapping has: said of positions in the document, the first of them that gives one. */
module LookupOrder {
  import opened Wrappers
  import opened YamlGraph
  import opened MappingLookup

  // ----- The mapping's own pairs -----

  /** The pair at this position is the first of the key. */
  predicate IsFirstPair(h: Heap, content: seq<Ref>, key: string, at: nat) {
    && at % 2 == 0 && at + 1 < |content| && IsKey(h, content[at], key)
    && forall j :: 0 <= j < at && j % 2 == 0 ==> !IsKey(h, content[j], key)
  }

  lemma OwnPairIsFirst(h: Heap, m: Ref, key: string, value: Ref)
    requires m in h
    ensures OwnPair(h, m, key) == Some(value) <==>
            exists at: nat :: IsFirstPair(h, h[m].content, key, at) && h[m].content[at + 1] == value
  {
    var content := h[m].content;
    var at := FindKey(h, content, key, 0);
    if OwnPair(h, m, key).Some? {
      assert IsFirstPair(h, content, key, at);
    }
    if other: nat :| IsFirstPair(h, content, key, other) && content[other + 1] == value {
      assert at == other;
    }
  }

  // ----- The items that a mapping merges -----

  /** x is item i of the merge value at position j: of the sequence that it is, or the value itself. */
  predicate IsItem(h: Heap, content: seq<Ref>, j: nat, i: nat, x: Ref) {
    && j % 2 == 1 && j < |content| && IsMergeKey(h, content[j - 1])
    && var s := Resolve(h, content[j]);
       if s in h && h[s].kind == SequenceNode then i < |h[s].content| && x == h[s].content[i] else i == 0 && x == s
  }

  predicate Before(j': nat, i': nat, j: nat, i: nat) {
    j' < j || (j' == j && i' < i)
  }

  /** x stands for a mapping that gives the key. */
  ghost predicate GivesKey(h: Heap, x: Ref, key: string) {
    IsMapping(h, Resolve(h, x)) && Lookup(h, Resolve(h, x), key).Some?
  }

  /** x stands for no mapping, or for one in which the key is looked for in vain. */
  ghost predicate Passes(h: Heap, x: Ref, key: string) {
    IsMapping(h, Resolve(h, x)) ==> Ends(h, Resolve(h, x), key) && Lookup(h, Resolve(h, x), key).None?
  }

  /** No item in front of this one gives the key. */
  ghost predicate NoneBefore(h: Heap, content: seq<Ref>, key: string, j: nat, i: nat) {
    forall j': nat, i': nat, x' :: IsItem(h, content, j', i', x') && Before(j', i', j, i) ==> Passes(h, x', key)
  }

  /** The first item that gives the key. */
  ghost predicate IsFirstGiver(h: Heap, content: seq<Ref>, key: string, j: nat, i: nat, x: Ref) {
    IsItem(h, content, j, i, x) && GivesKey(h, x, key) && NoneBefore(h, content, key, j, i)
  }

  // ----- The first item gives the value -----

  /** Nodes that pass leave it to those behind them. */
  lemma {:induction false} PassOn(h: Heap, refs: seq<Ref>, rest: seq<Ref>, key: string, fuel: nat) returns (more: nat)
    requires ReadFirst(h, rest, key, fuel).Some? && forall x :: x in refs ==> Passes(h, x, key)
    ensures ReadFirst(h, refs + rest, key, more) == ReadFirst(h, rest, key, fuel)
    decreases |refs|
  {
    if refs == [] {
      more := fuel;
      assert refs + rest == rest;
    } else {
      var fuel1 := PassOn(h, refs[1..], rest, key, fuel);
      assert (refs + rest)[1..] == refs[1..] + rest;
      assert Passes(h, refs[0], key);
      var c := Resolve(h, refs[0]);
      more := fuel1;
      if IsMapping(h, c) {
        var fuel2: nat :| ReadWithin(h, c, key, fuel2).Some?;
        ReadIsLookup(h, c, key, fuel2);
        more := if fuel1 > fuel2 then fuel1 else fuel2;
        MoreFuel(h, c, key, fuel2, more);
      }
      MoreFuelFirst(h, refs[1..] + rest, key, fuel1, more);
    }
  }

  /** A node that gives the key ends the search. */
  lemma GiverRead(h: Heap, refs: seq<Ref>, i: nat, rest: seq<Ref>, key: string) returns (fuel: nat)
    requires i < |refs| && GivesKey(h, refs[i], key) && forall k :: 0 <= k < i ==> Passes(h, refs[k], key)
    ensures ReadFirst(h, refs + rest, key, fuel) == Some(Lookup(h, Resolve(h, refs[i]), key))
  {
    var c := Resolve(h, refs[i]);
    var fuel1: nat :| ReadWithin(h, c, key, fuel1).Some?;
    ReadIsLookup(h, c, key, fuel1);
    assert refs + rest == refs[..i] + (refs[i..] + rest);
    assert ReadFirst(h, refs[i..] + rest, key, fuel1) == ReadWithin(h, c, key, fuel1);
    fuel := PassOn(h, refs[..i], refs[i..] + rest, key, fuel1);
  }

  /** The items of the merge value behind position p come before those of later ones. */
  lemma CandidatesFrom(h: Heap, content: seq<Ref>, p: nat)
    requires p + 1 < |content|
    ensures AllCandidates(h, MergeValues(h, content, p)) ==
            (if IsMergeKey(h, content[p]) then Candidates(h, content[p + 1]) else [])
            + AllCandidates(h, MergeValues(h, content, p + 2))
  {
    var later := MergeValues(h, content, p + 2);
    if IsMergeKey(h, content[p]) {
      assert ([content[p + 1]] + later)[1..] == later;
    } else {
      assert [] + later == later && [] + AllCandidates(h, later) == AllCandidates(h, later);
    }
  }

  lemma ItemsAreCandidates(h: Heap, content: seq<Ref>, j: nat)
    requires j % 2 == 1 && j < |content| && IsMergeKey(h, content[j - 1])
    ensures forall i: nat, x :: IsItem(h, content, j, i, x) <==>
              i < |Candidates(h, content[j])| && Candidates(h, content[j])[i] == x
  {
  }

  lemma {:induction false} FirstGiverRead(h: Heap, content: seq<Ref>, key: string, p: nat, j: nat, i: nat, x: Ref)
    returns (fuel: nat)
    requires p % 2 == 0 && p < j && IsFirstGiver(h, content, key, j, i, x)
    ensures ReadFirst(h, AllCandidates(h, MergeValues(h, content, p)), key, fuel) ==
            Some(Lookup(h, Resolve(h, x), key))
    decreases j - p
  {
    CandidatesFrom(h, content, p);
    var refs := if IsMergeKey(h, content[p]) then Candidates(h, content[p + 1]) else [];
    var rest := AllCandidates(h, MergeValues(h, content, p + 2));
    if IsMergeKey(h, content[p]) {
      ItemsAreCandidates(h, content, p + 1);
    }
    forall k: nat | k < |refs| && Before(p + 1, k, j, i) ensures Passes(h, refs[k], key) {
      assert IsItem(h, content, p + 1, k, refs[k]);
    }
    if p + 1 == j {
      fuel := GiverRead(h, refs, i, rest, key);
    } else {
      var fuel1 := FirstGiverRead(h, content, key, p + 2, j, i, x);
      fuel := PassOn(h, refs, rest, key, fuel1);
    }
  }

  /** The value of a key that a mapping merges is that of the first item, in the order of its merge keys and of the
      items of each, that gives one. */
  lemma FirstItemWins(h: Heap, m: Ref, key: string, j: nat, i: nat, x: Ref)
    requires m in h && OwnPair(h, m, key).None? && IsFirstGiver(h, h[m].content, key, j, i, x)
    ensures Ends(h, m, key) && Lookup(h, m, key) == Lookup(h, Resolve(h, x), key)
  {
    var fuel := FirstGiverRead(h, h[m].content, key, 0, j, i, x);
    assert ReadWithin(h, m, key, fuel + 1) == ReadFirst(h, Merged(h, m), key, fuel);
    ReadIsLookup(h, m, key, fuel + 1);
  }

  // ----- And every value comes from such an item -----

  /** Where the search among these nodes stops: at one of them, all in front of it having passed, or behind them. */
  lemma {:induction false} StopsSomewhere(h: Heap, refs: seq<Ref>, rest: seq<Ref>, key: string, fuel: nat, value: Ref)
    returns (i: nat)
    requires ReadFirst(h, refs + rest, key, fuel) == Some(Some(value))
    ensures i <= |refs| && forall k :: 0 <= k < i ==> Passes(h, refs[k], key)
    ensures i < |refs| ==> GivesKey(h, refs[i], key) && Lookup(h, Resolve(h, refs[i]), key) == Some(value)
    ensures i == |refs| ==> ReadFirst(h, rest, key, fuel) == Some(Some(value))
    decreases |refs|
  {
    if refs == [] {
      i := 0;
      assert refs + rest == rest;
    } else {
      var c := Resolve(h, refs[0]);
      assert (refs + rest)[1..] == refs[1..] + rest;
      if IsMapping(h, c) {
        ReadIsLookup(h, c, key, fuel);
      }
      if IsMapping(h, c) && ReadWithin(h, c, key, fuel) != Some(None) {
        i := 0;
      } else {
        var k := StopsSomewhere(h, refs[1..], rest, key, fuel, value);
        i := k + 1;
        forall k' | 0 < k' < i ensures Passes(h, refs[k'], key) {
          assert refs[k'] == refs[1..][k' - 1];
        }
      }
    }
  }

  ghost predicate NoneFromTo(h: Heap, content: seq<Ref>, key: string, p: nat, j: nat, i: nat) {
    forall j': nat, i': nat, x' :: p <= j' && IsItem(h, content, j', i', x') && Before(j', i', j, i) ==>
      Passes(h, x', key)
  }

  lemma {:induction false} GiverExists(h: Heap, content: seq<Ref>, key: string, p: nat, fuel: nat, value: Ref)
    returns (j: nat, i: nat, x: Ref)
    requires p % 2 == 0
    requires ReadFirst(h, AllCandidates(h, MergeValues(h, content, p)), key, fuel) == Some(Some(value))
    ensures p < j && IsItem(h, content, j, i, x) && GivesKey(h, x, key) && NoneFromTo(h, content, key, p, j, i)
    ensures Lookup(h, Resolve(h, x), key) == Some(value)
    decreases |content| - p
  {
    assert p + 1 < |content|;
    CandidatesFrom(h, content, p);
    var here := p + 1;
    var refs := if IsMergeKey(h, content[p]) then Candidates(h, content[here]) else [];
    var rest := AllCandidates(h, MergeValues(h, content, p + 2));
    if IsMergeKey(h, content[p]) {
      ItemsAreCandidates(h, content, here);
    }
    i := StopsSomewhere(h, refs, rest, key, fuel, value);
    forall i': nat, x' | IsItem(h, content, here, i', x') && i' < i ensures Passes(h, x', key) {
      assert x' == refs[i'];
    }
    if i < |refs| {
      j, x := here, refs[i];
    } else {
      j, i, x := GiverExists(h, content, key, p + 2, fuel, value);
      forall i': nat, x' | IsItem(h, content, here, i', x') ensures Passes(h, x', key) {
        assert x' == refs[i'];
      }
      NoneFromEarlier(h, content, key, p, here, j, i);
    }
  }

  lemma NoneFromEarlier(h: Heap, content: seq<Ref>, key: string, p: nat, here: nat, j: nat, i: nat)
    requires p % 2 == 0 && here == p + 1 && NoneFromTo(h, content, key, p + 2, j, i)
    requires forall i': nat, x' :: IsItem(h, content, here, i', x') ==> Passes(h, x', key)
    ensures NoneFromTo(h, content, key, p, j, i)
  {
    forall j': nat, i': nat, x' | p <= j' && IsItem(h, content, j', i', x') && Before(j', i', j, i)
      ensures Passes(h, x', key)
    {
      assert j' == here || p + 2 <= j';
    }
  }

  /** A key that the mapping itself lacks has a value if and only if it is that of the first item that gives one. */
  lemma MergedValueExactly(h: Heap, m: Ref, key: string, value: Ref)
    requires m in h && OwnPair(h, m, key).None?
    ensures Lookup(h, m, key) == Some(value) <==>
            exists j: nat, i: nat, x :: IsFirstGiver(h, h[m].content, key, j, i, x)
                                        && Lookup(h, Resolve(h, x), key) == Some(value)
  {
    if Lookup(h, m, key) == Some(value) {
      var fuel: nat :| ReadWithin(h, m, key, fuel).Some?;
      ReadIsLookup(h, m, key, fuel);
      var j, i, x := GiverExists(h, h[m].content, key, 0, fuel - 1, value);
      assert IsFirstGiver(h, h[m].content, key, j, i, x);
    }
    if j: nat, i: nat, x :| IsFirstGiver(h, h[m].content, key, j, i, x)
                            && Lookup(h, Resolve(h, x), key) == Some(value) {
      FirstItemWins(h, m, key, j, i, x);
    }
  }

  /** So an item never gives the value where an earlier one gives another. */
  lemma LaterItemLoses(h: Heap, m: Ref, key: string, j: nat, i: nat, x: Ref, j': nat, i': nat, x': Ref)
    requires m in h && OwnPair(h, m, key).None? && IsFirstGiver(h, h[m].content, key, j, i, x)
    requires IsItem(h, h[m].content, j', i', x') && Before(j, i, j', i') && GivesKey(h, x', key)
    requires Lookup(h, Resolve(h, x'), key) != Lookup(h, Resolve(h, x), key)
    ensures Lookup(h, m, key) != Lookup(h, Resolve(h, x'), key)
  {
    FirstItemWins(h, m, key, j, i, x);
  }
}
