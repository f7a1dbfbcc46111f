/** When looking up a key of a mapping ends, since a mapping may merge itself. */
module LookupEnds {
  import opened Wrappers
  import opened YamlGraph
  import opened MappingLookup

  /** None of these mappings merges itself, not even by way of others. */
  ghost predicate MergesGoDown(h: Heap, s: set<Ref>, rank: Ref -> nat) {
    forall m, c :: m in s && Merges(h, m, c) ==> rank(c) < rank(m)
  }

  ghost predicate LackKey(h: Heap, s: set<Ref>, key: string) {
    forall m :: m in s ==> m in h && OwnPair(h, m, key).None?
  }

  // ----- Merges that go down end -----

  lemma {:induction false} RankedEndsWithin(h: Heap, s: set<Ref>, rank: Ref -> nat, m: Ref, key: string)
    requires MergeClosed(h, s) && MergesGoDown(h, s, rank) && m in s
    ensures m in h && ReadWithin(h, m, key, rank(m) + 1).Some?
    decreases rank(m), 0
  {
    if OwnPair(h, m, key).Some? {
    } else {
      forall x | x in Merged(h, m) && IsMapping(h, Resolve(h, x))
        ensures Resolve(h, x) in s && rank(Resolve(h, x)) < rank(m)
      {
        assert Merges(h, m, Resolve(h, x));
      }
      RankedFirstEnds(h, s, rank, Merged(h, m), key, rank(m));
    }
  }

  lemma {:induction false} RankedFirstEnds(h: Heap, s: set<Ref>, rank: Ref -> nat, refs: seq<Ref>, key: string,
                                          fuel: nat)
    requires MergeClosed(h, s) && MergesGoDown(h, s, rank)
    requires forall x :: x in refs && IsMapping(h, Resolve(h, x)) ==> Resolve(h, x) in s && rank(Resolve(h, x)) < fuel
    ensures ReadFirst(h, refs, key, fuel).Some?
    decreases fuel, 0, |refs|
  {
    if refs == [] {
    } else {
      var c := Resolve(h, refs[0]);
      assert refs[0] in refs;
      if IsMapping(h, c) {
        RankedEndsWithin(h, s, rank, c, key);
        MoreFuel(h, c, key, rank(c) + 1, fuel);
      }
      assert forall x :: x in refs[1..] ==> x in refs;
      RankedFirstEnds(h, s, rank, refs[1..], key, fuel);
    }
  }

  /** Where no mapping merges itself every look-up ends. */
  lemma RankedEnds(h: Heap, s: set<Ref>, rank: Ref -> nat, m: Ref, key: string)
    requires MergeClosed(h, s) && MergesGoDown(h, s, rank) && m in s
    ensures m in h && Ends(h, m, key)
  {
    RankedEndsWithin(h, s, rank, m, key);
  }

  // ----- A key that is nowhere found -----

  lemma {:induction false} AllAreAsked(h: Heap, refs: seq<Ref>, key: string, fuel: nat, x: Ref)
    requires ReadFirst(h, refs, key, fuel) == Some(None) && x in refs && IsMapping(h, Resolve(h, x))
    ensures ReadWithin(h, Resolve(h, x), key, fuel) == Some(None)
    decreases |refs|
  {
    if x == refs[0] {
    } else {
      AllAreAsked(h, refs[1..], key, fuel, x);
    }
  }

  /** Looking for a key that is nowhere to be found asks every mapping that is merged, one look-up deeper. */
  lemma AbsentKeyAsksAll(h: Heap, s: set<Ref>, m: Ref, c: Ref, key: string, fuel: nat)
    requires MergeClosed(h, s) && LackKey(h, s, key) && m in s && Merges(h, m, c)
    requires ReadWithin(h, m, key, fuel).Some?
    ensures fuel > 0 && c in h && ReadWithin(h, c, key, fuel - 1) == Some(None)
  {
    var x :| x in Merged(h, m) && c == Resolve(h, x);
    forall y | y in Merged(h, m) && IsMapping(h, Resolve(h, y)) ensures Resolve(h, y) in s {
      assert Merges(h, m, Resolve(h, y));
    }
    var r := ReadFirst(h, Merged(h, m), key, fuel - 1);
    if r.value.Some? {
      FirstFromSomewhere(h, s, Merged(h, m), key, fuel - 1, r.value.value);
    }
    AllAreAsked(h, Merged(h, m), key, fuel - 1, x);
  }

  lemma {:induction false} LeastExists(h: Heap, m: Ref, key: string, fuel: nat)
    requires m in h && ReadWithin(h, m, key, fuel).Some?
    ensures exists least: nat :: IsLeast(h, m, key, least)
    decreases fuel
  {
    if less: nat :| less < fuel && ReadWithin(h, m, key, less).Some? {
      LeastExists(h, m, key, less);
    } else {
      assert IsLeast(h, m, key, fuel);
    }
  }

  /** The nested look-ups it takes. */
  ghost predicate IsLeast(h: Heap, m: Ref, key: string, fuel: nat)
    requires m in h
  {
    ReadWithin(h, m, key, fuel).Some? && forall less: nat :: less < fuel ==> ReadWithin(h, m, key, less).None?
  }

  ghost function Needed(h: Heap, m: Ref, key: string): nat {
    if m in h && exists least: nat :: IsLeast(h, m, key, least) then
      var least: nat :| IsLeast(h, m, key, least);
      least
    else 0
  }

  /** Where looking for such a key ends, the look-ups it takes go down. */
  lemma AbsentKeyGoesDown(h: Heap, s: set<Ref>, m: Ref, c: Ref, key: string)
    requires MergeClosed(h, s) && LackKey(h, s, key) && m in s && Merges(h, m, c) && Ends(h, m, key)
    ensures c in s && Ends(h, c, key) && Needed(h, c, key) < Needed(h, m, key)
  {
    var fuel: nat :| ReadWithin(h, m, key, fuel).Some?;
    LeastExists(h, m, key, fuel);
    var least := Needed(h, m, key);
    AbsentKeyAsksAll(h, s, m, c, key, least);
    LeastExists(h, c, key, least - 1);
    assert IsLeast(h, c, key, Needed(h, c, key));
  }

  // ----- Exactly when it ends -----

  /** m and all it merges, at any depth, are ranked: no mapping among them merges itself. */
  ghost predicate IsRanked(h: Heap, m: Ref) {
    exists s: set<Ref>, rank: Ref -> nat :: m in s && MergeClosed(h, s) && MergesGoDown(h, s, rank)
  }

  lemma AskedGoDown(h: Heap, s: set<Ref>, asked: set<Ref>, rank: Ref -> nat, key: string)
    requires MergeClosed(h, s) && LackKey(h, s, key)
    requires asked == (set c | c in s && c in h && Ends(h, c, key)) && rank == (n => Needed(h, n, key))
    ensures MergeClosed(h, asked) && MergesGoDown(h, asked, rank)
  {
    assert asked <= s;
    forall m, c | m in asked && Merges(h, m, c) ensures c in asked && rank(c) < rank(m) {
      AbsentKeyGoesDown(h, s, m, c, key);
    }
  }

  /** Looking for a key that is nowhere to be found ends if and only if no mapping met on the way merges itself. */
  lemma AbsentKeyEndsExactly(h: Heap, s: set<Ref>, m: Ref, key: string)
    requires MergeClosed(h, s) && LackKey(h, s, key) && m in s
    ensures m in h && (Ends(h, m, key) <==> IsRanked(h, m))
  {
    if Ends(h, m, key) {
      var asked := set c | c in s && c in h && Ends(h, c, key);
      var rank: Ref -> nat := n => Needed(h, n, key);
      AskedGoDown(h, s, asked, rank, key);
    }
    if IsRanked(h, m) {
      var r: set<Ref>, rank: Ref -> nat :| m in r && MergeClosed(h, r) && MergesGoDown(h, r, rank);
      RankedEnds(h, r, rank, m, key);
    }
  }

  /** So all look-ups of such a key end if and only if one rank goes down with every merge. */
  lemma AllEndExactly(h: Heap, s: set<Ref>, key: string)
    requires MergeClosed(h, s) && LackKey(h, s, key)
    ensures (forall m :: m in s ==> Ends(h, m, key)) <==> exists rank: Ref -> nat :: MergesGoDown(h, s, rank)
  {
    if forall m :: m in s ==> Ends(h, m, key) {
      var rank: Ref -> nat := n => Needed(h, n, key);
      forall m, c | m in s && Merges(h, m, c) ensures rank(c) < rank(m) {
        AbsentKeyGoesDown(h, s, m, c, key);
      }
      assert MergesGoDown(h, s, rank);
    }
    if rank: Ref -> nat :| MergesGoDown(h, s, rank) {
      forall m | m in s ensures Ends(h, m, key) {
        RankedEnds(h, s, rank, m, key);
      }
    }
  }

  /** The document `&a {<<: *a}`: no look-up in it ever ends. */
  lemma SelfMergeNeverEnds(h: Heap, key: string)
    requires h == map[1 := Node(MappingNode, "!!map", "", "a", [2, 3], NIL),
                      2 := Node(ScalarNode, "!!merge", "<<", "", [], NIL),
                      3 := Node(AliasNode, "", "a", "", [], 1)]
    ensures WellFormed(h) && !Ends(h, 1, key)
  {
    assert FindKey(h, [2, 3], key, 0) == FindKey(h, [2, 3], key, 2) == 2;
    assert MergeValues(h, [2, 3], 2) == [];
    assert MergeValues(h, [2, 3], 0) == [3];
    assert Candidates(h, 3) == [1] && AllCandidates(h, [3][1..]) == [];
    assert Merged(h, 1) == [1];
    assert 1 in Merged(h, 1) && Resolve(h, 1) == 1;
    assert Merges(h, 1, 1);
    AbsentKeyEndsExactly(h, {1}, 1, key);
  }
}
