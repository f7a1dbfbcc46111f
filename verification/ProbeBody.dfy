/** A probe's body read until what it is scanned for has arrived. Characters stand for bytes. */
module ProbeBody {
  import opened Wrappers

  const CHUNK := 32 * 1024
  const OVERLAP := 256

  function Min(a: nat, b: nat): nat {
    if a < b then a else b
  }

  /** The lengths the buffer grows to from this one on, by reads of at most these sizes up to the limit. */
  function LaterCuts(length: nat, limit: nat, sizes: seq<nat>): seq<nat>
    requires length <= limit
    decreases |sizes|
  {
    if sizes == [] || length == limit then []
    else
      var n := Min(Min(sizes[0], CHUNK), limit - length);
      (if n > 0 then [length + n] else []) + LaterCuts(length + n, limit, sizes[1..])
  }

  /** The lengths the buffer would have, were nothing ever found. */
  function Cuts(body: string, maxBody: nat, sizes: seq<nat>): seq<nat> {
    [0] + LaterCuts(0, Min(maxBody, |body|), sizes)
  }

  ghost predicate AreCuts(whole: string, cuts: seq<nat>) {
    && cuts != [] && cuts[0] == 0
    && Increasing(cuts) && cuts[|cuts| - 1] == |whole|
  }

  ghost predicate Increasing(cuts: seq<nat>) {
    forall i, j :: 0 <= i < j < |cuts| ==> cuts[i] < cuts[j]
  }

  ghost predicate Between(cuts: seq<nat>, low: nat, high: nat) {
    forall i :: 0 <= i < |cuts| ==> low < cuts[i] <= high
  }

  lemma IncreasingFrom(first: nat, later: seq<nat>, high: nat)
    requires Increasing(later) && Between(later, first, high)
    ensures Increasing([first] + later)
  {
  }

  lemma {:induction false} LaterCutsGrow(length: nat, limit: nat, sizes: seq<nat>)
    requires length <= limit
    ensures Increasing(LaterCuts(length, limit, sizes)) && Between(LaterCuts(length, limit, sizes), length, limit)
    decreases |sizes|
  {
    if sizes != [] && length < limit {
      var n := Min(Min(sizes[0], CHUNK), limit - length);
      var rest := LaterCuts(length + n, limit, sizes[1..]);
      LaterCutsGrow(length + n, limit, sizes[1..]);
      if n > 0 {
        IncreasingFrom(length + n, rest, limit);
        assert LaterCuts(length, limit, sizes) == [length + n] + rest;
      } else {
        assert LaterCuts(length, limit, sizes) == [] + rest == rest;
      }
    }
  }

  lemma CutsGrow(body: string, maxBody: nat, sizes: seq<nat>)
    ensures Increasing(Cuts(body, maxBody, sizes))
    ensures var cuts := Cuts(body, maxBody, sizes); cuts[|cuts| - 1] <= |body|
  {
    var limit := Min(maxBody, |body|);
    LaterCutsGrow(0, limit, sizes);
    IncreasingFrom(0, LaterCuts(0, limit, sizes), limit);
  }

  /** The whole of the limited body, as far as the connection delivers it. */
  function Whole(body: string, maxBody: nat, sizes: seq<nat>): (whole: string)
    ensures whole <= body && AreCuts(whole, Cuts(body, maxBody, sizes))
  {
    var cuts := Cuts(body, maxBody, sizes);
    CutsGrow(body, maxBody, sizes);
    body[..cuts[|cuts| - 1]]
  }

  /** What reads of these sizes bring of a body without end. */
  function Brought(sizes: seq<nat>): nat {
    if sizes == [] then 0 else Min(sizes[0], CHUNK) + Brought(sizes[1..])
  }

  lemma {:induction false} LastCut(length: nat, limit: nat, sizes: seq<nat>)
    requires length <= limit
    ensures var cuts := [length] + LaterCuts(length, limit, sizes);
            cuts[|cuts| - 1] == Min(limit, length + Brought(sizes))
    decreases |sizes|
  {
    if sizes == [] || length == limit {
    } else {
      var n := Min(Min(sizes[0], CHUNK), limit - length);
      LastCut(length + n, limit, sizes[1..]);
      assert length + n == limit || n == Min(sizes[0], CHUNK);
    }
  }

  /** The whole of it is the front of the body: the limit, the body's end or what the reads brought, whichever comes
      first. */
  lemma WholeIsLimited(body: string, maxBody: nat, sizes: seq<nat>)
    ensures Whole(body, maxBody, sizes) == body[..Min(Min(maxBody, |body|), Brought(sizes))]
  {
    LastCut(0, Min(maxBody, |body|), sizes);
  }

  /** What is scanned when the buffer has grown to cuts[j]: the bytes that came, and the overlap before them. */
  function Window(whole: string, cuts: seq<nat>, j: nat): string
    requires 0 < j < |cuts| && cuts[j - 1] <= cuts[j] <= |whole|
  {
    whole[(if cuts[j - 1] > OVERLAP then cuts[j - 1] - OVERLAP else 0)..cuts[j]]
  }

  /** Reading ends at the first cut whose window makes the scan hit, or at the last one. */
  ghost predicate StopsAt(whole: string, cuts: seq<nat>, until: string -> bool, s: nat) {
    && AreCuts(whole, cuts) && s < |cuts|
    && (forall j :: 0 < j < s ==> !until(Window(whole, cuts, j)))
    && (s == |cuts| - 1 || (s > 0 && until(Window(whole, cuts, s))))
  }

  lemma PartOfWhole(body: string, whole: string, from: nat, to: nat)
    requires whole <= body && from <= to <= |whole|
    ensures body[from..to] == whole[from..to]
  {
  }

  lemma NextCut(length: nat, limit: nat, sizes: seq<nat>, i: nat)
    requires length < limit && i < |sizes|
    ensures var n := Min(Min(sizes[i], CHUNK), limit - length);
            LaterCuts(length, limit, sizes[i..]) ==
            (if n > 0 then [length + n] else []) + LaterCuts(length + n, limit, sizes[i + 1..])
  {
    assert sizes[i..][1..] == sizes[i + 1..];
  }

  /** The buffer has grown to cuts[s] without a hit. */
  ghost predicate At(whole: string, cuts: seq<nat>, until: string -> bool, s: nat, length: nat) {
    && AreCuts(whole, cuts) && s < |cuts| && cuts[s] == length
    && forall j :: 0 < j <= s ==> !until(Window(whole, cuts, j))
  }

  lemma CutReached(cuts: seq<nat>, s: nat, next: nat, later: seq<nat>)
    requires s < |cuts| && cuts[s + 1..] == [next] + later
    ensures s + 1 < |cuts| && cuts[s + 1] == next && cuts[s + 2..] == later
  {
    assert cuts[s + 1..][0] == next;
    assert cuts[s + 1..][1..] == later;
  }

  lemma OneRead(cuts: seq<nat>, s: nat, length: nat, limit: nat, sizes: seq<nat>, i: nat)
    requires Ahead(cuts, s, length, limit, sizes, i) && i < |sizes| && length < limit
    ensures var n := Min(Min(sizes[i], CHUNK), limit - length);
            if n == 0 then Ahead(cuts, s, length, limit, sizes, i + 1)
            else s + 1 < |cuts| && cuts[s + 1] == length + n && Ahead(cuts, s + 1, length + n, limit, sizes, i + 1)
  {
    var n := Min(Min(sizes[i], CHUNK), limit - length);
    var later := LaterCuts(length + n, limit, sizes[i + 1..]);
    NextCut(length, limit, sizes, i);
    if n == 0 {
      assert [] + later == later;
    } else {
      CutReached(cuts, s, length + n, later);
    }
  }

  /** The n bytes a read brought are scanned behind the overlap. */
  method ScanChunk(body: string, length: nat, n: nat, until: string -> bool, ghost whole: string, ghost cuts: seq<nat>,
                   ghost s: nat)
    returns (hit: bool)
    requires At(whole, cuts, until, s, length) && whole <= body && s + 1 < |cuts| && cuts[s + 1] == length + n
    ensures hit <==> until(Window(whole, cuts, s + 1))
    ensures hit ==> StopsAt(whole, cuts, until, s + 1)
    ensures !hit ==> At(whole, cuts, until, s + 1, length + n)
  {
    var start := if length > OVERLAP then length - OVERLAP else 0;
    PartOfWhole(body, whole, start, length + n);
    hit := until(body[start..length + n]);
  }

  /** Reads until the scan hits or nothing more comes. */
  method ReadProbeBody(body: string, maxBody: nat, sizes: seq<nat>, until: string -> bool) returns (result: string)
    ensures exists s: nat ::
      && StopsAt(Whole(body, maxBody, sizes), Cuts(body, maxBody, sizes), until, s)
      && result == Whole(body, maxBody, sizes)[..Cuts(body, maxBody, sizes)[s]]
    ensures result <= body && |result| <= maxBody
    ensures (forall text :: !until(text)) ==> result == body[..Min(Min(maxBody, |body|), Brought(sizes))]
  {
    ghost var s;
    result, s := ReadLimited(body, Min(maxBody, |body|), sizes, until,
                             Whole(body, maxBody, sizes), Cuts(body, maxBody, sizes));
    WholeIsLimited(body, maxBody, sizes);
    CutInWhole(Whole(body, maxBody, sizes), Cuts(body, maxBody, sizes), s);
  }

  lemma CutInWhole(whole: string, cuts: seq<nat>, s: nat)
    requires AreCuts(whole, cuts) && s < |cuts|
    ensures cuts[s] <= |whole| && (s == |cuts| - 1 ==> whole[..cuts[s]] == whole)
  {
    assert s < |cuts| - 1 ==> cuts[s] < cuts[|cuts| - 1];
  }

  /** What the reads from i on would still add. */
  ghost predicate Ahead(cuts: seq<nat>, s: nat, length: nat, limit: nat, sizes: seq<nat>, i: nat) {
    s < |cuts| && length <= limit && i <= |sizes| && cuts[s + 1..] == LaterCuts(length, limit, sizes[i..])
  }

  method ReadLimited(body: string, limit: nat, sizes: seq<nat>, until: string -> bool, ghost whole: string,
                     ghost cuts: seq<nat>)
    returns (result: string, ghost s: nat)
    requires limit <= |body| && whole <= body && AreCuts(whole, cuts) && cuts == [0] + LaterCuts(0, limit, sizes)
    ensures StopsAt(whole, cuts, until, s) && result == whole[..cuts[s]]
  {
    var length := 0;
    s := 0;
    var i := 0;
    assert sizes[0..] == sizes && cuts[1..] == LaterCuts(0, limit, sizes);
    while i < |sizes| && length < limit
      invariant At(whole, cuts, until, s, length)
      invariant Ahead(cuts, s, length, limit, sizes, i)
    {
      var n := Min(Min(sizes[i], CHUNK), limit - length);
      OneRead(cuts, s, length, limit, sizes, i);
      if n > 0 {
        var hit := ScanChunk(body, length, n, until, whole, cuts, s);
        s, length := s + 1, length + n;
        if hit {
          PartOfWhole(body, whole, 0, length);
          return body[..length], s;
        }
      }
      i := i + 1;
    }
    NothingAhead(cuts, s, length, limit, sizes, i);
    PartOfWhole(body, whole, 0, length);
    result := body[..length];
  }

  lemma NothingAhead(cuts: seq<nat>, s: nat, length: nat, limit: nat, sizes: seq<nat>, i: nat)
    requires Ahead(cuts, s, length, limit, sizes, i) && (i == |sizes| || length == limit)
    ensures s == |cuts| - 1
  {
    assert |cuts[s + 1..]| == 0;
  }

  // ----- Patterns -----

  ghost predicate OccursAt(text: string, pattern: string, i: nat) {
    i + |pattern| <= |text| && text[i..i + |pattern|] == pattern
  }

  ghost predicate Contains(text: string, pattern: string) {
    exists i: nat :: OccursAt(text, pattern, i)
  }

  lemma OccursInPart(text: string, pattern: string, i: nat, from: nat, to: nat)
    requires from <= i && i + |pattern| <= to <= |text|
    ensures OccursAt(text, pattern, i) <==> OccursAt(text[from..to], pattern, i - from)
  {
    var part := text[from..to];
    assert forall x :: i <= x < i + |pattern| ==> text[x] == part[x - from];
    assert part[i - from..i - from + |pattern|] == text[i..i + |pattern|];
  }

  /** A pattern no longer than the overlap and one byte that is complete at a cut, but not at the one before, is in the
      window of that cut. */
  lemma CompleteInWindow(whole: string, cuts: seq<nat>, j: nat, pattern: string, i: nat)
    requires AreCuts(whole, cuts) && 0 < j < |cuts| && |pattern| <= OVERLAP + 1
    requires OccursAt(whole, pattern, i) && cuts[j - 1] < i + |pattern| <= cuts[j]
    ensures Contains(Window(whole, cuts, j), pattern)
  {
    var start := if cuts[j - 1] > OVERLAP then cuts[j - 1] - OVERLAP else 0;
    OccursInPart(whole, pattern, i, start, cuts[j]);
    var at: nat := i - start;
    assert OccursAt(Window(whole, cuts, j), pattern, at);
  }

  lemma WindowInPrefix(whole: string, cuts: seq<nat>, j: nat, pattern: string)
    requires AreCuts(whole, cuts) && 0 < j < |cuts| && Contains(Window(whole, cuts, j), pattern)
    ensures Contains(whole[..cuts[j]], pattern)
  {
    var start := if cuts[j - 1] > OVERLAP then cuts[j - 1] - OVERLAP else 0;
    var i: nat :| OccursAt(Window(whole, cuts, j), pattern, i);
    OccursInPart(whole, pattern, start + i, start, cuts[j]);
    OccursInPart(whole, pattern, start + i, 0, cuts[j]);
    assert OccursAt(whole[..cuts[j]], pattern, start + i);
  }

  lemma {:induction false} MissedSoFar(whole: string, cuts: seq<nat>, j: nat, pattern: string)
    requires AreCuts(whole, cuts) && j < |cuts| && 0 < |pattern| <= OVERLAP + 1
    requires forall k :: 0 < k <= j ==> !Contains(Window(whole, cuts, k), pattern)
    ensures !Contains(whole[..cuts[j]], pattern)
  {
    if j == 0 {
    } else {
      MissedSoFar(whole, cuts, j - 1, pattern);
      forall i: nat ensures !OccursAt(whole[..cuts[j]], pattern, i) {
        if i + |pattern| <= cuts[j] {
          OccursInPart(whole, pattern, i, 0, cuts[j]);
          if i + |pattern| <= cuts[j - 1] {
            OccursInPart(whole, pattern, i, 0, cuts[j - 1]);
            assert !OccursAt(whole[..cuts[j - 1]], pattern, i);
          } else if OccursAt(whole, pattern, i) {
            CompleteInWindow(whole, cuts, j, pattern, i);
          }
        }
      }
    }
  }

  /** A pattern of any length that is in the whole body is in what was read, though reading may stop late. */
  lemma PatternIsKept(whole: string, cuts: seq<nat>, until: string -> bool, s: nat, pattern: string)
    requires StopsAt(whole, cuts, until, s) && forall text :: until(text) <==> Contains(text, pattern)
    ensures Contains(whole[..cuts[s]], pattern) <==> Contains(whole, pattern)
    ensures !Contains(whole, pattern) ==> whole[..cuts[s]] == whole
  {
    if s < |cuts| - 1 {
      WindowInPrefix(whole, cuts, s, pattern);
      var i: nat :| OccursAt(whole[..cuts[s]], pattern, i);
      OccursInPart(whole, pattern, i, 0, cuts[s]);
    } else {
      assert whole[..cuts[s]] == whole;
    }
  }

  /** However the body comes in, a pattern of at most OVERLAP + 1 bytes is in what was read if and only if it is in the
      whole body, and reading stops with the very read that completes it. */
  lemma StopsWithThePattern(whole: string, cuts: seq<nat>, until: string -> bool, s: nat, pattern: string)
    requires StopsAt(whole, cuts, until, s) && 0 < |pattern| <= OVERLAP + 1
    requires forall text :: until(text) <==> Contains(text, pattern)
    ensures Contains(whole[..cuts[s]], pattern) <==> Contains(whole, pattern)
    ensures forall j :: 0 <= j < s ==> !Contains(whole[..cuts[j]], pattern)
    ensures !Contains(whole, pattern) ==> whole[..cuts[s]] == whole
  {
    forall j: nat | j < s ensures !Contains(whole[..cuts[j]], pattern) {
      MissedSoFar(whole, cuts, j, pattern);
    }
    PatternIsKept(whole, cuts, until, s, pattern);
  }

  /** Reads of one byte each. */
  function Ones(n: nat): (sizes: seq<nat>)
    ensures |sizes| == n && forall i :: 0 <= i < n ==> sizes[i] == 1
  {
    seq(n, _ => 1)
  }

  ghost predicate CountsUp(cuts: seq<nat>, first: nat) {
    forall k :: 0 <= k < |cuts| ==> cuts[k] == first + k
  }

  lemma {:induction false} CutsOfOnes(length: nat, limit: nat)
    requires length <= limit
    ensures |LaterCuts(length, limit, Ones(limit - length))| == limit - length
    ensures CountsUp(LaterCuts(length, limit, Ones(limit - length)), length + 1)
    decreases limit - length
  {
    if length >= limit {
    } else {
      assert Ones(limit - length)[1..] == Ones(limit - length - 1);
      CutsOfOnes(length + 1, limit);
    }
  }

  /** The bound is exact: a longer pattern that comes in byte by byte is not noticed, and all of the body is read. */
  lemma LongerPatternsAreMissed(pattern: string, tail: string, until: string -> bool)
    requires |pattern| > OVERLAP + 1 && forall text :: until(text) <==> Contains(text, pattern)
    ensures var body := pattern + tail;
            var sizes := Ones(|body|);
            && Whole(body, |body|, sizes) == body
            && StopsAt(body, Cuts(body, |body|, sizes), until, |body|)
  {
    var body := pattern + tail;
    var cuts := Cuts(body, |body|, Ones(|body|));
    CutsOfOnes(0, |body|);
    CutsGrow(body, |body|, Ones(|body|));
    assert forall k :: 0 <= k < |cuts| ==> cuts[k] == k;
    forall j | 0 < j < |body| ensures !until(Window(body, cuts, j)) {
      assert |Window(body, cuts, j)| < |pattern|;
    }
  }

  // ----- The region code of a Gemini page -----

  const MARKER := ",2,1,200,\""
  const CODE_LENGTH := 3

  /** The first occurrence from i on, |text| + 1 if there is none. */
  function Index(text: string, pattern: string, i: nat): (at: nat)
    requires i <= |text|
    ensures at <= |text| ==> i <= at && OccursAt(text, pattern, at)
    ensures forall k: nat :: i <= k < at ==> !OccursAt(text, pattern, k)
    ensures at <= |text| + 1
    decreases |text| - i
  {
    if i + |pattern| <= |text| && text[i..i + |pattern|] == pattern then i
    else if i == |text| then |text| + 1
    else Index(text, pattern, i + 1)
  }

  /** The first marker is there with room for a code behind it. */
  predicate HasCode(text: string) {
    Index(text, MARKER, 0) + |MARKER| + CODE_LENGTH <= |text|
  }

  /** The code behind the first marker, if the text goes that far. */
  function GeminiCode(text: string): Option<string> {
    var at := Index(text, MARKER, 0);
    if at + |MARKER| + CODE_LENGTH > |text| then None
    else Some(text[at + |MARKER|..at + |MARKER| + CODE_LENGTH])
  }

  ghost predicate NotBefore(text: string, pattern: string, at: nat) {
    forall k: nat :: k < at ==> !OccursAt(text, pattern, k)
  }

  /** The code is the three bytes right behind the first marker. */
  lemma CodeExactly(text: string, code: string)
    ensures GeminiCode(text) == Some(code) <==>
            && |code| == 3
            && exists at: nat :: OccursAt(text, MARKER + code, at) && NotBefore(text, MARKER, at)
  {
    var at := Index(text, MARKER, 0);
    if GeminiCode(text) == Some(code) {
      JoinedOccurs(text, MARKER, code, at);
    }
    if |code| == 3 {
      if first: nat :| OccursAt(text, MARKER + code, first) && NotBefore(text, MARKER, first) {
        JoinedOccurs(text, MARKER, code, first);
        assert at == first;
      }
    }
  }

  lemma JoinedOccurs(text: string, front: string, back: string, at: nat)
    ensures OccursAt(text, front + back, at) <==> OccursAt(text, front, at) && OccursAt(text, back, at + |front|)
  {
    var mid, end := at + |front|, at + |front| + |back|;
    if end <= |text| {
      assert text[at..end] == text[at..mid] + text[mid..end];
      assert text[at..end][..|front|] == text[at..mid] && text[at..end][|front|..] == text[mid..end];
      assert (front + back)[..|front|] == front && (front + back)[|front|..] == back;
    }
  }

  lemma FirstNotLater(whole: string, cut: nat, pattern: string)
    requires cut <= |whole| && Index(whole[..cut], pattern, 0) <= cut
    ensures Index(whole, pattern, 0) <= Index(whole[..cut], pattern, 0)
  {
    var at := Index(whole[..cut], pattern, 0);
    assert whole[0..cut] == whole[..cut];
    OccursInPart(whole, pattern, at, 0, cut);
    assert OccursAt(whole, pattern, at);
  }

  /** A first occurrence that is complete at a cut is the first occurrence up to that cut. */
  lemma FirstStays(whole: string, cut: nat, pattern: string)
    requires cut <= |whole| && Index(whole, pattern, 0) + |pattern| <= cut
    ensures Index(whole[..cut], pattern, 0) == Index(whole, pattern, 0)
  {
    var at := Index(whole, pattern, 0);
    assert whole[0..cut] == whole[..cut];
    OccursInPart(whole, pattern, at, 0, cut);
    assert OccursAt(whole[..cut], pattern, at);
    FirstNotLater(whole, cut, pattern);
  }

  /** The code of the whole page is complete in what was read, if it is complete at all. */
  lemma FirstMarkerStays(whole: string, cut: nat)
    requires cut <= |whole| && Index(whole, MARKER, 0) + |MARKER| + CODE_LENGTH <= cut
    ensures GeminiCode(whole[..cut]) == GeminiCode(whole)
  {
    FirstStays(whole, cut, MARKER);
    var start := Index(whole, MARKER, 0) + |MARKER|;
    assert whole[..cut][start..start + CODE_LENGTH] == whole[start..start + CODE_LENGTH];
  }

  /** A window with a code behind its first marker means the first marker of the page has its code by then. */
  lemma WindowHasCode(whole: string, cuts: seq<nat>, j: nat)
    requires AreCuts(whole, cuts) && 0 < j < |cuts| && HasCode(Window(whole, cuts, j))
    ensures Index(whole, MARKER, 0) + |MARKER| + CODE_LENGTH <= cuts[j]
  {
    var start := if cuts[j - 1] > OVERLAP then cuts[j - 1] - OVERLAP else 0;
    var at := Index(Window(whole, cuts, j), MARKER, 0);
    var there: nat := start + at;
    OccursInPart(whole, MARKER, there, start, cuts[j]);
  }

  /** And the read that completes the code of the page is seen to do so. */
  lemma CodeInWindow(whole: string, cuts: seq<nat>, j: nat)
    requires AreCuts(whole, cuts) && 0 < j < |cuts|
    requires cuts[j - 1] < Index(whole, MARKER, 0) + |MARKER| + CODE_LENGTH <= cuts[j]
    ensures HasCode(Window(whole, cuts, j))
  {
    var start := if cuts[j - 1] > OVERLAP then cuts[j - 1] - OVERLAP else 0;
    var at := Index(whole, MARKER, 0);
    OccursInPart(whole, MARKER, at, start, cuts[j]);
    var there: nat := at - start;
    assert OccursAt(Window(whole, cuts, j), MARKER, there);
    assert Index(Window(whole, cuts, j), MARKER, 0) <= there;
  }

  lemma {:induction false} NoCodeYet(whole: string, cuts: seq<nat>, j: nat)
    requires AreCuts(whole, cuts) && j < |cuts|
    requires forall k :: 0 < k <= j ==> !HasCode(Window(whole, cuts, k))
    ensures cuts[j] < Index(whole, MARKER, 0) + |MARKER| + CODE_LENGTH
  {
    if j == 0 {
    } else {
      NoCodeYet(whole, cuts, j - 1);
      if Index(whole, MARKER, 0) + |MARKER| + CODE_LENGTH <= cuts[j] {
        CodeInWindow(whole, cuts, j);
      }
    }
  }

  /** The code found in what was read is the code of the whole page, and reading stops with the read that completes
      it. */
  lemma SameCode(whole: string, cuts: seq<nat>, until: string -> bool, s: nat)
    requires StopsAt(whole, cuts, until, s) && forall text :: until(text) <==> HasCode(text)
    ensures GeminiCode(whole[..cuts[s]]) == GeminiCode(whole)
    ensures forall j :: 0 <= j < s ==> GeminiCode(whole[..cuts[j]]).None?
  {
    if s < |cuts| - 1 {
      WindowHasCode(whole, cuts, s);
      FirstMarkerStays(whole, cuts[s]);
    } else {
      assert whole[..cuts[s]] == whole;
    }
    forall j: nat | j < s ensures GeminiCode(whole[..cuts[j]]).None? {
      NoCodeYet(whole, cuts, j);
      NoCodeInPrefix(whole, cuts[j]);
    }
  }

  lemma NoCodeInPrefix(whole: string, cut: nat)
    requires cut <= |whole| && cut < Index(whole, MARKER, 0) + |MARKER| + CODE_LENGTH
    ensures GeminiCode(whole[..cut]).None?
  {
    if Index(whole[..cut], MARKER, 0) <= cut {
      FirstNotLater(whole, cut, MARKER);
    }
  }

  const SCAN_MAX_BODY := 8 * 1024 * 1024

  /** The check reads until the code is there and takes it from what was read; the answer is that of the whole limited
      page. */
  method GeminiRegion(page: string, sizes: seq<nat>) returns (code: Option<string>)
    ensures code == GeminiCode(Whole(page, SCAN_MAX_BODY, sizes))
    ensures Brought(sizes) >= |page| ==> code == GeminiCode(page[..Min(SCAN_MAX_BODY, |page|)])
  {
    var body := ReadProbeBody(page, SCAN_MAX_BODY, sizes, HasCode);
    ghost var whole, cuts := Whole(page, SCAN_MAX_BODY, sizes), Cuts(page, SCAN_MAX_BODY, sizes);
    ghost var s: nat :| StopsAt(whole, cuts, HasCode, s) && body == whole[..cuts[s]];
    SameCode(whole, cuts, HasCode, s);
    WholeIsLimited(page, SCAN_MAX_BODY, sizes);
    code := GeminiCode(body);
  }
}
