/** The index that finds the same repeats without comparing every pair. */
module PrefixIndex {
  import opened Wrappers
  import opened Similarity
  import opened SortedLists
  import opened RareFirst
  import opened PairwiseScan

  /** Survivor slots and frequencies are 32-bit. */
  const U32_LIMIT: nat := 0x1_0000_0000
  /** Marks a survivor no set has looked at yet (`usize::MAX`). */
  const NEVER: nat := 0xFFFF_FFFF_FFFF_FFFF

  function TruncateU32(n: nat): (slot: nat)
    ensures slot < U32_LIMIT && (n < U32_LIMIT ==> slot == n)
  {
    n % U32_LIMIT
  }

  predicate TokenSets(sets: seq<seq<nat>>, tokenCount: nat) {
    forall i :: 0 <= i < |sets| ==> InRange(sets[i], tokenCount) && Increasing(sets[i])
  }

  /** The prefix of every set; an empty set has none. */
  ghost function Prefixes(sets: seq<seq<nat>>, frequency: seq<nat>, threshold: real): (prefixes: seq<seq<nat>>)
    requires TokenSets(sets, |frequency|)
    ensures |prefixes| == |sets|
  {
    seq(|sets|, i requires 0 <= i < |sets| =>
      if sets[i] == [] then [] else Prefix(frequency, sets[i], threshold))
  }

  /** `postings[t]` lists exactly the survivors whose prefix holds token `t`. */
  ghost predicate Indexed(prefixes: seq<seq<nat>>, survivors: seq<nat>, postings: seq<seq<nat>>)
    requires Indices(survivors, |prefixes|)
  {
    && (forall t, q :: 0 <= t < |postings| && 0 <= q < |postings[t]| ==> postings[t][q] < |survivors|)
    && forall slot, t :: 0 <= slot < |survivors| && 0 <= t < |postings| ==>
                           (slot in postings[t] <==> t in prefixes[survivors[slot]])
  }

  /** Near-duplicates meet in some posting list the probing set walks. */
  lemma ProbeReachesMatch(sets: seq<seq<nat>>, frequency: seq<nat>, threshold: real, survivors: seq<nat>,
                          postings: seq<seq<nat>>, i: nat, slot: nat) returns (p: nat)
    requires threshold > 0.0 && i < |sets|
    requires TokenSets(sets, |frequency|) && Indices(survivors, |sets|) && |postings| == |frequency|
    requires Indexed(Prefixes(sets, frequency, threshold), survivors, postings)
    requires slot < |survivors| && Near(sets[survivors[slot]], sets[i], threshold)
    ensures var prefix := Prefixes(sets, frequency, threshold)[i];
            p < |prefix| && prefix[p] < |postings| && slot in postings[prefix[p]]
  {
    var other := sets[survivors[slot]];
    NearSharesFraction(Elems(other), Elems(sets[i]), threshold);
    assert other != [] && sets[i] != [];
    var token := NearPrefixesMeet(frequency, other, sets[i], threshold);
    var prefix := Prefixes(sets, frequency, threshold)[i];
    p :| 0 <= p < |prefix| && prefix[p] == token;
  }

  /** Whether two sets are near-duplicates: the sizes alone can rule it out, and otherwise the shared tokens decide. */
  method Reaches(other: seq<nat>, tokens: seq<nat>, threshold: real) returns (near: bool)
    requires Increasing(other) && Increasing(tokens) && tokens != [] && threshold > 0.0
    ensures near == Near(other, tokens, threshold)
  {
    var small, large := |tokens|, |other|;
    if |other| < |tokens| {
      small, large := |other|, |tokens|;
    }
    ElemsSize(other);
    ElemsSize(tokens);
    near := false;
    if small as real / large as real >= threshold {
      var similarity := IdJaccard(other, tokens);
      near := similarity >= threshold;
    } else if Near(other, tokens, threshold) {
      SizeRatioBounds(Elems(other), Elems(tokens), small, large, threshold);
    }
  }

  /** The survivor slots `tokens` is a near-duplicate of. */
  ghost function Matches(sets: seq<seq<nat>>, survivors: seq<nat>, tokens: seq<nat>, threshold: real): set<nat>
    requires Indices(survivors, |sets|)
  {
    set slot | 0 <= slot < |survivors| && Near(sets[survivors[slot]], tokens, threshold)
  }

  lemma MatchAt(sets: seq<seq<nat>>, survivors: seq<nat>, tokens: seq<nat>, threshold: real, slot: nat)
    requires Indices(survivors, |sets|) && slot < |survivors|
    ensures slot in Matches(sets, survivors, tokens, threshold) <==> Near(sets[survivors[slot]], tokens, threshold)
  {
  }

  /** `first` is a match, and no match of `seen` is below it. */
  ghost predicate Smallest(first: Option<nat>, matches: set<nat>, seen: set<nat>) {
    && (first.Some? ==> first.value in matches)
    && forall slot :: slot in seen && slot in matches ==> first.Some? && first.value <= slot
  }

  /** Looked at by set `i`, or as it was. */
  ghost predicate VisitedBy(visited: seq<nat>, before: seq<nat>, i: nat) {
    |visited| == |before| && forall k :: 0 <= k < |visited| ==> visited[k] == before[k] || visited[k] == i
  }

  /** Slots marked by set `i` are among those `seen`. */
  ghost predicate MarkedSeen(visited: seq<nat>, i: nat, seen: set<nat>) {
    forall k :: 0 <= k < |visited| && visited[k] == i ==> k in seen
  }

  /** The slots listed under the tokens of `prefix`. */
  ghost function Listing(postings: seq<seq<nat>>, prefix: seq<nat>): set<nat>
    requires InRange(prefix, |postings|)
  {
    set p, slot | 0 <= p < |prefix| && slot in postings[prefix[p]] :: slot
  }

  /** Walk the posting lists of `prefix` for the smallest listed slot `tokens` duplicates. */
  method Probe(sets: seq<seq<nat>>, survivors: seq<nat>, postings: array<seq<nat>>, prefix: seq<nat>,
               tokens: seq<nat>, i: nat, before: seq<nat>, threshold: real)
    returns (first: Option<nat>, visited: seq<nat>)
    requires threshold > 0.0 && tokens != [] && Increasing(tokens) && InRange(prefix, postings.Length)
    requires Indices(survivors, |sets|) && forall k :: 0 <= k < |sets| ==> Increasing(sets[k])
    requires forall t, q :: 0 <= t < postings.Length && 0 <= q < |postings[t]| ==> postings[t][q] < |survivors|
    requires |before| == |survivors| && forall k :: 0 <= k < |before| ==> before[k] != i
    ensures VisitedBy(visited, before, i)
    ensures Smallest(first, Matches(sets, survivors, tokens, threshold), Listing(postings[..], prefix))
  {
    hide Matches, Near, Increasing;
    ghost var matches := Matches(sets, survivors, tokens, threshold);
    first, visited := None, before;
    ghost var seen: set<nat> := {};
    for p := 0 to |prefix|
      invariant VisitedBy(visited, before, i) && MarkedSeen(visited, i, seen) && Smallest(first, matches, seen)
      invariant forall r, slot :: 0 <= r < p && slot in postings[prefix[r]] ==> slot in seen
    {
      var list := postings[prefix[p]];
      ghost var earlier := seen;
      for q := 0 to |list|
        invariant VisitedBy(visited, before, i) && MarkedSeen(visited, i, seen) && Smallest(first, matches, seen)
        invariant earlier <= seen
        invariant forall r :: 0 <= r < q ==> list[r] in seen
      {
        var slot := list[q];
        seen := seen + {slot};
        if visited[slot] == i || (first.Some? && first.value < slot) {
          continue;
        }
        visited := visited[slot := i];
        MatchAt(sets, survivors, tokens, threshold, slot);
        var near := Reaches(sets[survivors[slot]], tokens, threshold);
        if near {
          first := Some(slot);
        }
      }
    }
  }

  /** Document frequency: how many of the sets hold `token`. */
  function SetsHolding(sets: seq<seq<nat>>, token: nat): nat {
    if sets == [] then 0
    else SetsHolding(sets[..|sets| - 1], token) + if token in sets[|sets| - 1] then 1 else 0
  }

  method CountTokens(sets: seq<seq<nat>>, tokenCount: nat) returns (frequency: array<nat>)
    requires TokenSets(sets, tokenCount)
    ensures fresh(frequency) && frequency.Length == tokenCount
    ensures forall t :: 0 <= t < tokenCount ==> frequency[t] == SetsHolding(sets, t)
  {
    frequency := new nat[tokenCount](_ => 0);
    for i := 0 to |sets|
      invariant forall t :: 0 <= t < tokenCount ==> frequency[t] == SetsHolding(sets[..i], t)
    {
      ghost var before := frequency[..];
      for j := 0 to |sets[i]|
        invariant forall t :: 0 <= t < tokenCount ==>
                                frequency[t] == before[t] + if t in sets[i][..j] then 1 else 0
      {
        var token := sets[i][j];
        assert sets[i][..j + 1] == sets[i][..j] + [token];
        assert token !in sets[i][..j];
        frequency[token] := frequency[token] + 1;
      }
      assert sets[i][..|sets[i]|] == sets[i];
      assert sets[..i + 1][..i] == sets[..i];
    }
    assert sets[..|sets|] == sets;
  }

  /** `after` is `before` with `slot` listed under every token of `prefix`. */
  ghost predicate Listed(before: seq<seq<nat>>, after: seq<seq<nat>>, prefix: seq<nat>, slot: nat) {
    && |before| == |after|
    && forall t, k :: 0 <= t < |after| ==> (k in after[t] <==> k in before[t] || (k == slot && t in prefix))
  }

  method AddPostings(postings: array<seq<nat>>, prefix: seq<nat>, slot: nat)
    requires InRange(prefix, postings.Length)
    modifies postings
    ensures Listed(old(postings[..]), postings[..], prefix, slot)
  {
    for p := 0 to |prefix|
      invariant Listed(old(postings[..]), postings[..], prefix[..p], slot)
    {
      assert prefix[..p + 1] == prefix[..p] + [prefix[p]];
      postings[prefix[p]] := postings[prefix[p]] + [slot];
    }
    assert prefix[..|prefix|] == prefix;
  }

  /** The index answers exactly what the pairwise scan answers. */
  method FilteredSlots(sets: seq<seq<nat>>, tokenCount: nat, threshold: real)
    returns (slots: seq<Option<nat>>)
    requires threshold > 0.0 && |sets| < U32_LIMIT
    requires TokenSets(sets, tokenCount)
    ensures slots == SlotsOf(sets, threshold)
  {
    hide ScanOf, FirstMatch, Prefix, Near, Indexed;
    var counts := CountTokens(sets, tokenCount);
    var frequency := counts[..];
    ghost var prefixes := Prefixes(sets, frequency, threshold);
    var postings := new seq<nat>[tokenCount](_ => []);
    var survivors: seq<nat> := [];
    var visited: seq<nat> := [];
    slots := [];
    ScanStart(sets, threshold, prefixes, postings[..]);
    for i := 0 to |sets|
      invariant Scan(survivors, slots) == ScanOf(sets, threshold, i)
      invariant Indexed(prefixes, survivors, postings[..])
      invariant |visited| == |survivors| && Stale(visited, i)
    {
      ghost var lists := postings[..];
      if sets[i] == [] {
        EmptyMatchesNothing(sets, survivors, threshold);
        ScanStep(sets, threshold, i);
        SurvivorIndexed(prefixes, survivors, lists, lists, i);
        survivors, visited, slots := survivors + [i], visited + [NEVER], slots + [None];
        continue;
      }
      var prefix := Prefix(frequency, sets[i], threshold);
      var first;
      first, visited := ProbeSet(sets, frequency, threshold, survivors, postings, prefix, i, visited);
      ScanStep(sets, threshold, i);
      if first.None? {
        AddPostings(postings, prefix, TruncateU32(|survivors|));
        SurvivorIndexed(prefixes, survivors, lists, postings[..], i);
        survivors, visited := survivors + [i], visited + [NEVER];
      }
      slots := slots + [first];
    }
  }

  lemma ScanStart(sets: seq<seq<nat>>, threshold: real, prefixes: seq<seq<nat>>, postings: seq<seq<nat>>)
    requires forall t :: 0 <= t < |postings| ==> postings[t] == []
    ensures ScanOf(sets, threshold, 0) == Scan([], []) && Indexed(prefixes, [], postings)
  {
  }

  /** The first survivor set `i` duplicates, found through the index. */
  method ProbeSet(sets: seq<seq<nat>>, frequency: seq<nat>, threshold: real, survivors: seq<nat>,
                  postings: array<seq<nat>>, prefix: seq<nat>, i: nat, before: seq<nat>)
    returns (first: Option<nat>, visited: seq<nat>)
    requires threshold > 0.0 && i < |sets| < U32_LIMIT && sets[i] != []
    requires TokenSets(sets, |frequency|) && Indices(survivors, |sets|) && postings.Length == |frequency|
    requires Indexed(Prefixes(sets, frequency, threshold), survivors, postings[..])
    requires prefix == Prefixes(sets, frequency, threshold)[i] && InRange(prefix, |frequency|)
    requires |before| == |survivors| && Stale(before, i)
    ensures first == FirstMatch(sets, survivors, sets[i], threshold, 0)
    ensures |visited| == |survivors| && Stale(visited, i + 1)
  {
    first, visited := Probe(sets, survivors, postings, prefix, sets[i], i, before, threshold);
    forall slot | slot in Matches(sets, survivors, sets[i], threshold)
      ensures slot in Listing(postings[..], prefix)
    {
      var p := ProbeReachesMatch(sets, frequency, threshold, survivors, postings[..], i, slot);
    }
    SmallestIsFirst(sets, survivors, sets[i], threshold, first);
  }

  /** A smallest match is the first match of the scan. */
  lemma SmallestIsFirst(sets: seq<seq<nat>>, survivors: seq<nat>, tokens: seq<nat>, threshold: real, first: Option<nat>)
    requires Indices(survivors, |sets|)
    requires var matches := Matches(sets, survivors, tokens, threshold); Smallest(first, matches, matches)
    ensures first == FirstMatch(sets, survivors, tokens, threshold, 0)
  {
    var matches := Matches(sets, survivors, tokens, threshold);
    var scanned := FirstMatch(sets, survivors, tokens, threshold, 0);
    assert scanned.Some? ==> scanned.value in matches;
    assert first.Some? ==> first.value in matches;
  }

  /** No survivor carries the mark of set `i` or a later one. */
  ghost predicate Stale(visited: seq<nat>, i: nat) {
    forall k :: 0 <= k < |visited| ==> visited[k] < i || visited[k] == NEVER
  }

  lemma EmptyMatchesNothing(sets: seq<seq<nat>>, survivors: seq<nat>, threshold: real)
    requires threshold > 0.0 && Indices(survivors, |sets|)
    ensures FirstMatch(sets, survivors, [], threshold, 0) == None
  {
    var slot := FirstMatch(sets, survivors, [], threshold, 0);
    if slot.Some? {
      NearSharesFraction(Elems(sets[survivors[slot.value]]), Elems([]), threshold);
    }
  }

  /** Listing a new survivor under its prefix keeps the index exact. */
  lemma SurvivorIndexed(prefixes: seq<seq<nat>>, survivors: seq<nat>,
                        before: seq<seq<nat>>, after: seq<seq<nat>>, i: nat)
    requires Indices(survivors, |prefixes|) && i < |prefixes|
    requires Indexed(prefixes, survivors, before)
    requires Listed(before, after, prefixes[i], |survivors|)
    ensures Indexed(prefixes, survivors + [i], after)
  {
    forall t, q | 0 <= t < |after| && 0 <= q < |after[t]|
      ensures after[t][q] < |survivors| + 1
    {
      assert after[t][q] in after[t];
    }
    forall slot, t | 0 <= slot <= |survivors| && 0 <= t < |after|
      ensures slot in after[t] <==> t in prefixes[(survivors + [i])[slot]]
    {
      assert |survivors| !in before[t];
    }
  }
}
