/** Which sets of a ranked list repeat an earlier survivor, told by comparing every pair. */
module PairwiseScan {
  import opened Wrappers
  import opened Similarity
  import opened SortedLists

  predicate Near(a: seq<nat>, b: seq<nat>, threshold: real) {
    Jaccard(Elems(a), Elems(b)) >= threshold
  }

  predicate Indices(survivors: seq<nat>, bound: nat) {
    forall k :: 0 <= k < |survivors| ==> survivors[k] < bound
  }

  // ----- What the slots are

  /** The first survivor, from slot `from` on, that `set` is a near-duplicate of. */
  function FirstMatch(sets: seq<seq<nat>>, survivors: seq<nat>, tokens: seq<nat>, threshold: real, from: nat)
    : (slot: Option<nat>)
    requires Indices(survivors, |sets|) && from <= |survivors|
    ensures slot.Some? ==> from <= slot.value < |survivors| && Near(sets[survivors[slot.value]], tokens, threshold)
    ensures forall k :: from <= k < (if slot.Some? then slot.value else |survivors|) ==>
                          !Near(sets[survivors[k]], tokens, threshold)
    decreases |survivors| - from
  {
    if from == |survivors| then None
    else if Near(sets[survivors[from]], tokens, threshold) then Some(from)
    else FirstMatch(sets, survivors, tokens, threshold, from + 1)
  }

  datatype Scan = Scan(survivors: seq<nat>, slots: seq<Option<nat>>)

  /** Survivors and slots after the first `n` sets. */
  function ScanOf(sets: seq<seq<nat>>, threshold: real, n: nat): (scan: Scan)
    requires n <= |sets|
    ensures |scan.slots| == n && |scan.survivors| <= n && Indices(scan.survivors, n)
  {
    if n == 0 then Scan([], [])
    else
      var before := ScanOf(sets, threshold, n - 1);
      var slot := FirstMatch(sets, before.survivors, sets[n - 1], threshold, 0);
      Scan(if slot.None? then before.survivors + [n - 1] else before.survivors, before.slots + [slot])
  }

  /** One step of the scan: the next set survives when it matches no survivor. */
  lemma ScanStep(sets: seq<seq<nat>>, threshold: real, i: nat)
    requires i < |sets|
    ensures var before := ScanOf(sets, threshold, i);
            var slot := FirstMatch(sets, before.survivors, sets[i], threshold, 0);
            ScanOf(sets, threshold, i + 1) ==
            Scan(if slot.None? then before.survivors + [i] else before.survivors, before.slots + [slot])
  {
  }

  /** The slots of the whole scan. */
  function SlotsOf(sets: seq<seq<nat>>, threshold: real): (slots: seq<Option<nat>>)
    ensures |slots| == |sets|
  {
    ScanOf(sets, threshold, |sets|).slots
  }

  // ----- Set intersection by merging

  /** Tokens common to the first `i` of `a` and the first `j` of `b`. */
  ghost function Shared(a: seq<nat>, b: seq<nat>, i: nat, j: nat): set<nat>
    requires i <= |a| && j <= |b|
  {
    Elems(a[..i]) * Elems(b[..j])
  }

  /** Everything walked so far is below everything still to come in the other list. */
  ghost predicate Merging(a: seq<nat>, b: seq<nat>, i: nat, j: nat)
    requires i <= |a| && j <= |b|
  {
    && (i < |a| ==> forall k :: 0 <= k < j ==> b[k] < a[i])
    && (j < |b| ==> forall k :: 0 <= k < i ==> a[k] < b[j])
  }

  /** Jaccard similarity of two increasing token lists, by walking both at once. */
  method IdJaccard(a: seq<nat>, b: seq<nat>) returns (similarity: real)
    requires Increasing(a) && Increasing(b)
    ensures similarity == Jaccard(Elems(a), Elems(b))
  {
    JaccardOfLists(a, b);
    if a == [] || b == [] {
      return 0.0;
    }
    var inter := CountShared(a, b);
    similarity := inter as real / (|a| + |b| - inter) as real;
  }

  method CountShared(a: seq<nat>, b: seq<nat>) returns (inter: nat)
    requires Increasing(a) && Increasing(b)
    ensures inter == |Elems(a) * Elems(b)|
  {
    hide Elems;
    var i, j := 0, 0;
    inter := 0;
    assert |Shared(a, b, 0, 0)| == 0 by { SharedStart(a, b); }
    while i < |a| && j < |b|
      invariant 0 <= i <= |a| && 0 <= j <= |b|
      invariant inter == |Shared(a, b, i, j)|
      invariant Merging(a, b, i, j)
    {
      MergeStep(a, b, i, j);
      if a[i] < b[j] {
        i := i + 1;
      } else if a[i] > b[j] {
        j := j + 1;
      } else {
        inter := inter + 1;
        i, j := i + 1, j + 1;
      }
    }
    MergeEnd(a, b, i, j);
  }

  /** Jaccard similarity in terms of list lengths. */
  lemma JaccardOfLists(a: seq<nat>, b: seq<nat>)
    requires Increasing(a) && Increasing(b)
    ensures a == [] || b == [] ==> Jaccard(Elems(a), Elems(b)) == 0.0
    ensures var shared := |Elems(a) * Elems(b)|;
            a != [] && b != [] ==>
              && |a| + |b| - shared > 0
              && Jaccard(Elems(a), Elems(b)) == shared as real / (|a| + |b| - shared) as real
  {
    ElemsSize(a);
    ElemsSize(b);
    JaccardOfSizes(Elems(a), Elems(b));
  }

  /** What one step of the merge adds to the intersection of the parts already walked. */
  lemma MergeStep(a: seq<nat>, b: seq<nat>, i: nat, j: nat)
    requires Increasing(a) && Increasing(b) && i < |a| && j < |b| && Merging(a, b, i, j)
    ensures a[i] < b[j] ==> Shared(a, b, i + 1, j) == Shared(a, b, i, j)
    ensures a[i] > b[j] ==> Shared(a, b, i, j + 1) == Shared(a, b, i, j)
    ensures a[i] == b[j] ==> |Shared(a, b, i + 1, j + 1)| == |Shared(a, b, i, j)| + 1
  {
    assert a[i] !in Elems(b[..j]) && b[j] !in Elems(a[..i]);
    if a[i] == b[j] {
      assert Shared(a, b, i + 1, j + 1) == Shared(a, b, i, j) + {a[i]};
    }
  }

  lemma SharedStart(a: seq<nat>, b: seq<nat>)
    ensures Shared(a, b, 0, 0) == {}
  {
  }

  /** When either list is exhausted, the rest of the other shares nothing. */
  lemma MergeEnd(a: seq<nat>, b: seq<nat>, i: nat, j: nat)
    requires Increasing(a) && Increasing(b) && i <= |a| && j <= |b| && (i == |a| || j == |b|)
    requires Merging(a, b, i, j)
    ensures Shared(a, b, i, j) == Elems(a) * Elems(b)
  {
    forall x | x in Elems(a) * Elems(b)
      ensures x in a[..i] && x in b[..j]
    {
      var k :| 0 <= k < |a| && a[k] == x;
      var l :| 0 <= l < |b| && b[l] == x;
      assert k < i && l < j;
      assert a[..i][k] == x && b[..j][l] == x;
    }
  }

  // ----- The pairwise scan

  method NaiveSlots(sets: seq<seq<nat>>, threshold: real) returns (slots: seq<Option<nat>>)
    requires forall i :: 0 <= i < |sets| ==> Increasing(sets[i])
    ensures slots == SlotsOf(sets, threshold)
  {
    hide ScanOf, Elems, Jaccard, Increasing;
    var survivors: seq<nat> := [];
    slots := [];
    for i := 0 to |sets|
      invariant Scan(survivors, slots) == ScanOf(sets, threshold, i)
    {
      var slot: Option<nat> := None;
      var k := 0;
      while k < |survivors| && slot.None?
        invariant k <= |survivors|
        invariant FirstMatch(sets, survivors, sets[i], threshold, 0) ==
                  if slot.Some? then slot else FirstMatch(sets, survivors, sets[i], threshold, k)
        decreases |survivors| - k, slot.None?
      {
        var similarity := IdJaccard(sets[survivors[k]], sets[i]);
        if similarity >= threshold {
          slot := Some(k);
        } else {
          k := k + 1;
        }
      }
      ScanStep(sets, threshold, i);
      if slot.None? {
        survivors := survivors + [i];
      }
      slots := slots + [slot];
    }
  }
}
