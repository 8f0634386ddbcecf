/** The rarest-first token order of the prefix filter, and why two near-duplicates
    always share a token of their prefixes. */
module RareFirst {
  import opened Similarity
  import opened SortedLists

  /** Whether `x` is rarer than `y`, with the token id breaking ties. */
  predicate Before(frequency: seq<nat>, x: nat, y: nat)
    requires x < |frequency| && y < |frequency|
  {
    frequency[x] < frequency[y] || (frequency[x] == frequency[y] && x < y)
  }

  predicate InRange(s: seq<nat>, bound: nat) {
    forall i :: 0 <= i < |s| ==> s[i] < bound
  }

  ghost predicate Ordered(frequency: seq<nat>, s: seq<nat>) {
    && InRange(s, |frequency|)
    && forall i, j :: 0 <= i < j < |s| ==> Before(frequency, s[i], s[j])
  }

  function Insert(frequency: seq<nat>, token: nat, s: seq<nat>): (r: seq<nat>)
    requires token < |frequency| && InRange(s, |frequency|)
    ensures InRange(r, |frequency|) && |r| == |s| + 1
  {
    if s == [] then [token]
    else if Before(frequency, token, s[0]) then [token] + s
    else [s[0]] + Insert(frequency, token, s[1..])
  }

  /** A token set sorted rarest first. */
  function Sort(frequency: seq<nat>, s: seq<nat>): (r: seq<nat>)
    requires InRange(s, |frequency|)
    ensures InRange(r, |frequency|) && |r| == |s|
  {
    if s == [] then [] else Insert(frequency, s[0], Sort(frequency, s[1..]))
  }

  lemma ElemsCons(x: nat, s: seq<nat>)
    ensures Elems([x] + s) == {x} + Elems(s)
  {
  }

  lemma {:induction false} InsertKeepsElems(frequency: seq<nat>, token: nat, s: seq<nat>)
    requires token < |frequency| && InRange(s, |frequency|)
    ensures Elems(Insert(frequency, token, s)) == Elems(s) + {token}
  {
    if s == [] {
    } else if Before(frequency, token, s[0]) {
      ElemsCons(token, s);
    } else {
      InsertKeepsElems(frequency, token, s[1..]);
      ElemsCons(s[0], s[1..]);
      ElemsCons(s[0], Insert(frequency, token, s[1..]));
      assert s == [s[0]] + s[1..];
    }
  }

  lemma {:induction false} InsertOrdered(frequency: seq<nat>, token: nat, s: seq<nat>)
    requires token < |frequency| && Ordered(frequency, s) && token !in s
    ensures Ordered(frequency, Insert(frequency, token, s))
  {
    if s == [] || Before(frequency, token, s[0]) {
    } else {
      var rest := Insert(frequency, token, s[1..]);
      InsertOrdered(frequency, token, s[1..]);
      InsertKeepsElems(frequency, token, s[1..]);
      forall k | 0 <= k < |rest|
        ensures Before(frequency, s[0], rest[k])
      {
        assert rest[k] in Elems(rest);
      }
    }
  }

  /** Sorting permutes an increasing token list into the rarest-first order. */
  lemma {:induction false} SortOrders(frequency: seq<nat>, s: seq<nat>)
    requires InRange(s, |frequency|) && Increasing(s)
    ensures Ordered(frequency, Sort(frequency, s))
    ensures Elems(Sort(frequency, s)) == Elems(s)
  {
    if s == [] {
    } else {
      var rest := Sort(frequency, s[1..]);
      SortOrders(frequency, s[1..]);
      assert s == [s[0]] + s[1..];
      ElemsCons(s[0], s[1..]);
      assert s[0] !in Elems(rest);
      InsertOrdered(frequency, s[0], rest);
      InsertKeepsElems(frequency, s[0], rest);
    }
  }

  /** The smallest integer that is not below `x`. */
  function Ceil(x: real): (c: int)
    ensures (c - 1) as real < x <= c as real
  {
    -((-x).Floor)
  }

  /** Fewest tokens a set of size `n` shares with any set it reaches `threshold` with,
      rounded down by a hundredth of a token. */
  function MinOverlap(n: nat, threshold: real): (k: nat)
    ensures k <= n && (n > 0 ==> k > 0)
  {
    var needed := Ceil(threshold * n as real - 0.01);
    var floor := if needed > 1 then needed else 1;
    if floor < n then floor else n
  }

  /** The rounding never asks for more tokens than a near-duplicate shares. */
  lemma MinOverlapIsShared(n: nat, threshold: real, shared: nat)
    requires shared > 0 && shared as real >= threshold * n as real
    ensures MinOverlap(n, threshold) <= shared
  {
  }

  /** The tokens a non-empty set is indexed and probed by. */
  function Prefix(frequency: seq<nat>, s: seq<nat>, threshold: real): (r: seq<nat>)
    requires s != [] && InRange(s, |frequency|)
    ensures InRange(r, |frequency|)
  {
    Sort(frequency, s)[..|s| - MinOverlap(|s|, threshold) + 1]
  }

  /** Tokens that occur only from position `from` on are at most `|s| - from` many. */
  lemma TailSize(s: seq<nat>, from: nat, common: set<nat>)
    requires from <= |s|
    requires forall x :: x in common ==> exists k :: from <= k < |s| && s[k] == x
    ensures |common| <= |s| - from
  {
    assert forall x :: x in common ==> x in s[from..];
    SubsetSize(common, Elems(s[from..]));
    ElemsSize(s[from..]);
  }

  /** The first position of `s` that holds a token of `common`. */
  lemma FirstCommon(s: seq<nat>, common: set<nat>) returns (i: nat)
    requires common != {} && common <= Elems(s)
    ensures i < |s| && s[i] in common
    ensures forall k :: 0 <= k < i ==> s[k] !in common
  {
    if s[0] in common {
      i := 0;
    } else {
      assert forall x :: x in common ==> x in s[1..];
      var rest := FirstCommon(s[1..], common);
      i := rest + 1;
    }
  }

  /** Two lists in one strict order that share enough tokens share one within the
      part of each that leaves fewer tokens than are shared. */
  lemma OrderedPrefixesMeet(frequency: seq<nat>, a: seq<nat>, b: seq<nat>, p: nat, q: nat) returns (x: nat)
    requires Ordered(frequency, a) && Ordered(frequency, b)
    requires Elems(a) * Elems(b) != {}
    requires p <= |a| && |a| - |Elems(a) * Elems(b)| < p
    requires q <= |b| && |b| - |Elems(a) * Elems(b)| < q
    ensures x in a[..p] && x in b[..q]
  {
    var common := Elems(a) * Elems(b);
    var i := FirstCommon(a, common);
    var j := FirstCommon(b, common);
    TailSize(a, i, common);
    TailSize(b, j, common);
    x := a[i];
    assert a[..p][i] == x && b[..q][j] == x;
  }

  /** A near-duplicate shares at least the minimal overlap of either set. */
  lemma NearOverlap(a: seq<nat>, b: seq<nat>, threshold: real)
    requires Increasing(a) && Increasing(b)
    requires threshold > 0.0 && Jaccard(Elems(a), Elems(b)) >= threshold
    ensures Elems(a) * Elems(b) != {}
    ensures MinOverlap(|a|, threshold) <= |Elems(a) * Elems(b)|
    ensures MinOverlap(|b|, threshold) <= |Elems(a) * Elems(b)|
  {
    hide MinOverlap;
    var shared := |Elems(a) * Elems(b)|;
    NearSharesFraction(Elems(a), Elems(b), threshold);
    ElemsSize(a);
    ElemsSize(b);
    MinOverlapIsShared(|a|, threshold, shared);
    MinOverlapIsShared(|b|, threshold, shared);
  }

  /** Prefix filtering loses nothing: two non-empty sets that reach the threshold
      share a token of both prefixes. */
  lemma NearPrefixesMeet(frequency: seq<nat>, a: seq<nat>, b: seq<nat>, threshold: real) returns (x: nat)
    requires a != [] && InRange(a, |frequency|) && Increasing(a)
    requires b != [] && InRange(b, |frequency|) && Increasing(b)
    requires threshold > 0.0 && Jaccard(Elems(a), Elems(b)) >= threshold
    ensures x in Prefix(frequency, a, threshold) && x in Prefix(frequency, b, threshold)
  {
    hide Jaccard, Increasing, Ordered, Sort, MinOverlap, Elems;
    NearOverlap(a, b, threshold);
    SortOrders(frequency, a);
    SortOrders(frequency, b);
    x := OrderedPrefixesMeet(frequency, Sort(frequency, a), Sort(frequency, b),
                             |a| - MinOverlap(|a|, threshold) + 1,
                             |b| - MinOverlap(|b|, threshold) + 1);
  }
}
