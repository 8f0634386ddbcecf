/** Strictly increasing lists of numbers. */
module SortedLists {

  predicate Increasing(s: seq<nat>) {
    forall j, k :: 0 <= j < k < |s| ==> s[j] < s[k]
  }

  /** Insert into an increasing list, dropping a repeated number. */
  function InsertUnique(x: nat, s: seq<nat>): (r: seq<nat>)
    ensures forall y :: y in r <==> y == x || y in s
  {
    if s == [] then [x]
    else if x < s[0] then [x] + s
    else if x == s[0] then s
    else [s[0]] + InsertUnique(x, s[1..])
  }

  function SortDedup(s: seq<nat>): (r: seq<nat>)
    ensures forall y :: y in r <==> y in s
  {
    if s == [] then [] else InsertUnique(s[0], SortDedup(s[1..]))
  }

  lemma {:induction false} InsertUniqueIncreasing(x: nat, s: seq<nat>)
    requires Increasing(s)
    ensures Increasing(InsertUnique(x, s))
  {
    if s != [] && s[0] < x {
      var rest := InsertUnique(x, s[1..]);
      InsertUniqueIncreasing(x, s[1..]);
      forall k | 0 <= k < |rest|
        ensures s[0] < rest[k]
      {
        assert rest[k] in rest;
      }
    }
  }

  lemma {:induction false} SortDedupIncreasing(s: seq<nat>)
    ensures Increasing(SortDedup(s))
  {
    if s != [] {
      SortDedupIncreasing(s[1..]);
      InsertUniqueIncreasing(s[0], SortDedup(s[1..]));
    }
  }
}
