/** Jaccard similarity of token sets, the measure behind both near-duplicate
    detectors (ranked-hit collapsing and the recall audit). */
module Similarity {

  /** One normalized token of a thought's text. */
  datatype Token = Token(text: string)

  /** The tokens of a token list. */
  function Elems<T(==)>(s: seq<T>): set<T> {
    set x | x in s
  }

  ghost predicate Distinct<T>(s: seq<T>) {
    forall i, j :: 0 <= i < j < |s| ==> s[i] != s[j]
  }

  /** Shared tokens over all tokens; two empty sets share nothing. */
  function Jaccard<T(==)>(a: set<T>, b: set<T>): real {
    if |a + b| == 0 then 0.0 else |a * b| as real / |a + b| as real
  }

  lemma ElemsSize<T>(s: seq<T>)
    ensures |Elems(s)| <= |s|
    ensures Distinct(s) ==> |Elems(s)| == |s|
  {
    if s != [] {
      var front, last := s[..|s| - 1], s[|s| - 1];
      ElemsSize(front);
      assert Elems(s) == Elems(front) + {last};
      assert Distinct(s) ==> last !in front;
    }
  }

  lemma SubsetSize<T>(a: set<T>, b: set<T>)
    requires a <= b
    ensures |a| <= |b|
  {
    assert b == a + (b - a);
  }

  lemma UnionSize<T>(a: set<T>, b: set<T>)
    ensures |a + b| == |a| + |b| - |a * b|
    ensures |a * b| <= |a| <= |a + b|
    ensures |a * b| <= |b| <= |a + b|
  {
    assert a + b == a + (b - a);
    assert b == (b - a) + a * b;
    assert a == (a - b) + a * b;
  }

  /** Similarity from the sizes of two sets and of what they share. */
  lemma JaccardOfSizes<T>(a: set<T>, b: set<T>)
    ensures |a| == 0 || |b| == 0 ==> Jaccard(a, b) == 0.0
    ensures |a| > 0 && |b| > 0 ==>
              && |a| + |b| - |a * b| > 0
              && Jaccard(a, b) == |a * b| as real / (|a| + |b| - |a * b|) as real
  {
    UnionSize(a, b);
  }

  /** Comparing a quotient with a bound is comparing the numerator with the scaled bound. */
  lemma QuotientAtLeast(x: real, y: real, t: real)
    requires y > 0.0
    ensures x / y >= t <==> x >= t * y
  {
    var q := x / y;
    assert q * y == x;
    if q >= t {
      assert (q - t) * y >= 0.0;
    } else {
      assert (t - q) * y > 0.0;
    }
  }

  lemma ScaleMonotone(t: real, x: real, y: real)
    requires t >= 0.0 && x <= y
    ensures t * x <= t * y
  {
    assert t * (y - x) >= 0.0;
  }

  /** Two sets that reach a positive threshold share at least `threshold` of either one. */
  lemma NearSharesFraction<T>(a: set<T>, b: set<T>, threshold: real)
    requires threshold > 0.0 && Jaccard(a, b) >= threshold
    ensures a * b != {}
    ensures |a * b| as real >= threshold * |a| as real
    ensures |a * b| as real >= threshold * |b| as real
  {
    UnionSize(a, b);
    var inter, union := |a * b| as real, |a + b| as real;
    QuotientAtLeast(inter, union, threshold);
    assert threshold * union > 0.0;
    ScaleMonotone(threshold, |a| as real, union);
    ScaleMonotone(threshold, |b| as real, union);
  }

  /** The size ratio bounds the similarity from above, so a pair whose sizes are
      too far apart can be skipped unseen. */
  lemma SizeRatioBounds<T>(a: set<T>, b: set<T>, small: nat, large: nat, threshold: real)
    requires large > 0 && threshold > 0.0
    requires (small == |a| && large == |b|) || (small == |b| && large == |a|)
    requires Jaccard(a, b) >= threshold
    ensures small as real / large as real >= threshold
  {
    NearSharesFraction(a, b, threshold);
    UnionSize(a, b);
    QuotientAtLeast(small as real, large as real, threshold);
  }
}
