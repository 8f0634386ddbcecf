/** A segment map built from any list of segments. */
module SegmentList {
  import opened Wrappers
  import opened Audience

  /** A stable sort: a segment goes after those that start where it does. */
  function Insert(sorted: seq<Segment>, segment: Segment): seq<Segment> {
    if sorted == [] || sorted[|sorted| - 1].start <= segment.start then sorted + [segment]
    else Insert(sorted[..|sorted| - 1], segment) + [sorted[|sorted| - 1]]
  }

  function SortByStart(segments: seq<Segment>): seq<Segment> {
    if segments == [] then [] else Insert(SortByStart(segments[..|segments| - 1]), segments[|segments| - 1])
  }

  function Reversed(segments: seq<Segment>): (r: seq<Segment>)
    ensures |r| == |segments|
  {
    if segments == [] then [] else [segments[|segments| - 1]] + Reversed(segments[..|segments| - 1])
  }

  lemma {:induction false} ReversedAt(segments: seq<Segment>, k: nat)
    requires k < |segments|
    ensures Reversed(segments)[k] == segments[|segments| - 1 - k]
  {
    if k > 0 {
      ReversedAt(segments[..|segments| - 1], k - 1);
    }
  }

  /** The first segment of every run that starts at the same place. */
  function Dedup(segments: seq<Segment>): seq<Segment>
    decreases |segments|
  {
    if |segments| < 2 then segments
    else if segments[0].start == segments[1].start then Dedup([segments[0]] + segments[2..])
    else [segments[0]] + Dedup(segments[1..])
  }

  function FromSegments(segments: seq<Segment>): Segments {
    Segments(Reversed(Dedup(Reversed(SortByStart(segments)))), [], [], false)
  }

  /** The segment a position falls in: of those that start at or before it, the one that starts last,
      and the last listed of several. */
  function Governing(segments: seq<Segment>, p: nat): Option<Segment> {
    if segments == [] then None
    else
      var before, last := Governing(segments[..|segments| - 1], p), segments[|segments| - 1];
      if last.start <= p && (before.None? || before.value.start <= last.start) then Some(last) else before
  }

  /** The last segment of a list that starts at or before `p`. */
  function LastAt(segments: seq<Segment>, p: nat): Option<Segment> {
    if segments == [] then None
    else if segments[|segments| - 1].start <= p then Some(segments[|segments| - 1])
    else LastAt(segments[..|segments| - 1], p)
  }

  function FirstAt(segments: seq<Segment>, p: nat): Option<Segment> {
    if segments == [] then None else if segments[0].start <= p then Some(segments[0]) else FirstAt(segments[1..], p)
  }

  ghost predicate Ascending(segments: seq<Segment>) {
    forall j, k :: 0 <= j < k < |segments| ==> segments[j].start <= segments[k].start
  }

  ghost predicate Descending(segments: seq<Segment>) {
    forall j, k :: 0 <= j < k < |segments| ==> segments[j].start >= segments[k].start
  }

  ghost predicate Falling(segments: seq<Segment>) {
    forall j, k :: 0 <= j < k < |segments| ==> segments[j].start > segments[k].start
  }

  lemma {:induction false} InsertAscends(sorted: seq<Segment>, segment: Segment)
    requires Ascending(sorted)
    ensures Ascending(Insert(sorted, segment))
    ensures forall s :: s in Insert(sorted, segment) ==> s in sorted || s == segment
  {
    if sorted != [] && sorted[|sorted| - 1].start > segment.start {
      var front, last := sorted[..|sorted| - 1], sorted[|sorted| - 1];
      InsertAscends(front, segment);
      forall k | 0 <= k < |Insert(front, segment)|
        ensures Insert(front, segment)[k].start <= last.start
      {
        assert Insert(front, segment)[k] in Insert(front, segment);
      }
    }
  }

  lemma {:induction false} InsertLastAt(sorted: seq<Segment>, segment: Segment, p: nat)
    requires Ascending(sorted)
    ensures var before := LastAt(sorted, p);
            LastAt(Insert(sorted, segment), p) ==
            if segment.start <= p && (before.None? || before.value.start <= segment.start) then Some(segment)
                else before
  {
    if sorted == [] || sorted[|sorted| - 1].start <= segment.start {
      assert (sorted + [segment])[..|sorted|] == sorted;
      LastAtIn(sorted, p);
    } else {
      var front, last := sorted[..|sorted| - 1], sorted[|sorted| - 1];
      InsertLastAt(front, segment, p);
      assert (Insert(front, segment) + [last])[..|Insert(front, segment)|] == Insert(front, segment);
    }
  }

  lemma {:induction false} LastAtIn(segments: seq<Segment>, p: nat)
    ensures LastAt(segments, p).Some? ==> LastAt(segments, p).value in segments
  {
    if segments != [] {
      LastAtIn(segments[..|segments| - 1], p);
    }
  }

  lemma {:induction false} SortGoverns(segments: seq<Segment>, p: nat)
    ensures Ascending(SortByStart(segments)) && LastAt(SortByStart(segments), p) == Governing(segments, p)
  {
    if segments != [] {
      var front, last := segments[..|segments| - 1], segments[|segments| - 1];
      SortGoverns(front, p);
      InsertAscends(SortByStart(front), last);
      InsertLastAt(SortByStart(front), last, p);
    }
  }

  lemma {:induction false} ReversedFirstAt(segments: seq<Segment>, p: nat)
    ensures FirstAt(Reversed(segments), p) == LastAt(segments, p)
  {
    if segments != [] {
      ReversedFirstAt(segments[..|segments| - 1], p);
    }
  }

  lemma {:induction false} DedupFalls(segments: seq<Segment>, p: nat)
    requires Descending(segments)
    ensures Falling(Dedup(segments)) && FirstAt(Dedup(segments), p) == FirstAt(segments, p)
    ensures (segments == [] <==> Dedup(segments) == []) && (segments != [] ==> Dedup(segments)[0] == segments[0])
    decreases |segments|
  {
    if |segments| >= 2 {
      if segments[0].start == segments[1].start {
        var shorter := [segments[0]] + segments[2..];
        DedupFalls(shorter, p);
        assert shorter[1..] == segments[2..] && segments[1..][1..] == segments[2..];
      } else {
        DedupFalls(segments[1..], p);
      }
    }
  }

  lemma {:induction false} FirstAtIs(segments: seq<Segment>, p: nat) returns (n: nat)
    ensures n <= |segments| && (n > 0 ==> p < segments[n - 1].start)
    ensures FirstAt(segments, p) == if n < |segments| then Some(segments[n]) else None
    ensures n < |segments| ==> segments[n].start <= p
  {
    if segments == [] || segments[0].start <= p {
      n := 0;
    } else {
      var m := FirstAtIs(segments[1..], p);
      n := m + 1;
    }
  }

  /** The first `n` segments in falling order start after `p`, and the next one does not. */
  lemma PartitionOfReversed(falling: seq<Segment>, p: nat, n: nat)
    requires Falling(falling) && n <= |falling|
    requires n > 0 ==> p < falling[n - 1].start
    requires n < |falling| ==> falling[n].start <= p
    ensures PartitionPoint(Reversed(falling), p, 0, |falling|) == |falling| - n
    ensures n < |falling| ==> Reversed(falling)[|falling| - n - 1] == falling[n]
  {
    RisesReversed(falling);
    hide Falling, Reversed, PartitionPoint;
    if n > 0 {
      ReversedAt(falling, |falling| - n);
    }
    if n < |falling| {
      ReversedAt(falling, |falling| - n - 1);
    }
  }

  /** The kind of a position, from the segments in falling order. */
  lemma FallingGoverns(falling: seq<Segment>, p: nat)
    requires Falling(falling)
    ensures Segments(Reversed(falling), [], [], false).KindAt(p) ==
            match FirstAt(falling, p) case None => SegmentKind.Public case Some(s) => s.kind
  {
    var n := FirstAtIs(falling, p);
    hide FirstAt, PartitionPoint, Falling, Reversed;
    PartitionOfReversed(falling, p, n);
  }

  lemma RisesReversed(falling: seq<Segment>)
    requires Falling(falling)
    ensures var rising := Reversed(falling); forall j, k :: 0 <= j < k < |rising| ==> rising[j].start < rising[k].start
  {
    forall j, k | 0 <= j < k < |falling|
      ensures Reversed(falling)[j].start < Reversed(falling)[k].start
    {
      ReversedAt(falling, j);
      ReversedAt(falling, k);
    }
  }

  /** A map built from any list of segments, in any order and with repeated starts, is sorted and
      gives every position the kind of the segment it falls in. */
  lemma FromSegmentsGoverns(segments: seq<Segment>, p: nat)
    ensures var held := FromSegments(segments);
            && held.Sorted()
            && held.KindAt(p) == match Governing(segments, p) case None => SegmentKind.Public case Some(s) => s.kind
  {
    SortGoverns(segments, p);
    DescendsReversed(SortByStart(segments));
    hide SortByStart, Dedup, FirstAt, LastAt, Governing, Segments.KindAt, Falling, Ascending, Descending;
    ReversedFirstAt(SortByStart(segments), p);
    DedupFalls(Reversed(SortByStart(segments)), p);
    RisesReversed(Dedup(Reversed(SortByStart(segments))));
    FallingGoverns(Dedup(Reversed(SortByStart(segments))), p);
  }

  lemma DescendsReversed(segments: seq<Segment>)
    requires Ascending(segments)
    ensures Descending(Reversed(segments))
  {
    forall j, k | 0 <= j < k < |segments|
      ensures Reversed(segments)[j].start >= Reversed(segments)[k].start
    {
      ReversedAt(segments, j);
      ReversedAt(segments, k);
    }
  }
}
