/** Which positions of a chain are private, told from its segments and records, and to whom each is shown. */
module Audience {
  import opened SortedLists

  datatype Audience = Authorized | Public

  datatype SegmentKind = Public | Private

  datatype Segment = Segment(start: nat, kind: SegmentKind, seqNo: nat)

  /** The segments of one chain: where each starts, which positions hold governance
      records, and which positions failed verification. */
  datatype Segments = Segments(segments: seq<Segment>, records: seq<nat>, quarantined: seq<nat>, locked: bool) {

    /** A record position is noted only when it lies after the last one. */
    function PushRecord(index: nat): Segments {
      if records == [] || records[|records| - 1] < index then this.(records := records + [index]) else this
    }

    /** A segment that starts where the last one does replaces it; an earlier one is ignored. */
    function Push(segment: Segment): Segments {
      if segments == [] then this.(segments := [segment])
      else
        var last := segments[|segments| - 1];
        if segment.start < last.start then this
        else if segment.start == last.start then this.(segments := segments[..|segments| - 1] + [segment])
        else this.(segments := segments + [segment])
    }

    function SetQuarantine(indices: seq<nat>): Segments {
      this.(quarantined := SortDedup(indices))
    }

    function Lock(): Segments {
      this.(locked := true)
    }

    predicate HasPrivate() {
      || locked || records != [] || quarantined != []
      || exists k :: 0 <= k < |segments| && segments[k].kind == SegmentKind.Private
    }

    function KindAt(index: nat): SegmentKind {
      if locked || BinarySearch(records, index, 0, |records|) then SegmentKind.Private
      else
        var n := PartitionPoint(segments, index, 0, |segments|);
        if n == 0 then SegmentKind.Public else segments[n - 1].kind
    }

    predicate IsVisible(index: nat, audience: Audience) {
      && !locked
      && !(quarantined != [] && BinarySearch(quarantined, index, 0, |quarantined|))
      && (audience == Authorized || KindAt(index) == SegmentKind.Public)
    }

    /** Everything the binary searches rely on. */
    ghost predicate Sorted() {
      && (forall j, k :: 0 <= j < k < |segments| ==> segments[j].start < segments[k].start)
      && Increasing(records) && Increasing(quarantined)
    }
  }

  const NO_SEGMENTS := Segments([], [], [], false)

  /** Whether `x` occurs in `s[lo..hi]`, by halving. */
  function BinarySearch(s: seq<nat>, x: nat, lo: nat, hi: nat): (found: bool)
    requires lo <= hi <= |s|
    ensures Increasing(s) ==> (found <==> x in s[lo..hi])
    decreases hi - lo
  {
    if lo == hi then false
    else
      var mid := (lo + hi) / 2;
      if s[mid] == x then true
      else if s[mid] < x then BinarySearch(s, x, mid + 1, hi)
      else BinarySearch(s, x, lo, mid)
  }

  /** How many segments start at or before `index`, by halving. */
  function PartitionPoint(s: seq<Segment>, index: nat, lo: nat, hi: nat): (n: nat)
    requires lo <= hi <= |s|
    ensures lo <= n <= hi
    ensures (forall j, k :: 0 <= j < k < |s| ==> s[j].start < s[k].start) ==>
              && (forall k :: lo <= k < n ==> s[k].start <= index)
              && (forall k :: n <= k < hi ==> index < s[k].start)
    decreases hi - lo
  {
    if lo == hi then lo
    else
      var mid := (lo + hi) / 2;
      if s[mid].start <= index then PartitionPoint(s, index, mid + 1, hi)
      else PartitionPoint(s, index, lo, mid)
  }

  // ----- The segment map as the chain keeps it

  class SegmentMap {
    var segments: seq<Segment>
    var records: seq<nat>
    var quarantined: seq<nat>
    var locked: bool

    ghost function Model(): Segments
      reads this
    {
      Segments(segments, records, quarantined, locked)
    }

    constructor ()
      ensures Model() == NO_SEGMENTS
    {
      segments, records, quarantined, locked := [], [], [], false;
    }

    method Lock()
      modifies `locked
      ensures Model() == old(Model()).Lock()
    {
      locked := true;
    }

    method PushRecord(index: nat)
      modifies `records
      ensures Model() == old(Model()).PushRecord(index)
      ensures old(Increasing(records)) ==>
                && Increasing(records)
                && forall x :: x in records <==>
                   x in old(records) || (x == index && forall y :: y in old(records) ==> y < index)
    {
      if records == [] || records[|records| - 1] < index {
        records := records + [index];
      }
      assert old(records) != [] ==> old(records)[|old(records)| - 1] in old(records);
    }

    method SetQuarantine(indices: seq<nat>)
      modifies `quarantined
      ensures Model() == old(Model()).(quarantined := quarantined)
      ensures Increasing(quarantined) && forall x :: x in quarantined <==> x in indices
      ensures forall p :: BinarySearch(quarantined, p, 0, |quarantined|) <==> p in indices
    {
      quarantined := SortDedup(indices);
      SortDedupIncreasing(indices);
      assert quarantined[..|quarantined|] == quarantined;
    }

    method Push(segment: Segment)
      modifies `segments
      ensures Model() == old(Model()).Push(segment)
    {
      if segments != [] {
        var last := segments[|segments| - 1];
        if segment.start < last.start {
          return;
        }
        if segment.start == last.start {
          segments := segments[..|segments| - 1];
        }
      }
      segments := segments + [segment];
    }
  }

  // ----- What the map says about a history of governance records

  /** A valid governance record: the position it was committed at and the kind of segment its mode opens. */
  datatype Commit = Commit(index: nat, kind: SegmentKind, seqNo: nat)

  /** The record is noted, and its segment starts at it when private, right after it when public. */
  function CommitTo(held: Segments, commit: Commit): Segments {
    var start := if commit.kind == SegmentKind.Private then commit.index else commit.index + 1;
    held.PushRecord(commit.index).Push(Segment(start, commit.kind, commit.seqNo))
  }

  function MapOf(commits: seq<Commit>): Segments {
    if commits == [] then NO_SEGMENTS
    else CommitTo(MapOf(commits[..|commits| - 1]), commits[|commits| - 1])
  }

  ghost predicate InOrder(commits: seq<Commit>) {
    forall j, k :: 0 <= j < k < |commits| ==> commits[j].index < commits[k].index
  }

  ghost predicate IsRecord(commits: seq<Commit>, p: nat) {
    exists k :: 0 <= k < |commits| && commits[k].index == p
  }

  /** `commits[k]` is the last record before position `p`. */
  ghost predicate LastBefore(commits: seq<Commit>, k: nat, p: nat) {
    && k < |commits| && commits[k].index < p
    && forall j :: k < j < |commits| ==> p <= commits[j].index
  }

  /** The plain history rule: a record is private, and any other position has the kind
      its last earlier record opened. */
  ghost predicate PrivateByHistory(commits: seq<Commit>, p: nat) {
    || IsRecord(commits, p)
    || exists k: nat :: LastBefore(commits, k, p) && commits[k].kind == SegmentKind.Private
  }

  /** A map all of whose segments and records lie before position `next`. */
  ghost predicate Below(held: Segments, next: nat) {
    && held.Sorted()
    && (forall k :: 0 <= k < |held.segments| ==> held.segments[k].start <= next)
    && (forall k :: 0 <= k < |held.records| ==> held.records[k] < next)
  }

  /** Pushing past every known start puts the segment last; one with the very same start gives way to it. */
  lemma PushAtEnd(held: Segments, segment: Segment)
    requires held.Sorted()
    requires forall k :: 0 <= k < |held.segments| ==> held.segments[k].start <= segment.start
    ensures var after := held.Push(segment);
            && after == held.(segments := after.segments) && after.Sorted()
            && |held.segments| <= |after.segments| <= |held.segments| + 1
            && after.segments != [] && after.segments[|after.segments| - 1] == segment
            && (forall k :: 0 <= k < |after.segments| - 1 ==>
               k < |held.segments| && after.segments[k] == held.segments[k])
            && (|after.segments| == |held.segments| ==> held.segments[|held.segments| - 1].start == segment.start)
  {
  }

  /** A commit adds one record at the end and one segment that takes effect there. */
  lemma CommitShape(held: Segments, commit: Commit)
    requires Below(held, commit.index)
    ensures var after := CommitTo(held, commit);
            && after == held.(records := held.records + [commit.index], segments := after.segments)
            && Below(after, commit.index + 1)
            && |held.segments| <= |after.segments| <= |held.segments| + 1
            && after.segments != []
            && after.segments[|after.segments| - 1].kind == commit.kind
            && commit.index <= after.segments[|after.segments| - 1].start
            && (forall k :: 0 <= k < |after.segments| - 1 ==>
               k < |held.segments| && after.segments[k] == held.segments[k])
            && (|after.segments| == |held.segments| ==> commit.index <= held.segments[|held.segments| - 1].start)
  {
    hide Segments.Push;
    var noted := held.PushRecord(commit.index);
    assert noted == held.(records := held.records + [commit.index]);
    assert Increasing(noted.records);
    hide Segments.PushRecord, Increasing;
    var start := if commit.kind == SegmentKind.Private then commit.index else commit.index + 1;
    PushAtEnd(noted, Segment(start, commit.kind, commit.seqNo));
  }

  /** Committing at `index` fixes every later position and changes the kind of no earlier one. */
  lemma CommitKindAt(held: Segments, commit: Commit, p: nat)
    requires Below(held, commit.index) && !held.locked
    ensures var after := CommitTo(held, commit);
            && Below(after, commit.index + 1) && !after.locked && after.quarantined == held.quarantined
            && (p < commit.index ==> after.KindAt(p) == held.KindAt(p))
            && (p == commit.index ==> after.KindAt(p) == SegmentKind.Private)
            && (p > commit.index ==> after.KindAt(p) == commit.kind)
  {
    CommitShape(held, commit);
    RecordNoted(held, commit, p);
    if p < commit.index {
      CommitKeepsKind(held, commit, p);
    } else if p > commit.index {
      CommitFixesKind(held, commit, p);
    }
    hide CommitTo, BinarySearch, PartitionPoint, Below;
  }

  lemma CommitKeepsKind(held: Segments, commit: Commit, p: nat)
    requires Below(held, commit.index) && !held.locked && p < commit.index
    ensures CommitTo(held, commit).KindAt(p) == held.KindAt(p)
  {
    hide CommitTo, BinarySearch, PartitionPoint;
    CommitShape(held, commit);
    RecordNoted(held, commit, p);
  }

  lemma CommitFixesKind(held: Segments, commit: Commit, p: nat)
    requires Below(held, commit.index) && !held.locked && p > commit.index
    ensures CommitTo(held, commit).KindAt(p) == commit.kind
  {
    hide CommitTo, BinarySearch, PartitionPoint;
    CommitShape(held, commit);
    RecordNoted(held, commit, p);
    var after := CommitTo(held, commit);
    assert !BinarySearch(held.records, p, 0, |held.records|);
  }

  lemma RecordNoted(held: Segments, commit: Commit, p: nat)
    requires Below(held, commit.index)
    ensures var after := CommitTo(held, commit);
            BinarySearch(after.records, p, 0, |after.records|) <==>
            p == commit.index || BinarySearch(held.records, p, 0, |held.records|)
  {
    CommitShape(held, commit);
    hide CommitTo, BinarySearch;
    var after := CommitTo(held, commit);
    assert after.records[..|after.records|] == held.records + [commit.index];
    assert held.records[..|held.records|] == held.records;
  }

  /** The first position after every record. */
  function EndOf(commits: seq<Commit>): nat {
    if commits == [] then 0 else commits[|commits| - 1].index + 1
  }

  lemma {:induction false} MapIsBelow(commits: seq<Commit>)
    requires InOrder(commits)
    ensures var held := MapOf(commits);
            Below(held, EndOf(commits)) && !held.locked && held.quarantined == []
  {
    if commits != [] {
      var before, last := commits[..|commits| - 1], commits[|commits| - 1];
      MapIsBelow(before);
      hide CommitTo, Below;
      BelowLater(MapOf(before), EndOf(before), last.index);
      CommitShape(MapOf(before), last);
    }
  }

  /** The map built from a history: binary search answers the plain history rule. */
  lemma {:induction false} KindFollowsHistory(commits: seq<Commit>, p: nat)
    requires InOrder(commits)
    ensures MapOf(commits).KindAt(p) == SegmentKind.Private <==> PrivateByHistory(commits, p)
  {
    hide CommitTo, BinarySearch, PartitionPoint, PrivateByHistory;
    if commits == [] {
      NoHistory(p);
    } else {
      hide Segments.KindAt, Below;
      var before, last := commits[..|commits| - 1], commits[|commits| - 1];
      KindFollowsHistory(before, p);
      MapIsBelow(before);
      BelowLater(MapOf(before), EndOf(before), last.index);
      CommitKindAt(MapOf(before), last, p);
      HistoryStep(before, last, p);
      assert commits == before + [last];
    }
  }

  lemma NoHistory(p: nat)
    ensures !PrivateByHistory([], p)
  {
  }

  lemma BelowLater(held: Segments, next: nat, later: nat)
    requires Below(held, next) && next <= later
    ensures Below(held, later)
  {
  }

  /** What one more record says by the history rule. */
  lemma HistoryStep(before: seq<Commit>, last: Commit, p: nat)
    requires InOrder(before + [last])
    ensures p < last.index ==> (PrivateByHistory(before + [last], p) <==> PrivateByHistory(before, p))
    ensures p == last.index ==> PrivateByHistory(before + [last], p)
    ensures p > last.index ==> (PrivateByHistory(before + [last], p) <==> last.kind == SegmentKind.Private)
  {
    var all, n := before + [last], |before|;
    assert all[n] == last && forall k :: 0 <= k < n ==> all[k] == before[k];
    assert IsRecord(all, p) <==> IsRecord(before, p) || last.index == p;
    if p < last.index {
      assert forall k: nat :: LastBefore(all, k, p) <==> LastBefore(before, k, p);
    } else if p > last.index {
      assert forall k: nat :: LastBefore(all, k, p) <==> k == n;
    }
  }

  /** Later records never change what earlier positions are. */
  lemma {:induction false} LaterCommitsKeepPast(commits: seq<Commit>, n: nat, p: nat)
    requires InOrder(commits) && n <= |commits|
    requires n < |commits| ==> p < commits[n].index
    ensures MapOf(commits).KindAt(p) == MapOf(commits[..n]).KindAt(p)
    decreases |commits|
  {
    hide CommitTo, PrivateByHistory, Segments.KindAt, Below;
    if n < |commits| {
      var before, last := commits[..|commits| - 1], commits[|commits| - 1];
      LaterCommitsKeepPast(before, n, p);
      assert before[..n] == commits[..n];
      MapIsBelow(before);
      BelowLater(MapOf(before), EndOf(before), last.index);
      CommitKindAt(MapOf(before), last, p);
    } else {
      assert commits[..n] == commits;
    }
  }

  /** An authorized reader is shown every position that passed verification, a public
      reader exactly the public ones among them; a locked chain shows nothing. */
  lemma VisibleByHistory(commits: seq<Commit>, quarantine: seq<nat>, p: nat)
    requires InOrder(commits)
    ensures var held := MapOf(commits).SetQuarantine(quarantine);
            && (held.IsVisible(p, Authorized) <==> p !in quarantine)
            && (held.IsVisible(p, Audience.Public) <==> p !in quarantine && !PrivateByHistory(commits, p))
            && !held.Lock().IsVisible(p, Authorized) && held.Lock().KindAt(p) == SegmentKind.Private
  {
    KindFollowsHistory(commits, p);
    MapIsBelow(commits);
    SortDedupIncreasing(quarantine);
  }
}
