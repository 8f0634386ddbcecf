/** Who is shown which position of a chain, told from its accepted governance records and their modes. */
module RecordedAudience {
  import opened Access
  import opened PolicyReplay
  import Audience

  /** `accepted[k]` is the last of these records before position `p`. */
  ghost predicate LastRecord(accepted: seq<Thought>, k: nat, p: nat) {
    && k < |accepted| && accepted[k].index < p
    && forall j :: k < j < |accepted| ==> p <= accepted[j].index
  }

  ghost predicate HoldsRecord(accepted: seq<Thought>, p: nat) {
    exists k :: 0 <= k < |accepted| && accepted[k].index == p
  }

  /** The last record before `p` asks for signatures. */
  ghost predicate Closed(accepted: seq<Thought>, p: nat)
    requires forall k :: 0 <= k < |accepted| ==> accepted[k].record.Some?
  {
    exists k: nat :: LastRecord(accepted, k, p) &&
                     (accepted[k].record.value.mode == Signed || accepted[k].record.value.mode == Allowlist)
  }

  lemma CommitsTell(accepted: seq<Thought>, p: nat)
    requires forall k :: 0 <= k < |accepted| ==> accepted[k].record.Some?
    ensures Audience.PrivateByHistory(Commits(accepted), p) <==> HoldsRecord(accepted, p) || Closed(accepted, p)
  {
    var commits := Commits(accepted);
    assert forall k: nat :: Audience.LastBefore(commits, k, p) <==> LastRecord(accepted, k, p);
    assert Audience.IsRecord(commits, p) <==> HoldsRecord(accepted, p) by {
      if k :| 0 <= k < |accepted| && accepted[k].index == p {
        assert commits[k].index == p;
      }
    }
    if Closed(accepted, p) {
      var k: nat :| LastRecord(accepted, k, p) && accepted[k].record.value.mode != Open;
      assert commits[k].kind == Audience.SegmentKind.Private && Audience.LastBefore(commits, k, p);
    }
  }

  /** A position is private exactly when it holds an accepted record, or the last accepted record before it
      asks for signatures; every other one is public. */
  lemma PrivateIff(c: Crypto, thoughts: seq<Thought>, p: nat)
    requires Positioned(thoughts)
    ensures Replay(c, thoughts).segments.KindAt(p) ==
            if HoldsRecord(Accepted(c, thoughts), p) || Closed(Accepted(c, thoughts), p) then
                Audience.SegmentKind.Private
            else Audience.SegmentKind.Public
  {
    ReplayedKinds(c, thoughts, p);
    CommitsTell(Accepted(c, thoughts), p);
    hide *;
  }

  /** Whom a replayed chain shows a position: nobody when it failed verification, otherwise everybody when it is
      public, and authorized readers in any case. */
  lemma ShownIff(c: Crypto, thoughts: seq<Thought>, quarantine: seq<nat>, p: nat)
    requires Positioned(thoughts)
    ensures var segments := Replay(c, thoughts).segments.SetQuarantine(quarantine);
            && (segments.IsVisible(p, Audience.Authorized) <==> p !in quarantine)
            && (segments.IsVisible(p, Audience.Audience.Public) <==>
               p !in quarantine && !HoldsRecord(Accepted(c, thoughts), p) && !Closed(Accepted(c, thoughts), p))
  {
    SegmentsAreMapOf(c, thoughts);
    CommitsInOrder(c, thoughts);
    CommitsTell(Accepted(c, thoughts), p);
    hide *;
    Audience.VisibleByHistory(Commits(Accepted(c, thoughts)), quarantine, p);
  }

  /** An accepted open record shows everybody what comes after it, up to the next accepted record. */
  lemma OpenRecordShows(c: Crypto, thoughts: seq<Thought>, quarantine: seq<nat>, k: nat, p: nat)
    requires Positioned(thoughts)
    requires LastRecord(Accepted(c, thoughts), k, p) && !HoldsRecord(Accepted(c, thoughts), p)
    requires Accepted(c, thoughts)[k].record.value.mode == Open
    ensures Replay(c, thoughts).segments.SetQuarantine(quarantine).IsVisible(p, Audience.Audience.Public) <==>
            p !in quarantine
  {
    var accepted := Accepted(c, thoughts);
    ShownIff(c, thoughts, quarantine, p);
    assert forall j: nat :: LastRecord(accepted, j, p) ==> j == k;
    hide Accepted, Replay, Audience.Segments.IsVisible;
  }
}
