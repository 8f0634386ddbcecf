/** On a chain whose policy is not open, nothing that is appended shows to a public reader. */
module GovernedPrivacy {
  import Audience
  import Access
  import PolicyReplay
  import opened VersionView
  import opened ChainGrowth
  import opened LiveSuccessor
  import opened Redirect
  import opened Privacy

  /** The segments a chain has when its governance thoughts are `history` and opening it found `quarantine`
      unverified. */
  function SegmentsOf(c: Access.Crypto, history: seq<Access.Thought>, quarantine: seq<nat>): Audience.Segments {
    PolicyReplay.Replay(c, history).segments.SetQuarantine(quarantine)
  }

  /** Every thought is at its position. */
  ghost predicate Placed(history: seq<Access.Thought>) {
    forall k :: 0 <= k < |history| ==> history[k].index == k
  }

  /** A governed chain: `history` is what governance sees of its thoughts. */
  ghost predicate Governed(c: Access.Crypto, history: seq<Access.Thought>, quarantine: seq<nat>, chain: Chain) {
    chain.Valid() && Placed(history) && |history| == |chain.ctx.thoughts| &&
      chain.segments == SegmentsOf(c, history, quarantine)
  }

  /** One append, as governance and as the link indexes see it. */
  datatype Both = Both(governed: Access.Thought, appended: Appended)

  /** A run of appends to a governed chain, each made while the policy in force is not open. */
  ghost predicate ClosedRun(c: Access.Crypto, history: seq<Access.Thought>, quarantine: seq<nat>, chain: Chain,
                            run: seq<Both>)
    decreases |run|
  {
    && Governed(c, history, quarantine, chain)
    && (run != [] ==>
          var next := run[0];
          var after := history + [next.governed];
          && next.governed.index == |history| && Fresh(chain, next.appended.thought)
          && next.appended.segments == SegmentsOf(c, after, quarantine)
          && PolicyReplay.Replay(c, history).mode != Access.Open
          && ClosedRun(c, after, quarantine,
                       Append(chain, next.appended.thought, next.appended.segments, next.appended.trusted), run[1..]))
  }

  function Appends(run: seq<Both>): (appends: seq<Appended>)
    ensures |appends| == |run|
  {
    if run == [] then [] else [run[0].appended] + Appends(run[1..])
  }

  lemma PlacedIsPositioned(history: seq<Access.Thought>)
    requires Placed(history)
    ensures PolicyReplay.Positioned(history)
  {
  }

  /** The accepted records of a chain under a policy that is not open end with one that is private. */
  lemma LastIsPrivate(c: Access.Crypto, history: seq<Access.Thought>)
    requires PolicyReplay.Replay(c, history).mode != Access.Open
    ensures var accepted := PolicyReplay.Accepted(c, history);
            && accepted != []
            && PolicyReplay.CommitOf(accepted[|accepted| - 1]).kind == Audience.SegmentKind.Private
  {
    PolicyReplay.ReplayIsSummary(c, history);
    hide PolicyReplay.Replay, PolicyReplay.Accepted, PolicyReplay.Linked, PolicyReplay.RejectedHashes, Audience.MapOf;
  }

  /** The position of a new thought is private by the history rule. */
  lemma NextIsPrivate(c: Access.Crypto, history: seq<Access.Thought>, next: Access.Thought)
    requires Placed(history) && next.index == |history| && PolicyReplay.Replay(c, history).mode != Access.Open
    ensures Audience.PrivateByHistory(PolicyReplay.Commits(PolicyReplay.Accepted(c, history + [next])), |history|)
  {
    LastIsPrivate(c, history);
    PlacedIsPositioned(history);
    PolicyReplay.AcceptedInOrder(c, history);
    var all, accepted := history + [next], PolicyReplay.Accepted(c, history);
    assert all[..|history|] == history && all[|history|] == next;
    hide PolicyReplay.Replay, PolicyReplay.Accepts;
    if PolicyReplay.Accepts(c, history, next) {
      assert PolicyReplay.Accepted(c, all) == accepted + [next];
      hide PolicyReplay.Accepted;
      assert PolicyReplay.Commits(accepted + [next])[|accepted|].index == |history|;
    } else {
      assert PolicyReplay.Accepted(c, all) == accepted;
      hide PolicyReplay.Accepted;
      var last := |accepted| - 1;
      assert accepted[last] in history;
      assert Audience.LastBefore(PolicyReplay.Commits(accepted), last, |history|);
    }
  }

  lemma ReplayIsUnlocked(c: Access.Crypto, history: seq<Access.Thought>)
    requires PolicyReplay.Positioned(history)
    ensures !PolicyReplay.Replay(c, history).segments.locked
  {
    PolicyReplay.SegmentsAreMapOf(c, history);
    PolicyReplay.CommitsInOrder(c, history);
    Audience.MapIsBelow(PolicyReplay.Commits(PolicyReplay.Accepted(c, history)));
  }

  /** One append under a policy that is not open is out of a public reader's sight. */
  lemma ClosedAppendIsHidden(c: Access.Crypto, history: seq<Access.Thought>, next: Access.Thought, quarantine: seq<nat>)
    requires Placed(history) && next.index == |history| && PolicyReplay.Replay(c, history).mode != Access.Open
    ensures HiddenAt(SegmentsOf(c, history, quarantine), SegmentsOf(c, history + [next], quarantine), |history|)
  {
    var all := history + [next];
    PlacedIsPositioned(history);
    PlacedIsPositioned(all);
    NextIsPrivate(c, history, next);
    PolicyReplay.ReplayedKinds(c, all, |history|);
    ReplayIsUnlocked(c, history);
    ReplayIsUnlocked(c, all);
    hide *;
    forall p: nat | p < |history|
      ensures PolicyReplay.Replay(c, all).segments.KindAt(p) == PolicyReplay.Replay(c, history).segments.KindAt(p)
    {
      PolicyReplay.AppendKeepsKinds(c, history, [next], p);
    }
    HiddenByKinds(PolicyReplay.Replay(c, history).segments, PolicyReplay.Replay(c, all).segments, quarantine,
      |history|);
  }

  lemma HiddenByKinds(before: Audience.Segments, after: Audience.Segments, quarantine: seq<nat>, n: nat)
    requires !before.locked && !after.locked && after.KindAt(n) == Audience.SegmentKind.Private
    requires forall p: nat :: p < n ==> after.KindAt(p) == before.KindAt(p)
    ensures HiddenAt(before.SetQuarantine(quarantine), after.SetQuarantine(quarantine), n)
  {
    hide Audience.BinarySearch, Audience.PartitionPoint;
    assert forall p :: after.SetQuarantine(quarantine).KindAt(p) == after.KindAt(p);
    assert forall p :: before.SetQuarantine(quarantine).KindAt(p) == before.KindAt(p);
    hide Audience.Segments.KindAt;
  }

  lemma {:induction false} ClosedRunIsHidden(c: Access.Crypto, history: seq<Access.Thought>, quarantine: seq<nat>,
                                             chain: Chain, run: seq<Both>)
    requires ClosedRun(c, history, quarantine, chain, run)
    ensures AllHidden(chain, Appends(run))
    decreases |run|
  {
    hide Append, SegmentsOf, HiddenAt, PolicyReplay.Replay, Chain.Valid, Placed;
    if run != [] {
      var next := run[0];
      ClosedAppendIsHidden(c, history, next.governed, quarantine);
      ClosedRunIsHidden(c, history + [next.governed], quarantine,
                        Append(chain, next.appended.thought, next.appended.segments, next.appended.trusted), run[1..]);
      assert Appends(run)[0] == next.appended && Appends(run)[1..] == Appends(run[1..]);
    }
  }

  /** However many thoughts, governance records among them, are appended while the policy in force is not
      open, a public reader is told the same of every thought and gets the same redirected hits. */
  lemma ClosedChainTellsNothing(c: Access.Crypto, history: seq<Access.Thought>, quarantine: seq<nat>, v: View,
                                run: seq<Both>,
                                raw: seq<Hit>, allowed: Allowed, id: nat)
    requires v.audience == Audience.Audience.Public && ClosedRun(c, history, quarantine, v.chain, run)
    ensures AllHidden(v.chain, Appends(run))
    ensures var w := v.(chain := Grown(v.chain, Appends(run)));
            && w.chain.ctx.Valid()
            && w.Status(id) == v.Status(id)
            && LiveSuccessorOf(w, id) == LiveSuccessorOf(v, id) && LiveContester(w, id) == LiveContester(v, id)
            && Redirected(w, raw, allowed) == Redirected(v, raw, allowed)
  {
    ClosedRunIsHidden(c, history, quarantine, v.chain, run);
    hide *;
    HiddenAppendsChangeNothing(v, Appends(run), raw, allowed, id);
  }
}
