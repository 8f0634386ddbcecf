/** How a chain and everything derived from it grow by one appended thought. */
module ChainGrowth {
  import opened Audience
  import opened LineageIndex
  import opened VersionView

  /** The thought is stored first, then both link indexes observe it. The segments and the trusted
      positions are those the chain has afterwards. */
  function Append(c: Chain, t: Thought, segments: Segments, trusted: set<nat>): Chain
    requires c.Valid()
  {
    var ctx := Context(c.ctx.thoughts + [t], c.ctx.idToIndex[t.id := |c.ctx.thoughts|]);
    Chain(ctx, Observe(c.byTarget, t, ctx), ObserveInvalidating(c.invalidating, t, |t.relations|), segments, trusted)
  }

  /** One appended thought, with the segments and trusted positions the chain has afterwards. */
  datatype Appended = Appended(thought: Thought, segments: Segments, trusted: set<nat>)

  const EMPTY_CHAIN := Chain(Context([], map[]), map[], map[], NO_SEGMENTS, {})

  /** The next thought has an id of its own and the next position. */
  predicate Fresh(c: Chain, t: Thought) {
    t.index == |c.ctx.thoughts| && forall k :: 0 <= k < |c.ctx.thoughts| ==> c.ctx.thoughts[k].id != t.id
  }

  /** Appending adds to the edges into each target at most one: the appended thought's own. */
  lemma AppendEdges(c: Chain, t: Thought, segments: Segments, trusted: set<nat>, target: nat)
    requires c.Valid() && Fresh(c, t)
    ensures var after := Append(c, t, segments, trusted);
            && after.ctx.Valid()
            && EdgesOf(after.byTarget, target) == EdgesOf(c.byTarget, target) + Contribution(t, after.ctx, target)
  {
    hide Observe, ObserveInvalidating, Contribution;
    forall k | 0 <= k < |EdgesOf(c.byTarget, target)|
      ensures EdgesOf(c.byTarget, target)[k].sourceId != t.id
    {
      assert EdgesOf(c.byTarget, target)[k] in c.byTarget[target];
    }
    ObserveAdds(c.byTarget, t, Append(c, t, segments, trusted).ctx, target);
  }

  lemma AppendKeepsValid(c: Chain, t: Thought, segments: Segments, trusted: set<nat>)
    requires c.Valid() && Fresh(c, t)
    ensures var after := Append(c, t, segments, trusted);
            after.Valid() && after.ctx.thoughts == c.ctx.thoughts + [t] && after.segments == segments
  {
    var after := Append(c, t, segments, trusted);
    hide Observe, ObserveInvalidating, Contribution;
    forall target, e | target in after.byTarget && e in after.byTarget[target]
      ensures e.sourceIndex < |after.ctx.thoughts| && IsSource(after.ctx.thoughts[e.sourceIndex], e) &&
              e.sourceId != target
    {
      AppendEdges(c, t, segments, trusted, target);
      assert e in EdgesOf(after.byTarget, target);
      ContributionSource(t, after.ctx, target);
      if e in EdgesOf(c.byTarget, target) {
        assert e in c.byTarget[target];
      }
    }
    forall target, e | target in after.invalidating && e in after.invalidating[target]
      ensures e.sourceIndex < |after.ctx.thoughts|
    {
      AppendInvalidatingEdges(c, t, segments, trusted, target);
      InvalidatingLinksSource(t, |t.relations|, target);
      assert e in after.InvalidatingEdges(target);
      if e in c.InvalidatingEdges(target) {
        assert e in c.invalidating[target];
      }
    }
  }

  lemma {:induction false} InvalidatingLinksSource(t: Thought, n: nat, target: nat)
    requires n <= |t.relations|
    ensures forall e :: e in InvalidatingLinks(t, n, target) ==> e.sourceIndex == t.index
  {
    if n > 0 {
      InvalidatingLinksSource(t, n - 1, target);
    }
  }

  lemma AppendKnows(c: Chain, t: Thought, segments: Segments, trusted: set<nat>)
    requires c.Valid() && Fresh(c, t)
    ensures var after := Append(c, t, segments, trusted);
            after.ctx.Valid() && after.ctx.idToIndex == c.ctx.idToIndex[t.id := t.index]
  {
    hide Observe, ObserveInvalidating;
  }

  lemma ContributionSource(t: Thought, ctx: Context, target: nat)
    requires ctx.Valid()
    ensures forall e :: e in Contribution(t, ctx, target) ==> IsSource(t, e) && e.sourceId != target
  {
  }

  /** The invalidating links into `target` among the first `n` relations of `t`. */
  function InvalidatingLinks(t: Thought, n: nat, target: nat): seq<InvalidatingEdge>
    requires n <= |t.relations|
  {
    if n == 0 then []
    else
      var relation := t.relations[n - 1];
      InvalidatingLinks(t, n - 1, target) +
      if IsInvalidating(relation.kind) && relation.target == target
      then [InvalidatingEdge(t.index, t.timestamp, relation.validAt, relation.invalidAt)] else []
  }

  function LinksInto(edges: InvalidatingMap, target: nat): seq<InvalidatingEdge> {
    if target in edges then edges[target] else []
  }

  lemma {:induction false} ObserveInvalidatingAdds(edges: InvalidatingMap, t: Thought, n: nat, target: nat)
    requires n <= |t.relations|
    ensures LinksInto(ObserveInvalidating(edges, t, n), target) ==
            LinksInto(edges, target) + InvalidatingLinks(t, n, target)
  {
    if n > 0 {
      ObserveInvalidatingAdds(edges, t, n - 1, target);
      var relation, before := t.relations[n - 1], ObserveInvalidating(edges, t, n - 1);
      var last := InvalidatingEdge(t.index, t.timestamp, relation.validAt, relation.invalidAt);
      if IsInvalidating(relation.kind) {
        assert ObserveInvalidating(edges, t, n) ==
               before[relation.target := LinksInto(before, relation.target) + [last]];
        assert relation.target == target ==>
               LinksInto(ObserveInvalidating(edges, t, n), target) == LinksInto(before, target) + [last];
      } else {
        assert ObserveInvalidating(edges, t, n) == before;
      }
    }
  }

  lemma AppendInvalidatingEdges(c: Chain, t: Thought, segments: Segments, trusted: set<nat>, target: nat)
    requires c.Valid()
    ensures Append(c, t, segments, trusted).InvalidatingEdges(target) ==
            c.InvalidatingEdges(target) + InvalidatingLinks(t, |t.relations|, target)
  {
    hide Observe, ObserveInvalidating, InvalidatingLinks;
    ObserveInvalidatingAdds(c.invalidating, t, |t.relations|, target);
  }
}
