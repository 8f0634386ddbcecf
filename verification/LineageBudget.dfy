/** How much of a supersession graph the bounded walk is sure to cover: 63 links to superseded thoughts, no more. */
module LineageBudget {
  import opened Wrappers
  import opened Audience
  import opened LineageIndex
  import opened VersionView
  import opened ChainGrowth
  import opened LiveSuccessor
  import DepthCheck

  /** The walk from `id` finds the newest live end when there is one, and nothing otherwise. */
  ghost predicate FindsNewest(v: View, id: nat)
    requires v.chain.ctx.Valid()
  {
    var found := LiveSuccessorOf(v, id);
    && (found.Some? ==> LiveEnd(v, id, found.value))
    && forall t :: LiveEnd(v, id, t) ==> found.Some? && !Newer(t, found.value)
  }

  /** Every walk that starts in a part of a chain with `links` links to superseded thoughts finds the newest live
      end. */
  ghost predicate Suffices(links: nat) {
    forall v: View, id: nat, part: set<nat> ::
      v.chain.ctx.Valid() && id in part && Closed(v, part) && LinkCount(v, part) == links ==> FindsNewest(v, id)
  }

  // ----- A chain the walk does not cover

  /** One thought replaced `n` times over, each replacement replaced once: thought `k` of `2n` replaces
      thought 0 up to `n`, and the replacements in reverse order after that. */
  function Replaces(n: nat, k: nat): nat
    requires k <= 2 * n
  {
    if k <= n then 0 else 2 * n + 1 - k
  }

  function FanThought(n: nat, k: nat): Thought
    requires k <= 2 * n
  {
    Thought(k, k, k, "agent", Decision, false,
            if k == 0 then [] else [Relation(RelationKind.Supersedes, Replaces(n, k), None, Some(k), None)], [])
  }

  /** `c` holds the first `m` thoughts. */
  ghost predicate HoldsFan(n: nat, m: nat, c: Chain)
    requires m <= 2 * n + 1
  {
    && c.Valid() && c.ctx.Valid() && c.segments == NO_SEGMENTS && |c.ctx.thoughts| == m
    && forall k :: 0 <= k < m ==>
       c.ctx.thoughts[k] == FanThought(n, k) && k in c.ctx.idToIndex && c.ctx.idToIndex[k] == k
  }

  lemma FanStep(n: nat, m: nat, c: Chain)
    requires 0 < m <= 2 * n + 1 && HoldsFan(n, m - 1, c)
    ensures Fresh(c, FanThought(n, m - 1)) && HoldsFan(n, m, Append(c, FanThought(n, m - 1), NO_SEGMENTS, {}))
  {
    hide Append, Replaces, Chain.Valid;
    AppendKeepsValid(c, FanThought(n, m - 1), NO_SEGMENTS, {});
    AppendKnows(c, FanThought(n, m - 1), NO_SEGMENTS, {});
  }

  /** The first `m` thoughts, appended one by one. */
  function FanChain(n: nat, m: nat): (c: Chain)
    requires m <= 2 * n + 1
    ensures HoldsFan(n, m, c)
  {
    hide Append, HoldsFan, FanThought;
    if m == 0 then EMPTY_CHAIN
    else
      var before := FanChain(n, m - 1);
      FanStep(n, m, before);
      assert before.Valid();
      Append(before, FanThought(n, m - 1), NO_SEGMENTS, {})
  }

  lemma FanGrows(n: nat, m: nat)
    requires 0 < m <= 2 * n + 1
    ensures var before, t := FanChain(n, m - 1), FanThought(n, m - 1);
            FanChain(n, m) == Append(before, t, NO_SEGMENTS, {}) && Fresh(before, t)
  {
    hide Append, HoldsFan, FanThought;
    FanStep(n, m, FanChain(n, m - 1));
  }

  function FanView(n: nat): View {
    View(FanChain(n, 2 * n + 1), 2 * n, None, Authorized)
  }

  function FanEdge(n: nat, k: nat): Edge
    requires k <= 2 * n
  {
    Edge(k, k, k, SuccessorKind.Supersedes, Some(k), None)
  }

  /** The edges the first `m` thoughts add to `target`. */
  function FanEdges(n: nat, m: nat, target: nat): seq<Edge>
    requires m <= 2 * n + 1
  {
    if m == 0 then []
    else FanEdges(n, m - 1, target) + if m > 1 && Replaces(n, m - 1) == target then [FanEdge(n, m - 1)] else []
  }

  /** The replacements of `target` among the first `m` thoughts. */
  function FanSources(n: nat, m: nat, target: nat): seq<Thought>
    requires m <= 2 * n + 1
  {
    if m == 0 then []
    else FanSources(n, m - 1, target) + if m > 1 && Replaces(n, m - 1) == target then [FanThought(n, m - 1)] else []
  }

  lemma FanLinksOf(n: nat, k: nat, ctx: Context)
    requires ctx.Valid() && k <= 2 * n
    requires k > 0 ==> ctx.ById(Replaces(n, k)).Some?
    ensures LinksOf(ctx, FanThought(n, k)) ==
            if k > 0 then [Link(Replaces(n, k), SuccessorKind.Supersedes, Some(k), None)] else []
  {
    var t := FanThought(n, k);
    assert RefLinks(ctx, t, t.refs) == [];
    if k > 0 {
      var last := t.relations[0];
      RelationLinksMore(ctx, t, [], last);
      assert [] + [last] == t.relations && RelationLinks(ctx, t, []) == [];
    }
  }

  lemma FanContribution(n: nat, k: nat, ctx: Context, target: nat)
    requires ctx.Valid() && k <= 2 * n
    requires k > 0 ==> ctx.ById(Replaces(n, k)).Some?
    ensures Contribution(FanThought(n, k), ctx, target) ==
            if k > 0 && Replaces(n, k) == target then [FanEdge(n, k)] else []
  {
    FanLinksOf(n, k, ctx);
    hide LinksOf, Context.Valid;
    var link := Link(Replaces(n, k), SuccessorKind.Supersedes, Some(k), None);
    assert [link][..0] == [];
    assert Best([link], target) == if target == Replaces(n, k) then Some(link) else None;
  }

  lemma {:induction false} FanEdgesAre(n: nat, m: nat, target: nat)
    requires m <= 2 * n + 1
    ensures EdgesOf(FanChain(n, m).byTarget, target) == FanEdges(n, m, target)
  {
    hide FanChain, Append, Contribution, Chain.Valid;
    if m == 0 {
      FanIsEmpty(n);
    } else {
      FanGrows(n, m);
      FanEdgesAre(n, m - 1, target);
      var before, t := FanChain(n, m - 1), FanThought(n, m - 1);
      AppendEdges(before, t, NO_SEGMENTS, {}, target);
      AppendedResolves(n, m);
      FanContribution(n, m - 1, FanChain(n, m).ctx, target);
    }
  }

  lemma FanIsEmpty(n: nat)
    ensures FanChain(n, 0) == EMPTY_CHAIN
  {
  }

  lemma AppendedResolves(n: nat, m: nat)
    requires 0 < m <= 2 * n + 1
    ensures m > 1 ==> FanChain(n, m).ctx.ById(Replaces(n, m - 1)).Some?
  {
    hide FanChain, Chain.Valid;
    if m > 1 {
      var k := Replaces(n, m - 1);
      assert FanChain(n, m).ctx.thoughts[k].id == k;
    }
  }

  lemma {:induction false} FanInvalidated(n: nat, m: nat, target: nat, k: nat)
    requires 0 < k < m <= 2 * n + 1 && Replaces(n, k) == target
    ensures InvalidatingEdge(k, k, Some(k), None) in FanChain(n, m).InvalidatingEdges(target)
  {
    hide FanChain, Append, Chain.Valid;
    FanGrows(n, m);
    var before, t := FanChain(n, m - 1), FanThought(n, m - 1);
    AppendInvalidatingEdges(before, t, NO_SEGMENTS, {}, target);
    FanLinks(n, m - 1, target);
    hide FanThought, HoldsFan, InvalidatingLinks, Chain.InvalidatingEdges;
    if k < m - 1 {
      FanInvalidated(n, m - 1, target, k);
    }
  }

  lemma FanLinks(n: nat, k: nat, target: nat)
    requires k <= 2 * n
    ensures var t := FanThought(n, k);
            InvalidatingLinks(t, |t.relations|, target) ==
            if k > 0 && Replaces(n, k) == target then [InvalidatingEdge(k, k, Some(k), None)] else []
  {
    if k > 0 {
      assert InvalidatingLinks(FanThought(n, k), 0, target) == [];
    }
  }

  lemma {:induction false} FanLive(n: nat, m: nat, target: nat)
    requires n < target && m <= 2 * n + 1
    ensures FanChain(n, m).InvalidatingEdges(target) == []
  {
    hide FanChain, Append, Chain.Valid;
    if m == 0 {
      FanIsEmpty(n);
    } else {
      FanGrows(n, m);
      var before, t := FanChain(n, m - 1), FanThought(n, m - 1);
      FanLive(n, m - 1, target);
      AppendInvalidatingEdges(before, t, NO_SEGMENTS, {}, target);
      FanLinks(n, m - 1, target);
    }
  }

  /** Exactly the first `n + 1` thoughts are superseded. */
  lemma FanSuperseded(n: nat, id: nat)
    requires n > 0
    ensures FanView(n).Invalidated(id) <==> id <= n
  {
    var v := FanView(n);
    hide FanChain, Chain.Valid;
    assert !v.chain.segments.HasPrivate();
    if id <= n {
      var k := if id == 0 then 1 else 2 * n + 1 - id;
      FanInvalidated(n, 2 * n + 1, id, k);
      var edges := v.chain.InvalidatingEdges(id);
      var j :| 0 <= j < |edges| && edges[j] == InvalidatingEdge(k, k, Some(k), None);
      assert v.chain.LinkAuthorized(k, id) && InForce(k, Some(k), None, 2 * n);
    } else {
      FanLive(n, 2 * n + 1, id);
    }
  }

  lemma {:induction false} FanSourcesAre(n: nat, m: nat, target: nat)
    requires m <= 2 * n + 1
    ensures FanView(n).Filter(FanEdges(n, m, target)) == FanEdges(n, m, target)
    ensures FanView(n).SourcesOf(FanEdges(n, m, target), target, true) == FanSources(n, m, target)
  {
    hide FanChain, Chain.Valid;
    var v := FanView(n);
    if m > 0 {
      FanSourcesAre(n, m - 1, target);
      if m > 1 && Replaces(n, m - 1) == target {
        var before := FanEdges(n, m - 1, target);
        assert (before + [FanEdge(n, m - 1)])[..|before|] == before;
      } else {
        assert FanEdges(n, m, target) == FanEdges(n, m - 1, target) &&
               FanSources(n, m, target) == FanSources(n, m - 1, target);
      }
    }
  }

  lemma {:induction false} FanSourcesFlat(n: nat, m: nat, target: nat)
    requires m <= 2 * n + 1
    ensures target == 0 && 0 < m <= n + 1 ==>
            FanSources(n, m, 0) == seq(m - 1, j requires 0 <= j < m - 1 => FanThought(n, j + 1))
    ensures target == 0 && m > n + 1 ==> FanSources(n, m, 0) == FanSources(n, n + 1, 0)
    ensures 0 < target <= n ==>
            FanSources(n, m, target) == if m > 2 * n + 1 - target then [FanThought(n, 2 * n + 1 - target)] else []
    ensures n < target ==> FanSources(n, m, target) == []
  {
    if m > 0 {
      FanSourcesFlat(n, m - 1, target);
    }
  }

  /** Thought 0 has `n` replacements, each of them one, and those none. */
  lemma FanReplacements(n: nat, k: nat)
    requires n > 0
    ensures FanView(n).Sources(k, true) ==
            if k == 0 then seq(n, j requires 0 <= j < n => FanThought(n, j + 1))
            else if k <= n then [FanThought(n, 2 * n + 1 - k)]
            else []
  {
    hide FanChain, Chain.Valid, FanSources, FanEdges, View.Filter, View.SourcesOf;
    FanEdgesAre(n, 2 * n + 1, k);
    FanSourcesAre(n, 2 * n + 1, k);
    FanSourcesFlat(n, 2 * n + 1, k);
    FanSourcesFlat(n, n + 1, 0);
  }

  function UpTo(n: nat): (s: set<nat>)
    ensures forall k: nat :: k in s <==> k <= n
  {
    if n == 0 then {0} else UpTo(n - 1) + {n}
  }

  /** The ids 1 to `n`: what expanding thought 0 pushes. */
  function Ids(n: nat): seq<nat> {
    seq(n, j requires 0 <= j < n => j + 1)
  }

  lemma {:induction false} FanPushed(n: nat, m: nat)
    requires m <= n && n > 0
    ensures Pushed(FanView(n), seq(m, j requires 0 <= j < m => FanThought(n, j + 1))) == Ids(m)
    ensures Improved(FanView(n), None, seq(m, j requires 0 <= j < m => FanThought(n, j + 1))) == None
  {
    hide FanChain, Chain.Valid, View.Invalidated;
    if m > 0 {
      FanPushed(n, m - 1);
      var sources := seq(m, j requires 0 <= j < m => FanThought(n, j + 1));
      assert sources[..m - 1] == seq(m - 1, j requires 0 <= j < m - 1 => FanThought(n, j + 1));
      FanSuperseded(n, m);
      assert Ids(m) == Ids(m - 1) + [m];
    }
  }

  /** Past the limit the rest of the stack is dropped. */
  lemma {:induction false} WalkDrops(v: View, frontier: seq<nat>, visited: set<nat>, depth: nat, best: Option<Thought>)
    requires v.chain.ctx.Valid() && depth >= MAX_LINEAGE_DEPTH
    ensures Walk(v, frontier, visited, depth, best) == best
    decreases |frontier|
  {
    if frontier != [] {
      WalkDrops(v, frontier[..|frontier| - 1], visited, depth + 1, best);
    }
  }

  lemma FanContext(n: nat)
    ensures FanView(n).chain.ctx.Valid()
  {
  }

  /** Expanding replacement `k` pushes nothing and finds its live replacement. */
  lemma FanExpand(n: nat, k: nat, best: Option<Thought>)
    requires 0 < k <= n && (best.Some? ==> best.value.timestamp < 2 * n + 1 - k)
    ensures var v := FanView(n);
            && Pushed(v, v.Sources(k, true)) == []
            && Improved(v, best, v.Sources(k, true)) == Some(FanThought(n, 2 * n + 1 - k))
  {
    FanContext(n);
    hide FanChain, HoldsFan, Context.Valid, View.Sources, View.Invalidated;
    FanReplacements(n, k);
    var next := FanThought(n, 2 * n + 1 - k);
    FanSuperseded(n, next.id);
    assert [next][..0] == [];
  }

  /** After `d` of the replacements are expanded, newest replacement first. */
  lemma {:induction false} FanWalk(n: nat, d: nat, visited: set<nat>)
    requires n >= MAX_LINEAGE_DEPTH && d < MAX_LINEAGE_DEPTH
    requires forall k :: k in visited ==> k == 0 || k > n - d
    ensures Walk(FanView(n), Ids(n - d), visited, d + 1, if d == 0 then None else Some(FanThought(n, n + d))) ==
            Some(FanThought(n, n + MAX_LINEAGE_DEPTH - 1))
    decreases MAX_LINEAGE_DEPTH - d
  {
    FanContext(n);
    hide FanChain, HoldsFan, Context.Valid, View.Sources, View.Invalidated, Pushed, Improved;
    var v, best := FanView(n), if d == 0 then None else Some(FanThought(n, n + d));
    if d == MAX_LINEAGE_DEPTH - 1 {
      WalkDrops(v, Ids(n - d), visited, d + 1, best);
    } else {
      var current := n - d;
      FanExpand(n, current, best);
      FanWalk(n, d + 1, visited + {current});
      assert Ids(current)[..current - 1] + Pushed(v, v.Sources(current, true)) == Ids(current - 1);
    }
  }

  lemma {:induction false} FanLinkCount(n: nat, part: set<nat>)
    requires n > 0 && 0 !in part && forall k :: k in part ==> k <= n
    ensures LinkCount(FanView(n), part) == 0
  {
    FanContext(n);
    hide FanChain, HoldsFan, Context.Valid, View.Sources, View.Invalidated;
    if part != {} {
      var u :| u in part;
      FanLinkCount(n, part - {u});
      FanExpand(n, u, None);
      LinkCountWith(FanView(n), part, u);
    }
  }

  /** With 64 links or more the walk can miss the newest live version. Thought 0 has `n` superseded
      replacements; the replacement of the one it would visit last is the newest, and the walk
      returns an older one. */
  lemma DepthLimitMissesNewest(n: nat)
    requires n >= 64
    ensures var v, part := FanView(n), UpTo(n);
            && v.chain.Valid() && 0 in part && Closed(v, part) && LinkCount(v, part) == n
            && LiveSuccessorOf(v, 0) == Some(FanThought(n, n + 63))
            && LiveEnd(v, 0, FanThought(n, 2 * n)) && Newer(FanThought(n, 2 * n), FanThought(n, n + 63))
  {
    FanLater(n);
    FanPart(n);
    hide FanChain, Chain.Valid, View.Sources, View.Invalidated, Closed, Pushed, Improved, LinkCount, Newer, LiveEnd,
         LiveSuccessorOf, FanThought, UpTo;
    FanClosed(n);
    FanWalkStarts(n);
    NewestIsLiveEnd(n);
  }

  lemma FanLater(n: nat)
    requires n >= 64
    ensures Newer(FanThought(n, 2 * n), FanThought(n, n + 63))
  {
  }

  lemma FanPart(n: nat)
    requires n > 0
    ensures var v, part := FanView(n), UpTo(n);
            v.chain.Valid() && v.chain.ctx.Valid() && 0 in part && LinkCount(v, part) == n
  {
    hide FanChain, Chain.Valid, View.Sources, View.Invalidated, Pushed, Improved, LinkCount;
    var v, part := FanView(n), UpTo(n);
    FanReplacements(n, 0);
    FanPushed(n, n);
    LinkCountWith(v, part, 0);
    FanLinkCount(n, part - {0});
  }

  lemma FanWalkStarts(n: nat)
    requires n >= MAX_LINEAGE_DEPTH
    ensures LiveSuccessorOf(FanView(n), 0) == Some(FanThought(n, n + MAX_LINEAGE_DEPTH - 1))
  {
    FanContext(n);
    hide FanChain, HoldsFan, Context.Valid, View.Sources, View.Invalidated, Pushed, Improved;
    var v := FanView(n);
    FanReplacements(n, 0);
    FanPushed(n, n);
    assert [0][..0] + Pushed(v, v.Sources(0, true)) == Ids(n);
    FanWalk(n, 0, {} + {0});
  }

  lemma FanClosed(n: nat)
    requires n > 0
    ensures Closed(FanView(n), UpTo(n))
  {
    FanContext(n);
    hide FanChain, HoldsFan, Context.Valid, FanThought, Improved, View.Sources, View.Invalidated, Pushed;
    FanReplacements(n, 0);
    FanPushed(n, n);
    forall u: nat | 0 < u <= n
      ensures Pushed(FanView(n), FanView(n).Sources(u, true)) == []
    {
      FanExpand(n, u, None);
    }
  }

  lemma NewestIsLiveEnd(n: nat)
    requires n > 0
    ensures LiveEnd(FanView(n), 0, FanThought(n, 2 * n))
  {
    FanContext(n);
    hide FanChain, HoldsFan, Context.Valid, View.Sources, View.Invalidated;
    var v := FanView(n);
    FanReplacements(n, 0);
    FanReplacements(n, 1);
    FanSuperseded(n, 1);
    FanSuperseded(n, 2 * n);
    ReachesSelf(v, 0);
    assert v.Sources(0, true)[0].id == 1;
    assert Replaced(v, 0, 1);
    ReachesNext(v, 0, 0, 1);
    assert v.Sources(1, true)[0] == FanThought(n, 2 * n);
  }

  /** A budget of links is enough on every chain exactly when it is below 64. */
  lemma BudgetIsExact(links: nat)
    ensures Suffices(links) <==> links < 64
  {
    if links < MAX_LINEAGE_DEPTH {
      hide LiveEnd, LiveSuccessorOf, Closed, LinkCount, Newer;
      forall v: View, id: nat, part: set<nat>
        | v.chain.ctx.Valid() && id in part && Closed(v, part) && LinkCount(v, part) == links
        ensures FindsNewest(v, id)
      {
        SuccessorIsNewest(v, id, part);
      }
    } else {
      hide LiveEnd, LiveSuccessorOf, Closed, LinkCount, Newer, FanChain;
      DepthLimitMissesNewest(links);
      assert !FindsNewest(FanView(links), 0);
    }
  }

  // ----- Such chains pass the check on appends

  lemma FanReplaced(n: nat, k: nat)
    requires k <= 2 * n
    ensures DepthCheck.Replaced(FanThought(n, k).relations) == if k == 0 then [] else [Replaces(n, k)]
  {
    var relations := FanThought(n, k).relations;
    assert DepthCheck.Replaced([]) == [];
    if k > 0 {
      assert relations[..0] == [];
    }
  }

  /** No chain of versions of the fan is longer than three. */
  lemma FanVersions(n: nat, m: nat, id: nat, path: seq<nat>)
    requires m <= 2 * n + 1 && id <= 2 * n && FanChain(n, m).ctx.Valid() &&
             DepthCheck.Versions(FanChain(n, m).ctx, path, id)
    ensures |path| <= if id == 0 then 1 else if id <= n then 2 else 3
    decreases |path|
  {
    hide FanChain, Context.Valid, Replaces;
    var ctx := FanChain(n, m).ctx;
    if |path| > 1 {
      DepthCheck.VersionsTail(ctx, path, id);
      FanFound(n, m, id);
      FanReplaced(n, id);
      FanBelow(n, id);
      FanVersions(n, m, path[1], path[1..]);
    }
  }

  lemma FanBelow(n: nat, k: nat)
    requires 0 < k <= 2 * n
    ensures if k <= n then Replaces(n, k) == 0 else 0 < Replaces(n, k) <= n
  {
  }

  lemma FanFound(n: nat, m: nat, id: nat)
    requires m <= 2 * n + 1 && id <= 2 * n && FanChain(n, m).ctx.Valid() && FanChain(n, m).ctx.ById(id).Some?
    ensures FanChain(n, m).ctx.ById(id).value == FanThought(n, id)
  {
    hide FanChain, FanThought, Chain.Valid;
    var ctx := FanChain(n, m).ctx;
    var k := ctx.idToIndex[id];
    assert ctx.thoughts[k] == FanThought(n, k);
  }

  /** Every append that builds a chain on which the walk misses the newest version passes the check. */
  lemma FanPassesCheck(n: nat, k: nat)
    requires k <= 2 * n
    ensures FanChain(n, k).ctx.Valid() && DepthCheck.Accepts(FanChain(n, k).ctx, FanThought(n, k).relations)
  {
    FanReplaced(n, k);
    if k > 0 {
      FanBelow(n, k);
      FanWithin(n, k, Replaces(n, k));
    }
    hide *;
    DepthCheck.AcceptsOne(FanChain(n, k).ctx, FanThought(n, k).relations, Replaces(n, k));
  }

  lemma FanWithin(n: nat, m: nat, id: nat)
    requires m <= 2 * n + 1 && id <= 2 * n && FanChain(n, m).ctx.Valid()
    ensures DepthCheck.Within(FanChain(n, m).ctx, id, MAX_LINEAGE_DEPTH - 1)
  {
    hide FanChain, Context.Valid, Replaces, DepthCheck.Versions;
    forall path | DepthCheck.Versions(FanChain(n, m).ctx, path, id)
      ensures |path| <= MAX_LINEAGE_DEPTH - 1
    {
      FanVersions(n, m, id, path);
    }
  }

}
